/**
 Action rows and the frozen canonical hash (rootsign/hashing.py).

 SHA-256 is idealised: a digest is the value it was computed from, so equal
 digests come from equal inputs. `Junk` stands for any string that is not a
 digest of anything in the model, `Empty` for the empty string.
 */
module Hashing {
  import opened Common

  datatype Hash =
    | Empty
    | OfAction(canonical: CanonicalForm)
    | OfPayload(json: string)
    | Junk(n: nat)

  /** The eight canonical fields; the two optional ones are already coerced. */
  datatype CanonicalForm = CanonicalForm(
    actionId: Id,
    sessionId: Id,
    toolName: string,
    inputHash: Hash,
    outputHash: Hash,
    prevHash: Hash,
    timestamp: int,
    number: int)

  datatype AuthStatus = AutoAuthorized | HumanApproved | HumanRejected | Pending | Bypassed | TimedOut

  /** A stored action: canonical fields, the hash it carries, and the fields outside the hash. */
  datatype Row = Row(
    actionId: Id,
    sessionId: Id,
    toolName: string,
    inputHash: Hash,
    outputHash: Option<Hash>,
    prevHash: Option<Hash>,
    timestamp: int,
    number: int,
    selfHash: Hash,
    inputRedacted: Option<string>,
    outputRedacted: Option<string>,
    auth: AuthStatus)

  /** `value or ""`: a missing hash and the empty string are one canonical value. */
  function Coerce(h: Option<Hash>): Hash {
    if h.Some? then h.value else Empty
  }

  /** `value or None`. */
  function OrNone(h: Option<Hash>): Option<Hash> {
    if h == Some(Empty) then None else h
  }

  function CanonicalOf(r: Row): CanonicalForm {
    CanonicalForm(r.actionId, r.sessionId, r.toolName, r.inputHash,
                  Coerce(r.outputHash), Coerce(r.prevHash), r.timestamp, r.number)
  }

  /** `compute_action_self_hash`. */
  function SelfHash(r: Row): Hash {
    OfAction(CanonicalOf(r))
  }

  function PayloadHash(json: string): Hash {
    OfPayload(json)
  }

  /** A redacted payload, when stored at all, hashes to the field the chain protects. */
  predicate Bound(r: Row) {
    && (r.inputRedacted.Some? ==> PayloadHash(r.inputRedacted.value) == r.inputHash)
    && (r.outputRedacted.Some? ==> Some(PayloadHash(r.outputRedacted.value)) == r.outputHash)
  }

  /** `None` and `""` are the only values the canonical form identifies. */
  lemma CoercionLosesOnlyEmpty(a: Option<Hash>, b: Option<Hash>)
    ensures Coerce(a) == Coerce(b) <==> OrNone(a) == OrNone(b)
  {
  }
}
