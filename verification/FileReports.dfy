/**
 What the verifier reports of any file at all (rootsign/sdk/chain.py:153-185), line by
 line: unparsable lines, empty files, and which records are checked.
 */
module FileReports {
  import opened Common
  import opened Hashing
  import opened Verify
  import opened Spool
  import opened FileVerify

  /** How many of the first `n` lines hold anything. */
  function Written(lines: seq<FileLine>, n: nat): nat
    requires n <= |lines|
  {
    if n == 0 then 0 else Written(lines, n - 1) + if lines[n - 1].Blank? then 0 else 1
  }

  /** The first line that does not parse. */
  ghost predicate BreaksAt(lines: seq<FileLine>, i: nat) {
    i < |lines| && lines[i].Garbage? && forall k :: 0 <= k < i ==> !lines[k].Garbage?
  }

  lemma {:induction false} FirstBreak(lines: seq<FileLine>) returns (i: nat)
    requires exists k :: 0 <= k < |lines| && lines[k].Garbage?
    ensures BreaksAt(lines, i)
  {
    var front := lines[..|lines| - 1];
    if k :| 0 <= k < |front| && front[k].Garbage? {
      i := FirstBreak(front);
    } else {
      i := |front|;
    }
  }

  lemma {:induction false} WrittenPrefix(lines: seq<FileLine>, k: nat, n: nat)
    requires n <= k <= |lines|
    ensures Written(lines[..k], n) == Written(lines, n)
  {
    if n != 0 {
      WrittenPrefix(lines, k, n - 1);
    }
  }

  lemma {:induction false} NonBlankCounts(lines: seq<FileLine>)
    ensures |NonBlank(lines)| == Written(lines, |lines|)
  {
    if lines != [] {
      var front := lines[..|lines| - 1];
      NonBlankCounts(front);
      WrittenPrefix(lines, |front|, |front|);
    }
  }

  /** The first unparsable line, counted among the lines that hold anything. */
  lemma {:induction false} FirstGarbageCounts(lines: seq<FileLine>)
    ensures FirstGarbage(NonBlank(lines)).None? <==> forall i :: 0 <= i < |lines| ==> !lines[i].Garbage?
    ensures forall i: nat :: BreaksAt(lines, i) ==> FirstGarbage(NonBlank(lines)) == Some(Written(lines, i))
  {
    if lines != [] {
      var front, last := lines[..|lines| - 1], lines[|lines| - 1];
      FirstGarbageCounts(front);
      NonBlankCounts(front);
      var raw := NonBlank(lines);
      if !last.Blank? {
        assert raw[..|raw| - 1] == NonBlank(front);
      }
      forall i: nat | BreaksAt(lines, i) ensures FirstGarbage(raw) == Some(Written(lines, i)) {
        WrittenPrefix(lines, |front|, i);
        if i < |front| {
          assert BreaksAt(front, i);
        }
      }
    }
  }

  lemma {:induction false} WrittenAfter(lines: seq<FileLine>, i: nat, n: nat)
    requires i <= n <= |lines|
    ensures Written(lines, i) <= Written(lines, n)
    ensures Written(lines, i) == Written(lines, n) <==> forall k :: i <= k < n ==> lines[k].Blank?
  {
    if i < n {
      WrittenAfter(lines, i, n - 1);
    }
  }

  /**
   Some line does not parse if and only if the report is unreadable with a parse failure.
   Then the verdict is TAMPERED, the count is that of the lines before the first such one
   that hold anything, and it is called truncated if and only if nothing but blank lines
   follow it.
   */
  lemma UnreadableIff(lines: seq<FileLine>, i: nat)
    ensures (exists k :: 0 <= k < |lines| && lines[k].Garbage?) <==> VerifyFile(lines).Unreadable? && VerifyFile(lines).why != NoRecords
    ensures BreaksAt(lines, i) ==>
              && VerifyFile(lines).Unreadable? && VerdictOf(VerifyFile(lines)) == Some(Tampered)
              && VerifyFile(lines).recordCount == Written(lines, i)
              && VerifyFile(lines).why == if forall k :: i < k < |lines| ==> lines[k].Blank? then TruncatedLine
                                          else MalformedJson(Written(lines, i) + 1)
  {
    FirstGarbageCounts(lines);
    NonBlankCounts(lines);
    if BreaksAt(lines, i) {
      WrittenAfter(lines, i + 1, |lines|);
      assert lines[i] in NonBlank(lines);
    }
    if k :| 0 <= k < |lines| && lines[k].Garbage? {
      assert lines[k] in NonBlank(lines);
    }
  }

  /** A file in which nothing is written, and no other, has no records. */
  lemma EmptyIff(lines: seq<FileLine>)
    ensures VerifyFile(lines) == Unreadable(0, NoRecords) <==> forall k :: 0 <= k < |lines| ==> lines[k].Blank?
    ensures VerifyFile(lines).Unreadable? && VerifyFile(lines).why == NoRecords ==> VerifyFile(lines).recordCount == 0
  {
    var raw := NonBlank(lines);
    if raw != [] {
      assert raw[0] in raw;
      assert raw[0] in lines;
    }
    if k :| 0 <= k < |lines| && !lines[k].Blank? {
      assert lines[k] in raw;
    }
  }

  /** An action's line, or one of an old export that names no event type. */
  ghost predicate HoldsAction(l: FileLine) {
    l.Json? && (EventType in l.record ==> l.record[EventType] == Event(ActionEvent))
  }

  /** `at` lists, in order, the lines among the first `n` that hold an action. */
  ghost predicate ActionLines(lines: seq<FileLine>, n: nat, at: seq<int>) {
    Ascending(at) && forall i :: i in at <==> 0 <= i < n <= |lines| && HoldsAction(lines[i])
  }

  lemma {:induction false} RecordsAt(lines: seq<FileLine>) returns (at: seq<int>)
    ensures ActionLines(lines, |lines|, at) && |ActionRecords(NonBlank(lines))| == |at|
    ensures forall k :: 0 <= k < |at| ==> 0 <= at[k] < |lines| && lines[at[k]].Json? && ActionRecords(NonBlank(lines))[k] == lines[at[k]].record
  {
    if lines == [] {
      at := [];
    } else {
      var front, last := lines[..|lines| - 1], lines[|lines| - 1];
      at := RecordsAt(front);
      var raw := NonBlank(lines);
      if !last.Blank? {
        assert raw[..|raw| - 1] == NonBlank(front);
      }
      if HoldsAction(last) {
        forall k | 0 <= k < |at| ensures at[k] < |front| {
          assert at[k] in at;
        }
        at := at + [|front|];
      }
    }
  }

  /**
   Any other file is checked: the records of its actions, in file order, are sorted and
   walked if every one of them is numbered, and one without a number is an exception.
   */
  lemma CheckedFile(lines: seq<FileLine>) returns (at: seq<int>, checked: seq<Line>)
    requires (forall k :: 0 <= k < |lines| ==> !lines[k].Garbage?) && exists k :: 0 <= k < |lines| && !lines[k].Blank?
    ensures ActionLines(lines, |lines|, at) && forall k :: 0 <= k < |at| ==> 0 <= at[k] < |lines| && lines[at[k]].Json?
    ensures VerifyFile(lines).Raised? <==>
              exists k :: 0 <= k < |at| && !(SequenceNumber in lines[at[k]].record && lines[at[k]].record[SequenceNumber].Num?)
    ensures !VerifyFile(lines).Raised? ==>
              && VerifyFile(lines) == Checked(LocalResult(checked)) && |checked| == |at|
              && forall k :: 0 <= k < |at| ==> checked[k] == LineOf(lines[at[k]].record)
  {
    at := RecordsAt(lines);
    EmptyIff(lines);
    FirstGarbageCounts(lines);
    var records := ActionRecords(NonBlank(lines));
    checked := if AllNumbered(records) then LinesOf(records) else [];
  }

  /** A numbered record lacks a line to verify if it has no value for a canonical field that must be there. */
  lemma LineLacks(d: Dict, k: Key)
    requires Get(d, SequenceNumber).Num? && k in {ActionId, SessionId, ToolName, InputHash, Timestamp} && k !in d
    ensures LineOf(d) == Lacking(d[SequenceNumber].n)
  {
  }

  /** Otherwise the line says what the record says, with absent hashes and payloads as none. */
  lemma LineSays(d: Dict, action: Id, session: Id, tool: string, input: Hash, t: int, n: int)
    requires {SequenceNumber, ActionId, SessionId, ToolName, InputHash, Timestamp} <= d.Keys
    requires d[ActionId] == Num(action) && d[SessionId] == Num(session) && d[ToolName] == Text(tool)
    requires d[InputHash] == Digest(input) && d[Timestamp] == Num(t) && d[SequenceNumber] == Num(n)
    ensures LineOf(d).Full?
    ensures var row := LineOf(d).row;
            && row.actionId == action && row.sessionId == session && row.toolName == tool && row.inputHash == input
            && row.timestamp == t && row.number == n
            && row.outputHash == (if OutputHash in d && d[OutputHash].Digest? then Some(d[OutputHash].h) else None)
            && row.prevHash == (if PrevActionHash in d && d[PrevActionHash].Digest? then Some(d[PrevActionHash].h) else None)
            && row.selfHash == (if SelfHashKey in d && d[SelfHashKey].Digest? then d[SelfHashKey].h else Empty)
            && row.inputRedacted == (if InputRedacted in d && d[InputRedacted].Text? then Some(d[InputRedacted].s) else None)
            && row.outputRedacted == (if OutputRedacted in d && d[OutputRedacted].Text? then Some(d[OutputRedacted].s) else None)
  {
  }
}
