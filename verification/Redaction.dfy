/**
 Redaction of tool payloads (rootsign/sdk/redaction.py): a recursive walk with a
 depth bound that fails closed. Regular expressions are arbitrary decisions on strings.
 */
module Redaction {
  import opened Common

  type Pattern = string -> bool

  /** `Opaque` is a scalar that is not a string; it may have no string form. */
  datatype Json =
    | Null
    | Str(s: string)
    | Opaque(id: nat, form: Option<string>)
    | List(items: seq<Json>)
    | Dict(fields: seq<Field>)

  datatype Field = Field(key: string, value: Json)

  const PLACEHOLDER := Str("[REDACTED]")

  const MAX_DEPTH := 5

  // ---------- Rules ----------

  /** The two rule tables. */
  datatype Rules = Rules(leaf: map<string, Pattern>, path: map<string, Pattern>)

  datatype RuleDef = RuleDef(key: string, pattern: Pattern)

  datatype Mode = LeafMode | PathMode | OtherMode

  datatype ConfigError = ValueError

  const NO_RULES := Rules(map[], map[])

  function AddRule(r: Rules, mode: Mode, def: RuleDef): Rules {
    if mode.PathMode? || '.' in def.key then r.(path := r.path[def.key := def.pattern])
    else r.(leaf := r.leaf[def.key := def.pattern])
  }

  function RulesFrom(mode: Mode, defs: seq<RuleDef>): Rules {
    if defs == [] then NO_RULES else AddRule(RulesFrom(mode, defs[..|defs| - 1]), mode, defs[|defs| - 1])
  }

  /** `path.rsplit(".", 1)[-1]`: what follows the last dot, and all of a name without one. */
  function Leaf(path: string): (leaf: string)
    ensures '.' !in leaf
  {
    if path == [] then []
    else if path[|path| - 1] == '.' then []
    else Leaf(path[..|path| - 1]) + [path[|path| - 1]]
  }

  /** A path rule wins over a leaf rule. */
  function MatchedRule(r: Rules, path: string): Option<Pattern> {
    if path in r.path then Some(r.path[path])
    else if Leaf(path) in r.leaf then Some(r.leaf[Leaf(path)])
    else None
  }

  /** The rule of the value's path matches its string form, or the value has none. */
  predicate Hit(r: Rules, path: string, v: Json) {
    match MatchedRule(r, path)
    case None => false
    case Some(pattern) =>
      match v
      case Str(s) => pattern(s)
      case Opaque(_, form) => form.None? || pattern(form.value)
      case _ => false
  }

  // ---------- The walk ----------

  function Join(path: string, key: string): string {
    if path == "" then key else path + "." + key
  }

  function RedactValue(r: Rules, path: string, v: Json, depth: nat): Json
    decreases v
  {
    if MAX_DEPTH < depth then PLACEHOLDER
    else if Hit(r, path, v) then PLACEHOLDER
    else
      match v
      case Dict(fields) =>
        Dict(seq(|fields|, i requires 0 <= i < |fields| =>
          Field(fields[i].key, RedactValue(r, Join(path, fields[i].key), fields[i].value, depth + 1))))
      case List(items) =>
        List(seq(|items|, i requires 0 <= i < |items| => RedactValue(r, path, items[i], depth + 1)))
      case _ => v
  }

  /** `redact`: only dictionaries are walked, and only if there is any rule. */
  function Redacted(r: Rules, payload: Json): Json {
    if !payload.Dict? || (r.leaf == map[] && r.path == map[]) then payload else RedactValue(r, "", payload, 0)
  }

  class RedactionConfig {
    var mode: Mode
    var leafRules: map<string, Pattern>
    var pathRules: map<string, Pattern>

    constructor ()
      ensures View() == NO_RULES
    {
      mode, leafRules, pathRules := LeafMode, map[], map[];
    }

    function View(): Rules
      reads this
    {
      Rules(leafRules, pathRules)
    }

    /** `__init__` on the items of the rule dictionary. */
    method Init(defs: seq<RuleDef>, mode: Mode) returns (error: Option<ConfigError>)
      modifies this
      ensures error == (if mode.OtherMode? then Some(ValueError) else None)
      ensures error.None? ==> View() == RulesFrom(mode, defs)
      ensures error.Some? ==> View() == old(View())
    {
      if mode.OtherMode? {
        return Some(ValueError);
      }
      this.mode, leafRules, pathRules := mode, map[], map[];
      for i := 0 to |defs|
        invariant View() == RulesFrom(mode, defs[..i])
      {
        assert defs[..i + 1][..i] == defs[..i];
        if mode.PathMode? || '.' in defs[i].key {
          pathRules := pathRules[defs[i].key := defs[i].pattern];
        } else {
          leafRules := leafRules[defs[i].key := defs[i].pattern];
        }
      }
      assert defs[..|defs|] == defs;
      error := None;
    }

    method RedactFields(fields: seq<Field>, path: string, depth: nat) returns (out: Json)
      ensures MAX_DEPTH < depth ==> out == PLACEHOLDER
      ensures depth <= MAX_DEPTH ==> out.Dict? && |out.fields| == |fields|
      ensures depth <= MAX_DEPTH ==> forall i :: 0 <= i < |fields| ==>
                out.fields[i] == Field(fields[i].key, RedactValue(View(), Join(path, fields[i].key), fields[i].value, depth + 1))
      decreases fields, 0
    {
      if MAX_DEPTH < depth {
        return PLACEHOLDER;
      }
      var result: seq<Field> := [];
      for i := 0 to |fields|
        invariant |result| == i
        invariant forall j :: 0 <= j < i ==>
                    result[j] == Field(fields[j].key, RedactValue(View(), Join(path, fields[j].key), fields[j].value, depth + 1))
      {
        var value := RedactOne(Join(path, fields[i].key), fields[i].value, depth + 1);
        result := result + [Field(fields[i].key, value)];
      }
      out := Dict(result);
    }

    method RedactOne(path: string, v: Json, depth: nat) returns (out: Json)
      ensures out == RedactValue(View(), path, v, depth)
      decreases v, 1
    {
      if MAX_DEPTH < depth {
        return PLACEHOLDER;
      }
      var rule := MatchedRule(View(), path);
      if rule.Some? && (v.Str? || v.Opaque?) {
        var candidate := if v.Str? then Some(v.s) else v.form;
        if candidate.None? {
          return PLACEHOLDER;
        }
        if rule.value(candidate.value) {
          return PLACEHOLDER;
        }
      }
      match v {
        case Dict(fields) => out := RedactFields(fields, path, depth);
        case List(items) =>
          var redacted: seq<Json> := [];
          for i := 0 to |items|
            invariant |redacted| == i
            invariant forall j :: 0 <= j < i ==> redacted[j] == RedactValue(View(), path, items[j], depth + 1)
          {
            var item := RedactOne(path, items[i], depth + 1);
            redacted := redacted + [item];
          }
          out := List(redacted);
        case _ => out := v;
      }
    }

    method Redact(payload: Json) returns (out: Json)
      ensures out == Redacted(View(), payload)
    {
      if !payload.Dict? || (leafRules == map[] && pathRules == map[]) {
        return payload;
      }
      out := RedactFields(payload.fields, "", 0);
    }
  }

  // ---------- Where things are ----------

  /** A way down into a tree: the index of the child taken at each step. */
  type Route = seq<nat>

  function Child(v: Json, i: nat): Option<Json> {
    match v
    case List(items) => if i < |items| then Some(items[i]) else None
    case Dict(fields) => if i < |fields| then Some(fields[i].value) else None
    case _ => None
  }

  /** List items keep their parent's path. */
  function ChildPath(path: string, v: Json, i: nat): string {
    if v.Dict? && i < |v.fields| then Join(path, v.fields[i].key) else path
  }

  function Sub(v: Json, route: Route): Option<Json>
    decreases |route|
  {
    if route == [] then Some(v)
    else
      var c := Child(v, route[0]);
      if c.None? then None else Sub(c.value, route[1..])
  }

  function PathAt(path: string, v: Json, route: Route): string
    decreases |route|
  {
    if route == [] then path
    else
      var c := Child(v, route[0]);
      if c.None? then path else PathAt(ChildPath(path, v, route[0]), c.value, route[1..])
  }

  /** Some rule speaks of the path: one of the whole path, or one of its leaf. */
  ghost predicate Governed(r: Rules, path: string) {
    path in r.path || Leaf(path) in r.leaf
  }

  /** The rule that speaks of the path, the whole path's before the leaf's, accepts the text. */
  ghost predicate Accepted(r: Rules, path: string, text: string) {
    if path in r.path then r.path[path](text) else Leaf(path) in r.leaf && r.leaf[Leaf(path)](text)
  }

  /**
   What a node within the bound becomes: containers keep keys and lengths, a string is
   masked if its rule accepts it, any other scalar if its rule accepts its form or if it
   has a rule and no form, and a null stays.
   */
  ghost predicate Becomes(r: Rules, path: string, before: Json, after: Json) {
    match before
    case Dict(fields) =>
      after.Dict? && |after.fields| == |fields| && forall i :: 0 <= i < |fields| ==> after.fields[i].key == fields[i].key
    case List(items) => after.List? && |after.items| == |items|
    case Str(text) => after == if Accepted(r, path, text) then Str("[REDACTED]") else before
    case Opaque(_, form) =>
      after == if Governed(r, path) && (form.None? || Accepted(r, path, form.value)) then Str("[REDACTED]") else before
    case Null => after == before
  }

  /**
   The walk, node by node: within the bound every node keeps its place, its keys or
   length, and is masked exactly when its path's rule hits it; one level past the
   bound stands the placeholder; and nothing stands below.
   */
  lemma {:induction false} RedactPointwise(r: Rules, path: string, v: Json, depth: nat, route: Route)
    requires depth <= MAX_DEPTH + 1
    ensures var out := Sub(RedactValue(r, path, v, depth), route);
            if MAX_DEPTH + 1 < depth + |route| then out.None?
            else if Sub(v, route).None? then out.None?
            else if depth + |route| == MAX_DEPTH + 1 then out == Some(PLACEHOLDER)
            else out.Some? && Becomes(r, PathAt(path, v, route), Sub(v, route).value, out.value)
    ensures depth + |route| <= MAX_DEPTH && Sub(v, route).Some? ==>
              PathAt(path, RedactValue(r, path, v, depth), route) == PathAt(path, v, route)
    decreases |route|
  {
    if route != [] && depth <= MAX_DEPTH {
      var i, c := route[0], Child(v, route[0]);
      if c.Some? {
        RedactChild(r, path, v, depth, i);
        RedactPointwise(r, ChildPath(path, v, i), c.value, depth + 1, route[1..]);
      }
    }
  }

  lemma RedactChild(r: Rules, path: string, v: Json, depth: nat, i: nat)
    requires depth <= MAX_DEPTH && Child(v, i).Some?
    ensures Child(RedactValue(r, path, v, depth), i) == Some(RedactValue(r, ChildPath(path, v, i), Child(v, i).value, depth + 1))
    ensures ChildPath(path, RedactValue(r, path, v, depth), i) == ChildPath(path, v, i)
  {
  }

  // ---------- What redaction guarantees ----------

  /** Redacting twice is redacting once. */
  lemma {:induction false} RedactAgain(r: Rules, path: string, v: Json, depth: nat)
    ensures RedactValue(r, path, RedactValue(r, path, v, depth), depth) == RedactValue(r, path, v, depth)
    decreases v
  {
    var once := RedactValue(r, path, v, depth);
    if depth <= MAX_DEPTH && !Hit(r, path, v) {
      match v {
        case Dict(fields) =>
          forall i | 0 <= i < |fields|
            ensures RedactValue(r, Join(path, fields[i].key), once.fields[i].value, depth + 1) == once.fields[i].value
          {
            RedactAgain(r, Join(path, fields[i].key), fields[i].value, depth + 1);
          }
          assert RedactValue(r, path, once, depth).fields == once.fields;
        case List(items) =>
          forall i | 0 <= i < |items| ensures RedactValue(r, path, once.items[i], depth + 1) == once.items[i] {
            RedactAgain(r, path, items[i], depth + 1);
          }
          assert RedactValue(r, path, once, depth).items == once.items;
        case _ =>
      }
    }
  }

  lemma RedactIdempotent(r: Rules, payload: Json)
    ensures Redacted(r, Redacted(r, payload)) == Redacted(r, payload)
  {
    RedactAgain(r, "", payload, 0);
  }

  /**
   In a redacted dictionary a string that its rule accepts is the placeholder, and any
   other scalar under a rule has a form that the rule does not accept; a node at the bound
   is the placeholder; and nothing lies deeper.
   */
  lemma NothingLeft(r: Rules, payload: Json, route: Route)
    requires payload.Dict? && (r.leaf != map[] || r.path != map[])
    ensures var out := Redacted(r, payload);
            Sub(out, route).Some? ==>
              var path, v := PathAt("", out, route), Sub(out, route).value;
              && |route| <= MAX_DEPTH + 1
              && (v.Str? && Accepted(r, path, v.s) ==> v == Str("[REDACTED]"))
              && (v.Opaque? && Governed(r, path) ==> v.form.Some? && !Accepted(r, path, v.form.value))
              && (|route| == MAX_DEPTH + 1 ==> v == Str("[REDACTED]"))
  {
    RedactPointwise(r, "", payload, 0, route);
  }

  // ---------- Which rule applies ----------

  /** The leaf of a field's path is the leaf of its own name, at any nesting. */
  lemma {:induction false} LeafOfJoin(path: string, key: string)
    ensures Leaf(Join(path, key)) == Leaf(key)
  {
    var full := Join(path, key);
    if key == "" {
      assert path != "" ==> full[|full| - 1] == '.';
    } else {
      var front, last := key[..|key| - 1], key[|key| - 1];
      assert key == front + [last];
      LeafOfJoin(path, front);
      assert full[..|full| - 1] == Join(path, front);
    }
  }

  /** The leaf is the whole of a name without dots, and otherwise what follows its last dot. */
  lemma {:induction false} LeafMeans(key: string) returns (front: string)
    ensures '.' !in Leaf(key)
    ensures if '.' in key then key == front + "." + Leaf(key) else key == Leaf(key)
  {
    front := [];
    if key != [] && key[|key| - 1] == '.' {
      front := key[..|key| - 1];
    } else if key != [] {
      front := LeafMeans(key[..|key| - 1]);
      LeafGrows(key, front);
    }
  }

  lemma LeafGrows(key: string, front: string)
    requires key != [] && key[|key| - 1] != '.'
    requires var before := key[..|key| - 1];
             if '.' in before then before == front + "." + Leaf(before) else before == Leaf(before)
    ensures if '.' in key then key == front + "." + Leaf(key) else key == Leaf(key)
  {
    var before, last := key[..|key| - 1], key[|key| - 1];
    assert key == before + [last];
    assert Leaf(key) == Leaf(before) + [last];
    if '.' in before {
      assert key == front + "." + Leaf(key);
    }
  }

  /** The definition a table entry comes from: the last one with its key. */
  function DefFor(defs: seq<RuleDef>, key: string): Option<Pattern> {
    if defs == [] then None
    else if defs[|defs| - 1].key == key then Some(defs[|defs| - 1].pattern)
    else DefFor(defs[..|defs| - 1], key)
  }

  lemma {:induction false} TablesHold(mode: Mode, defs: seq<RuleDef>, key: string)
    ensures var r, isPath := RulesFrom(mode, defs), mode.PathMode? || '.' in key;
            && (key in r.path <==> isPath && DefFor(defs, key).Some?)
            && (key in r.leaf <==> !isPath && DefFor(defs, key).Some?)
            && (key in r.path ==> r.path[key] == DefFor(defs, key).value)
            && (key in r.leaf ==> r.leaf[key] == DefFor(defs, key).value)
  {
    if defs != [] {
      TablesHold(mode, defs[..|defs| - 1], key);
    }
  }

  /**
   In path mode only the rule of a field's full path applies. Otherwise the rule of its
   full path if that is a dotted one, and else the bare rule of its name, or of what
   follows the last dot of a name that has dots itself.
   */
  lemma RuleForField(mode: Mode, defs: seq<RuleDef>, path: string, key: string)
    ensures var full := Join(path, key);
            MatchedRule(RulesFrom(mode, defs), full) ==
            if mode.PathMode? || ('.' in full && DefFor(defs, full).Some?) then DefFor(defs, full)
            else DefFor(defs, Leaf(key))
  {
    var full := Join(path, key);
    LeafOfJoin(path, key);
    var front := LeafMeans(key);
    front := LeafMeans(full);
    TablesHold(mode, defs, full);
    TablesHold(mode, defs, Leaf(key));
  }

  // ---------- From the rules as configured to what is masked ----------

  /** The keys on the way down a route, outermost first; list items add none. */
  function KeysOn(v: Json, route: Route): seq<string>
    decreases |route|
  {
    if route == [] then []
    else
      var c := Child(v, route[0]);
      if c.None? then []
      else (if v.Dict? then [v.fields[route[0]].key] else []) + KeysOn(c.value, route[1..])
  }

  /** Keys joined by dots, after a prefix; an empty prefix takes no dot. */
  function Dotted(prefix: string, keys: seq<string>): string
    decreases |keys|
  {
    if keys == [] then prefix
    else Dotted(if prefix == "" then keys[0] else prefix + "." + keys[0], keys[1..])
  }

  lemma {:induction false} PathIsDotted(path: string, v: Json, route: Route)
    ensures PathAt(path, v, route) == Dotted(path, KeysOn(v, route))
    decreases |route|
  {
    if route != [] {
      var c := Child(v, route[0]);
      if c.Some? {
        PathIsDotted(ChildPath(path, v, route[0]), c.value, route[1..]);
        if v.Dict? {
          assert KeysOn(v, route)[1..] == KeysOn(c.value, route[1..]);
        } else {
          assert KeysOn(v, route) == KeysOn(c.value, route[1..]);
        }
      }
    }
  }

  /** The definition that rules a path: its own in path mode or if it is dotted and has one, else its leaf's. */
  function Ruling(mode: Mode, defs: seq<RuleDef>, path: string): Option<Pattern> {
    if mode.PathMode? || ('.' in path && DefFor(defs, path).Some?) then DefFor(defs, path)
    else DefFor(defs, Leaf(path))
  }

  lemma RulesSay(mode: Mode, defs: seq<RuleDef>, path: string)
    ensures Governed(RulesFrom(mode, defs), path) <==> Ruling(mode, defs, path).Some?
    ensures forall text: string :: Accepted(RulesFrom(mode, defs), path, text) <==>
              Ruling(mode, defs, path).Some? && Ruling(mode, defs, path).value(text)
  {
    var front := LeafMeans(path);
    TablesHold(mode, defs, path);
    TablesHold(mode, defs, Leaf(path));
  }

  lemma {:induction false} SomeRules(mode: Mode, defs: seq<RuleDef>)
    ensures RulesFrom(mode, defs) == NO_RULES <==> defs == []
  {
    if defs != [] {
      var key, r := defs[|defs| - 1].key, RulesFrom(mode, defs);
      TablesHold(mode, defs, key);
      assert DefFor(defs, key).Some?;
      assert key in r.path || key in r.leaf;
    }
  }

  /** What is no dictionary is returned as it is, whatever the rules. */
  lemma OnlyDictionaries(r: Rules, payload: Json)
    requires !payload.Dict?
    ensures Redacted(r, payload) == payload
  {
  }

  /**
   Any dictionary under any configured rules, at any place within five levels, with the
   place's path the dotted keys on the way: a string is masked if and only if the
   definition that rules its path accepts it, another scalar if and only if there is one
   and it accepts the scalar's form or there is no form; a null stays, and so does every
   scalar without a definition. Six levels down stands the placeholder.
   */
  lemma MaskedIff(mode: Mode, defs: seq<RuleDef>, payload: Json, route: Route)
    requires payload.Dict? && Sub(payload, route).Some? && |route| <= 6
    ensures var out := Sub(Redacted(RulesFrom(mode, defs), payload), route);
            var v, rule := Sub(payload, route).value, Ruling(mode, defs, Dotted("", KeysOn(payload, route)));
            && (defs == [] ==> out == Some(v))
            && (defs != [] && |route| == 6 ==> out == Some(Str("[REDACTED]")))
            && (|route| <= 5 && v.Str? ==>
                  out == Some(if rule.Some? && rule.value(v.s) then Str("[REDACTED]") else v))
            && (|route| <= 5 && v.Opaque? ==>
                  out == Some(if rule.Some? && (v.form.None? || rule.value(v.form.value)) then Str("[REDACTED]") else v))
            && (|route| <= 5 && v.Null? ==> out == Some(v))
  {
    var r, path := RulesFrom(mode, defs), Dotted("", KeysOn(payload, route));
    SomeRules(mode, defs);
    PathIsDotted("", payload, route);
    RulesSay(mode, defs, path);
    RedactPointwise(r, "", payload, 0, route);
  }
}
