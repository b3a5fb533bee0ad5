/** JSON path redaction: a recursive walk that overwrites a parsed document in place. */
module Redaction {
  import opened Wrappers

  /** A rule: a regular expression on paths, here any predicate, and its hints. */
  datatype Rule = Rule(matches: string -> bool, name: string, hintCharsStart: int, hintCharsEnd: int)

  function Tag(r: Rule): string {
    "[" + r.name + " REDACTED]"
  }

  function HintStart(r: Rule): nat {
    if r.hintCharsStart > 0 then r.hintCharsStart else 0
  }

  function HintEnd(r: Rule): nat {
    if r.hintCharsEnd > 0 then r.hintCharsEnd else 0
  }

  /** Slicing does not go out of range. */
  predicate LongEnough(r: Rule, s: string) {
    HintStart(r) <= |s| && HintEnd(r) <= |s|
  }

  /** JsonPathRule.Redact; None is the run-time panic of a slice out of range. */
  function RedactString(r: Rule, s: string): Option<string> {
    if r.hintCharsStart > 0 then
      if r.hintCharsEnd > 0 then
        if r.hintCharsStart <= |s| && r.hintCharsEnd <= |s|
        then Some(s[..r.hintCharsStart] + Tag(r) + s[|s| - r.hintCharsEnd..]) else None
      else if r.hintCharsStart <= |s| then Some(s[..r.hintCharsStart] + Tag(r)) else None
    else if r.hintCharsEnd > 0 then
      if r.hintCharsEnd <= |s| then Some(Tag(r) + s[|s| - r.hintCharsEnd..]) else None
    else Some(Tag(r))
  }

  /** What a redacted string shows of the original, and nothing else. */
  predicate SameHints(r: Rule, s: string, t: string)
    requires LongEnough(r, s) && LongEnough(r, t)
  {
    s[..HintStart(r)] == t[..HintStart(r)] && s[|s| - HintEnd(r)..] == t[|t| - HintEnd(r)..]
  }

  lemma RedactStringShape(r: Rule, s: string)
    ensures RedactString(r, s).Some? <==> LongEnough(r, s)
    ensures LongEnough(r, s) <==> r.hintCharsStart <= |s| && r.hintCharsEnd <= |s|
    ensures LongEnough(r, s) ==> RedactString(r, s) == Some(s[..HintStart(r)] + Tag(r) + s[|s| - HintEnd(r)..])
  {
    if LongEnough(r, s) {
      assert s[..0] + Tag(r) == Tag(r);
      assert s[|s|..] == [];
      assert Tag(r) + [] == Tag(r);
      assert s[..HintStart(r)] + Tag(r) + [] == s[..HintStart(r)] + Tag(r);
    }
  }

  /** Two strings redact to the same if and only if they agree on the hints. */
  lemma StringRevealsHintsOnly(r: Rule, s: string, t: string)
    requires LongEnough(r, s) && LongEnough(r, t)
    ensures RedactString(r, s) == RedactString(r, t) <==> SameHints(r, s, t)
  {
    RedactStringShape(r, s);
    RedactStringShape(r, t);
    var a := HintStart(r);
    var b := a + |Tag(r)|;
    var x, y := RedactString(r, s).value, RedactString(r, t).value;
    assert x[..a] == s[..a] && y[..a] == t[..a];
    assert x[b..] == s[|s| - HintEnd(r)..] && y[b..] == t[|t| - HintEnd(r)..];
  }

  lemma RedactStringTwice(r: Rule, s: string)
    requires LongEnough(r, s)
    ensures var once := RedactString(r, s); once.Some? && LongEnough(r, once.value) && RedactString(r, once.value) == once
  {
    RedactStringShape(r, s);
    var once := RedactString(r, s).value;
    RedactStringShape(r, once);
    assert once[..HintStart(r)] == s[..HintStart(r)];
    assert once[|once| - HintEnd(r)..] == s[|s| - HintEnd(r)..];
  }

  // ----------------------------------------------------- the pure meaning

  /** A JSON value; Other stands for numbers, booleans and null. */
  datatype Json = Str(s: string) | Other(id: nat) | Obj(fields: map<string, Json>) | Arr(items: seq<Json>)

  function FirstMatch(rules: seq<Rule>, path: string): Option<Rule> {
    if rules == [] then None
    else if rules[0].matches(path) then Some(rules[0])
    else FirstMatch(rules[1..], path)
  }

  function KeyPath(path: string, key: string): string {
    path + "." + key
  }

  /** All elements of an array share this path. */
  function ItemPath(path: string): string {
    path + "[]"
  }

  /** Every string that a rule matches is as long as the rule's hints. */
  predicate InRange(rules: seq<Rule>, t: Json, path: string) {
    match t
    case Str(s) =>
      var r := FirstMatch(rules, path);
      r.Some? ==> LongEnough(r.value, s)
    case Other(_) => true
    case Obj(fields) => forall k | k in fields :: InRange(rules, fields[k], KeyPath(path, k))
    case Arr(items) => forall i | 0 <= i < |items| :: InRange(rules, items[i], ItemPath(path))
  }

  /** The tree of the same shape, keys and other leaves, in which each string is
      replaced by its first matching rule's output, or left alone. */
  function Redacted(rules: seq<Rule>, t: Json, path: string): Json
    requires InRange(rules, t, path)
  {
    match t
    case Str(s) =>
      var r := FirstMatch(rules, path);
      if r.Some? then Str(s[..HintStart(r.value)] + Tag(r.value) + s[|s| - HintEnd(r.value)..]) else t
    case Other(_) => t
    case Obj(fields) => Obj(map k | k in fields :: Redacted(rules, fields[k], KeyPath(path, k)))
    case Arr(items) => Arr(seq(|items|, i requires 0 <= i < |items| => Redacted(rules, items[i], ItemPath(path))))
  }

  /** Same shape, equal where no rule looks, and equal in the hints where one does. */
  ghost predicate AgreeOutside(rules: seq<Rule>, a: Json, b: Json, path: string)
    requires InRange(rules, a, path) && InRange(rules, b, path)
  {
    match a
    case Str(s) =>
      var r := FirstMatch(rules, path);
      b.Str? && if r.Some? then SameHints(r.value, s, b.s) else s == b.s
    case Other(_) => a == b
    case Obj(fields) =>
      b.Obj? && fields.Keys == b.fields.Keys &&
      forall k | k in fields :: AgreeOutside(rules, fields[k], b.fields[k], KeyPath(path, k))
    case Arr(items) =>
      b.Arr? && |items| == |b.items| &&
      forall i | 0 <= i < |items| :: AgreeOutside(rules, items[i], b.items[i], ItemPath(path))
  }

  /** Noninterference, exactly: two documents redact to the same one if and only
      if they differ at most in the hidden middles of matched strings. */
  lemma {:induction false} RevealsHintsOnly(rules: seq<Rule>, a: Json, b: Json, path: string)
    requires InRange(rules, a, path) && InRange(rules, b, path)
    ensures Redacted(rules, a, path) == Redacted(rules, b, path) <==> AgreeOutside(rules, a, b, path)
    decreases a
  {
    match a {
      case Str(s) =>
        var r := FirstMatch(rules, path);
        if r.Some? && b.Str? {
          StringRevealsHintsOnly(r.value, s, b.s);
          RedactStringShape(r.value, s);
          RedactStringShape(r.value, b.s);
        }
      case Other(_) =>
      case Obj(fields) =>
        if b.Obj? && fields.Keys == b.fields.Keys {
          forall k | k in fields
            ensures Redacted(rules, fields[k], KeyPath(path, k)) == Redacted(rules, b.fields[k], KeyPath(path, k))
                    <==> AgreeOutside(rules, fields[k], b.fields[k], KeyPath(path, k))
          {
            RevealsHintsOnly(rules, fields[k], b.fields[k], KeyPath(path, k));
          }
          ObjectsEqual(rules, a, b, path);
        } else if b.Obj? {
          assert Redacted(rules, a, path).fields.Keys == fields.Keys;
          assert Redacted(rules, b, path).fields.Keys == b.fields.Keys;
        }
      case Arr(items) =>
        if b.Arr? && |items| == |b.items| {
          forall i | 0 <= i < |items|
            ensures Redacted(rules, items[i], ItemPath(path)) == Redacted(rules, b.items[i], ItemPath(path))
                    <==> AgreeOutside(rules, items[i], b.items[i], ItemPath(path))
          {
            RevealsHintsOnly(rules, items[i], b.items[i], ItemPath(path));
          }
          ArraysEqual(rules, a, b, path);
        } else if b.Arr? {
          assert |Redacted(rules, a, path).items| == |items|;
          assert |Redacted(rules, b, path).items| == |b.items|;
        }
    }
  }

  lemma ObjectsEqual(rules: seq<Rule>, a: Json, b: Json, path: string)
    requires a.Obj? && b.Obj? && a.fields.Keys == b.fields.Keys
    requires InRange(rules, a, path) && InRange(rules, b, path)
    ensures Redacted(rules, a, path) == Redacted(rules, b, path) <==>
            forall k | k in a.fields :: Redacted(rules, a.fields[k], KeyPath(path, k)) == Redacted(rules, b.fields[k], KeyPath(path, k))
  {
    var x, y := Redacted(rules, a, path).fields, Redacted(rules, b, path).fields;
    assert x.Keys == a.fields.Keys && y.Keys == a.fields.Keys;
    assert forall k | k in a.fields :: x[k] == Redacted(rules, a.fields[k], KeyPath(path, k)) && y[k] == Redacted(rules, b.fields[k], KeyPath(path, k));
  }

  lemma ArraysEqual(rules: seq<Rule>, a: Json, b: Json, path: string)
    requires a.Arr? && b.Arr? && |a.items| == |b.items|
    requires InRange(rules, a, path) && InRange(rules, b, path)
    ensures Redacted(rules, a, path) == Redacted(rules, b, path) <==>
            forall i | 0 <= i < |a.items| :: Redacted(rules, a.items[i], ItemPath(path)) == Redacted(rules, b.items[i], ItemPath(path))
  {
    var x, y := Redacted(rules, a, path).items, Redacted(rules, b, path).items;
    assert forall i | 0 <= i < |a.items| :: x[i] == Redacted(rules, a.items[i], ItemPath(path)) && y[i] == Redacted(rules, b.items[i], ItemPath(path));
  }

  /** Redacting a redacted document is in range and changes nothing. */
  lemma {:induction false} Idempotent(rules: seq<Rule>, t: Json, path: string)
    requires InRange(rules, t, path)
    ensures InRange(rules, Redacted(rules, t, path), path)
    ensures Redacted(rules, Redacted(rules, t, path), path) == Redacted(rules, t, path)
    decreases t
  {
    match t {
      case Str(s) =>
        var r := FirstMatch(rules, path);
        if r.Some? {
          RedactStringTwice(r.value, s);
          RedactStringShape(r.value, s);
          RedactStringShape(r.value, Redacted(rules, t, path).s);
        }
      case Other(_) =>
      case Obj(fields) =>
        forall k | k in fields
          ensures InRange(rules, Redacted(rules, fields[k], KeyPath(path, k)), KeyPath(path, k))
          ensures Redacted(rules, Redacted(rules, fields[k], KeyPath(path, k)), KeyPath(path, k)) == Redacted(rules, fields[k], KeyPath(path, k))
        {
          Idempotent(rules, fields[k], KeyPath(path, k));
        }
        var once := Redacted(rules, t, path);
        assert Redacted(rules, once, path).fields == once.fields;
      case Arr(items) =>
        forall i | 0 <= i < |items|
          ensures InRange(rules, Redacted(rules, items[i], ItemPath(path)), ItemPath(path))
          ensures Redacted(rules, Redacted(rules, items[i], ItemPath(path)), ItemPath(path)) == Redacted(rules, items[i], ItemPath(path))
        {
          Idempotent(rules, items[i], ItemPath(path));
        }
        var once := Redacted(rules, t, path);
        assert Redacted(rules, once, path).items == once.items;
    }
  }

  // --------------------------------------------- what happens to each leaf

  /** Rule number k is the first that matches the path; k == |rules| if none does. */
  ghost predicate FirstRuleAt(rules: seq<Rule>, path: string, k: nat) {
    k <= |rules| && (forall j :: 0 <= j < k ==> !rules[j].matches(path)) && (k < |rules| ==> rules[k].matches(path))
  }

  lemma {:induction false} FirstMatchIsFirst(rules: seq<Rule>, path: string) returns (k: nat)
    ensures FirstRuleAt(rules, path, k)
    ensures FirstMatch(rules, path) == if k < |rules| then Some(rules[k]) else None
  {
    if rules == [] {
      k := 0;
    } else if rules[0].matches(path) {
      k := 0;
    } else {
      k := FirstMatchIsFirst(rules[1..], path);
      assert forall j :: 1 <= j < k + 1 ==> rules[j] == rules[1..][j - 1];
      k := k + 1;
    }
  }

  lemma FirstRuleIsUnique(rules: seq<Rule>, path: string, j: nat, k: nat)
    requires FirstRuleAt(rules, path, j) && FirstRuleAt(rules, path, k)
    ensures j == k
  {
  }

  /** The text of a string leaf after redaction, if its first matching rule is number k. */
  function LeafText(rules: seq<Rule>, s: string, k: nat): string
    requires k < |rules| ==> rules[k].hintCharsStart <= |s| && rules[k].hintCharsEnd <= |s|
  {
    if k >= |rules| then s
    else
      (if rules[k].hintCharsStart > 0 then s[..rules[k].hintCharsStart] else "") +
      ("[" + rules[k].name + " REDACTED]") +
      if rules[k].hintCharsEnd > 0 then s[|s| - rules[k].hintCharsEnd..] else ""
  }

  /** The way to a value inside a document. */
  datatype Step = Key(key: string) | Item(index: nat)

  function At(t: Json, steps: seq<Step>): Option<Json>
    decreases |steps|
  {
    if steps == [] then Some(t)
    else
      match steps[0]
      case Key(k) => if t.Obj? && k in t.fields then At(t.fields[k], steps[1..]) else None
      case Item(i) => if t.Arr? && i < |t.items| then At(t.items[i], steps[1..]) else None
  }

  /** The path that rules are matched against: a dot and the key for each entry, and
      the same brackets for every element of an array. */
  function PathText(steps: seq<Step>): string {
    if steps == [] then ""
    else (match steps[0] case Key(k) => "." + k case Item(_) => "[]") + PathText(steps[1..])
  }

  /** Each value of the redacted document, by the way to it: the same shape, keys
      and other leaves; and a string is rewritten by the first rule that matches
      its path, or left alone. */
  lemma {:induction false} EachLeafByItsFirstRule(rules: seq<Rule>, t: Json, path: string, steps: seq<Step>, k: nat)
    requires InRange(rules, t, path) && FirstRuleAt(rules, path + PathText(steps), k)
    ensures var before, after := At(t, steps), At(Redacted(rules, t, path), steps);
            && (before.None? <==> after.None?)
            && (before.Some? ==>
                  match before.value
                  case Str(s) =>
                    && (k < |rules| ==> rules[k].hintCharsStart <= |s| && rules[k].hintCharsEnd <= |s|)
                    && after.value == Str(LeafText(rules, s, k))
                  case Other(_) => after == before
                  case Obj(fields) => after.value.Obj? && after.value.fields.Keys == fields.Keys
                  case Arr(items) => after.value.Arr? && |after.value.items| == |items|)
    decreases |steps|
  {
    if steps == [] {
      assert path + PathText(steps) == path;
      LeafRewritten(rules, t, path, k);
    } else {
      var rest := steps[1..];
      match steps[0]
      case Key(key) =>
        if t.Obj? && key in t.fields {
          assert path + PathText(steps) == KeyPath(path, key) + PathText(rest);
          EachLeafByItsFirstRule(rules, t.fields[key], KeyPath(path, key), rest, k);
        }
      case Item(i) =>
        if t.Arr? && i < |t.items| {
          assert path + PathText(steps) == ItemPath(path) + PathText(rest);
          EachLeafByItsFirstRule(rules, t.items[i], ItemPath(path), rest, k);
        }
    }
  }

  lemma LeafRewritten(rules: seq<Rule>, t: Json, path: string, k: nat)
    requires InRange(rules, t, path) && FirstRuleAt(rules, path, k)
    ensures t.Str? ==>
              && (k < |rules| ==> rules[k].hintCharsStart <= |t.s| && rules[k].hintCharsEnd <= |t.s|)
              && Redacted(rules, t, path) == Str(LeafText(rules, t.s, k))
    ensures t.Other? ==> Redacted(rules, t, path) == t
    ensures t.Obj? ==> Redacted(rules, t, path).Obj? && Redacted(rules, t, path).fields.Keys == t.fields.Keys
    ensures t.Arr? ==> Redacted(rules, t, path).Arr? && |Redacted(rules, t, path).items| == |t.items|
  {
    if t.Str? {
      StringRewritten(rules, t.s, path, k);
    } else {
      ShapeKept(rules, t, path);
    }
  }

  lemma StringRewritten(rules: seq<Rule>, s: string, path: string, k: nat)
    requires InRange(rules, Str(s), path) && FirstRuleAt(rules, path, k)
    ensures k < |rules| ==> rules[k].hintCharsStart <= |s| && rules[k].hintCharsEnd <= |s|
    ensures Redacted(rules, Str(s), path) == Str(LeafText(rules, s, k))
  {
    var first := FirstMatchIsFirst(rules, path);
    FirstRuleIsUnique(rules, path, first, k);
    if k < |rules| {
      LeafTextIsRedacted(rules, s, k);
    }
  }

  lemma ShapeKept(rules: seq<Rule>, t: Json, path: string)
    requires InRange(rules, t, path)
    ensures t.Other? ==> Redacted(rules, t, path) == t
    ensures t.Obj? ==> Redacted(rules, t, path).Obj? && Redacted(rules, t, path).fields.Keys == t.fields.Keys
    ensures t.Arr? ==> Redacted(rules, t, path).Arr? && |Redacted(rules, t, path).items| == |t.items|
  {
  }

  lemma LeafTextIsRedacted(rules: seq<Rule>, s: string, k: nat)
    requires k < |rules| && LongEnough(rules[k], s)
    ensures rules[k].hintCharsStart <= |s| && rules[k].hintCharsEnd <= |s|
    ensures LeafText(rules, s, k) == s[..HintStart(rules[k])] + Tag(rules[k]) + s[|s| - HintEnd(rules[k])..]
  {
    var r := rules[k];
    assert s[..HintStart(r)] == if r.hintCharsStart > 0 then s[..r.hintCharsStart] else "";
    assert s[|s| - HintEnd(r)..] == if r.hintCharsEnd > 0 then s[|s| - r.hintCharsEnd..] else "";
  }

  /** The string at the end of the way, if there is one, has room for the hints of
      its first matching rule. */
  ghost predicate LeafFits(rules: seq<Rule>, t: Json, path: string, steps: seq<Step>) {
    var leaf := At(t, steps);
    leaf.Some? && leaf.value.Str? ==>
      forall k: nat | k < |rules| && FirstRuleAt(rules, path + PathText(steps), k) ::
        rules[k].hintCharsStart <= |leaf.value.s| && rules[k].hintCharsEnd <= |leaf.value.s|
  }

  /** The walk stays in range exactly if every string in the document is as long as
      each hint of the first rule that matches its path. */
  lemma {:induction false} InRangeIffLeavesFit(rules: seq<Rule>, t: Json, path: string)
    ensures InRange(rules, t, path) <==> forall steps :: LeafFits(rules, t, path, steps)
    decreases t
  {
    if InRange(rules, t, path) {
      forall steps
        ensures LeafFits(rules, t, path, steps)
      {
        var first := FirstMatchIsFirst(rules, path + PathText(steps));
        EachLeafByItsFirstRule(rules, t, path, steps, first);
        forall k: nat | k < |rules| && FirstRuleAt(rules, path + PathText(steps), k)
          ensures k == first
        {
          FirstRuleIsUnique(rules, path + PathText(steps), first, k);
        }
      }
    }
    if forall steps :: LeafFits(rules, t, path, steps) {
      match t
      case Str(s) => RootFits(rules, t, path);
      case Other(_) =>
      case Obj(fields) =>
        forall k | k in fields
          ensures InRange(rules, fields[k], KeyPath(path, k))
        {
          forall steps
            ensures LeafFits(rules, fields[k], KeyPath(path, k), steps)
          {
            ChildFits(rules, t, path, Key(k), fields[k], KeyPath(path, k), steps);
          }
          InRangeIffLeavesFit(rules, fields[k], KeyPath(path, k));
        }
      case Arr(items) =>
        forall i | 0 <= i < |items|
          ensures InRange(rules, items[i], ItemPath(path))
        {
          forall steps
            ensures LeafFits(rules, items[i], ItemPath(path), steps)
          {
            ChildFits(rules, t, path, Item(i), items[i], ItemPath(path), steps);
          }
          InRangeIffLeavesFit(rules, items[i], ItemPath(path));
        }
    }
  }

  lemma RootFits(rules: seq<Rule>, t: Json, path: string)
    requires t.Str? && LeafFits(rules, t, path, [])
    ensures InRange(rules, t, path)
  {
    assert path + PathText([]) == path;
    var first := FirstMatchIsFirst(rules, path);
    if first < |rules| {
      RedactStringShape(rules[first], t.s);
    }
  }

  /** This step leads from t to the child, whose path extends t's. */
  ghost predicate StepsTo(t: Json, path: string, step: Step, child: Json, childPath: string) {
    match step
    case Key(key) => t.Obj? && key in t.fields && child == t.fields[key] && childPath == KeyPath(path, key)
    case Item(i) => t.Arr? && i < |t.items| && child == t.items[i] && childPath == ItemPath(path)
  }

  lemma ChildFits(rules: seq<Rule>, t: Json, path: string, step: Step, child: Json, childPath: string, steps: seq<Step>)
    requires LeafFits(rules, t, path, [step] + steps) && StepsTo(t, path, step, child, childPath)
    ensures LeafFits(rules, child, childPath, steps)
  {
    AtChild(t, path, step, child, childPath, steps);
    PathOfChild(t, path, step, child, childPath, steps);
  }

  lemma AtChild(t: Json, path: string, step: Step, child: Json, childPath: string, steps: seq<Step>)
    requires StepsTo(t, path, step, child, childPath)
    ensures At(t, [step] + steps) == At(child, steps)
  {
    assert ([step] + steps)[1..] == steps;
  }

  lemma PathOfChild(t: Json, path: string, step: Step, child: Json, childPath: string, steps: seq<Step>)
    requires StepsTo(t, path, step, child, childPath)
    ensures path + PathText([step] + steps) == childPath + PathText(steps)
  {
    assert ([step] + steps)[1..] == steps;
    var text := match step case Key(k) => "." + k case Item(_) => "[]";
    assert path + (text + PathText(steps)) == path + text + PathText(steps);
  }
}
