/** The walk itself, over a parsed document on the heap, in any map iteration order. */
module RedactionWalk {
  import opened Wrappers
  import opened Redaction

  /** A value as the JSON decoder builds it: maps and slices are references. */
  datatype Data = Text(s: string) | Scalar(id: nat) | MapRef(m: Fields) | SliceRef(a: array<Data>)

  class Fields {
    var entries: map<string, Data>

    constructor (entries: map<string, Data>)
      ensures this.entries == entries
    {
      this.entries := entries;
    }
  }

  /** Which heap cells a document is made of; the walk never changes this. */
  datatype Cells = NoCells | MapCell(m: Fields, entries: map<string, Cells>) | SliceCell(a: array<Data>, items: seq<Cells>)

  ghost function Footprint(c: Cells): set<object> {
    match c
    case NoCells => {}
    case MapCell(m, entries) => {m} + set k, o | k in entries && o in Footprint(entries[k]) :: o
    case SliceCell(a, items) => {a} + set i, o | 0 <= i < |items| && o in Footprint(items[i]) :: o
  }

  /** A freshly decoded document is a tree: no cell is used twice. */
  ghost predicate IsTree(c: Cells) {
    match c
    case NoCells => true
    case MapCell(m, entries) =>
      && (forall k | k in entries :: IsTree(entries[k]) && m !in Footprint(entries[k]))
      && (forall k, l | k in entries && l in entries && k != l :: Footprint(entries[k]) !! Footprint(entries[l]))
    case SliceCell(a, items) =>
      && (forall i | 0 <= i < |items| :: IsTree(items[i]) && a !in Footprint(items[i]))
      && (forall i, j | 0 <= i < |items| && 0 <= j < |items| && i != j :: Footprint(items[i]) !! Footprint(items[j]))
  }

  /** The heap value d, made of the cells c, is the JSON value t. */
  ghost predicate Means(d: Data, t: Json, c: Cells)
    reads Footprint(c)
    decreases c
  {
    match t
    case Str(s) => d == Text(s) && c.NoCells?
    case Other(id) => d == Scalar(id) && c.NoCells?
    case Obj(fields) =>
      d.MapRef? && c.MapCell? && d.m == c.m && c.m.entries.Keys == fields.Keys && c.entries.Keys == fields.Keys &&
      forall k | k in fields :: Footprint(c.entries[k]) <= Footprint(c) && Means(c.m.entries[k], fields[k], c.entries[k])
    case Arr(items) =>
      d.SliceRef? && c.SliceCell? && d.a == c.a && c.a.Length == |items| && |c.items| == |items| &&
      forall i | 0 <= i < |items| :: Footprint(c.items[i]) <= Footprint(c) && Means(c.a[i], items[i], c.items[i])
  }

  lemma CellsAreAllocated(c: Cells)
    ensures forall o | o in Footprint(c) :: allocated(o)
    decreases c
  {
    match c
    case NoCells =>
    case MapCell(m, entries) =>
      forall k | k in entries
        ensures forall o | o in Footprint(entries[k]) :: allocated(o)
      {
        CellsAreAllocated(entries[k]);
      }
    case SliceCell(a, items) =>
      forall i | 0 <= i < |items|
        ensures forall o | o in Footprint(items[i]) :: allocated(o)
      {
        CellsAreAllocated(items[i]);
      }
  }

  /** A string after its first matching rule, number k, or left alone if k is past the
      rules; the rule fails exactly if a hint is longer than the string. */
  ghost predicate FirstRuleApplied(rules: seq<Rule>, path: string, s: string, k: nat, result: Data, ok: bool) {
    && FirstRuleAt(rules, path, k)
    && (ok <==> (k < |rules| ==> rules[k].hintCharsStart <= |s| && rules[k].hintCharsEnd <= |s|))
    && (ok ==> result == Text(LeafText(rules, s, k)))
  }

  lemma RedactedAsText(rules: seq<Rule>, path: string, s: string, k: nat)
    requires FirstRuleAt(rules, path, k) && k < |rules| && RedactString(rules[k], s).Some?
    ensures rules[k].hintCharsStart <= |s| && rules[k].hintCharsEnd <= |s|
    ensures RedactString(rules[k], s) == Some(LeafText(rules, s, k))
  {
    var first := FirstMatchIsFirst(rules, path);
    FirstRuleIsUnique(rules, path, first, k);
    RedactStringShape(rules[k], s);
    LeafRewritten(rules, Str(s), path, k);
  }

  /** traverseJSON. Without an out-of-range slice the document is rewritten in
      its own cells into exactly its redaction; `ok` is false if it panics, and
      that happens exactly when some matched string is too short. */
  method TraverseJSON(rules: seq<Rule>, data: Data, path: string, ghost t: Json, ghost c: Cells) returns (result: Data, ok: bool)
    requires Means(data, t, c) && IsTree(c)
    modifies Footprint(c)
    ensures ok == InRange(rules, t, path)
    ensures ok ==> Means(result, Redacted(rules, t, path), c)
    ensures data.Text? || result == data
    ensures data.Text? ==> exists k: nat :: FirstRuleApplied(rules, path, data.s, k, result, ok)
    decreases t, 2
  {
    match data
    case Text(s) =>
      ok := true;
      result := data;
      var i := 0;
      while i < |rules|
        invariant 0 <= i <= |rules|
        invariant forall j :: 0 <= j < i ==> !rules[j].matches(path)
        invariant FirstMatch(rules, path) == FirstMatch(rules[i..], path)
      {
        if rules[i].matches(path) {
          RedactStringShape(rules[i], s);
          var r := RedactString(rules[i], s);
          if r.None? {
            result, ok := data, false;
          } else {
            result, ok := Text(r.value), true;
            RedactedAsText(rules, path, s, i);
          }
          assert FirstRuleApplied(rules, path, s, i, result, ok);
          return;
        }
        i := i + 1;
      }
      assert FirstRuleApplied(rules, path, s, i, result, ok);
    case Scalar(_) =>
      result, ok := data, true;
    case MapRef(m) =>
      ok := TraverseMap(rules, m, path, t, c);
      result := data;
    case SliceRef(a) =>
      ok := TraverseSlice(rules, a, path, t, c);
      result := data;
  }

  method StoreItem(a: array<Data>, i: nat, value: Data, ghost values: seq<Json>, ghost c: Cells)
    requires c.SliceCell? && c.a == a && IsTree(c) && i < a.Length == |values| == |c.items|
    requires Means(value, values[i], c.items[i])
    requires forall j | 0 <= j < a.Length && j != i :: Means(a[j], values[j], c.items[j])
    modifies a
    ensures forall j | 0 <= j < a.Length :: Means(a[j], values[j], c.items[j])
  {
    forall j | 0 <= j < a.Length
      ensures forall o | o in Footprint(c.items[j]) :: allocated(o)
    {
      CellsAreAllocated(c.items[j]);
    }
    a[i] := value;
    forall j | 0 <= j < a.Length
      ensures Means(a[j], values[j], c.items[j])
    {
      var cell, d, v := c.items[j], a[j], values[j];
      assert old(Means(d, v, cell));
      assert a !in Footprint(cell);
      assert Means(d, v, cell) == old(Means(d, v, cell));
    }
  }

  /** The loop body for one element; the other elements keep their values. */
  method TraverseItem(rules: seq<Rule>, a: array<Data>, i: nat, path: string, ghost values: seq<Json>, ghost c: Cells) returns (ok: bool)
    requires c.SliceCell? && c.a == a && IsTree(c) && i < a.Length == |values| == |c.items|
    requires forall j | 0 <= j < a.Length :: Means(a[j], values[j], c.items[j])
    modifies {a} + Footprint(c.items[i])
    ensures ok == InRange(rules, values[i], path)
    ensures ok ==> Means(a[i], Redacted(rules, values[i], path), c.items[i])
    ensures ok ==> forall j | 0 <= j < a.Length && j != i :: Means(a[j], values[j], c.items[j])
    decreases values[i], 3
  {
    ghost var cell := c.items[i];
    forall j | 0 <= j < a.Length
      ensures forall o | o in Footprint(c.items[j]) :: allocated(o)
    {
      CellsAreAllocated(c.items[j]);
    }
    var value, fine := TraverseJSON(rules, a[i], path, values[i], cell);
    if fine {
      ghost var redacted := Redacted(rules, values[i], path);
      forall j | 0 <= j < a.Length && j != i
        ensures Means(a[j], values[j], c.items[j])
      {
        var other, d, v := c.items[j], a[j], values[j];
        assert old(Means(d, v, other));
        assert Footprint(other) !! Footprint(cell);
        assert forall o | o in Footprint(other) :: o !in Footprint(cell) && unchanged(o);
        assert Means(d, v, other) == old(Means(d, v, other));
      }
      StoreItem(a, i, value, values[i := redacted], c);
    }
    return fine;
  }

  method TraverseSlice(rules: seq<Rule>, a: array<Data>, path: string, ghost t: Json, ghost c: Cells) returns (ok: bool)
    requires Means(SliceRef(a), t, c) && IsTree(c)
    modifies Footprint(c)
    ensures ok == InRange(rules, t, path)
    ensures ok ==> Means(SliceRef(a), Redacted(rules, t, path), c)
    decreases t, 0
  {
    ghost var values := t.items;
    var i := 0;
    while i < a.Length
      invariant 0 <= i <= a.Length == |values|
      invariant forall j | 0 <= j < a.Length :: Means(a[j], values[j], c.items[j])
      invariant forall j | 0 <= j < i :: InRange(rules, t.items[j], ItemPath(path)) && values[j] == Redacted(rules, t.items[j], ItemPath(path))
      invariant forall j | i <= j < a.Length :: values[j] == t.items[j]
    {
      var fine := TraverseItem(rules, a, i, ItemPath(path), values, c);
      if !fine {
        return false;
      }
      values := values[i := Redacted(rules, values[i], ItemPath(path))];
      i := i + 1;
    }
    return true;
  }

  method StoreEntry(m: Fields, key: string, value: Data, ghost values: map<string, Json>, ghost c: Cells)
    requires c.MapCell? && c.m == m && IsTree(c) && key in values && m.entries.Keys == values.Keys == c.entries.Keys
    requires Means(value, values[key], c.entries[key])
    requires forall k | k in values && k != key :: Means(m.entries[k], values[k], c.entries[k])
    modifies m
    ensures m.entries.Keys == values.Keys
    ensures forall k | k in values :: Means(m.entries[k], values[k], c.entries[k])
  {
    forall k | k in values
      ensures forall o | o in Footprint(c.entries[k]) :: allocated(o)
    {
      CellsAreAllocated(c.entries[k]);
    }
    m.entries := m.entries[key := value];
    forall k | k in values
      ensures Means(m.entries[k], values[k], c.entries[k])
    {
      var cell, d, v := c.entries[k], m.entries[k], values[k];
      assert old(Means(d, v, cell));
      assert m !in Footprint(cell);
      assert Means(d, v, cell) == old(Means(d, v, cell));
    }
  }

  /** The loop body for one key; the other entries keep their values. */
  method TraverseEntry(rules: seq<Rule>, m: Fields, key: string, path: string, ghost values: map<string, Json>, ghost c: Cells) returns (ok: bool)
    requires c.MapCell? && c.m == m && IsTree(c) && key in values && m.entries.Keys == values.Keys == c.entries.Keys
    requires forall k | k in values :: Means(m.entries[k], values[k], c.entries[k])
    modifies {m} + Footprint(c.entries[key])
    ensures m.entries.Keys == values.Keys
    ensures ok == InRange(rules, values[key], path)
    ensures ok ==> Means(m.entries[key], Redacted(rules, values[key], path), c.entries[key])
    ensures ok ==> forall k | k in values && k != key :: Means(m.entries[k], values[k], c.entries[k])
    decreases values[key], 3
  {
    ghost var cell := c.entries[key];
    forall k | k in values
      ensures forall o | o in Footprint(c.entries[k]) :: allocated(o)
    {
      CellsAreAllocated(c.entries[k]);
    }
    var value, fine := TraverseJSON(rules, m.entries[key], path, values[key], cell);
    if fine {
      ghost var redacted := Redacted(rules, values[key], path);
      forall k | k in values && k != key
        ensures Means(m.entries[k], values[k], c.entries[k])
      {
        var other, d, v := c.entries[k], m.entries[k], values[k];
        assert old(Means(d, v, other));
        assert Footprint(other) !! Footprint(cell);
        assert forall o | o in Footprint(other) :: o !in Footprint(cell) && unchanged(o);
        assert Means(d, v, other) == old(Means(d, v, other));
      }
      StoreEntry(m, key, value, values[key := redacted], c);
    }
    return fine;
  }

  /** The values of a half-walked map: the keys in `rest` are still to come. */
  ghost predicate Walked(rules: seq<Rule>, path: string, fields: map<string, Json>, values: map<string, Json>, rest: set<string>) {
    && values.Keys == fields.Keys && rest <= fields.Keys
    && forall k | k in fields ::
         if k in rest then values[k] == fields[k]
         else InRange(rules, fields[k], KeyPath(path, k)) && values[k] == Redacted(rules, fields[k], KeyPath(path, k))
  }

  lemma WalkedFurther(rules: seq<Rule>, path: string, fields: map<string, Json>, values: map<string, Json>, rest: set<string>, key: string)
    requires Walked(rules, path, fields, values, rest) && key in rest && InRange(rules, values[key], KeyPath(path, key))
    ensures Walked(rules, path, fields, values[key := Redacted(rules, values[key], KeyPath(path, key))], rest - {key})
  {
  }

  lemma WalkedThrough(rules: seq<Rule>, path: string, t: Json, values: map<string, Json>)
    requires t.Obj? && Walked(rules, path, t.fields, values, {})
    ensures InRange(rules, t, path) && Redacted(rules, t, path) == Obj(values)
  {
    assert Redacted(rules, t, path).fields == values;
  }

  /** The loop over a map's entries, in whatever order they come. */
  method WalkEntries(rules: seq<Rule>, m: Fields, path: string, ghost t: Json, ghost c: Cells)
    returns (ok: bool, ghost values: map<string, Json>)
    requires Means(MapRef(m), t, c) && IsTree(c)
    modifies Footprint(c)
    ensures m.entries.Keys == t.fields.Keys
    ensures ok ==> Walked(rules, path, t.fields, values, {}) && forall k | k in values :: Means(m.entries[k], values[k], c.entries[k])
    ensures !ok ==> exists k :: k in t.fields && !InRange(rules, t.fields[k], KeyPath(path, k))
    decreases t, 0
  {
    values := t.fields;
    var rest := m.entries.Keys;
    while rest != {}
      invariant Walked(rules, path, t.fields, values, rest) && m.entries.Keys == values.Keys
      invariant forall k | k in values :: Means(m.entries[k], values[k], c.entries[k])
      decreases rest
    {
      var key :| key in rest;
      var fine := TraverseEntry(rules, m, key, KeyPath(path, key), values, c);
      if !fine {
        return false, values;
      }
      WalkedFurther(rules, path, t.fields, values, rest, key);
      values := values[key := Redacted(rules, values[key], KeyPath(path, key))];
      rest := rest - {key};
    }
    return true, values;
  }

  method TraverseMap(rules: seq<Rule>, m: Fields, path: string, ghost t: Json, ghost c: Cells) returns (ok: bool)
    requires Means(MapRef(m), t, c) && IsTree(c)
    modifies Footprint(c)
    ensures ok == InRange(rules, t, path)
    ensures ok ==> Means(MapRef(m), Redacted(rules, t, path), c)
    decreases t, 1
  {
    ghost var values;
    ok, values := WalkEntries(rules, m, path, t, c);
    if ok {
      WalkedThrough(rules, path, t, values);
    }
  }
}
