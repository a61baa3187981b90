/** src/identity.rs: lists and summaries read from arbitrarily nested JSON. */
module IdentityLists {
  import opened Text
  import opened TextMeaning
  import opened Json

  /** The order in which an object's keys are visited. */
  type KeyOrder = set<string> -> seq<string>

  ghost predicate Enumerates(order: KeyOrder) {
    forall keys: set<string>, k: string :: k in order(keys) <==> k in keys
  }

  /** `Number::to_string`. */
  type ShowNumber = Number -> string

  // ----- dedupe_non_empty ---------------------------------------------------------------------------------

  /** `eq_ignore_ascii_case`. */
  predicate SameWord(a: string, b: string) { Lower(a) == Lower(b) }

  predicate Listed(words: seq<string>, w: string) { exists i :: 0 <= i < |words| && SameWord(words[i], w) }

  function Add(words: seq<string>, value: string): seq<string> {
    if Trim(value) == [] || Listed(words, Trim(value)) then words else words + [Trim(value)]
  }

  function AddAll(words: seq<string>, values: seq<string>): seq<string>
    decreases |values|
  {
    if values == [] then words else AddAll(Add(words, values[0]), values[1..])
  }

  function Dedupe(values: seq<string>): seq<string> { AddAll([], values) }

  /** `dedupe_non_empty`. */
  method DedupeNonEmpty(values: seq<string>) returns (deduped: seq<string>)
    ensures deduped == Dedupe(values)
  {
    hide Trim, Lower;
    deduped := [];
    assert values[0..] == values;
    for i := 0 to |values|
      invariant AddAll(deduped, values[i..]) == Dedupe(values)
    {
      assert values[i..][0] == values[i] && values[i..][1..] == values[i + 1..];
      var trimmed := Trim(values[i]);
      if trimmed == [] { continue; }
      var found := false;
      for j := 0 to |deduped|
        invariant found <==> exists k :: 0 <= k < j && SameWord(deduped[k], trimmed)
      {
        if SameWord(deduped[j], trimmed) { found := true; }
      }
      if !found { deduped := deduped + [trimmed]; }
    }
  }

  /** Trimmed, not empty, and no two the same ignoring ASCII case. */
  predicate IsWordList(words: seq<string>) {
    && (forall i | 0 <= i < |words| :: words[i] != [] && Trim(words[i]) == words[i])
    && forall i, j | 0 <= i < j < |words| :: !SameWord(words[i], words[j])
  }

  lemma {:induction false} AddAllIsWordList(words: seq<string>, values: seq<string>)
    requires IsWordList(words)
    ensures IsWordList(AddAll(words, values))
    decreases |values|
  {
    hide Trim, Lower;
    if values != [] {
      TrimTwice(values[0]);
      AddAllIsWordList(Add(words, values[0]), values[1..]);
    }
  }

  predicate Named(values: seq<string>, w: string) { exists v :: v in values && Trim(v) == w }

  /** The old words stay in front, every value that is not blank is listed at the end, and every word
      that was added is one of the values. */
  lemma {:induction false} AddAllCovers(words: seq<string>, values: seq<string>)
    ensures var r := AddAll(words, values);
      && words <= r
      && (forall v | v in values && Trim(v) != [] :: Listed(r, Trim(v)))
      && (forall i | |words| <= i < |r| :: Named(values, r[i]))
    decreases |values|
  {
    hide Trim, Lower, Add, Listed, Named;
    if values != [] {
      var next := Add(words, values[0]);
      AddAllCovers(next, values[1..]);
      var r := AddAll(words, values);
      assert values == [values[0]] + values[1..];
      AddCovers(words, values[0], r, values);
      forall i | |words| <= i < |r| ensures Named(values, r[i]) {
        if i >= |next| { NamedLater(values, r[i]); }
      }
    }
  }

  lemma AddCovers(words: seq<string>, v: string, r: seq<string>, values: seq<string>)
    requires Add(words, v) <= r && v in values
    ensures words <= r && (Trim(v) != [] ==> Listed(r, Trim(v)))
    ensures forall i | |words| <= i < |Add(words, v)| :: Named(values, r[i])
  {
    hide Trim, Lower;
    var next := Add(words, v);
    if Trim(v) != [] && !Listed(words, Trim(v)) {
      assert SameWord(r[|words|], Trim(v)) && Trim(v) == next[|words|] == r[|words|];
    } else if Trim(v) != [] {
      var i :| 0 <= i < |words| && SameWord(words[i], Trim(v));
      assert r[i] == words[i];
    }
  }

  lemma NamedLater(values: seq<string>, w: string)
    requires values != [] && Named(values[1..], w)
    ensures Named(values, w)
  {
    hide Trim;
    var v :| v in values[1..] && Trim(v) == w;
    assert v in values;
  }

  lemma {:induction false} AddAllSplits(words: seq<string>, a: seq<string>, b: seq<string>)
    ensures AddAll(words, a + b) == AddAll(AddAll(words, a), b)
    decreases |a|
  {
    hide Trim, Lower, Listed;
    if a == [] {
      assert a + b == b;
    } else {
      assert (a + b)[1..] == a[1..] + b;
      AddAllSplits(Add(words, a[0]), a[1..], b);
    }
  }

  lemma AddOne(words: seq<string>, v: string)
    ensures AddAll(words, [v]) == Add(words, v)
  {
    hide Add;
    assert [v][1..] == [];
  }

  /** Deduplicating first makes no difference. */
  lemma {:induction false} DedupeFirst(words: seq<string>, values: seq<string>)
    ensures AddAll(words, Dedupe(values)) == AddAll(words, values)
    decreases |values|
  {
    hide Trim, Lower, AddAll, Listed;
    if values == [] {
      NothingAdded([]);
    } else {
      var front, x := values[..|values| - 1], values[|values| - 1];
      assert values == front + [x];
      var d := Dedupe(front);
      DedupeFirst(words, front);
      AddAllSplits([], front, [x]);
      AddAllSplits(words, front, [x]);
      AddOne(d, x);
      AddOne(AddAll(words, front), x);
      if Trim(x) != [] && Listed(d, Trim(x)) {
        StaysListed(words, front, Trim(x));
      } else if Trim(x) != [] {
        AddAllSplits(words, d, [Trim(x)]);
        AddOne(AddAll(words, d), Trim(x));
        TrimTwice(x);
      }
    }
  }

  lemma NothingAdded(words: seq<string>)
    ensures AddAll(words, []) == words
  {
  }

  lemma StaysListed(words: seq<string>, values: seq<string>, w: string)
    requires Listed(Dedupe(values), w)
    ensures Listed(AddAll(words, values), w)
  {
    hide Trim, Lower, AddAll;
    var d := Dedupe(values);
    var r := AddAll(words, values);
    AddAllCovers([], values);
    AddAllCovers(words, values);
    AddAllIsWordList([], values);
    var i :| 0 <= i < |d| && SameWord(d[i], w);
    assert Named(values, d[i]);
    var v :| v in values && Trim(v) == d[i];
    assert Listed(r, Trim(v));
    var k :| 0 <= k < |r| && SameWord(r[k], Trim(v));
    assert SameWord(r[k], w);
  }

  // ----- reading nested values -----------------------------------------------------------------------------

  /** `scalar_to_string`; nothing for null and for containers. */
  function Scalar(v: Value, show: ShowNumber): Option<string> {
    match v
    case Str(s) => if Trim(s) == [] then None else Some(Trim(s))
    case Num(n) => Some(show(n))
    case Bool(b) => Some(if b then "true" else "false")
    case _ => None
  }

  function ScalarAt(m: map<string, Value>, key: string, show: ShowNumber): Option<string> {
    if key in m then Scalar(m[key], show) else None
  }

  /** The `name` or else the `title` of an object. */
  function Title(m: map<string, Value>, show: ShowNumber): Option<string> {
    if ScalarAt(m, "name", show).Some? then ScalarAt(m, "name", show) else ScalarAt(m, "title", show)
  }

  function OptionToSeq<T>(o: Option<T>): seq<T> {
    match o case Some(x) => [x] case None => []
  }

  /** `list_from_value`, with a deduplication at every level. */
  function List(v: Value, order: KeyOrder, show: ShowNumber): seq<string>
    requires Enumerates(order)
    decreases v, 3, 0
  {
    match v
    case Arr(items) => Dedupe(Lists(v, |items|, order, show))
    case Obj(m) =>
      Dedupe(OptionToSeq(if Title(m, show).Some? then Title(m, show) else Summary(v, order, show)))
    case _ => Dedupe(OptionToSeq(Scalar(v, show)))
  }

  /** The lists of the first `n` items. */
  function Lists(v: Value, n: nat, order: KeyOrder, show: ShowNumber): seq<string>
    requires Enumerates(order) && v.Arr? && n <= |v.items|
    decreases v, 2, n
  {
    if n == 0 then [] else Lists(v, n - 1, order, show) + List(v.items[n - 1], order, show)
  }

  /** `summarize_object`. */
  function Summary(v: Value, order: KeyOrder, show: ShowNumber): Option<string>
    requires Enumerates(order) && v.Obj?
    decreases v, 2, 0
  {
    var parts := Parts([], v, order(v.fields.Keys), order, show);
    if parts == [] then None else Some(Join(parts, "; "))
  }

  function FullLabel(prefix: string, key: string): string {
    var name := Replace(key, "_", " ");
    if prefix == [] then name else prefix + " " + name
  }

  /** What the given fields of an object contribute to its summary. */
  function Parts(prefix: string, v: Value, keys: seq<string>, order: KeyOrder, show: ShowNumber): seq<string>
    requires Enumerates(order) && v.Obj? && forall k | k in keys :: k in v.fields
    decreases v, 1, |keys|
  {
    if keys == [] then []
    else
      assert keys[0] in v.fields;
      Part(prefix, keys[0], v.fields[keys[0]], order, show) + Parts(prefix, v, keys[1..], order, show)
  }

  function Part(prefix: string, key: string, v: Value, order: KeyOrder, show: ShowNumber): seq<string>
    requires Enumerates(order)
    decreases v, 4, 0
  {
    if "@" <= key then [] else
      match v
      case Obj(m) => Parts(FullLabel(prefix, key), v, order(m.Keys), order, show)
      case Arr(_) =>
        var values := List(v, order, show);
        if values == [] then [] else [FullLabel(prefix, key) + ": " + Join(values, ", ")]
      case _ =>
        match Scalar(v, show)
        case None => []
        case Some(text) => [FullLabel(prefix, key) + ": " + text]
  }

  /** `list_from_value`. */
  method ListFromValue(v: Value, order: KeyOrder, show: ShowNumber) returns (r: seq<string>)
    requires Enumerates(order)
    ensures r == List(v, order, show)
    decreases v, 3, 0
  {
    hide Dedupe, Trim;
    var values := [];
    match v {
      case Arr(items) =>
        for i := 0 to |items|
          invariant values == Lists(v, i, order, show)
        {
          var inner := ListFromValue(items[i], order, show);
          values := values + inner;
        }
      case Obj(m) =>
        var title := Title(m, show);
        if title.Some? {
          values := [title.value];
        } else {
          var parts := SummarizeInto([], v, order, show, []);
          assert parts == Parts([], v, order(m.Keys), order, show);
          if parts != [] { values := [Join(parts, "; ")]; }
        }
      case _ =>
        values := OptionToSeq(Scalar(v, show));
    }
    r := DedupeNonEmpty(values);
  }

  /** `summarize_object_into_parts`: only appends to the parts collected so far. */
  method SummarizeInto(prefix: string, v: Value, order: KeyOrder, show: ShowNumber, parts: seq<string>)
    returns (r: seq<string>)
    requires Enumerates(order) && v.Obj?
    ensures r == parts + Parts(prefix, v, order(v.fields.Keys), order, show)
    decreases v, 2, 0
  {
    hide List, Scalar, FullLabel;
    var keys := order(v.fields.Keys);
    r := parts;
    assert keys[0..] == keys;
    for i := 0 to |keys|
      invariant r + Parts(prefix, v, keys[i..], order, show) == parts + Parts(prefix, v, keys, order, show)
    {
      assert keys[i] in keys;
      assert keys[i..][0] == keys[i] && keys[i..][1..] == keys[i + 1..];
      ghost var before := r;
      r := SummarizeField(prefix, keys[i], v.fields[keys[i]], order, show, r);
      ghost var later := Parts(prefix, v, keys[i + 1..], order, show);
      Assoc(before, Part(prefix, keys[i], v.fields[keys[i]], order, show), later);
    }
    assert r + [] == r;
  }

  method SummarizeField(prefix: string, key: string, v: Value, order: KeyOrder, show: ShowNumber, parts: seq<string>)
    returns (r: seq<string>)
    requires Enumerates(order)
    ensures r == parts + Part(prefix, key, v, order, show)
    decreases v, 4, 0
  {
    hide List, Scalar, FullLabel;
    r := parts;
    if "@" <= key { return; }
    var full := FullLabel(prefix, key);
    match v {
      case Obj(m) => r := SummarizeInto(full, v, order, show, parts);
      case Arr(_) =>
        var values := ListFromValue(v, order, show);
        if values != [] { r := parts + [full + ": " + Join(values, ", ")]; }
      case _ =>
        var text := Scalar(v, show);
        if text.Some? { r := parts + [full + ": " + text.value]; }
    }
  }

  // ----- one deduplication is enough -----------------------------------------------------------------------------

  /** The words of the leaves, in order, before any deduplication: an array is looked through at any
      depth, an object is one leaf. */
  function Leaves(v: Value, order: KeyOrder, show: ShowNumber): seq<string>
    requires Enumerates(order)
    decreases v, 1, 0
  {
    match v
    case Arr(items) => LeavesTo(v, |items|, order, show)
    case Obj(m) => OptionToSeq(if Title(m, show).Some? then Title(m, show) else Summary(v, order, show))
    case _ => OptionToSeq(Scalar(v, show))
  }

  function LeavesTo(v: Value, n: nat, order: KeyOrder, show: ShowNumber): seq<string>
    requires Enumerates(order) && v.Arr? && n <= |v.items|
    decreases v, 0, n
  {
    if n == 0 then [] else LeavesTo(v, n - 1, order, show) + Leaves(v.items[n - 1], order, show)
  }

  /** However arrays are nested, the list is one deduplication of the leaves in order. */
  lemma {:induction false} ListIsOneDedupe(v: Value, order: KeyOrder, show: ShowNumber)
    requires Enumerates(order)
    ensures List(v, order, show) == Dedupe(Leaves(v, order, show))
    decreases v, 1, 0
  {
    hide Dedupe, Summary, Title, Scalar;
    if v.Arr? { ListsAreLeaves(v, |v.items|, order, show); }
  }

  lemma {:induction false} ListsAreLeaves(v: Value, n: nat, order: KeyOrder, show: ShowNumber)
    requires Enumerates(order) && v.Arr? && n <= |v.items|
    ensures Dedupe(Lists(v, n, order, show)) == Dedupe(LeavesTo(v, n, order, show))
    decreases v, 0, n
  {
    hide AddAll, List, Leaves;
    if n > 0 {
      var item := v.items[n - 1];
      ListsAreLeaves(v, n - 1, order, show);
      ListIsOneDedupe(item, order, show);
      var a, b := Lists(v, n - 1, order, show), LeavesTo(v, n - 1, order, show);
      var leaves := Leaves(item, order, show);
      AddAllSplits([], a, Dedupe(leaves));
      AddAllSplits([], b, leaves);
      DedupeFirst(Dedupe(b), leaves);
    }
  }

  /** The result is a list of distinct trimmed words that names every leaf word. */
  lemma ListIsWordList(v: Value, order: KeyOrder, show: ShowNumber)
    requires Enumerates(order)
    ensures var r := List(v, order, show);
      && IsWordList(r)
      && (forall w | w in Leaves(v, order, show) && Trim(w) != [] :: Listed(r, Trim(w)))
      && (forall i | 0 <= i < |r| :: Named(Leaves(v, order, show), r[i]))
  {
    hide Trim, Lower, Dedupe, List, Leaves;
    ListIsOneDedupe(v, order, show);
    DedupeCovers(Leaves(v, order, show));
  }

  lemma DedupeCovers(values: seq<string>)
    ensures var r := Dedupe(values);
      && IsWordList(r)
      && (forall v | v in values && Trim(v) != [] :: Listed(r, Trim(v)))
      && (forall i | 0 <= i < |r| :: Named(values, r[i]))
  {
    hide Trim, Lower, AddAll;
    AddAllIsWordList([], values);
    AddAllCovers([], values);
  }

  // ----- what objects say --------------------------------------------------------------------------------------

  /** The text of a scalar: trimmed text that is not blank, the digits of a number, or a flag. */
  predicate IsScalarText(v: Value, show: ShowNumber, t: string) {
    match v
    case Str(s) => t != [] && IsTrimmed(s, t)
    case Num(n) => t == show(n)
    case Bool(b) => t == if b then "true" else "false"
    case _ => false
  }

  lemma ScalarIs(v: Value, show: ShowNumber)
    ensures forall t :: Scalar(v, show) == Some(t) <==> IsScalarText(v, show, t)
  {
    hide Trim, IsTrimmed;
    if v.Str? { forall t ensures Trim(v.s) == t <==> IsTrimmed(v.s, t) { TrimIs(v.s, t); } }
  }

  lemma OneWord(w: string)
    requires Trim(w) == w && w != []
    ensures Dedupe([w]) == [w]
  {
    hide Trim, Lower;
    AddOne([], w);
  }

  /** An object with a name, or else with a title, is listed as that. */
  lemma ObjectsAreTitled(m: map<string, Value>, t: string, order: KeyOrder, show: ShowNumber)
    requires Enumerates(order) && Trim(t) == t && t != []
    requires || ("name" in m && IsScalarText(m["name"], show, t))
             || ("title" in m && IsScalarText(m["title"], show, t)
                 && ("name" in m ==> forall u :: !IsScalarText(m["name"], show, u)))
    ensures List(Obj(m), order, show) == [t]
  {
    hide Trim, Lower, Scalar, IsScalarText, Dedupe, Summary;
    if "name" in m { ScalarIs(m["name"], show); }
    if "title" in m { ScalarIs(m["title"], show); }
    OneWord(t);
  }

  /** `l` is the key with blanks for underscores, behind the labels of the objects around it. */
  predicate IsLabel(prefix: string, key: string, l: string) {
    var head := if prefix == "" then "" else prefix + " ";
    && |l| == |head| + |key| && head <= l
    && forall i | 0 <= i < |key| :: l[|head| + i] == if key[i] == '_' then ' ' else key[i]
  }

  lemma {:induction false} BlanksForUnderscores(key: string)
    ensures var r := Replace(key, "_", " ");
      |r| == |key| && forall i | 0 <= i < |key| :: r[i] == if key[i] == '_' then ' ' else key[i]
  {
    if key != [] {
      BlanksForUnderscores(key[1..]);
      assert "_" <= key <==> key[0] == '_';
    }
  }

  lemma LabelIs(prefix: string, key: string)
    ensures IsLabel(prefix, key, FullLabel(prefix, key))
  {
    BlanksForUnderscores(key);
  }

  predicate IsFlat(v: Value) { v.Obj? && forall k | k in v.fields :: !v.fields[k].Obj? && !v.fields[k].Arr? }

  /** The parts are, key by key, label and text of the fields that have a text and whose key does not start
      with `@`. */
  ghost predicate PartsOf(prefix: string, v: Value, keys: seq<string>, show: ShowNumber, parts: seq<string>)
    requires v.Obj? && forall k | k in keys :: k in v.fields
    decreases |keys|
  {
    if keys == [] then parts == []
    else if keys[0] != "" && keys[0][0] == '@' then PartsOf(prefix, v, keys[1..], show, parts)
    else if forall t :: !IsScalarText(v.fields[keys[0]], show, t) then PartsOf(prefix, v, keys[1..], show, parts)
    else
      && parts != [] && IsPart(prefix, keys[0], v.fields[keys[0]], show, parts[0])
      && PartsOf(prefix, v, keys[1..], show, parts[1..])
  }

  ghost predicate IsPart(prefix: string, key: string, v: Value, show: ShowNumber, part: string) {
    exists l, t :: IsLabel(prefix, key, l) && IsScalarText(v, show, t) && part == l + ": " + t
  }

  lemma OnePart(prefix: string, key: string, v: Value, order: KeyOrder, show: ShowNumber)
    requires Enumerates(order) && !v.Obj? && !v.Arr?
    ensures var parts := Part(prefix, key, v, order, show);
      if (key != "" && key[0] == '@') || forall t :: !IsScalarText(v, show, t) then parts == []
      else |parts| == 1 && IsPart(prefix, key, v, show, parts[0])
  {
    hide Scalar, IsScalarText, FullLabel, IsLabel;
    ScalarIs(v, show);
    LabelIs(prefix, key);
  }

  lemma {:induction false} FlatPartsAre(prefix: string, v: Value, keys: seq<string>, order: KeyOrder, show: ShowNumber)
    requires Enumerates(order) && IsFlat(v) && forall k | k in keys :: k in v.fields
    ensures PartsOf(prefix, v, keys, show, Parts(prefix, v, keys, order, show))
    decreases |keys|
  {
    hide Part, IsPart, IsScalarText;
    if keys != [] {
      assert keys[0] in keys;
      OnePart(prefix, keys[0], v.fields[keys[0]], order, show);
      FlatPartsAre(prefix, v, keys[1..], order, show);
      var one, more := Part(prefix, keys[0], v.fields[keys[0]], order, show), Parts(prefix, v, keys[1..], order, show);
      assert one == [] ==> one + more == more;
      assert |one| == 1 ==> (one + more)[0] == one[0] && (one + more)[1..] == more;
    }
  }
}
