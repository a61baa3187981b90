/** src/main.rs: the dot-path walks of `config get` and `config set`. */
module ConfigPaths {
  import opened Text
  import opened Json
  import opened Redaction

  // ----- dot paths -------------------------------------------------------------------------------------------

  /** The walk of `config get`: one object field per segment. */
  function Lookup(v: Value, path: seq<string>): Option<Value>
    decreases |path|
  {
    if path == [] then Some(v)
    else match Get(v, path[0])
      case None => None
      case Some(w) => Lookup(w, path[1..])
  }

  /** What `config get` and `config show` let through at the first masked segment of a path. */
  function Visible(p: Policy, v: Value, path: seq<string>): Option<Value>
    decreases |path|
  {
    if path == [] then Some(Redact(p, v))
    else match Get(v, path[0])
      case None => None
      case Some(w) => if p.hides(path[0]) then Lookup(p.mask(w), path[1..]) else Visible(p, w, path[1..])
  }

  /** A lookup in the redacted value, for any path. */
  lemma {:induction false} LookupRedacted(p: Policy, v: Value, path: seq<string>)
    ensures Lookup(Redact(p, v), path) == Visible(p, v, path)
    decreases |path|
  {
    if path != [] && Get(v, path[0]).Some? && !p.hides(path[0]) {
      LookupRedacted(p, v.fields[path[0]], path[1..]);
    }
  }

  /** On a path with no masked key, redacting commutes with looking up. */
  lemma {:induction false} RedactCommutesWithLookup(p: Policy, v: Value, path: seq<string>)
    requires forall i | 0 <= i < |path| :: !p.hides(path[i])
    ensures Lookup(Redact(p, v), path)
         == (match Lookup(v, path) case Some(w) => Some(Redact(p, w)) case None => None)
    decreases |path|
  {
    if path != [] && Get(v, path[0]).Some? {
      RedactCommutesWithLookup(p, v.fields[path[0]], path[1..]);
    }
  }

  /** `config get`: split, redact, walk. */
  method ConfigGet(config: Value, key: string) returns (r: Option<Value>)
    ensures r == Visible(ConfigPolicy(), config, Split(key, '.'))
  {
    hide Redact, Visible, Split;
    var current := RedactConfigSecrets(config);
    var segments := Split(key, '.');
    LookupRedacted(ConfigPolicy(), config, segments);
    assert segments[0..] == segments;
    for i := 0 to |segments|
      invariant Lookup(current, segments[i..]) == Lookup(Redact(ConfigPolicy(), config), segments)
    {
      assert segments[i..][0] == segments[i] && segments[i..][1..] == segments[i + 1..];
      match Get(current, segments[i])
      case None => return None;
      case Some(w) => current := w;
    }
    r := Some(current);
  }

  /** The value with the leaf of a path replaced; only an existing leaf can be. */
  function Updated(v: Value, path: seq<string>, leaf: Value): Option<Value>
    decreases |path|
  {
    if path == [] then Some(leaf)
    else match Get(v, path[0])
      case None => None
      case Some(w) =>
        match Updated(w, path[1..], leaf)
        case None => None
        case Some(u) => Some(Obj(v.fields[path[0] := u]))
  }

  /** The objects on the way down a path, from the root. */
  predicate IsWalk(nodes: seq<Value>, path: seq<string>) {
    && 0 < |nodes| <= |path| + 1
    && forall k | 0 <= k < |nodes| - 1 :: Get(nodes[k], path[k]) == Some(nodes[k + 1])
  }

  /** `config set` on the tree: down to the leaf, which must be there, then the assignment. */
  method ConfigSet(config: Value, key: string, leaf: Value) returns (r: Option<Value>)
    ensures r == Updated(config, Split(key, '.'), leaf)
  {
    hide Split;
    var segments := Split(key, '.');
    var nodes := [config];
    for i := 0 to |segments|
      invariant |nodes| == i + 1 && nodes[0] == config && IsWalk(nodes, segments)
    {
      match Get(nodes[i], segments[i])
      case None =>
        MissingBlocks(nodes, segments, leaf);
        return None;
      case Some(w) => nodes := nodes + [w];
    }
    var next := leaf;
    var i := |segments|;
    assert segments[i..] == [];
    while i > 0
      invariant 0 <= i <= |segments| && Updated(nodes[i], segments[i..], leaf) == Some(next)
    {
      i := i - 1;
      assert segments[i..][0] == segments[i] && segments[i..][1..] == segments[i + 1..];
      assert Get(nodes[i], segments[i]) == Some(nodes[i + 1]);
      next := Obj(nodes[i].fields[segments[i] := next]);
    }
    assert segments[0..] == segments;
    r := Some(next);
  }

  /** A path that stops early cannot be assigned. */
  lemma {:induction false} MissingBlocks(nodes: seq<Value>, path: seq<string>, leaf: Value)
    requires IsWalk(nodes, path) && |nodes| <= |path| && Get(nodes[|nodes| - 1], path[|nodes| - 1]).None?
    ensures Updated(nodes[0], path, leaf).None?
    decreases |path|
  {
    if |nodes| > 1 {
      assert Get(nodes[0], path[0]) == Some(nodes[1]);
      assert forall k | 0 <= k < |nodes| - 1 :: nodes[1..][k] == nodes[k + 1] && path[1..][k] == path[k + 1];
      MissingBlocks(nodes[1..], path[1..], leaf);
    }
  }

  // ----- the laws of assignment --------------------------------------------------------------------------------

  /** A leaf can be assigned exactly when it is there. */
  lemma {:induction false} AssignableIffThere(v: Value, path: seq<string>, leaf: Value)
    ensures Updated(v, path, leaf).Some? <==> Lookup(v, path).Some?
    decreases |path|
  {
    if path != [] && Get(v, path[0]).Some? { AssignableIffThere(v.fields[path[0]], path[1..], leaf); }
  }

  /** What was assigned is what is read. */
  lemma {:induction false} ReadAfterWrite(v: Value, path: seq<string>, leaf: Value)
    requires Updated(v, path, leaf).Some?
    ensures Lookup(Updated(v, path, leaf).value, path) == Some(leaf)
    decreases |path|
  {
    if path != [] { ReadAfterWrite(v.fields[path[0]], path[1..], leaf); }
  }

  /** Neither path is a prefix of the other. */
  predicate Apart(p: seq<string>, q: seq<string>) {
    exists i :: 0 <= i < |p| && i < |q| && p[i] != q[i]
  }

  /** Nothing else moves. */
  lemma {:induction false} WriteKeepsOthers(v: Value, path: seq<string>, leaf: Value, other: seq<string>)
    requires Updated(v, path, leaf).Some? && Apart(path, other)
    ensures Lookup(Updated(v, path, leaf).value, other) == Lookup(v, other)
    decreases |path|
  {
    if path[0] == other[0] {
      var i :| 0 <= i < |path| && i < |other| && path[i] != other[i];
      assert path[1..][i - 1] != other[1..][i - 1];
      WriteKeepsOthers(v.fields[path[0]], path[1..], leaf, other[1..]);
    }
  }

  /** Assigning what is there changes nothing. */
  lemma {:induction false} WritingBackIsNothing(v: Value, path: seq<string>)
    requires Lookup(v, path).Some?
    ensures Updated(v, path, Lookup(v, path).value) == Some(v)
    decreases |path|
  {
    if path != [] {
      var w := v.fields[path[0]];
      WritingBackIsNothing(w, path[1..]);
      assert v.fields[path[0] := w] == v.fields;
    }
  }

  /** After `config set` on a key with no masked segment, `config get` shows the redacted new value. */
  lemma GetShowsWhatWasSet(config: Value, key: string, leaf: Value)
    requires Updated(config, Split(key, '.'), leaf).Some?
    requires forall s | s in Split(key, '.') :: !ConfigKey(s)
    ensures Visible(ConfigPolicy(), Updated(config, Split(key, '.'), leaf).value, Split(key, '.'))
         == Some(Redact(ConfigPolicy(), leaf))
  {
    hide Split, Redact, Visible, Lookup, Updated, ConfigKey;
    var path := Split(key, '.');
    var after := Updated(config, path, leaf).value;
    ReadAfterWrite(config, path, leaf);
    LookupRedacted(ConfigPolicy(), after, path);
    RedactCommutesWithLookup(ConfigPolicy(), after, path);
  }
}
