/** src/migration.rs: what an import does to memories, told by their contents and categories. */
module MemoryContents {
  import opened Text
  import opened MemoryImport

  predicate NulFreeName(c: Category) { NUL !in Display(c) }

  predicate NulFreeNames(store: Store, entries: seq<SourceEntry>) {
    && (forall k | k in store :: NulFreeName(store[k].category))
    && (forall e | e in entries :: NulFreeName(e.category))
  }

  /** The same content up to blanks at the ends, and the same category as displayed. */
  predicate SameMemory(v: Stored, e: SourceEntry) {
    Trim(v.content) == Trim(e.content) && Display(v.category) == Display(e.category)
  }

  predicate Holds(store: Store, e: SourceEntry) { exists k :: k in store && SameMemory(store[k], e) }

  /** The key an entry asks for: its own, trimmed, or one made from its position. */
  predicate IsOwnKey(key: string, e: SourceEntry, idx: nat) {
    && (Trim(e.key) != [] ==> key == Trim(e.key))
    && (Trim(e.key) == [] ==> key == "openclaw_" + Decimal(idx))
  }

  /** That key holds the content of the entry. */
  predicate OwnKeyHolds(store: Store, e: SourceEntry, idx: nat) {
    exists key :: key in store && IsOwnKey(key, e, idx) && Trim(store[key].content) == Trim(e.content)
  }

  predicate OwnKeyTaken(store: Store, e: SourceEntry, idx: nat) {
    exists key :: key in store && IsOwnKey(key, e, idx)
  }

  // ----- signatures ----------------------------------------------------------------------------------------

  lemma NulBehind(a: string, b: string, c: string, d: string)
    requires a + [NUL] + b == c + [NUL] + d && |a| < |c|
    ensures NUL in b && NUL in c
  {
    var s, u := a + [NUL] + b, c + [NUL] + d;
    assert s[|c|] == u[|c|] == NUL && s[|c|] == b[|c| - |a| - 1];
    assert u[|a|] == s[|a|] == NUL && u[|a|] == c[|a|];
  }

  lemma SameCut(a: string, b: string, c: string, d: string)
    requires a + [NUL] + b == c + [NUL] + d && |a| == |c|
    ensures a == c && b == d
  {
    var s, u := a + [NUL] + b, c + [NUL] + d;
    assert a == s[..|a|] && c == u[..|c|];
    assert b == s[|a| + 1..] && d == u[|c| + 1..];
  }

  /** Text cut at its last NUL. */
  lemma LastNulCuts(a: string, b: string, c: string, d: string)
    requires NUL !in b && NUL !in d && a + [NUL] + b == c + [NUL] + d
    ensures a == c && b == d
  {
    if |a| < |c| { NulBehind(a, b, c, d); }
    if |c| < |a| { NulBehind(c, d, a, b); }
    SameCut(a, b, c, d);
  }

  /** Text cut at its first NUL. */
  lemma FirstNulCuts(a: string, b: string, c: string, d: string)
    requires NUL !in a && NUL !in c && a + [NUL] + b == c + [NUL] + d
    ensures a == c && b == d
  {
    if |a| < |c| { NulBehind(a, b, c, d); }
    if |c| < |a| { NulBehind(c, d, a, b); }
    SameCut(a, b, c, d);
  }

  /** Signatures are equal exactly for the same memory. */
  lemma SignatureMeans(v: Stored, e: SourceEntry)
    requires NulFreeName(v.category) && NulFreeName(e.category)
    ensures ContentSignature(v.content, v.category) == ContentSignature(e.content, e.category) <==> SameMemory(v, e)
  {
    hide Trim, Display;
    if ContentSignature(v.content, v.category) == ContentSignature(e.content, e.category) {
      LastNulCuts(Trim(v.content), Display(v.category), Trim(e.content), Display(e.category));
    }
  }

  /** With a NUL in a category name two memories can share a signature: the second counts as a duplicate. */
  lemma NulNamesCollide(v: Stored, e: SourceEntry)
    requires v == Stored("a", Custom("b" + ([NUL] + "c")))
    requires e.content == "a" + ([NUL] + "b") && e.category == Custom("c")
    ensures ContentSignature(v.content, v.category) == ContentSignature(e.content, e.category) && !SameMemory(v, e)
  {
    hide Trim;
    BareIsTrimmed(v.content);
    BareIsTrimmed(e.content);
    assert "a" + [NUL] + ("b" + ([NUL] + "c")) == ("a" + ([NUL] + "b")) + [NUL] + "c";
    assert |v.content| != |e.content|;
  }

  lemma BareIsTrimmed(s: string)
    requires s != [] && !IsWhitespace(s[0]) && !IsWhitespace(s[|s| - 1])
    ensures Trim(s) == s
  {
  }

  lemma KnownMeans(store: Store, e: SourceEntry)
    requires (forall k | k in store :: NulFreeName(store[k].category)) && NulFreeName(e.category)
    ensures ContentSignature(e.content, e.category) in Signatures(store) <==> Holds(store, e)
  {
    hide ContentSignature, SameMemory, NulFreeName;
    forall k | k in store
      ensures ContentSignature(store[k].content, store[k].category) == ContentSignature(e.content, e.category)
         <==> SameMemory(store[k], e)
    {
      SignatureMeans(store[k], e);
    }
  }

  lemma KeyMeans(e: SourceEntry, idx: nat)
    ensures forall key :: key == KeyOf(e, idx) <==> IsOwnKey(key, e, idx)
  {
    hide Trim, Decimal;
  }

  // ----- one entry after the other ------------------------------------------------------------------------

  lemma {:induction false} ImportExtends(store: Store, entries: seq<SourceEntry>, i: nat, j: nat, stats: Stats)
    requires i <= j < |entries|
    ensures var r := ImportFrom(store, entries[..j], i, stats);
      var longer := ImportFrom(store, entries[..j + 1], i, stats);
      if !r.ok then longer == r
      else
        var step := ImportOne(r.store, entries[j], j);
        longer == Result(After(r.store, entries[j], step), r.stats.Count(step), step != NoKey)
    decreases j - i
  {
    hide ImportOne, After, ImportFrom;
    var shorter, long := entries[..j], entries[..j + 1];
    ImportStep(store, long, i, stats);
    var step := ImportOne(store, entries[i], i);
    if i == j {
      ImportDone(store, shorter, stats);
      NoKeyLeaves(store, entries[i], stats);
      if step != NoKey { ImportDone(After(store, entries[i], step), long, stats.Count(step)); }
    } else {
      assert shorter[i] == long[i] == entries[i];
      ImportStep(store, shorter, i, stats);
      if step != NoKey { ImportExtends(After(store, entries[i], step), entries, i + 1, j, stats.Count(step)); }
    }
  }

  lemma NoKeyLeaves(store: Store, e: SourceEntry, stats: Stats)
    ensures After(store, e, NoKey) == store && stats.Count(NoKey) == stats
  {
  }

  /** The store when the turn of entry `j` comes. */
  function Before(store: Store, entries: seq<SourceEntry>, j: nat): Store
    requires j <= |entries|
  {
    Import(store, entries[..j]).store
  }

  /** The value of a key that was not there is that of an entry, and the key is the one the entry asked
      for, or, when that was taken, that with a number behind it. */
  ghost predicate CameFrom(key: string, v: Stored, e: SourceEntry, idx: nat) {
    && v == Stored(e.content, e.category)
    && exists base, n: nat :: IsOwnKey(base, e, idx) && IsRenamed(key, base, n)
  }

  /** The base, or the base with a number from 1 to 10,000. */
  predicate IsRenamed(key: string, base: string, n: nat) {
    if n == 0 then key == base else n <= 10000 && key == base + "__openclaw_" + Decimal(n)
  }

  lemma {:induction false} NextKeyIsRenamed(store: Store, base: string, i: nat)
    requires i > 0 && NextKey(store, base, i).Some?
    ensures exists n: nat :: IsRenamed(NextKey(store, base, i).value, base, n)
    decreases if i <= MAX_RENAMES then MAX_RENAMES + 1 - i else 0
  {
    if RenamedKey(base, i) in store {
      NextKeyIsRenamed(store, base, i + 1);
    } else {
      assert IsRenamed(RenamedKey(base, i), base, i);
    }
  }

  /** What happens to one entry: imported under a free key, exactly when its memory is not held and its
      key does not hold its content, unless no key is left. */
  lemma OneEntry(store: Store, e: SourceEntry, idx: nat)
    requires (forall k | k in store :: NulFreeName(store[k].category)) && NulFreeName(e.category)
    ensures var step := ImportOne(store, e, idx);
      && (step != NoKey ==> (step.Imported? <==> !Holds(store, e) && !OwnKeyHolds(store, e, idx)))
      && (step != NoKey ==> (step == Unchanged <==> OwnKeyHolds(store, e, idx)))
      && ((step.Imported? && step.renamed) || (step.Duplicate? && step.renamed)
          ==> OwnKeyTaken(store, e, idx) && !OwnKeyHolds(store, e, idx))
      && ((step.Imported? && !step.renamed) || (step.Duplicate? && !step.renamed) ==> !OwnKeyTaken(store, e, idx))
      && (step.Imported? ==> step.key !in store && CameFrom(step.key, Stored(e.content, e.category), e, idx))
  {
    hide Trim, ContentSignature, Signatures, NextKey, KeyOf, IsOwnKey, Holds, IsRenamed;
    var key := KeyOf(e, idx);
    KnownMeans(store, e);
    KeyMeans(e, idx);
    NextKeyIsFree(store, key, 1);
    if NextKey(store, key, 1).Some? { NextKeyIsRenamed(store, key, 1); }
    assert IsRenamed(key, key, 0) by { NotRenamed(key); }
    assert IsOwnKey(key, e, idx);
  }

  lemma NotRenamed(key: string)
    ensures IsRenamed(key, key, 0)
  {
  }

  // ----- all entries -----------------------------------------------------------------------------------------

  /** Every key holds what it held, and every new key the memory of an entry. */
  ghost predicate Accounted(store: Store, entries: seq<SourceEntry>, after: Store, n: nat) {
    && n <= |entries|
    && forall k | k in after ::
         if k in store then after[k] == store[k] else exists j :: 0 <= j < n && CameFrom(k, after[k], entries[j], j)
  }

  lemma AccountsForOne(store: Store, entries: seq<SourceEntry>, before: Store, n: nat, step: Step)
    requires Accounted(store, entries, before, n) && Keeps(store, before) && n < |entries|
    requires step.Imported? ==> step.key !in before
    requires step.Imported? ==> CameFrom(step.key, Stored(entries[n].content, entries[n].category), entries[n], n)
    ensures Accounted(store, entries, After(before, entries[n], step), n + 1)
  {
    hide CameFrom;
    var after := After(before, entries[n], step);
    forall k | k in after && k !in store ensures exists j :: 0 <= j < n + 1 && CameFrom(k, after[k], entries[j], j) {
      if k in before {
        var j :| 0 <= j < n && CameFrom(k, before[k], entries[j], j);
        assert CameFrom(k, after[k], entries[j], j);
      } else {
        assert CameFrom(k, after[k], entries[n], n);
      }
    }
  }

  lemma AccountedNames(store: Store, entries: seq<SourceEntry>, after: Store, n: nat)
    requires Accounted(store, entries, after, n) && NulFreeNames(store, entries)
    ensures forall k | k in after :: NulFreeName(after[k].category)
  {
    hide IsOwnKey, IsRenamed, NulFreeName;
    forall k | k in after ensures NulFreeName(after[k].category) {
      if k !in store {
        var j :| 0 <= j < n && CameFrom(k, after[k], entries[j], j);
        assert entries[j] in entries;
      }
    }
  }

  lemma BeforeKeeps(store: Store, entries: seq<SourceEntry>, j: nat)
    requires j <= |entries|
    ensures Keeps(store, Before(store, entries, j))
  {
    ImportNeverOverwrites(store, entries[..j], 0, NOTHING);
  }

  lemma BeforeNext(store: Store, entries: seq<SourceEntry>, j: nat)
    requires j < |entries|
    ensures Import(store, entries[..j + 1]).ok
       <==> Import(store, entries[..j]).ok && ImportOne(Before(store, entries, j), entries[j], j) != NoKey
    ensures Import(store, entries[..j]).ok ==>
      var before := Before(store, entries, j);
      Before(store, entries, j + 1) == After(before, entries[j], ImportOne(before, entries[j], j))
    ensures !Import(store, entries[..j]).ok ==> Before(store, entries, j + 1) == Before(store, entries, j)
  {
    hide ImportFrom, ImportOne, After;
    ImportExtends(store, entries, 0, j, NOTHING);
  }

  lemma {:induction false} EntriesAreAccounted(store: Store, entries: seq<SourceEntry>, n: nat)
    requires n <= |entries| && NulFreeNames(store, entries)
    ensures Accounted(store, entries, Before(store, entries, n), n)
    decreases n
  {
    hide Import, ImportOne, After, Before, CameFrom, NulFreeName;
    if n == 0 {
      NothingImported(store, entries);
    } else {
      var j := n - 1;
      var before := Before(store, entries, j);
      EntriesAreAccounted(store, entries, j);
      AccountedNames(store, entries, before, j);
      BeforeKeeps(store, entries, j);
      BeforeNext(store, entries, j);
      assert entries[j] in entries;
      OneEntry(before, entries[j], j);
      if Import(store, entries[..j]).ok {
        AccountsForOne(store, entries, before, j, ImportOne(before, entries[j], j));
      } else {
        AccountedLonger(store, entries, before, j);
      }
    }
  }

  lemma AccountedLonger(store: Store, entries: seq<SourceEntry>, after: Store, n: nat)
    requires Accounted(store, entries, after, n) && n < |entries|
    ensures Accounted(store, entries, after, n + 1)
  {
    hide CameFrom;
    forall k | k in after && k !in store ensures exists j :: 0 <= j < n + 1 && CameFrom(k, after[k], entries[j], j) {
      var j :| 0 <= j < n && CameFrom(k, after[k], entries[j], j);
    }
  }

  lemma NothingImported(store: Store, entries: seq<SourceEntry>)
    ensures Before(store, entries, 0) == store && Accounted(store, entries, Before(store, entries, 0), 0)
  {
    ImportDone(store, entries[..0], NOTHING);
  }

  /** Every new key, also of an import that stops half-way, holds content and category of an entry. */
  lemma NewKeysHoldEntries(store: Store, entries: seq<SourceEntry>)
    requires NulFreeNames(store, entries)
    ensures Accounted(store, entries, Import(store, entries).store, |entries|)
  {
    EntriesAreAccounted(store, entries, |entries|);
    assert entries[..|entries|] == entries;
  }

  /** After a successful import the memory of every entry is held, or its key holds its content. */
  lemma ImportHoldsEntries(store: Store, entries: seq<SourceEntry>, j: nat)
    requires NulFreeNames(store, entries) && Import(store, entries).ok && j < |entries|
    ensures var r := Import(store, entries).store; Holds(r, entries[j]) || OwnKeyHolds(r, entries[j], j)
  {
    hide ImportFrom, Holds, IsOwnKey, KeyOf, ContentSignature, Signatures, Trim, NulFreeName, CameFrom;
    var r := Import(store, entries).store;
    ImportCovers(store, entries, 0, NOTHING);
    NewKeysHoldEntries(store, entries);
    AccountedNames(store, entries, r, |entries|);
    assert entries[j] in entries;
    KnownMeans(r, entries[j]);
    KeyMeans(entries[j], j);
    assert Covered(r, entries[j], j);
  }

  lemma {:induction false} EarlierSucceed(store: Store, entries: seq<SourceEntry>, j: nat)
    requires Import(store, entries).ok && j <= |entries|
    ensures Import(store, entries[..j]).ok
    decreases |entries| - j
  {
    hide Import, ImportOne;
    if j < |entries| {
      EarlierSucceed(store, entries, j + 1);
      BeforeNext(store, entries, j);
    } else {
      assert entries[..j] == entries;
    }
  }

  lemma {:induction false} LaterKeep(store: Store, entries: seq<SourceEntry>, j: nat)
    requires j <= |entries|
    ensures Keeps(Before(store, entries, j), Import(store, entries).store)
    decreases |entries| - j
  {
    hide Import, ImportOne, After;
    if j == |entries| {
      assert entries[..j] == entries;
    } else {
      LaterKeep(store, entries, j + 1);
      BeforeNext(store, entries, j);
      ImportOneKeeps(Before(store, entries, j), entries[j], j);
    }
  }

  /** The memory is held before any import, or by an earlier entry. */
  predicate HeldEarlier(store: Store, entries: seq<SourceEntry>, j: nat)
    requires j < |entries|
  {
    || Holds(store, entries[j])
    || exists i :: 0 <= i < j && SameMemory(Stored(entries[i].content, entries[i].category), entries[j])
  }

  lemma HeldMeans(store: Store, entries: seq<SourceEntry>, j: nat)
    requires NulFreeNames(store, entries) && j < |entries|
    ensures Holds(Before(store, entries, j), entries[j]) ==> HeldEarlier(store, entries, j)
  {
    hide Before, SameMemory, IsOwnKey, IsRenamed;
    var before := Before(store, entries, j);
    EntriesAreAccounted(store, entries, j);
    if Holds(before, entries[j]) {
      var k :| k in before && SameMemory(before[k], entries[j]);
      if k !in store {
        var i :| 0 <= i < j && CameFrom(k, before[k], entries[i], i);
        assert SameMemory(Stored(entries[i].content, entries[i].category), entries[j]);
      }
    }
  }

  /** An entry whose memory neither the old store nor an earlier entry has, and whose key does not hold
      its content when its turn comes, is imported: a new key holds it. */
  lemma NewEntriesAreImported(store: Store, entries: seq<SourceEntry>, j: nat)
    requires NulFreeNames(store, entries) && Import(store, entries).ok && j < |entries|
    requires !HeldEarlier(store, entries, j) && !OwnKeyHolds(Before(store, entries, j), entries[j], j)
    ensures var r := Import(store, entries).store;
      exists k :: k in r && k !in store && CameFrom(k, r[k], entries[j], j)
  {
    hide ImportOne, CameFrom, Import, HeldEarlier, OwnKeyHolds, NulFreeName, Holds;
    var before := Before(store, entries, j);
    HeldMeans(store, entries, j);
    EarlierSucceed(store, entries, j + 1);
    BeforeNext(store, entries, j);
    EntriesAreAccounted(store, entries, j);
    AccountedNames(store, entries, before, j);
    assert entries[j] in entries;
    OneEntry(before, entries[j], j);
    BeforeKeeps(store, entries, j);
    LaterKeep(store, entries, j + 1);
    var step := ImportOne(before, entries[j], j);
    assert step.key in Before(store, entries, j + 1);
  }

  // ----- the counters ----------------------------------------------------------------------------------------

  /** Entries whose key holds their content when their turn comes. */
  predicate IsUnchanged(store: Store, entries: seq<SourceEntry>, j: nat) {
    j < |entries| && OwnKeyHolds(Before(store, entries, j), entries[j], j)
  }

  /** Other entries whose memory is held then. */
  predicate IsDuplicate(store: Store, entries: seq<SourceEntry>, j: nat) {
    && j < |entries| && Holds(Before(store, entries, j), entries[j])
    && !OwnKeyHolds(Before(store, entries, j), entries[j], j)
  }

  predicate IsNew(store: Store, entries: seq<SourceEntry>, j: nat) {
    && j < |entries| && !Holds(Before(store, entries, j), entries[j])
    && !OwnKeyHolds(Before(store, entries, j), entries[j], j)
  }

  /** Duplicate or new entries whose key holds something else then. */
  predicate IsRenamedAt(store: Store, entries: seq<SourceEntry>, j: nat) {
    && j < |entries| && OwnKeyTaken(Before(store, entries, j), entries[j], j)
    && !OwnKeyHolds(Before(store, entries, j), entries[j], j)
  }

  /** How many of the first `n` entries are of each kind. */
  function Tally(store: Store, entries: seq<SourceEntry>, n: nat): Stats {
    if n == 0 then Stats(0, 0, 0, 0) else
      var t := Tally(store, entries, n - 1);
      Stats(t.imported + (if IsNew(store, entries, n - 1) then 1 else 0),
            t.same + (if IsUnchanged(store, entries, n - 1) then 1 else 0),
            t.duplicate + (if IsDuplicate(store, entries, n - 1) then 1 else 0),
            t.renamed + (if IsRenamedAt(store, entries, n - 1) then 1 else 0))
  }

  /** The counters of a successful import count exactly these entries. */
  lemma {:induction false} CountersMean(store: Store, entries: seq<SourceEntry>, n: nat)
    requires NulFreeNames(store, entries) && n <= |entries| && Import(store, entries[..n]).ok
    ensures Import(store, entries[..n]).stats == Tally(store, entries, n)
    decreases n
  {
    hide ImportOne, Import, NulFreeName, Before, Holds, OwnKeyHolds, OwnKeyTaken, After;
    if n == 0 {
      NothingCounted(store, entries);
    } else {
      var j := n - 1;
      BeforeNext(store, entries, j);
      CountersMean(store, entries, j);
      EntriesAreAccounted(store, entries, j);
      AccountedNames(store, entries, Before(store, entries, j), j);
      assert entries[j] in entries;
      OneEntry(Before(store, entries, j), entries[j], j);
      OwnKeyIsTaken(Before(store, entries, j), entries[j], j);
      StatsNext(store, entries, j);
    }
  }

  lemma OwnKeyIsTaken(store: Store, e: SourceEntry, idx: nat)
    ensures OwnKeyHolds(store, e, idx) ==> OwnKeyTaken(store, e, idx)
  {
    hide IsOwnKey;
  }

  lemma NothingCounted(store: Store, entries: seq<SourceEntry>)
    ensures Import(store, entries[..0]).stats == NOTHING
  {
    ImportDone(store, entries[..0], NOTHING);
  }

  lemma StatsNext(store: Store, entries: seq<SourceEntry>, j: nat)
    requires j < |entries| && Import(store, entries[..j]).ok
    ensures Import(store, entries[..j + 1]).stats
         == Import(store, entries[..j]).stats.Count(ImportOne(Before(store, entries, j), entries[j], j))
  {
    hide ImportFrom, ImportOne, After;
    ImportExtends(store, entries, 0, j, NOTHING);
  }

  // ----- collecting the entries -----------------------------------------------------------------------------

  predicate NulFreeEntry(e: SourceEntry) { NUL !in e.key && NulFreeName(e.category) }

  /** The same key, content and displayed category. */
  predicate SameEntry(a: SourceEntry, b: SourceEntry) {
    a.key == b.key && a.content == b.content && Display(a.category) == Display(b.category)
  }

  lemma EntrySignatureMeans(a: SourceEntry, b: SourceEntry)
    requires NulFreeEntry(a) && NulFreeEntry(b)
    ensures EntrySignature(a) == EntrySignature(b) <==> SameEntry(a, b)
  {
    hide Display;
    if EntrySignature(a) == EntrySignature(b) {
      LastNulCuts(a.key + [NUL] + a.content, Display(a.category), b.key + [NUL] + b.content, Display(b.category));
      FirstNulCuts(a.key, a.content, b.key, b.content);
    }
  }

  /** Collecting keeps exactly one of each set of same entries. */
  lemma RetainedOnce(entries: seq<SourceEntry>)
    requires forall e | e in entries :: NulFreeEntry(e)
    ensures var kept := RetainFirst(entries, {});
      && (forall e | e in kept :: e in entries)
      && (forall i, j | 0 <= i < j < |kept| :: !SameEntry(kept[i], kept[j]))
      && (forall e | e in entries :: exists f :: f in kept && SameEntry(f, e))
  {
    hide EntrySignature, RetainFirst, NulFreeEntry, SameEntry;
    RetainedMembers(entries, {});
    RetainedDiffer(RetainFirst(entries, {}));
    forall e | e in entries ensures exists f :: f in RetainFirst(entries, {}) && SameEntry(f, e) {
      var f := RetainedFor(entries, e);
    }
  }

  lemma RetainedFor(entries: seq<SourceEntry>, e: SourceEntry) returns (f: SourceEntry)
    requires e in entries && forall x | x in entries :: NulFreeEntry(x)
    ensures f in RetainFirst(entries, {}) && SameEntry(f, e)
  {
    hide EntrySignature, RetainFirst, NulFreeEntry, SameEntry;
    RetainedMembers(entries, {});
    Represented(entries, {}, e);
    f :| f in RetainFirst(entries, {}) && EntrySignature(f) == EntrySignature(e);
    EntrySignatureMeans(f, e);
  }

  lemma RetainedDiffer(kept: seq<SourceEntry>)
    requires DistinctSignatures(kept) && forall e | e in kept :: NulFreeEntry(e)
    ensures forall i, j | 0 <= i < j < |kept| :: !SameEntry(kept[i], kept[j])
  {
    hide EntrySignature, NulFreeEntry, SameEntry;
    forall i, j | 0 <= i < j < |kept| ensures !SameEntry(kept[i], kept[j]) {
      EntrySignatureMeans(kept[i], kept[j]);
    }
  }
}
