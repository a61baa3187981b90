/** src/migration.rs: importing memory entries into a keyed store. */
module MemoryImport {
  import opened Text

  datatype Category = Core | Daily | Conversation | Custom(name: string)

  function Display(c: Category): string {
    match c
    case Core => "core"
    case Daily => "daily"
    case Conversation => "conversation"
    case Custom(name) => name
  }

  datatype SourceEntry = SourceEntry(key: string, content: string, category: Category)

  datatype Stored = Stored(content: string, category: Category)

  type Store = map<string, Stored>

  const NUL := '\U{0}'

  function ContentSignature(content: string, category: Category): string {
    Trim(content) + [NUL] + Display(category)
  }

  function Signatures(store: Store): set<string> {
    set k | k in store :: ContentSignature(store[k].content, store[k].category)
  }

  /** `normalize_key`: the trimmed key, or one made from a position. The readers put it in the key
      field, and the import loop does the same again. */
  function NormalizeKey(key: string, idx: nat): string {
    if Trim(key) == [] then "openclaw_" + Decimal(idx) else Trim(key)
  }

  function KeyOf(entry: SourceEntry, idx: nat): string { NormalizeKey(entry.key, idx) }

  function RenamedKey(base: string, i: nat): string {
    base + "__openclaw_" + Decimal(i)
  }

  const MAX_RENAMES := 10000

  /** `next_available_key`, trying suffixes from `i`. */
  function NextKey(store: Store, base: string, i: nat): Option<string>
    decreases if i <= MAX_RENAMES then MAX_RENAMES + 1 - i else 0
  {
    if i > MAX_RENAMES then None
    else if RenamedKey(base, i) !in store then Some(RenamedKey(base, i))
    else NextKey(store, base, i + 1)
  }

  /** What importing one entry comes to. */
  datatype Step = NoKey | Unchanged | Duplicate(renamed: bool) | Imported(key: string, renamed: bool)

  function ImportOne(store: Store, entry: SourceEntry, idx: nat): Step {
    var key := KeyOf(entry, idx);
    if key in store && Trim(store[key].content) == Trim(entry.content) then Unchanged
    else
      var renamed := key in store;
      var free := if renamed then NextKey(store, key, 1) else Some(key);
      if free == None then NoKey
      else if ContentSignature(entry.content, entry.category) in Signatures(store) then Duplicate(renamed)
      else Imported(free.value, renamed)
  }

  function After(store: Store, entry: SourceEntry, step: Step): Store {
    if step.Imported? then store[step.key := Stored(entry.content, entry.category)] else store
  }

  datatype Stats = Stats(imported: nat, same: nat, duplicate: nat, renamed: nat) {
    function Count(step: Step): Stats {
      match step
      case NoKey => this
      case Unchanged => this.(same := same + 1)
      case Duplicate(r) => this.(duplicate := duplicate + 1, renamed := renamed + if r then 1 else 0)
      case Imported(_, r) => this.(imported := imported + 1, renamed := renamed + if r then 1 else 0)
    }
  }

  /** `ok` is false when a key could not be allocated and the import stopped there. */
  datatype Result = Result(store: Store, stats: Stats, ok: bool)

  /** The import loop from entry `idx`. */
  function ImportFrom(store: Store, entries: seq<SourceEntry>, idx: nat, stats: Stats): Result
    requires idx <= |entries|
    decreases |entries| - idx
  {
    if idx == |entries| then Result(store, stats, true)
    else
      var step := ImportOne(store, entries[idx], idx);
      if step == NoKey then Result(store, stats, false)
      else ImportFrom(After(store, entries[idx], step), entries, idx + 1, stats.Count(step))
  }

  const NOTHING := Stats(0, 0, 0, 0)

  function Import(store: Store, entries: seq<SourceEntry>): Result {
    ImportFrom(store, entries, 0, NOTHING)
  }

  // ----- the loop -----------------------------------------------------------------------------------

  /** The target memory: a keyed store whose `store` writes the entry as given. */
  class Memory {
    var entries: Store

    constructor (entries: Store)
      ensures this.entries == entries
    {
      this.entries := entries;
    }

    method Get(key: string) returns (found: Option<Stored>)
      ensures found == if key in entries then Some(entries[key]) else None
    {
      found := if key in entries then Some(entries[key]) else None;
    }

    method StoreEntry(key: string, content: string, category: Category)
      modifies this
      ensures entries == old(entries)[key := Stored(content, category)]
    {
      entries := entries[key := Stored(content, category)];
    }

    method NextAvailableKey(base: string) returns (key: Option<string>)
      ensures key == NextKey(entries, base, 1)
    {
      var i := 1;
      while i <= MAX_RENAMES
        invariant 1 <= i <= MAX_RENAMES + 1
        invariant NextKey(entries, base, 1) == NextKey(entries, base, i)
      {
        var taken := Get(RenamedKey(base, i));
        if taken == None { return Some(RenamedKey(base, i)); }
        i := i + 1;
      }
      key := None;
    }

    /** The import loop of `migrate_openclaw_memory`, with its running set of signatures. */
    method ImportEntries(source: seq<SourceEntry>) returns (ok: bool, stats: Stats)
      modifies this
      ensures var r := Import(old(entries), source);
        entries == r.store && stats == r.stats && ok == r.ok
    {
      hide Trim, Decimal, ContentSignature, Signatures, NextKey, ImportFrom;
      var existing := Signatures(entries);
      stats := NOTHING;
      var idx := 0;
      while idx < |source|
        invariant idx <= |source| && existing == Signatures(entries)
        invariant ImportFrom(entries, source, idx, stats) == Import(old(entries), source)
      {
        var entry := source[idx];
        ImportStep(entries, source, idx, stats);
        var key := Trim(entry.key);
        if key == [] { key := "openclaw_" + Decimal(idx); }
        ghost var step := ImportOne(entries, entry, idx);
        var found := Get(key);
        var renamed := false;
        if found.Some? {
          if Trim(found.value.content) == Trim(entry.content) {
            stats := stats.(same := stats.same + 1);
            idx := idx + 1;
            continue;
          }
          var free := NextAvailableKey(key);
          if free == None { return false, stats; }
          NextKeyIsFree(entries, key, 1);
          key, renamed := free.value, true;
        }
        var signature := ContentSignature(entry.content, entry.category);
        stats := stats.(renamed := stats.renamed + if renamed then 1 else 0);
        if signature in existing {
          stats := stats.(duplicate := stats.duplicate + 1);
        } else {
          StoreAddsSignature(entries, key, entry);
          StoreEntry(key, entry.content, entry.category);
          stats := stats.(imported := stats.imported + 1);
          existing := existing + {signature};
        }
        idx := idx + 1;
      }
      ImportDone(entries, source, stats);
      ok := true;
    }
  }

  lemma ImportStep(store: Store, entries: seq<SourceEntry>, idx: nat, stats: Stats)
    requires idx < |entries|
    ensures var step := ImportOne(store, entries[idx], idx);
      ImportFrom(store, entries, idx, stats)
      == if step == NoKey then Result(store, stats, false)
         else ImportFrom(After(store, entries[idx], step), entries, idx + 1, stats.Count(step))
  {
    hide ImportOne, After;
  }

  lemma ImportDone(store: Store, entries: seq<SourceEntry>, stats: Stats)
    ensures ImportFrom(store, entries, |entries|, stats) == Result(store, stats, true)
  {
  }

  // ----- allocated keys ---------------------------------------------------------------------------------

  lemma {:induction false} NextKeyIsFree(store: Store, base: string, i: nat)
    ensures NextKey(store, base, i).Some? ==> NextKey(store, base, i).value !in store
    decreases if i <= MAX_RENAMES then MAX_RENAMES + 1 - i else 0
  {
    if i <= MAX_RENAMES { NextKeyIsFree(store, base, i + 1); }
  }

  lemma RenamedKeyInjective(base: string, i: nat, j: nat)
    requires RenamedKey(base, i) == RenamedKey(base, j)
    ensures i == j
  {
    var p := base + "__openclaw_";
    assert RenamedKey(base, i)[|p|..] == Decimal(i);
    assert RenamedKey(base, j)[|p|..] == Decimal(j);
    DecimalInjective(i, j);
  }

  /** The first `n` renamed keys. */
  function RenamedKeys(base: string, n: nat): set<string> {
    if n == 0 then {} else RenamedKeys(base, n - 1) + {RenamedKey(base, n)}
  }

  lemma {:induction false} RenamedKeysAre(base: string, n: nat)
    ensures forall k :: k in RenamedKeys(base, n) <==> exists i: nat | 1 <= i <= n :: k == RenamedKey(base, i)
  {
    hide RenamedKey;
    if n > 0 {
      RenamedKeysAre(base, n - 1);
      assert forall k :: k in RenamedKeys(base, n) <==> k in RenamedKeys(base, n - 1) || k == RenamedKey(base, n);
    }
  }

  lemma {:induction false} RenamedKeysCount(base: string, n: nat)
    ensures |RenamedKeys(base, n)| == n
  {
    hide RenamedKey;
    if n > 0 {
      RenamedKeysCount(base, n - 1);
      NewRenamedKey(base, n);
    }
  }

  lemma NewRenamedKey(base: string, n: nat)
    requires n > 0
    ensures RenamedKey(base, n) !in RenamedKeys(base, n - 1)
  {
    hide RenamedKey, RenamedKeys;
    RenamedKeysAre(base, n - 1);
    if RenamedKey(base, n) in RenamedKeys(base, n - 1) {
      var i: nat :| 1 <= i <= n - 1 && RenamedKey(base, n) == RenamedKey(base, i);
      RenamedKeyInjective(base, n, i);
    }
  }

  lemma {:induction false} NoKeyMeansAllTaken(store: Store, base: string, i: nat)
    requires NextKey(store, base, i) == None
    ensures forall j: nat | i <= j <= MAX_RENAMES :: RenamedKey(base, j) in store
    decreases if i <= MAX_RENAMES then MAX_RENAMES + 1 - i else 0
  {
    if i <= MAX_RENAMES { NoKeyMeansAllTaken(store, base, i + 1); }
  }

  /** A key can always be allocated while the store holds fewer than 10,000 keys. */
  lemma SmallStoresAllocate(store: Store, base: string)
    requires |store| < MAX_RENAMES
    ensures NextKey(store, base, 1).Some?
  {
    if NextKey(store, base, 1) == None {
      NoKeyMeansAllTaken(store, base, 1);
      RenamedKeysAre(base, MAX_RENAMES);
      RenamedKeysCount(base, MAX_RENAMES);
      SubsetSize(RenamedKeys(base, MAX_RENAMES), store.Keys);
    }
  }

  // ----- nothing is overwritten, everything is counted ------------------------------------------------------

  predicate Keeps(before: Store, after: Store) {
    forall k | k in before :: k in after && after[k] == before[k]
  }

  lemma ImportOneKeeps(store: Store, entry: SourceEntry, idx: nat)
    ensures var step := ImportOne(store, entry, idx);
      && Keeps(store, After(store, entry, step))
      && |After(store, entry, step)| == |store| + (if step.Imported? then 1 else 0)
      && Signatures(After(store, entry, step))
         == Signatures(store) + (if step.Imported? then {ContentSignature(entry.content, entry.category)} else {})
  {
    hide NextKey, Trim, KeyOf, ContentSignature, Signatures;
    NextKeyIsFree(store, KeyOf(entry, idx), 1);
    var step := ImportOne(store, entry, idx);
    if step.Imported? {
      assert step.key !in store;
      StoreAddsSignature(store, step.key, entry);
    }
  }

  lemma StoreAddsSignature(store: Store, key: string, entry: SourceEntry)
    requires key !in store
    ensures Signatures(store[key := Stored(entry.content, entry.category)])
         == Signatures(store) + {ContentSignature(entry.content, entry.category)}
  {
    var after := store[key := Stored(entry.content, entry.category)];
    forall k | k in store ensures ContentSignature(store[k].content, store[k].category) in Signatures(after) {
      assert after[k] == store[k];
    }
    assert after[key] == Stored(entry.content, entry.category);
  }

  /** Every key that was there keeps its value, also when the import stops half-way; every entry
      is counted once; the store grows by the entries imported. */
  lemma {:induction false} ImportNeverOverwrites(store: Store, entries: seq<SourceEntry>, idx: nat, stats: Stats)
    requires idx <= |entries|
    ensures var r := ImportFrom(store, entries, idx, stats);
      && Keeps(store, r.store)
      && Signatures(store) <= Signatures(r.store)
      && |r.store| + stats.imported == |store| + r.stats.imported
      && r.stats.renamed - stats.renamed
         <= (r.stats.imported - stats.imported) + (r.stats.duplicate - stats.duplicate)
      && (r.ok ==> r.stats.imported + r.stats.same + r.stats.duplicate
                   == stats.imported + stats.same + stats.duplicate + (|entries| - idx))
    decreases |entries| - idx
  {
    hide ImportOne, After, Signatures, ImportFrom;
    if idx == |entries| { ImportDone(store, entries, stats); } else { ImportStep(store, entries, idx, stats); }
    if idx < |entries| {
      var step := ImportOne(store, entries[idx], idx);
      if step != NoKey {
        ImportOneKeeps(store, entries[idx], idx);
        ImportNeverOverwrites(After(store, entries[idx], step), entries, idx + 1, stats.Count(step));
      }
    }
  }

  /** With room for one more key per entry the import succeeds. */
  lemma {:induction false} SmallImportsSucceed(store: Store, entries: seq<SourceEntry>, idx: nat, stats: Stats)
    requires idx <= |entries| && |store| + (|entries| - idx) <= MAX_RENAMES
    ensures ImportFrom(store, entries, idx, stats).ok
    decreases |entries| - idx
  {
    hide NextKey, KeyOf, ContentSignature, Signatures, ImportFrom, Trim;
    if idx == |entries| { ImportDone(store, entries, stats); } else { ImportStep(store, entries, idx, stats); }
    if idx < |entries| {
      var step := ImportOne(store, entries[idx], idx);
      SmallStoresAllocate(store, KeyOf(entries[idx], idx));
      ImportOneKeeps(store, entries[idx], idx);
      SmallImportsSucceed(After(store, entries[idx], step), entries, idx + 1, stats.Count(step));
    }
  }

  // ----- a second import does nothing ------------------------------------------------------------------------

  /** The entry needs no import: its signature is known, or its key holds its content. */
  predicate Covered(store: Store, entry: SourceEntry, idx: nat) {
    || ContentSignature(entry.content, entry.category) in Signatures(store)
    || (KeyOf(entry, idx) in store && Trim(store[KeyOf(entry, idx)].content) == Trim(entry.content))
  }

  lemma CoveredStays(before: Store, after: Store, entry: SourceEntry, idx: nat)
    requires Covered(before, entry, idx) && Keeps(before, after) && Signatures(before) <= Signatures(after)
    ensures Covered(after, entry, idx)
  {
  }

  lemma OneIsCovered(store: Store, entry: SourceEntry, idx: nat)
    requires ImportOne(store, entry, idx) != NoKey
    ensures Covered(After(store, entry, ImportOne(store, entry, idx)), entry, idx)
  {
    hide NextKey, Trim, KeyOf, ContentSignature, Signatures;
    ImportOneKeeps(store, entry, idx);
  }

  /** After a successful import every source entry is covered. */
  lemma {:induction false} ImportCovers(store: Store, entries: seq<SourceEntry>, idx: nat, stats: Stats)
    requires idx <= |entries| && ImportFrom(store, entries, idx, stats).ok
    ensures forall j | idx <= j < |entries| :: Covered(ImportFrom(store, entries, idx, stats).store, entries[j], j)
    decreases |entries| - idx
  {
    hide ImportFrom, ImportOne, After, Covered, Keeps, Signatures;
    if idx < |entries| {
      var step := ImportOne(store, entries[idx], idx);
      var next := After(store, entries[idx], step);
      ImportStep(store, entries, idx, stats);
      ImportOneKeeps(store, entries[idx], idx);
      OneIsCovered(store, entries[idx], idx);
      ImportCovers(next, entries, idx + 1, stats.Count(step));
      ImportNeverOverwrites(next, entries, idx + 1, stats.Count(step));
      CoveredStays(next, ImportFrom(store, entries, idx, stats).store, entries[idx], idx);
    }
  }

  lemma {:induction false} CoveredImportsNothing(store: Store, entries: seq<SourceEntry>, idx: nat, stats: Stats)
    requires idx <= |entries| && forall j | idx <= j < |entries| :: Covered(store, entries[j], j)
    ensures ImportFrom(store, entries, idx, stats).store == store
    ensures ImportFrom(store, entries, idx, stats).stats.imported == stats.imported
    decreases |entries| - idx
  {
    hide Trim, ContentSignature, Signatures, KeyOf, NextKey;
    if idx < |entries| {
      var step := ImportOne(store, entries[idx], idx);
      assert !step.Imported?;
      if step != NoKey { CoveredImportsNothing(store, entries, idx + 1, stats.Count(step)); }
    }
  }

  predicate Keyed(entries: seq<SourceEntry>) {
    forall j | 0 <= j < |entries| :: Trim(entries[j].key) != []
  }

  /** Importing the same entries again, in any order, any number of times each, imports nothing
      and leaves the store as it is. */
  lemma ImportIsIdempotent(store: Store, entries: seq<SourceEntry>, again: seq<SourceEntry>)
    requires Import(store, entries).ok && Keyed(entries)
    requires forall e | e in again :: e in entries
    ensures var first := Import(store, entries);
      Import(first.store, again).store == first.store && Import(first.store, again).stats.imported == 0
  {
    var first := Import(store, entries);
    ImportCovers(store, entries, 0, NOTHING);
    forall j | 0 <= j < |again| ensures Covered(first.store, again[j], j) {
      assert again[j] in entries;
      var i :| 0 <= i < |entries| && entries[i] == again[j];
      assert KeyOf(entries[i], i) == KeyOf(again[j], j);
    }
    CoveredImportsNothing(first.store, again, 0, NOTHING);
  }

  /** The same list in the same order needs no keys: positions repeat as well. */
  lemma ReimportIsIdempotent(store: Store, entries: seq<SourceEntry>)
    requires Import(store, entries).ok
    ensures var first := Import(store, entries);
      Import(first.store, entries).store == first.store && Import(first.store, entries).stats.imported == 0
  {
    ImportCovers(store, entries, 0, NOTHING);
    CoveredImportsNothing(Import(store, entries).store, entries, 0, NOTHING);
  }

  // ----- collecting the entries --------------------------------------------------------------------------------

  lemma {:induction false} TrimmedHasText(s: string)
    requires s != [] && !IsWhitespace(s[0])
    ensures Trim(s) != []
  {
    assert DropLeading(s, IsWhitespace) == s;
  }

  lemma TrimStartsWithText(s: string)
    requires Trim(s) != []
    ensures !IsWhitespace(Trim(s)[0])
  {
    LeadingGone(s);
  }

  /** Collected entries always have a key, whatever the database or file holds. */
  lemma NormalizedKeysAreKeyed(key: string, idx: nat)
    ensures Trim(NormalizeKey(key, idx)) != []
  {
    if Trim(key) != [] { TrimStartsWithText(key); }
    TrimmedHasText(NormalizeKey(key, idx));
  }

  function EntrySignature(e: SourceEntry): string {
    e.key + [NUL] + e.content + [NUL] + Display(e.category)
  }

  /** `entries.retain(|e| seen.insert(sig))`. */
  function RetainFirst(entries: seq<SourceEntry>, seen: set<string>): seq<SourceEntry> {
    if entries == [] then []
    else if EntrySignature(entries[0]) in seen then RetainFirst(entries[1..], seen)
    else [entries[0]] + RetainFirst(entries[1..], seen + {EntrySignature(entries[0])})
  }

  method Deduplicate(entries: seq<SourceEntry>) returns (kept: seq<SourceEntry>)
    ensures kept == RetainFirst(entries, {})
  {
    kept := [];
    var seen: set<string> := {};
    var k := 0;
    while k < |entries|
      invariant 0 <= k <= |entries|
      invariant kept + RetainFirst(entries[k..], seen) == RetainFirst(entries, {})
    {
      assert entries[k..][0] == entries[k] && entries[k..][1..] == entries[k + 1..];
      var sig := EntrySignature(entries[k]);
      if sig !in seen {
        Assoc(kept, [entries[k]], RetainFirst(entries[k + 1..], seen + {sig}));
        kept, seen := kept + [entries[k]], seen + {sig};
      }
      k := k + 1;
    }
    assert kept + [] == kept;
  }

  predicate DistinctSignatures(entries: seq<SourceEntry>) {
    forall i, j | 0 <= i < j < |entries| :: EntrySignature(entries[i]) != EntrySignature(entries[j])
  }

  lemma {:induction false} RetainedMembers(entries: seq<SourceEntry>, seen: set<string>)
    ensures forall e | e in RetainFirst(entries, seen) :: e in entries && EntrySignature(e) !in seen
    ensures DistinctSignatures(RetainFirst(entries, seen))
    decreases |entries|
  {
    hide EntrySignature;
    if entries != [] {
      var sig := EntrySignature(entries[0]);
      var later := if sig in seen then seen else seen + {sig};
      RetainedMembers(entries[1..], later);
      var kept := RetainFirst(entries[1..], later);
      assert forall i | 0 <= i < |kept| :: kept[i] in kept;
    }
  }

  lemma {:induction false} Represented(entries: seq<SourceEntry>, seen: set<string>, e: SourceEntry)
    requires e in entries && EntrySignature(e) !in seen
    ensures exists f | f in RetainFirst(entries, seen) :: EntrySignature(f) == EntrySignature(e)
    decreases |entries|
  {
    hide EntrySignature;
    var e0, rest := entries[0], entries[1..];
    var kept := RetainFirst(entries, seen);
    if EntrySignature(e0) == EntrySignature(e) {
      assert kept[0] == e0;
    } else {
      assert entries == [e0] + rest;
      var later := if EntrySignature(e0) in seen then seen else seen + {EntrySignature(e0)};
      Represented(rest, later, e);
      var f :| f in RetainFirst(rest, later) && EntrySignature(f) == EntrySignature(e);
      assert f in kept;
    }
  }

  /** One entry of each signature stays, nothing else, and a second pass changes nothing. */
  lemma RetainedAreFirsts(entries: seq<SourceEntry>)
    ensures var kept := RetainFirst(entries, {});
      && DistinctSignatures(kept) && (forall e | e in kept :: e in entries)
      && (forall e | e in entries :: exists f | f in kept :: EntrySignature(f) == EntrySignature(e))
      && RetainFirst(kept, {}) == kept
  {
    hide EntrySignature, RetainFirst;
    RetainedMembers(entries, {});
    forall e | e in entries
      ensures exists f | f in RetainFirst(entries, {}) :: EntrySignature(f) == EntrySignature(e)
    {
      Represented(entries, {}, e);
    }
    DistinctIsKept(RetainFirst(entries, {}), {});
  }

  lemma {:induction false} DistinctIsKept(entries: seq<SourceEntry>, seen: set<string>)
    requires DistinctSignatures(entries) && forall e | e in entries :: EntrySignature(e) !in seen
    ensures RetainFirst(entries, seen) == entries
    decreases |entries|
  {
    hide EntrySignature;
    if entries != [] {
      assert entries[0] in entries;
      var rest := entries[1..];
      forall e | e in rest ensures EntrySignature(e) !in seen + {EntrySignature(entries[0])} {
        var i :| 0 <= i < |rest| && rest[i] == e;
        assert entries[i + 1] == e;
      }
      DistinctIsKept(rest, seen + {EntrySignature(entries[0])});
    }
  }
}
