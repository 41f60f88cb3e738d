/**
 The cached lexicon index: a full build of the lexicon, brought up to date by announced entries that are
 applied at once or, under a debounce, held back and applied together.
 */
module IndexProvider {
  import opened Common
  import opened PhraseTrie

  /** An entry as the index reads it: the lower-cased word pieces of its value, and its category. */
  datatype Entry = Entry(pieces: Phrase, category: string)

  /** The two lookup maps. Category tuples are sorted and free of repeats in the source, so they are sets here. */
  datatype Index = Index(single: map<string, set<string>>, multi: map<Phrase, set<string>>)

  const EMPTY := Index(map[], map[])

  function SetDefault<K>(m: map<K, set<string>>, k: K, c: string): map<K, set<string>> {
    m[k := (if k in m then m[k] else {}) + {c}]
  }

  function AddEntry(index: Index, e: Entry): Index {
    if |e.pieces| == 0 then index
    else if |e.pieces| == 1 then index.(single := SetDefault(index.single, e.pieces[0], e.category))
    else index.(multi := SetDefault(index.multi, e.pieces, e.category))
  }

  /** Applying entries in order on top of an index. */
  function Apply(index: Index, entries: seq<Entry>): Index {
    if entries == [] then index else AddEntry(Apply(index, entries[..|entries| - 1]), entries[|entries| - 1])
  }

  /** The build from scratch. */
  function Build(entries: seq<Entry>): Index { Apply(EMPTY, entries) }

  // ----- the index depends on the set of entries only -----

  /** The index of a set of entries, read off key by key. */
  ghost predicate Indexes(index: Index, entries: set<Entry>) {
    && (forall k :: k in index.single <==> exists c :: Entry([k], c) in entries)
    && (forall k, c :: k in index.single ==> (c in index.single[k] <==> Entry([k], c) in entries))
    && (forall p :: p in index.multi <==> |p| >= 2 && exists c :: Entry(p, c) in entries)
    && (forall p, c :: p in index.multi ==> (c in index.multi[p] <==> Entry(p, c) in entries))
  }

  ghost function Elements(entries: seq<Entry>): set<Entry> { set e | e in entries }

  lemma AddIndexes(index: Index, entries: set<Entry>, e: Entry)
    requires Indexes(index, entries)
    ensures Indexes(AddEntry(index, e), entries + {e})
  {
    var next, all := AddEntry(index, e), entries + {e};
    assert |e.pieces| == 1 ==> e == Entry([e.pieces[0]], e.category);
    assert e in all && entries <= all;
    forall p, c ensures Entry(p, c) in all <==> Entry(p, c) in entries || (e.pieces == p && e.category == c) {}
  }

  lemma {:induction false} ApplyIndexes(index: Index, base: set<Entry>, entries: seq<Entry>)
    requires Indexes(index, base)
    ensures Indexes(Apply(index, entries), base + Elements(entries))
  {
    if entries == [] {
      assert base + Elements(entries) == base;
    } else {
      var init, last := entries[..|entries| - 1], entries[|entries| - 1];
      ApplyIndexes(index, base, init);
      AddIndexes(Apply(index, init), base + Elements(init), last);
      assert entries == init + [last];
      assert base + Elements(entries) == (base + Elements(init)) + {last};
    }
  }

  lemma BuildIndexes(entries: seq<Entry>)
    ensures Indexes(Build(entries), Elements(entries))
  {
    ApplyIndexes(EMPTY, {}, entries);
    assert {} + Elements(entries) == Elements(entries);
  }

  lemma IndexIsUnique(x: Index, y: Index, entries: set<Entry>)
    requires Indexes(x, entries) && Indexes(y, entries)
    ensures x == y
  {
    assert x.single.Keys == y.single.Keys && x.multi.Keys == y.multi.Keys;
    forall k | k in x.single ensures x.single[k] == y.single[k] {}
    forall p | p in x.multi ensures x.multi[p] == y.multi[p] {}
  }

  /** Whatever the batching, order or repeats: the same entries give the same index. */
  lemma ApplyIsBuild(base: seq<Entry>, entries: seq<Entry>, all: seq<Entry>)
    requires Elements(all) == Elements(base) + Elements(entries)
    ensures Apply(Build(base), entries) == Build(all)
  {
    BuildIndexes(base);
    BuildIndexes(all);
    ApplyIndexes(Build(base), Elements(base), entries);
    IndexIsUnique(Apply(Build(base), entries), Build(all), Elements(all));
  }

  /** Applying in two batches is applying in one. */
  lemma {:induction false} ApplyConcat(index: Index, xs: seq<Entry>, ys: seq<Entry>)
    ensures Apply(index, xs + ys) == Apply(Apply(index, xs), ys)
  {
    if ys == [] {
      assert xs + ys == xs;
    } else {
      ApplyConcat(index, xs, ys[..|ys| - 1]);
      assert (xs + ys)[..|xs + ys| - 1] == xs + ys[..|ys| - 1];
    }
  }

  // ----- the provider as a state machine -----

  datatype Cached = Cached(version: nat, index: Index)

  /** The provider's fields: cached snapshot, held-back entries, their version, time of the last rebuild. */
  datatype State = State(snapshot: Option<Cached>, pending: seq<Entry>, pendingVersion: Option<nat>, last: real)

  predicate CanRebuild(s: State, debounce: real, now: real) {
    debounce <= 0.0 || now - s.last >= debounce
  }

  /** `_maybe_apply_pending(now, force=False)` */
  function MaybeApplyPending(s: State, debounce: real, now: real): State {
    if s.snapshot == None || s.pending == [] || !CanRebuild(s, debounce, now) then s
    else
      var old' := s.snapshot.value;
      var version := if s.pendingVersion.Some? then s.pendingVersion.value else old'.version;
      State(Some(Cached(version, Apply(old'.index, s.pending))), [], None, now)
  }

  /** `apply_entry(entry, new_version)` */
  function ApplyEntry(s: State, debounce: real, e: Entry, newVersion: nat, now: real): State {
    if s.snapshot == None then s
    else if debounce <= 0.0 then s.(snapshot := Some(Cached(newVersion, Apply(s.snapshot.value.index, [e]))))
    else
      var held := if s.pendingVersion.Some? && s.pendingVersion.value != 0 then s.pendingVersion.value else newVersion;
      MaybeApplyPending(s.(pending := s.pending + [e], pendingVersion := Some(Max(newVersion, held))), debounce, now)
  }

  /** `get_snapshot()`; the three clock reads are arguments. Returns the new state and the cache-hit flag. */
  function GetSnapshot(s: State, debounce: real, db: seq<Entry>, version: nat,
                       now: real, later: real, end: real): (r: (State, bool))
    ensures r.0.snapshot.Some?
  {
    var s1 := MaybeApplyPending(s, debounce, now);
    if s1.snapshot.Some? && s1.snapshot.value.version == version then (s1, true)
    else if s1.snapshot.Some? && !CanRebuild(s1, debounce, later) then (s1, true)
    else (s1.(snapshot := Some(Cached(version, Build(db))), last := end), false)
  }

  function Invalidate(s: State): State {
    s.(snapshot := None, pending := [], pendingVersion := None)
  }

  // ----- runs over an add-only lexicon -----

  /** The lexicon and its version beside the provider. */
  datatype World = World(db: seq<Entry>, version: nat, provider: State)

  datatype Event =
    | Add(entry: Entry, now: real)   // one write with its announcement
    | Get(now: real, later: real, end: real)
    | Drop

  function Step(w: World, debounce: real, ev: Event): World {
    match ev
    case Add(e, now) =>
      World(w.db + [e], w.version + 1, ApplyEntry(w.provider, debounce, e, w.version + 1, now))
    case Get(now, later, end) => w.(provider := GetSnapshot(w.provider, debounce, w.db, w.version, now, later, end).0)
    case Drop => w.(provider := Invalidate(w.provider))
  }

  function Run(w: World, debounce: real, events: seq<Event>): World {
    if events == [] then w else Step(Run(w, debounce, events[..|events| - 1]), debounce, events[|events| - 1])
  }

  function Start(db: seq<Entry>, version: nat): World { World(db, version, State(None, [], None, 0.0)) }

  /** The snapshot with the held-back entries is the full build; a snapshot at the current version is it alone. */
  ghost predicate Coherent(w: World, debounce: real) {
    var s := w.provider;
    && (forall e :: e in s.pending ==> e in w.db)
    && (s.pendingVersion.Some? ==> s.pendingVersion.value <= w.version)
    && (debounce <= 0.0 ==> s.pending == [])
    && (s.snapshot.Some? ==>
          && Apply(s.snapshot.value.index, s.pending) == Build(w.db)
          && s.snapshot.value.version <= w.version
          && (s.snapshot.value.version == w.version ==> s.snapshot.value.index == Build(w.db)))
  }

  lemma MaybeApplyKeeps(w: World, debounce: real, now: real)
    requires Coherent(w, debounce)
    ensures Coherent(w.(provider := MaybeApplyPending(w.provider, debounce, now)), debounce)
  {}

  /** An addition, written and announced in one step, keeps the provider coherent. */
  lemma AddKeeps(w: World, debounce: real, e: Entry, now: real)
    requires Coherent(w, debounce)
    ensures Coherent(Step(w, debounce, Add(e, now)), debounce)
  {}

  lemma GetKeeps(w: World, debounce: real, now: real, later: real, end: real)
    requires Coherent(w, debounce)
    ensures Coherent(Step(w, debounce, Get(now, later, end)), debounce)
  {
    MaybeApplyKeeps(w, debounce, now);
    var s1 := MaybeApplyPending(w.provider, debounce, now);
    assert Elements(w.db) == Elements(w.db) + Elements(s1.pending);
    ApplyIsBuild(w.db, s1.pending, w.db);
  }

  lemma {:induction false} RunIsCoherent(db: seq<Entry>, version: nat, debounce: real, events: seq<Event>)
    ensures Coherent(Run(Start(db, version), debounce, events), debounce)
  {
    if events == [] {
    } else {
      RunIsCoherent(db, version, debounce, events[..|events| - 1]);
      var w := Run(Start(db, version), debounce, events[..|events| - 1]);
      match events[|events| - 1]
      case Add(e, now) => AddKeeps(w, debounce, e, now);
      case Get(now, later, end) => GetKeeps(w, debounce, now, later, end);
      case Drop =>
    }
  }

  /**
   After any run: a snapshot that `get_snapshot` returns at the current version is the fresh rebuild;
   without a debounce every returned snapshot is; and with one, an older snapshot is returned only inside
   the debounce window, still completes to the rebuild with the held-back entries, and counts as a hit.
   */
  lemma SnapshotIsRebuild(db: seq<Entry>, version: nat, debounce: real, events: seq<Event>,
                          now: real, later: real, end: real)
    ensures var w := Run(Start(db, version), debounce, events);
      var (s, hit) := GetSnapshot(w.provider, debounce, w.db, w.version, now, later, end);
      var returned := s.snapshot.value;
      && Apply(returned.index, s.pending) == Build(w.db)
      && (returned.version == w.version ==> returned.index == Build(w.db))
      && (debounce <= 0.0 ==> returned == Cached(w.version, Build(w.db)))
      && (returned.version != w.version ==> hit && later - s.last < debounce)
      && (!hit ==> returned == Cached(w.version, Build(w.db)) && s.last == end)
  {
    RunIsCoherent(db, version, debounce, events);
    var w := Run(Start(db, version), debounce, events);
    GetKeeps(w, debounce, now, later, end);
  }

  // ----- when the cache is used, and when held-back entries are applied -----

  /** The debounce window is open: a rebuild is too recent. */
  ghost predicate WindowOpen(s: State, debounce: real, now: real) { debounce > 0.0 && now - s.last < debounce }

  /**
   Held-back entries are applied, all of them and in order, as soon as the window has closed, and are then held back
   no longer; while it is open, or without a snapshot or entries, nothing happens.
   */
  lemma HeldBackAreApplied(s: State, debounce: real, now: real)
    ensures var t := MaybeApplyPending(s, debounce, now);
      && (s.snapshot.Some? && s.pending != [] && !WindowOpen(s, debounce, now) ==>
            && t.pending == [] && t.pendingVersion == None && t.last == now && t.snapshot.Some?
            && t.snapshot.value.index == Apply(s.snapshot.value.index, s.pending)
            && (s.pendingVersion.Some? ==> t.snapshot.value.version == s.pendingVersion.value)
            && (s.pendingVersion == None ==> t.snapshot.value.version == s.snapshot.value.version))
      && (s.snapshot == None || s.pending == [] || WindowOpen(s, debounce, now) ==> t == s)
  {
    hide Apply;
  }

  /** A snapshot at the current version is served as it is, while nothing held back is due. */
  lemma CacheIsUsed(s: State, debounce: real, db: seq<Entry>, now: real, later: real, end: real)
    requires s.snapshot.Some? && (s.pending == [] || WindowOpen(s, debounce, now))
    ensures GetSnapshot(s, debounce, db, s.snapshot.value.version, now, later, end) == (s, true)
  {
    HeldBackAreApplied(s, debounce, now);
  }

  /**
   A call is a hit exactly when, with what was due applied, there is a snapshot and it is at the current version or
   the window is open; it then leaves the snapshot alone, and otherwise builds it afresh.
   */
  lemma HitIff(s: State, debounce: real, db: seq<Entry>, version: nat, now: real, later: real, end: real)
    ensures var due, (t, hit) :=
        MaybeApplyPending(s, debounce, now), GetSnapshot(s, debounce, db, version, now, later, end);
      && (hit <==> due.snapshot.Some? && (due.snapshot.value.version == version || WindowOpen(due, debounce, later)))
      && (hit ==> t == due)
      && (!hit ==> t == due.(snapshot := Some(Cached(version, Build(db))), last := end))
  {
    hide Apply, Build, MaybeApplyPending;
  }

  /** In a run, asking again at an unchanged version gives the same snapshot from the cache. */
  lemma SecondGetHits(db: seq<Entry>, version: nat, debounce: real, events: seq<Event>, now: real, later: real,
                      end: real, now': real, later': real, end': real)
    ensures var w := Run(Start(db, version), debounce, events);
      var (s, hit) := GetSnapshot(w.provider, debounce, w.db, w.version, now, later, end);
      s.snapshot.value.version == w.version && (s.pending == [] || WindowOpen(s, debounce, now'))
      ==> GetSnapshot(s, debounce, w.db, w.version, now', later', end') == (s, true)
    ensures debounce <= 0.0 ==>
      var w := Run(Start(db, version), debounce, events);
      var (s, hit) := GetSnapshot(w.provider, debounce, w.db, w.version, now, later, end);
      GetSnapshot(s, debounce, w.db, w.version, now', later', end') == (s, true)
  {
    RunIsCoherent(db, version, debounce, events);
    SnapshotIsRebuild(db, version, debounce, events, now, later, end);
    var w := Run(Start(db, version), debounce, events);
    hide Run, Build, Apply;
    var (s, hit) := GetSnapshot(w.provider, debounce, w.db, w.version, now, later, end);
    if s.snapshot.value.version == w.version && (s.pending == [] || WindowOpen(s, debounce, now')) {
      CacheIsUsed(s, debounce, w.db, now', later', end');
    }
  }

  /**
   An announced entry is forgotten without a snapshot, applied at once without a debounce, and else held back under
   the greatest version announced; it is applied with the others when the window has closed.
   */
  lemma AnnouncementInWords(s: State, debounce: real, e: Entry, newVersion: nat, now: real)
    ensures var t := ApplyEntry(s, debounce, e, newVersion, now);
      && (s.snapshot == None ==> t == s)
      && (s.snapshot.Some? && debounce <= 0.0 ==>
            t == s.(snapshot := Some(Cached(newVersion, AddEntry(s.snapshot.value.index, e)))))
      && (s.snapshot.Some? && debounce > 0.0 && WindowOpen(s, debounce, now) ==>
            && t.snapshot == s.snapshot && t.pending == s.pending + [e] && t.last == s.last
            && t.pendingVersion.Some? && t.pendingVersion.value >= newVersion
            && (s.pendingVersion.Some? ==> t.pendingVersion.value == Max(newVersion, s.pendingVersion.value))
            && (s.pendingVersion == None ==> t.pendingVersion.value == newVersion))
      && (s.snapshot.Some? && debounce > 0.0 && !WindowOpen(s, debounce, now) ==>
            && t.pending == [] && t.last == now && t.snapshot.Some?
            && t.snapshot.value.index == Apply(s.snapshot.value.index, s.pending + [e])
            && t.snapshot.value.version == if s.pendingVersion.Some? then Max(newVersion, s.pendingVersion.value)
                                           else newVersion)
  {
    if s.snapshot.Some? {
      assert [e][..0] == [] && Apply(s.snapshot.value.index, []) == s.snapshot.value.index;
      assert Apply(s.snapshot.value.index, [e]) == AddEntry(s.snapshot.value.index, e);
    }
    hide Apply, AddEntry;
  }

  // ----- the class -----

  /** A published snapshot; its matcher is never changed afterwards. */
  datatype Snapshot = Snapshot(version: nat, singleWord: map<string, set<string>>, multiWord: map<Phrase, set<string>>,
                               phraseMatcher: PhraseTrieMatcher)

  method CollectEntries(start: Index, entries: seq<Entry>) returns (index: Index)
    ensures index == Apply(start, entries)
  {
    var single, multi := start.single, start.multi;
    for k := 0 to |entries|
      invariant Index(single, multi) == Apply(start, entries[..k])
    {
      assert entries[..k + 1][..k] == entries[..k];
      var pieces := entries[k].pieces;
      if |pieces| == 0 { continue; }
      if |pieces| == 1 {
        single := SetDefault(single, pieces[0], entries[k].category);
      } else {
        multi := SetDefault(multi, pieces, entries[k].category);
      }
    }
    assert entries[..|entries|] == entries;
    index := Index(single, multi);
  }

  /** The multi-word keys of an index are phrases that the trie keeps. */
  ghost predicate LongKeys(index: Index) { forall p :: p in index.multi ==> |p| >= 2 }

  lemma {:induction false} ApplyLongKeys(index: Index, entries: seq<Entry>)
    requires LongKeys(index)
    ensures LongKeys(Apply(index, entries))
  {
    if entries == [] {
    } else {
      ApplyLongKeys(index, entries[..|entries| - 1]);
    }
  }

  class LexiconIndexProvider {
    const debounce: real
    var snapshot: Option<Snapshot>
    var pendingEntries: seq<Entry>
    var pendingVersion: Option<nat>
    var lastRebuild: real

    /** The fields as a state of the machine above. */
    ghost function View(): State
      reads this
    {
      State(if snapshot.Some?
            then Some(Cached(snapshot.value.version, Index(snapshot.value.singleWord, snapshot.value.multiWord)))
            else None,
            pendingEntries, pendingVersion, lastRebuild)
    }

    /** The objects of the published matcher. */
    ghost function Parts(): set<object>
      reads this, if snapshot.Some? then {snapshot.value.phraseMatcher} else {}
    {
      if snapshot.Some? then {snapshot.value.phraseMatcher} + snapshot.value.phraseMatcher.at.Values else {}
    }

    /** The published matcher holds exactly the multi-word map. */
    ghost predicate Valid()
      reads this, Parts(), if snapshot.Some? then {snapshot.value.phraseMatcher} else {}
    {
      && this !in Parts()
      && (snapshot.Some? ==>
        && snapshot.value.phraseMatcher.Valid()
        && snapshot.value.phraseMatcher.Phrases() == snapshot.value.multiWord
        && LongKeys(Index(snapshot.value.singleWord, snapshot.value.multiWord)))
    }

    constructor (rebuildDebounceSeconds: real)
      ensures Valid() && View() == State(None, [], None, 0.0)
      ensures debounce == if rebuildDebounceSeconds >= 0.0 then rebuildDebounceSeconds else 0.0
    {
      debounce := if rebuildDebounceSeconds >= 0.0 then rebuildDebounceSeconds else 0.0;
      snapshot, pendingEntries, pendingVersion, lastRebuild := None, [], None, 0.0;
    }

    /** `snapshot_from_maps` with the assignment of its result. */
    method Publish(index: Index, version: nat)
      requires LongKeys(index)
      modifies this`snapshot
      ensures Valid() && View() == old(View()).(snapshot := Some(Cached(version, index)))
    {
      hide PhraseTrieMatcher.Valid, PhraseTrieMatcher.Phrases, PhraseTrieMatcher.Kids;
      var matcher := FromPhrases(index.multi);
      assert Kept(index.multi) == index.multi;
      snapshot := Some(Snapshot(version, index.single, index.multi, matcher));
    }

    /** Collects the entries on top of an index and publishes the result. */
    method PublishApplied(start: Index, entries: seq<Entry>, version: nat)
      requires LongKeys(start)
      modifies this`snapshot
      ensures Valid() && View() == old(View()).(snapshot := Some(Cached(version, Apply(start, entries))))
    {
      hide *;
      var index := CollectEntries(start, entries);
      ApplyLongKeys(start, entries);
      Publish(index, version);
    }

    method MaybeApply(now: real)
      requires Valid()
      modifies this
      ensures Valid() && View() == MaybeApplyPending(old(View()), debounce, now)
    {
      hide PhraseTrieMatcher.Valid, PhraseTrieMatcher.Phrases, PhraseTrieMatcher.Kids, Apply, LongKeys;
      if snapshot == None || pendingEntries == [] { return; }
      if debounce > 0.0 && now - lastRebuild < debounce { return; }
      var newVersion := if pendingVersion.Some? then pendingVersion.value else snapshot.value.version;
      var current := Index(snapshot.value.singleWord, snapshot.value.multiWord);
      PublishApplied(current, pendingEntries, newVersion);
      pendingEntries, pendingVersion, lastRebuild := [], None, now;
    }

    method ApplyNew(entry: Entry, newVersion: nat, now: real)
      requires Valid()
      modifies this
      ensures Valid() && View() == ApplyEntry(old(View()), debounce, entry, newVersion, now)
    {
      hide PhraseTrieMatcher.Valid, PhraseTrieMatcher.Phrases, PhraseTrieMatcher.Kids;
      if snapshot == None { return; }
      if debounce <= 0.0 {
        var current := Index(snapshot.value.singleWord, snapshot.value.multiWord);
        PublishApplied(current, [entry], newVersion);
        return;
      }
      pendingEntries := pendingEntries + [entry];
      var held := if pendingVersion.Some? && pendingVersion.value != 0 then pendingVersion.value else newVersion;
      pendingVersion := Some(Max(newVersion, held));
      MaybeApply(now);
    }

    /** Returns the snapshot now published, whose matcher holds exactly its multi-word map. */
    method Get(db: seq<Entry>, version: nat, now: real, later: real, end: real) returns (result: Snapshot, hit: bool)
      requires Valid()
      modifies this
      ensures Valid() && snapshot == Some(result)
      ensures (View(), hit) == GetSnapshot(old(View()), debounce, db, version, now, later, end)
      ensures old(snapshot).Some? && old(snapshot).value.version == version && old(pendingEntries) == [] ==>
        hit && View() == old(View())
    {
      hide PhraseTrieMatcher.Valid, PhraseTrieMatcher.Phrases, PhraseTrieMatcher.Kids;
      MaybeApply(now);
      if snapshot.Some? && snapshot.value.version == version { return snapshot.value, true; }
      if snapshot.Some? && snapshot.value.version != version && debounce > 0.0 && later - lastRebuild < debounce {
        return snapshot.value, true;
      }
      PublishApplied(EMPTY, db, version);
      lastRebuild := end;
      return snapshot.value, false;
    }

    method Reset()
      modifies this
      ensures Valid() && View() == Invalidate(old(View()))
    {
      snapshot, pendingEntries, pendingVersion := None, [], None;
    }
  }
}
