/**
 The lexicon table with its version counter. Each operation is one step on the tables; importing a snapshot
 is not part of this model.
 */
module LexiconStore {
  import opened Common
  import opened Text

  datatype Status = PendingReview | Approved | Rejected

  datatype Entry = Entry(category: string, value: string, normalized: string, auto: bool, status: Status,
                         reviewedAt: Option<string>, reviewedBy: Option<string>)

  /** The entries by id, the category table, the version, and the next value of the id sequence. */
  datatype State = State(entries: map<int, Entry>, categories: set<string>, version: nat, nextId: int)

  const EMPTY := State(map[], {}, 0, 1)

  /** Lower-casing and the validation of automatically added terms. */
  datatype Rules = Rules(lower: string -> string, allows: string -> bool)

  datatype Failure = InvalidStatus | InvalidId | EmptyValue | EmptyCategory | NotFound | UnknownCategory | DuplicateKey

  datatype Outcome = Ok(count: nat) | Err(failure: Failure)

  const AUTO_ADDED := "Auto Added"
  const AUTO_CREATE := {"Noun", "Verb", "Adjective", "Adverb", "Idiom", "Phrasal Verb"}

  // ----- adding -----

  predicate HasKey(entries: map<int, Entry>, category: string, normalized: string) {
    exists id :: id in entries && entries[id].category == category && entries[id].normalized == normalized
  }

  /** `INSERT ... ON CONFLICT DO NOTHING` and its row count; the sequence advances in either case. */
  function Insert(s: State, e: Entry): (State, nat) {
    var t := s.(nextId := s.nextId + 1);
    if HasKey(s.entries, e.category, e.normalized) then (t, 0) else (t.(entries := s.entries[s.nextId := e]), 1)
  }

  function Bump(s: State, rise: bool): State { if rise then s.(version := s.version + 1) else s }

  function OrAutoAdded(category: string): string { if Trim(category) == "" then AUTO_ADDED else Trim(category) }

  function NewEntry(rules: Rules, category: string, value: string, source: string): Entry {
    var auto := rules.lower(Trim(source)) == "auto";
    Entry(category, value, rules.lower(value), auto, if auto then PendingReview else Approved, None, None)
  }

  datatype Draft = Draft(category: string, value: string)

  function InsertDraft(rules: Rules, s: State, d: Draft, source: string): (State, nat) {
    Insert(s.(categories := s.categories + {d.category}), NewEntry(rules, d.category, d.value, source))
  }

  function AfterAdd(rules: Rules, s: State, draft: Draft, source: string): (State, Outcome) {
    var d := Draft(OrAutoAdded(draft.category), Trim(draft.value));
    if d.value == "" then (s, Err(EmptyValue))
    else
      var (t, inserted) := InsertDraft(rules, s, d, source);
      (Bump(t, inserted > 0), Ok(inserted))
  }

  /** The drafts cleaned, those without a value left out. */
  function Cleaned(drafts: seq<Draft>): (r: seq<Draft>)
    ensures forall k :: 0 <= k < |r| ==> r[k].value != "" && r[k].category == Trim(r[k].category) != ""
  {
    if drafts == [] then []
    else
      var last := drafts[|drafts| - 1];
      Cleaned(drafts[..|drafts| - 1])
      + if Trim(last.value) != "" then [Draft(OrAutoAdded(last.category), Trim(last.value))] else []
  }

  function InsertAll(rules: Rules, s: State, drafts: seq<Draft>, source: string): (State, nat) {
    if drafts == [] then (s, 0)
    else
      var (t, before) := InsertAll(rules, s, drafts[..|drafts| - 1], source);
      var (u, inserted) := InsertDraft(rules, t, drafts[|drafts| - 1], source);
      (u, before + inserted)
  }

  function AfterAddMany(rules: Rules, s: State, drafts: seq<Draft>, source: string): (State, Outcome) {
    var (t, inserted) := InsertAll(rules, s, Cleaned(drafts), source);
    (Bump(t, inserted > 0), Ok(inserted))
  }

  // ----- changing and deleting -----

  function EditableStatus(rules: Rules, status: string): Option<Status> {
    var clean := rules.lower(Trim(status));
    if clean == "pending_review" then Some(PendingReview)
    else if clean == "approved" then Some(Approved)
    else if clean == "rejected" then Some(Rejected)
    else None
  }

  /** A review mark is cleared when the entry goes back to pending, and otherwise kept or set. */
  function Mark(mark: Option<string>, status: Status, otherwise: string): Option<string> {
    if status == PendingReview then None
    else if mark.Some? && mark.value != "" then mark
    else Some(otherwise)
  }

  function Reviewed(e: Entry, status: Status, now: string): Entry {
    e.(status := status, reviewedAt := Mark(e.reviewedAt, status, now), reviewedBy := Mark(e.reviewedBy, status, "ui"))
  }

  /** `listCategories`: the names in either table, trimmed, and the fallback. */
  function ListCategories(s: State): set<string> {
    (set c | c in s.categories && Trim(c) != "" :: Trim(c))
    + (set id | id in s.entries && Trim(s.entries[id].category) != "" :: Trim(s.entries[id].category))
    + {AUTO_ADDED}
  }

  datatype Change = Change(category: string, value: string, status: string, now: string)

  /** The checks of `updateEntry`, in the order they are made; the last is the UNIQUE constraint. */
  function UpdateFailure(rules: Rules, s: State, id: int, c: Change): Option<Failure> {
    if EditableStatus(rules, c.status).None? then Some(InvalidStatus)
    else if id <= 0 then Some(InvalidId)
    else if Trim(c.value) == "" then Some(EmptyValue)
    else if Trim(c.category) == "" then Some(EmptyCategory)
    else if id !in s.entries then Some(NotFound)
    else if Trim(c.category) !in ListCategories(s) then Some(UnknownCategory)
    else if HasKey(s.entries - {id}, Trim(c.category), rules.lower(Trim(c.value))) then Some(DuplicateKey)
    else None
  }

  function Edited(rules: Rules, e: Entry, status: Status, c: Change): Entry {
    var value := Trim(c.value);
    Reviewed(e, status, c.now).(category := Trim(c.category), value := value, normalized := rules.lower(value))
  }

  function AfterUpdate(rules: Rules, s: State, id: int, c: Change): (State, Outcome) {
    match UpdateFailure(rules, s, id, c)
    case Some(failure) => (s, Err(failure))
    case None =>
      var e := Edited(rules, s.entries[id], EditableStatus(rules, c.status).value, c);
      (Bump(s.(entries := s.entries[id := e]), true), Ok(1))
  }

  function Positive(ids: seq<int>): set<int> { set id | id in ids && id > 0 }

  function Hits(ids: set<int>, entries: map<int, Entry>): set<int> { ids * entries.Keys }

  function AfterDelete(s: State, ids: seq<int>): (State, Outcome) {
    var hit := Hits(Positive(ids), s.entries);
    if Positive(ids) == {} then (s, Err(InvalidId))
    else (Bump(s.(entries := s.entries - hit), hit != {}), Ok(|hit|))
  }

  function ReviewedAll(entries: map<int, Entry>, ids: set<int>, status: Status, now: string): map<int, Entry> {
    map id | id in entries :: if id in ids then Reviewed(entries[id], status, now) else entries[id]
  }

  function AfterStatus(rules: Rules, s: State, ids: seq<int>, status: string, now: string): (State, Outcome) {
    match EditableStatus(rules, status)
    case None => (s, Err(InvalidStatus))
    case Some(st) =>
      var hit := Hits(Positive(ids), s.entries);
      (Bump(s.(entries := ReviewedAll(s.entries, hit, st, now)), hit != {}), Ok(|hit|))
  }

  function AfterCreateCategory(s: State, name: string): State {
    if Trim(name) == "" then s else s.(categories := s.categories + {Trim(name)})
  }

  /** A category in use stays. */
  function AfterDeleteCategory(s: State, name: string): State {
    if exists id :: id in s.entries && s.entries[id].category == Trim(name) then s
    else s.(categories := s.categories - {Trim(name)})
  }

  // ----- row synchronisation -----

  datatype RowSync = RowSync(normalized: string, token: string, lemmaText: string, categories: string)

  datatype SyncStatus = SyncAdded | SyncExists | SyncRejected

  datatype SyncResult = SyncResult(status: SyncStatus, value: string, category: string, fallbackUsed: bool)

  /** The first probe that may be added; when none may, the first non-empty field as it is. */
  function Candidate(rules: Rules, r: RowSync): string {
    var a, b, c := rules.lower(Trim(r.normalized)), rules.lower(Trim(r.token)), rules.lower(Trim(r.lemmaText));
    if a != "" && a != "-" && rules.allows(a) then a
    else if b != "" && b != "-" && rules.allows(b) then b
    else if c != "" && c != "-" && rules.allows(c) then c
    else if r.normalized != "" then a
    else if r.token != "" then b
    else c
  }

  function CommaAt(s: string): (k: nat)
    ensures k <= |s|
  {
    if s == "" || s[0] == ',' then 0 else 1 + CommaAt(s[1..])
  }

  /** The first item of a comma-separated list that is neither blank nor a dash. */
  function FirstHint(list: string): string
    decreases |list|
  {
    var k := CommaAt(list);
    var item := Trim(list[..k]);
    if item != "" && item != "-" then item
    else if k == |list| then ""
    else FirstHint(list[k + 1..])
  }

  /** The state after a category may have been created, the category, and whether it is the fallback. */
  function ResolveCategory(s: State, hint: string): (State, string, bool) {
    var clean := Trim(hint);
    if clean == "" then (s, AUTO_ADDED, true)
    else if clean in ListCategories(s) then (s, clean, false)
    else if clean in AUTO_CREATE then (AfterCreateCategory(s, clean), clean, false)
    else (s, AUTO_ADDED, true)
  }

  /** `LOWER(category) = LOWER($1) AND normalized = $2` has a row. */
  predicate HasSimilar(rules: Rules, entries: map<int, Entry>, category: string, normalized: string) {
    exists id :: id in entries && rules.lower(entries[id].category) == rules.lower(category)
        && entries[id].normalized == normalized
  }

  /** The insertion, which has no conflict clause, with its version bump. */
  function SyncInsert(s: State, category: string, candidate: string): State {
    var e := Entry(category, candidate, candidate, true, PendingReview, None, None);
    Bump(State(s.entries[s.nextId := e], s.categories + {category}, s.version, s.nextId + 1), true)
  }

  function AfterSync(rules: Rules, s: State, r: RowSync): (State, SyncResult) {
    var candidate := Candidate(rules, r);
    if candidate == "" || !rules.allows(candidate) then (s, SyncResult(SyncRejected, candidate, AUTO_ADDED, true))
    else
      var (t, category, fallbackUsed) := ResolveCategory(s, FirstHint(r.categories));
      if HasSimilar(rules, t.entries, category, candidate) then
        (t, SyncResult(SyncExists, candidate, category, fallbackUsed))
      else
        (SyncInsert(t, category, candidate), SyncResult(SyncAdded, candidate, category, fallbackUsed))
  }

  // ----- what every run keeps -----

  ghost predicate KeysUnique(entries: map<int, Entry>) {
    forall x, y :: x in entries && y in entries && x != y ==>
      entries[x].category != entries[y].category || entries[x].normalized != entries[y].normalized
  }

  predicate CleanName(name: string) { name != "" && Trim(name) == name }

  /**
   Review marks come in pairs and say that a review took place: a pending entry has none, and an entry that is
   rejected, or was added automatically and is approved, has them.
   */
  ghost predicate ReviewSound(e: Entry) {
    && (e.reviewedAt.Some? <==> e.reviewedBy.Some?)
    && (e.status == PendingReview ==> e.reviewedAt == None)
    && (e.status == Rejected || (e.auto && e.status == Approved) ==> e.reviewedAt.Some?)
  }

  /** The entry is in a listed category, and its review marks are sound. */
  ghost predicate EntrySound(e: Entry, categories: set<string>) {
    CleanName(e.category) && (e.category in categories || e.category == AUTO_ADDED) && ReviewSound(e)
  }

  /** Ids come from the sequence, and every entry is sound. */
  ghost predicate RowsSound(s: State) {
    && s.nextId >= 1
    && (forall id :: id in s.entries ==> 1 <= id < s.nextId && EntrySound(s.entries[id], s.categories))
    && (forall c :: c in s.categories ==> CleanName(c))
  }

  /** (category, normalized) is unique, and the rows are sound. */
  ghost predicate Sound(s: State) { KeysUnique(s.entries) && RowsSound(s) }

  /** Putting a row keeps the keys unique when no other row has its key. */
  lemma PutIsUnique(entries: map<int, Entry>, id: int, e: Entry)
    requires KeysUnique(entries) && !HasKey(entries - {id}, e.category, e.normalized)
    ensures KeysUnique(entries[id := e])
  {
    forall x | x in entries && x != id
      ensures entries[x].category != e.category || entries[x].normalized != e.normalized
    {
      assert x in entries - {id} && (entries - {id})[x] == entries[x];
    }
  }

  lemma FewerAreUnique(entries: map<int, Entry>, fewer: map<int, Entry>)
    requires KeysUnique(entries)
    requires fewer.Keys <= entries.Keys
    requires forall id ::
      id in fewer ==> fewer[id].category == entries[id].category && fewer[id].normalized == entries[id].normalized
    ensures KeysUnique(fewer)
  {}

  /** A row put under an id of the sequence keeps the rows sound when it is sound itself. */
  lemma PutIsSound(s: State, t: State, id: int, e: Entry)
    requires RowsSound(s) && EntrySound(e, t.categories)
    requires t.entries == s.entries[id := e] && 1 <= id < t.nextId && s.nextId <= t.nextId
    requires s.categories <= t.categories && forall c :: c in t.categories ==> CleanName(c)
    ensures RowsSound(t)
  {
    hide CleanName, ReviewSound;
  }

  /** A review leaves the marks that its status asks for, whatever they were. */
  lemma ReviewedIsSound(e: Entry, status: Status, now: string)
    ensures ReviewSound(Reviewed(e, status, now))
  {}

  lemma ReviewedAllSound(s: State, ids: set<int>, status: Status, now: string)
    requires Sound(s)
    ensures Sound(s.(entries := ReviewedAll(s.entries, ids, status, now)))
  {
    hide CleanName, ReviewSound, Mark;
    var entries := ReviewedAll(s.entries, ids, status, now);
    FewerAreUnique(s.entries, entries);
    hide KeysUnique;
    forall id | id in entries ensures EntrySound(entries[id], s.categories) {
      ReviewedIsSound(s.entries[id], status, now);
    }
  }

  lemma CleanNames()
    ensures CleanName(AUTO_ADDED) && forall c :: c in AUTO_CREATE ==> CleanName(c)
  {}

  lemma TrimIsClean(name: string)
    ensures Trim(name) != "" ==> CleanName(Trim(name))
  {}

  /** The category list of a sound state is the category table and the fallback. */
  lemma ListIsTable(s: State)
    requires Sound(s)
    ensures ListCategories(s) == s.categories + {AUTO_ADDED}
  {
    hide Trim;
  }

  /** Rows that were there stay, the row count is the growth of the table, and the version has not moved yet. */
  ghost predicate Grown(s: State, t: State, inserted: nat) {
    && t.version == s.version
    && (forall id :: id in s.entries ==> id in t.entries && t.entries[id] == s.entries[id])
    && (inserted == 0 ==> t.entries == s.entries)
    && |t.entries| == |s.entries| + inserted
  }

  lemma GrownTwice(s: State, m: State, t: State, first: nat, second: nat)
    requires Grown(s, m, first) && Grown(m, t, second)
    ensures Grown(s, t, first + second)
  {}

  lemma KeyStays(s: State, t: State, inserted: nat, category: string, normalized: string)
    requires Grown(s, t, inserted) && HasKey(s.entries, category, normalized)
    ensures HasKey(t.entries, category, normalized)
  {}

  /** A draft becomes a row exactly when its key is new; its key is there afterwards in either case. */
  lemma InsertDraftAdds(rules: Rules, s: State, d: Draft, source: string)
    requires Sound(s) && CleanName(d.category)
    ensures var (t, inserted) := InsertDraft(rules, s, d, source);
      && Sound(t) && Grown(s, t, inserted)
      && inserted == (if HasKey(s.entries, d.category, rules.lower(d.value)) then 0 else 1)
      && HasKey(t.entries, d.category, rules.lower(d.value))
  {
    hide Trim, CleanName, ListCategories;
    var (t, inserted) := InsertDraft(rules, s, d, source);
    if inserted == 1 {
      assert t.entries[s.nextId].category == d.category;
      assert t.entries.Keys == s.entries.Keys + {s.nextId};
    }
  }

  /** Adding many: every draft's key is there afterwards. */
  lemma {:induction false} InsertAllAdds(rules: Rules, s: State, drafts: seq<Draft>, source: string)
    requires Sound(s) && forall k :: 0 <= k < |drafts| ==> CleanName(drafts[k].category)
    ensures var (t, inserted) := InsertAll(rules, s, drafts, source);
      && Sound(t) && Grown(s, t, inserted)
      && forall k :: 0 <= k < |drafts| ==> HasKey(t.entries, drafts[k].category, rules.lower(drafts[k].value))
  {
    hide Sound, CleanName, InsertDraft, HasKey;
    if drafts == [] {
    } else {
      var n := |drafts| - 1;
      InsertAllAdds(rules, s, drafts[..n], source);
      var (m, before) := InsertAll(rules, s, drafts[..n], source);
      InsertDraftAdds(rules, m, drafts[n], source);
      var (t, inserted) := InsertDraft(rules, m, drafts[n], source);
      GrownTwice(s, m, t, before, inserted);
      forall k | 0 <= k < n ensures HasKey(t.entries, drafts[k].category, rules.lower(drafts[k].value)) {
        assert drafts[..n][k] == drafts[k];
        KeyStays(m, t, inserted, drafts[k].category, rules.lower(drafts[k].value));
      }
      hide Grown;
    }
  }

  // ----- steps and runs -----

  datatype Op =
    | AddOp(draft: Draft, source: string)
    | AddManyOp(drafts: seq<Draft>, source: string)
    | UpdateOp(id: int, change: Change)
    | DeleteOp(ids: seq<int>)
    | StatusOp(ids: seq<int>, status: string, now: string)
    | CreateCategoryOp(name: string)
    | DeleteCategoryOp(name: string)
    | SyncOp(row: RowSync)

  function Apply(rules: Rules, s: State, op: Op): State {
    match op
    case AddOp(draft, source) => AfterAdd(rules, s, draft, source).0
    case AddManyOp(drafts, source) => AfterAddMany(rules, s, drafts, source).0
    case UpdateOp(id, change) => AfterUpdate(rules, s, id, change).0
    case DeleteOp(ids) => AfterDelete(s, ids).0
    case StatusOp(ids, status, now) => AfterStatus(rules, s, ids, status, now).0
    case CreateCategoryOp(name) => AfterCreateCategory(s, name)
    case DeleteCategoryOp(name) => AfterDeleteCategory(s, name)
    case SyncOp(row) => AfterSync(rules, s, row).0
  }

  /** The version moves by at most one, and it moves whenever the entries change. */
  ghost predicate Counted(s: State, t: State) {
    s.version <= t.version <= s.version + 1 && (t.version == s.version ==> t.entries == s.entries)
  }

  lemma AddsAreSound(rules: Rules, s: State, drafts: seq<Draft>, source: string)
    requires Sound(s)
    ensures Sound(AfterAddMany(rules, s, drafts, source).0) && Counted(s, AfterAddMany(rules, s, drafts, source).0)
  {
    InsertAllAdds(rules, s, Cleaned(drafts), source);
  }

  lemma AddIsSound(rules: Rules, s: State, draft: Draft, source: string)
    requires Sound(s)
    ensures Sound(AfterAdd(rules, s, draft, source).0) && Counted(s, AfterAdd(rules, s, draft, source).0)
  {
    hide Trim;
    CleanNames();
    TrimIsClean(draft.category);
    InsertDraftAdds(rules, s, Draft(OrAutoAdded(draft.category), Trim(draft.value)), source);
  }

  lemma EditedIsSound(rules: Rules, e: Entry, status: Status, c: Change, categories: set<string>)
    requires Trim(c.category) != "" && (Trim(c.category) in categories || Trim(c.category) == AUTO_ADDED)
    ensures EntrySound(Edited(rules, e, status, c), categories)
  {
    TrimIsClean(c.category);
    ReviewedIsSound(e, status, c.now);
    hide Trim, CleanName;
  }

  /** The UNIQUE check of an update is exactly what keeps the keys unique. */
  lemma UpdateIsSound(rules: Rules, s: State, id: int, c: Change)
    requires Sound(s)
    ensures Sound(AfterUpdate(rules, s, id, c).0) && Counted(s, AfterUpdate(rules, s, id, c).0)
  {
    ListIsTable(s);
    TrimIsClean(c.category);
    hide Trim, ListCategories, EditableStatus, CleanName, KeysUnique, HasKey, ReviewSound, Mark;
    if UpdateFailure(rules, s, id, c).None? {
      var t, status := AfterUpdate(rules, s, id, c).0, EditableStatus(rules, c.status).value;
      EditedIsSound(rules, s.entries[id], status, c, s.categories);
      PutIsUnique(s.entries, id, t.entries[id]);
      PutIsSound(s, t, id, t.entries[id]);
      hide RowsSound, EntrySound;
    }
  }

  /** The insertion of `syncRow`, which has no conflict clause, never meets a row with its key. */
  lemma SyncInsertIsSound(s: State, category: string, candidate: string)
    requires Sound(s) && CleanName(category) && !HasKey(s.entries, category, candidate)
    ensures Sound(SyncInsert(s, category, candidate))
  {
    hide CleanName, KeysUnique, HasKey;
    var t := SyncInsert(s, category, candidate);
    assert s.entries - {s.nextId} == s.entries;
    PutIsUnique(s.entries, s.nextId, t.entries[s.nextId]);
    PutIsSound(s, t, s.nextId, t.entries[s.nextId]);
  }

  lemma NotSimilar(rules: Rules, entries: map<int, Entry>, category: string, normalized: string)
    requires !HasSimilar(rules, entries, category, normalized)
    ensures !HasKey(entries, category, normalized)
  {}

  lemma SyncIsSound(rules: Rules, s: State, r: RowSync)
    requires Sound(s)
    ensures Sound(AfterSync(rules, s, r).0) && Counted(s, AfterSync(rules, s, r).0)
    ensures AfterSync(rules, s, r).1.status == SyncAdded ==>
      !HasKey(s.entries, AfterSync(rules, s, r).1.category, AfterSync(rules, s, r).1.value)
  {
    hide Candidate;
    ResolveIsSound(s, FirstHint(r.categories));
    hide FirstHint, ResolveCategory, Sound, CleanName, HasSimilar, HasKey;
    var (t, category, _) := ResolveCategory(s, FirstHint(r.categories));
    var candidate := Candidate(rules, r);
    if !HasSimilar(rules, t.entries, category, candidate) {
      NotSimilar(rules, t.entries, category, candidate);
      SyncInsertIsSound(t, category, candidate);
    }
  }

  lemma ResolveIsSound(s: State, hint: string)
    requires Sound(s)
    ensures var (t, category, _) := ResolveCategory(s, hint);
      Sound(t) && t == s.(categories := t.categories) && CleanName(category)
          && (category in t.categories || category == AUTO_ADDED)
  {}

  lemma PositiveIs(ids: seq<int>)
    ensures forall id :: id in Positive(ids) <==> id in ids && id > 0
  {
    forall id ensures id in Positive(ids) <==> id in ids && id > 0 {}
  }

  lemma DeleteIsSound(s: State, ids: seq<int>)
    requires Sound(s)
    ensures Sound(AfterDelete(s, ids).0) && Counted(s, AfterDelete(s, ids).0)
  {}

  lemma NoneReviewed(entries: map<int, Entry>, status: Status, now: string)
    ensures ReviewedAll(entries, {}, status, now) == entries
  {
    assert ReviewedAll(entries, {}, status, now).Keys == entries.Keys;
  }

  lemma StatusIsSound(rules: Rules, s: State, ids: seq<int>, status: string, now: string)
    requires Sound(s)
    ensures Sound(AfterStatus(rules, s, ids, status, now).0) && Counted(s, AfterStatus(rules, s, ids, status, now).0)
  {
    hide EditableStatus, CleanName, Positive, KeysUnique, EntrySound;
    var hit := Hits(Positive(ids), s.entries);
    if EditableStatus(rules, status).Some? {
      ReviewedAllSound(s, hit, EditableStatus(rules, status).value, now);
      if hit == {} { NoneReviewed(s.entries, EditableStatus(rules, status).value, now); }
      hide ReviewedAll;
    }
  }

  lemma CategoriesAreSound(s: State, name: string)
    requires Sound(s)
    ensures Sound(AfterCreateCategory(s, name)) && Sound(AfterDeleteCategory(s, name))
  {}

  lemma NoEntryChange(s: State, t: State)
    requires t.entries == s.entries && t.version == s.version
    ensures Counted(s, t)
  {}

  /**
   Every operation keeps the store sound, raises the version by at most one, and raises it when the entries
   change.
   */
  lemma StepIsSound(rules: Rules, s: State, op: Op)
    requires Sound(s)
    ensures Sound(Apply(rules, s, op)) && Counted(s, Apply(rules, s, op))
  {
    hide Sound, Counted, CleanName, Trim, AfterAdd, AfterAddMany, AfterUpdate, AfterSync, AfterDelete, AfterStatus;
    match op
    case AddOp(draft, source) => AddIsSound(rules, s, draft, source);
    case AddManyOp(drafts, source) => AddsAreSound(rules, s, drafts, source);
    case UpdateOp(id, change) => UpdateIsSound(rules, s, id, change);
    case SyncOp(row) => SyncIsSound(rules, s, row);
    case DeleteOp(ids) => DeleteIsSound(s, ids);
    case StatusOp(ids, status, now) => StatusIsSound(rules, s, ids, status, now);
    case CreateCategoryOp(name) => CategoriesAreSound(s, name); NoEntryChange(s, AfterCreateCategory(s, name));
    case DeleteCategoryOp(name) => CategoriesAreSound(s, name); NoEntryChange(s, AfterDeleteCategory(s, name));
  }

  /** A run: the states before, between and after the operations. */
  ghost predicate IsRun(rules: Rules, states: seq<State>, ops: seq<Op>) {
    && |states| == |ops| + 1 && states[0] == EMPTY
    && forall k :: 0 <= k < |ops| ==> states[k + 1] == Apply(rules, states[k], ops[k])
  }

  lemma {:induction false} RunIsSound(rules: Rules, states: seq<State>, ops: seq<Op>, k: nat)
    requires IsRun(rules, states, ops) && k < |states|
    ensures Sound(states[k])
  {
    hide Sound, Apply;
    if k > 0 {
      RunIsSound(rules, states, ops, k - 1);
      StepIsSound(rules, states[k - 1], ops[k - 1]);
      assert states[k - 1 + 1] == Apply(rules, states[k - 1], ops[k - 1]);
    } else {
      EmptyIsSound();
    }
  }

  lemma EmptyIsSound()
    ensures Sound(EMPTY)
  {}

  /** In every run: an entry that was added automatically is approved only with its review marks set. */
  lemma ApprovalIsReviewed(rules: Rules, states: seq<State>, ops: seq<Op>, k: nat, id: int)
    requires IsRun(rules, states, ops) && k < |states| && id in states[k].entries
    ensures ReviewSound(states[k].entries[id])
  {
    RunIsSound(rules, states, ops, k);
  }

  /** Over a run the version never falls, and any change of the entries in between has raised it. */
  lemma {:induction false} VersionTells(rules: Rules, states: seq<State>, ops: seq<Op>, i: nat, j: nat)
    requires IsRun(rules, states, ops) && i <= j < |states|
    ensures states[i].version <= states[j].version <= states[i].version + (j - i)
    ensures states[i].version == states[j].version ==>
      forall k :: i <= k <= j ==> states[k].entries == states[i].entries
  {
    hide Sound, Apply;
    if i < j {
      VersionTells(rules, states, ops, i, j - 1);
      RunIsSound(rules, states, ops, j - 1);
      StepIsSound(rules, states[j - 1], ops[j - 1]);
      assert states[j - 1 + 1] == Apply(rules, states[j - 1], ops[j - 1]);
    }
  }

  // ----- what the changes show -----

  /** A successful update shows the cleaned request in its row, whose key no other row has; no other row changes. */
  lemma UpdateShows(rules: Rules, s: State, id: int, c: Change)
    requires Sound(s)
    ensures var (t, outcome) := AfterUpdate(rules, s, id, c);
      if outcome.Err? then t == s
      else
        && id in s.entries && id in t.entries && t.entries - {id} == s.entries - {id}
        && t.entries[id].category == Trim(c.category) && t.entries[id].value == Trim(c.value)
        && Some(t.entries[id].status) == EditableStatus(rules, c.status)
        && t.entries[id].auto == s.entries[id].auto
        && (s.entries[id].reviewedAt.Some? && s.entries[id].reviewedAt.value != ""
            && t.entries[id].status != PendingReview
            ==> t.entries[id].reviewedAt == s.entries[id].reviewedAt)
        && !HasKey(t.entries - {id}, Trim(c.category), t.entries[id].normalized)
  {}

  ghost function Gone(s: State, ids: seq<int>): set<int> { set id | id in s.entries && id in ids && id > 0 }

  lemma GoneAreHits(s: State, ids: seq<int>)
    ensures Gone(s, ids) == Hits(Positive(ids), s.entries)
    ensures Positive(ids) == {} <==> forall id :: id in ids ==> id <= 0
  {
    PositiveIs(ids);
    hide Positive;
    forall id ensures id in Gone(s, ids) <==> id in Hits(Positive(ids), s.entries) {}
    if id :| id in ids && id > 0 {
      assert id in Positive(ids);
    } else {
      assert forall id :: id !in Positive(ids);
    }
  }

  /**
   A deletion without a positive id is an error; any other one answers with the number of rows that have gone, and the
   version rises by one exactly when there are some. Nothing else changes.
   */
  ghost predicate DeleteReads(s: State, t: State, outcome: Outcome, ids: seq<int>) {
    && (outcome == Err(InvalidId) <==> forall id :: id in ids ==> id <= 0)
    && (outcome.Err? ==> outcome == Err(InvalidId) && t == s)
    && (outcome.Ok? ==> outcome.count == |Gone(s, ids)| && t.entries == s.entries - Gone(s, ids))
    && t.version == s.version + (if Gone(s, ids) != {} then 1 else 0)
    && t.categories == s.categories && t.nextId == s.nextId
  }

  /** Deleting removes exactly the rows named by positive ids. */
  lemma DeleteShows(s: State, ids: seq<int>)
    ensures var t := AfterDelete(s, ids).0;
      && (forall id :: id in t.entries <==> id in s.entries && !(id in ids && id > 0))
      && (forall id :: id in t.entries ==> t.entries[id] == s.entries[id])
    ensures DeleteReads(s, AfterDelete(s, ids).0, AfterDelete(s, ids).1, ids)
  {
    var t := AfterDelete(s, ids).0;
    PositiveIs(ids);
    hide Positive;
    GoneAreHits(s, ids);
    hide Gone;
    if Positive(ids) == {} {
      assert t == s;
    } else {
      assert t.entries == s.entries - Hits(Positive(ids), s.entries);
    }
  }

  /** A bulk status change reaches exactly the rows named by positive ids, and leaves everything but the review. */
  lemma StatusShows(rules: Rules, s: State, ids: seq<int>, status: string, now: string)
    ensures var (t, outcome) := AfterStatus(rules, s, ids, status, now);
      && t.entries.Keys == s.entries.Keys
      && (outcome.Ok? <==> EditableStatus(rules, status).Some?)
      && (outcome.Ok? ==> forall id :: id in t.entries ==>
            t.entries[id] == s.entries[id].(status := t.entries[id].status, reviewedAt := t.entries[id].reviewedAt,
                                            reviewedBy := t.entries[id].reviewedBy)
            && Some(t.entries[id].status)
                == (if id in ids && id > 0 then EditableStatus(rules, status) else Some(s.entries[id].status)))
  {
    hide EditableStatus, Mark;
  }

  // ----- in the words of the request -----

  /** The status that a cleaned text names. */
  ghost predicate Names(text: string, status: Status) {
    || (text == "pending_review" && status == PendingReview)
    || (text == "approved" && status == Approved)
    || (text == "rejected" && status == Rejected)
  }

  lemma StatusIsNamed(rules: Rules, status: string)
    ensures var text, st := rules.lower(Trim(status)), EditableStatus(rules, status);
      if st.Some? then Names(text, st.value)
      else text != "pending_review" && text != "approved" && text != "rejected"
    ensures var text := rules.lower(Trim(status));
      EditableStatus(rules, status).Some? <==> text == "pending_review" || text == "approved" || text == "rejected"
  {
    hide Trim;
  }

  /** A bulk change fails on a text that names no status, and else gives every addressed row the status named. */
  ghost predicate StatusReads(rules: Rules, s: State, t: State, outcome: Outcome, ids: seq<int>, status: string) {
    var text := rules.lower(Trim(status));
    && (outcome.Ok? <==> text == "pending_review" || text == "approved" || text == "rejected")
    && (outcome.Err? ==> t == s && outcome == Err(InvalidStatus))
    && (outcome.Ok? ==> forall id :: id in s.entries ==>
          && id in t.entries
          && (id in ids && id > 0 ==> Names(text, t.entries[id].status))
          && (!(id in ids && id > 0) ==> t.entries[id].status == s.entries[id].status))
  }

  lemma StatusInWords(rules: Rules, s: State, ids: seq<int>, status: string, now: string)
    ensures StatusReads(rules, s, AfterStatus(rules, s, ids, status, now).0,
                        AfterStatus(rules, s, ids, status, now).1, ids, status)
  {
    StatusShows(rules, s, ids, status, now);
    StatusIsNamed(rules, status);
    hide EditableStatus, ReviewedAll, Trim, Names;
  }

  /** Another row has the key. */
  ghost predicate Taken(s: State, id: int, category: string, normalized: string) {
    exists x :: x in s.entries && x != id && s.entries[x].category == category && s.entries[x].normalized == normalized
  }

  /**
   An update succeeds exactly when the request names a status, a row, a value and a listed category, and no other row
   has the new key; the row then shows all four.
   */
  ghost predicate UpdateReads(rules: Rules, s: State, t: State, outcome: Outcome, id: int, c: Change) {
    var text, category, value := rules.lower(Trim(c.status)), Trim(c.category), Trim(c.value);
    && (outcome.Ok? <==>
          && (text == "pending_review" || text == "approved" || text == "rejected")
          && id > 0 && id in s.entries && value != "" && category != ""
          && (category in s.categories || category == "Auto Added")
          && !Taken(s, id, category, rules.lower(value)))
    && (outcome.Err? ==> t == s)
    && (!(text == "pending_review" || text == "approved" || text == "rejected") ==> outcome == Err(InvalidStatus))
    && (outcome.Ok? ==>
          && outcome == Ok(1) && id in t.entries && Names(text, t.entries[id].status)
          && t.entries[id].category == category && t.entries[id].value == value
          && t.entries[id].normalized == rules.lower(value))
  }

  lemma UpdateInWords(rules: Rules, s: State, id: int, c: Change)
    requires Sound(s)
    ensures UpdateReads(rules, s, AfterUpdate(rules, s, id, c).0, AfterUpdate(rules, s, id, c).1, id, c)
  {
    ListIsTable(s);
    StatusIsNamed(rules, c.status);
    OthersWithKey(s, id, Trim(c.category), rules.lower(Trim(c.value)));
    hide EditableStatus, ListCategories, Trim, Names, Sound, Mark, HasKey, Taken;
  }

  lemma OthersWithKey(s: State, id: int, category: string, normalized: string)
    ensures HasKey(s.entries - {id}, category, normalized) <==> Taken(s, id, category, normalized)
  {
    if Taken(s, id, category, normalized) {
      var x :| x in s.entries && x != id && s.entries[x].category == category && s.entries[x].normalized == normalized;
      assert x in s.entries - {id};
    }
  }

  /** What an added row shows: pending when the source is `auto`, approved otherwise, and never reviewed. */
  ghost predicate IsAdded(rules: Rules, e: Entry, category: string, value: string, source: string) {
    && e.category == (if Trim(category) == "" then "Auto Added" else Trim(category))
    && e.value == Trim(value) && e.normalized == rules.lower(Trim(value))
    && e.reviewedAt == None && e.reviewedBy == None
    && (rules.lower(Trim(source)) == "auto" ==> e.auto && e.status == PendingReview)
    && (rules.lower(Trim(source)) != "auto" ==> !e.auto && e.status == Approved)
  }

  /** Adding fails exactly without a value; else it adds the row unless its key is there, and changes no other. */
  ghost predicate AddReads(rules: Rules, s: State, t: State, outcome: Outcome, draft: Draft, source: string) {
    var category := if Trim(draft.category) == "" then "Auto Added" else Trim(draft.category);
    && (Trim(draft.value) == "" ==> t == s && outcome == Err(EmptyValue))
    && (Trim(draft.value) != "" ==>
          && |t.entries| >= |s.entries| && outcome == Ok(|t.entries| - |s.entries|)
          && (forall id :: id in s.entries ==> id in t.entries && t.entries[id] == s.entries[id])
          && (forall id :: id in t.entries && id !in s.entries ==>
                IsAdded(rules, t.entries[id], draft.category, draft.value, source))
          && (outcome == Ok(0) || outcome == Ok(1))
          && (outcome == Ok(0) <==> HasKey(s.entries, category, rules.lower(Trim(draft.value)))))
  }

  lemma NewEntryIsAdded(rules: Rules, draft: Draft, source: string)
    ensures IsAdded(rules, NewEntry(rules, OrAutoAdded(draft.category), Trim(draft.value), source),
                    draft.category, draft.value, source)
  {}

  lemma InsertedRow(rules: Rules, s: State, d: Draft, source: string)
    ensures var t := InsertDraft(rules, s, d, source).0;
      forall id :: id in t.entries && id !in s.entries ==> t.entries[id] == NewEntry(rules, d.category, d.value, source)
  {
    hide HasKey;
  }

  lemma AddInWords(rules: Rules, s: State, draft: Draft, source: string)
    requires Sound(s)
    ensures AddReads(rules, s, AfterAdd(rules, s, draft, source).0, AfterAdd(rules, s, draft, source).1, draft, source)
  {
    if Trim(draft.value) != "" {
      CleanNames();
      TrimIsClean(draft.category);
      var d := Draft(OrAutoAdded(draft.category), Trim(draft.value));
      InsertDraftAdds(rules, s, d, source);
      InsertedRow(rules, s, d, source);
      NewEntryIsAdded(rules, draft, source);
      hide Trim, CleanName, Sound, HasKey, InsertDraft, NewEntry, IsAdded;
    }
  }

  /** Adding many: each new row is that of one of the requested entries. */
  lemma {:induction false} AddAllInWords(rules: Rules, s: State, drafts: seq<Draft>, source: string, id: int)
    requires forall k :: 0 <= k < |drafts| ==>
      drafts[k].value == Trim(drafts[k].value) != "" && drafts[k].category == Trim(drafts[k].category) != ""
    ensures var t := InsertAll(rules, s, drafts, source).0;
      id in t.entries && (id in s.entries ==> t.entries[id] != s.entries[id]) ==>
        exists k :: 0 <= k < |drafts| && IsAdded(rules, t.entries[id], drafts[k].category, drafts[k].value, source)
  {
    hide Trim, HasKey, IsAdded;
    if drafts == [] {
    } else {
      var n := |drafts| - 1;
      AddAllInWords(rules, s, drafts[..n], source, id);
      var m := InsertAll(rules, s, drafts[..n], source).0;
      var t := InsertAll(rules, s, drafts, source).0;
      OneAddedInWords(rules, m, drafts[n], source, id);
      if id in t.entries && !(id in m.entries && t.entries[id] == m.entries[id]) {
        assert IsAdded(rules, t.entries[id], drafts[n].category, drafts[n].value, source);
      } else if id in t.entries && (id in s.entries ==> t.entries[id] != s.entries[id]) {
        var k :| 0 <= k < n && IsAdded(rules, m.entries[id], drafts[..n][k].category, drafts[..n][k].value, source);
        assert drafts[..n][k] == drafts[k];
      }
    }
  }

  lemma OneAddedInWords(rules: Rules, s: State, d: Draft, source: string, id: int)
    requires d.value == Trim(d.value) != "" && d.category == Trim(d.category) != ""
    ensures var t := InsertDraft(rules, s, d, source).0;
      id in t.entries && !(id in s.entries && t.entries[id] == s.entries[id]) ==>
        IsAdded(rules, t.entries[id], d.category, d.value, source)
  {
    hide Trim, HasKey;
  }

  lemma {:induction false} CleanedFrom(drafts: seq<Draft>, k: nat)
    requires k < |Cleaned(drafts)|
    ensures exists n ::
      && 0 <= n < |drafts| && Trim(drafts[n].value) != ""
      && Cleaned(drafts)[k] == Draft(OrAutoAdded(drafts[n].category), Trim(drafts[n].value))
  {
    hide Trim;
    var m := |drafts| - 1;
    if k < |Cleaned(drafts[..m])| {
      CleanedFrom(drafts[..m], k);
      var n :| 0 <= n < m && Trim(drafts[..m][n].value) != ""
        && Cleaned(drafts[..m])[k] == Draft(OrAutoAdded(drafts[..m][n].category), Trim(drafts[..m][n].value));
      assert drafts[..m][n] == drafts[n];
    }
  }

  lemma {:induction false} CleanedHas(drafts: seq<Draft>, n: nat)
    requires n < |drafts| && Trim(drafts[n].value) != ""
    ensures exists k ::
      && 0 <= k < |Cleaned(drafts)|
      && Cleaned(drafts)[k] == Draft(OrAutoAdded(drafts[n].category), Trim(drafts[n].value))
  {
    hide Trim;
    var m := |drafts| - 1;
    if n < m {
      CleanedHas(drafts[..m], n);
      var k :| 0 <= k < |Cleaned(drafts[..m])|
        && Cleaned(drafts[..m])[k] == Draft(OrAutoAdded(drafts[..m][n].category), Trim(drafts[..m][n].value));
      assert Cleaned(drafts)[k] == Cleaned(drafts[..m])[k];
    } else {
      assert Cleaned(drafts)[|Cleaned(drafts)| - 1] == Draft(OrAutoAdded(drafts[n].category), Trim(drafts[n].value));
    }
  }

  lemma AddedOfCleaned(rules: Rules, e: Entry, d: Draft, source: string)
    requires Trim(d.value) != "" && IsAdded(rules, e, OrAutoAdded(d.category), Trim(d.value), source)
    ensures IsAdded(rules, e, d.category, d.value, source)
  {
    TrimIsClean(d.category);
    TrimIsClean(d.value);
    CleanNames();
    hide Trim;
  }

  /**
   Adding many keeps every row, adds only rows of the request, counts them, and leaves no requested entry that has a
   value without a row of its key.
   */
  ghost predicate AddAllReads(rules: Rules, s: State, t: State, outcome: Outcome, drafts: seq<Draft>, source: string) {
    && |t.entries| >= |s.entries| && outcome == Ok(|t.entries| - |s.entries|)
    && (forall id :: id in s.entries ==> id in t.entries && t.entries[id] == s.entries[id])
    && (forall id :: id in t.entries && id !in s.entries ==>
          exists n :: 0 <= n < |drafts| && IsAdded(rules, t.entries[id], drafts[n].category, drafts[n].value, source))
    && (forall n :: 0 <= n < |drafts| && Trim(drafts[n].value) != "" ==>
          HasKey(t.entries, if Trim(drafts[n].category) == "" then "Auto Added" else Trim(drafts[n].category),
                 rules.lower(Trim(drafts[n].value))))
  }

  lemma CleanedIsClean(drafts: seq<Draft>)
    ensures forall k :: 0 <= k < |Cleaned(drafts)| ==>
      && Cleaned(drafts)[k].value == Trim(Cleaned(drafts)[k].value) != ""
      && Cleaned(drafts)[k].category == Trim(Cleaned(drafts)[k].category) != ""
  {
    forall k | 0 <= k < |Cleaned(drafts)| ensures Cleaned(drafts)[k].value == Trim(Cleaned(drafts)[k].value) {
      CleanedFrom(drafts, k);
      var n :| 0 <= n < |drafts| && Trim(drafts[n].value) != ""
        && Cleaned(drafts)[k] == Draft(OrAutoAdded(drafts[n].category), Trim(drafts[n].value));
      TrimIsClean(drafts[n].value);
    }
    hide Cleaned, Trim;
  }

  lemma NewRowIsRequested(rules: Rules, s: State, drafts: seq<Draft>, source: string, id: int)
    requires id in InsertAll(rules, s, Cleaned(drafts), source).0.entries && id !in s.entries
    ensures exists n :: 0 <= n < |drafts| && IsAdded(rules, InsertAll(rules, s, Cleaned(drafts), source).0.entries[id],
      drafts[n].category, drafts[n].value, source)
  {
    CleanedIsClean(drafts);
    AddAllInWords(rules, s, Cleaned(drafts), source, id);
    hide Trim, InsertAll, IsAdded, Cleaned;
    var e := InsertAll(rules, s, Cleaned(drafts), source).0.entries[id];
    var k :| && 0 <= k < |Cleaned(drafts)|
             && IsAdded(rules, e, Cleaned(drafts)[k].category, Cleaned(drafts)[k].value, source);
    CleanedFrom(drafts, k);
    var n :| 0 <= n < |drafts| && Trim(drafts[n].value) != ""
      && Cleaned(drafts)[k] == Draft(OrAutoAdded(drafts[n].category), Trim(drafts[n].value));
    AddedOfCleaned(rules, e, drafts[n], source);
  }

  lemma RequestedHasKey(rules: Rules, s: State, drafts: seq<Draft>, source: string, n: nat)
    requires Sound(s) && n < |drafts| && Trim(drafts[n].value) != ""
    ensures HasKey(InsertAll(rules, s, Cleaned(drafts), source).0.entries,
                   if Trim(drafts[n].category) == "" then "Auto Added" else Trim(drafts[n].category),
                   rules.lower(Trim(drafts[n].value)))
  {
    InsertAllAdds(rules, s, Cleaned(drafts), source);
    hide Sound, Trim, InsertAll, HasKey, Cleaned, Grown;
    CleanedHas(drafts, n);
    var k :| 0 <= k < |Cleaned(drafts)|
      && Cleaned(drafts)[k] == Draft(OrAutoAdded(drafts[n].category), Trim(drafts[n].value));
  }

  lemma AddManyInWords(rules: Rules, s: State, drafts: seq<Draft>, source: string)
    requires Sound(s)
    ensures AddAllReads(rules, s, AfterAddMany(rules, s, drafts, source).0,
                        AfterAddMany(rules, s, drafts, source).1, drafts, source)
  {
    InsertAllAdds(rules, s, Cleaned(drafts), source);
    var (t, inserted) := InsertAll(rules, s, Cleaned(drafts), source);
    hide Sound, Trim, InsertAll, IsAdded, HasKey, Cleaned, Grown, AddAllReads;
    forall id | id in t.entries && id !in s.entries
      ensures exists n ::
        0 <= n < |drafts| && IsAdded(rules, t.entries[id], drafts[n].category, drafts[n].value, source)
    {
      NewRowIsRequested(rules, s, drafts, source, id);
    }
    forall n | 0 <= n < |drafts| && Trim(drafts[n].value) != ""
      ensures HasKey(t.entries, if Trim(drafts[n].category) == "" then "Auto Added" else Trim(drafts[n].category),
                     rules.lower(Trim(drafts[n].value)))
    {
      RequestedHasKey(rules, s, drafts, source, n);
    }
    AllRead(rules, s, t, inserted, drafts, source);
  }

  lemma AllRead(rules: Rules, s: State, t: State, inserted: nat, drafts: seq<Draft>, source: string)
    requires Grown(s, t, inserted)
    requires forall id :: id in t.entries && id !in s.entries ==>
      exists n :: 0 <= n < |drafts| && IsAdded(rules, t.entries[id], drafts[n].category, drafts[n].value, source)
    requires forall n :: 0 <= n < |drafts| && Trim(drafts[n].value) != "" ==>
      HasKey(t.entries, if Trim(drafts[n].category) == "" then "Auto Added" else Trim(drafts[n].category),
             rules.lower(Trim(drafts[n].value)))
    ensures AddAllReads(rules, s, Bump(t, inserted > 0), Ok(inserted), drafts, source)
  {
    hide Trim, IsAdded, HasKey;
  }

  /** Some row has the normalized text in that category, whatever the case of its name. */
  ghost predicate IsThere(rules: Rules, s: State, category: string, normalized: string) {
    exists id :: id in s.entries && s.entries[id].normalized == normalized
      && rules.lower(s.entries[id].category) == rules.lower(category)
  }

  ghost predicate MayBeCreated(name: string) {
    || name == "Noun" || name == "Verb" || name == "Adjective" || name == "Adverb" || name == "Idiom"
    || name == "Phrasal Verb" || name == "Auto Added"
  }

  /**
   A row is rejected when its candidate is empty or not allowed. Otherwise it goes under its hint when that is listed
   or may be created, and under the fallback when not; it is there already, or is added to be reviewed.
   */
  ghost predicate SyncReads(rules: Rules, s: State, t: State, result: SyncResult, row: RowSync) {
    var c, hint := Candidate(rules, row), Trim(FirstHint(row.categories));
    var hinted := hint != "" && (hint in s.categories || MayBeCreated(hint));
    && result.value == c
    && (result.status == SyncRejected <==> c == "" || !rules.allows(c))
    && (result.status == SyncRejected ==> t == s && result.category == "Auto Added" && result.fallbackUsed)
    && (result.status != SyncRejected ==>
          result.category == (if hinted then hint else "Auto Added") && (result.fallbackUsed <==> !hinted))
    && (result.status == SyncExists ==>
          t.entries == s.entries && t.version == s.version && IsThere(rules, s, result.category, c))
    && (result.status == SyncAdded ==>
          && t.entries == s.entries[s.nextId := Entry(result.category, c, c, true, PendingReview, None, None)]
          && t.version == s.version + 1 && !IsThere(rules, s, result.category, c))
  }

  lemma SyncInWords(rules: Rules, s: State, row: RowSync)
    requires Sound(s)
    ensures SyncReads(rules, s, AfterSync(rules, s, row).0, AfterSync(rules, s, row).1, row)
  {
    ResolveInWords(s, FirstHint(row.categories));
    hide Trim, FirstHint, Candidate, Sound, MayBeCreated;
    var (m, category, _) := ResolveCategory(s, FirstHint(row.categories));
    hide ResolveCategory;
    SimilarIsThere(rules, s, category, Candidate(rules, row));
    hide HasSimilar, IsThere;
  }

  lemma SimilarIsThere(rules: Rules, s: State, category: string, normalized: string)
    ensures HasSimilar(rules, s.entries, category, normalized) <==> IsThere(rules, s, category, normalized)
  {}

  lemma ResolveInWords(s: State, hint: string)
    requires Sound(s)
    ensures var (t, category, fallbackUsed) := ResolveCategory(s, hint);
      var hinted := Trim(hint) != "" && (Trim(hint) in s.categories || MayBeCreated(Trim(hint)));
      && t == s.(categories := t.categories) && (fallbackUsed <==> !hinted)
      && category == if hinted then Trim(hint) else "Auto Added"
  {
    ListIsTable(s);
    CreatableNames(Trim(hint));
    hide Trim, ListCategories, Sound, AUTO_CREATE, MayBeCreated;
  }

  lemma CreatableNames(name: string)
    ensures name in AUTO_CREATE || name == AUTO_ADDED <==> MayBeCreated(name)
  {}

  // ----- the probes and hints of a row -----

  ghost predicate Usable(rules: Rules, probe: string) { probe != "" && probe != "-" && rules.allows(probe) }

  /**
   The candidate of a row is the first usable one of its cleaned normalized text, token and lemma; when none is
   usable, it is the first of the three that was given at all, as it is.
   */
  lemma CandidateIsFirstProbe(rules: Rules, r: RowSync)
    ensures var raw := [r.normalized, r.token, r.lemmaText];
      var probes := seq(3, k requires 0 <= k < 3 => rules.lower(Trim(raw[k])));
      var c := Candidate(rules, r);
      || (exists k ::
            0 <= k < 3 && c == probes[k] && Usable(rules, c) && forall j :: 0 <= j < k ==> !Usable(rules, probes[j]))
      || ((forall k :: 0 <= k < 3 ==> !Usable(rules, probes[k]))
          && exists k ::
            0 <= k < 3 && c == probes[k] && (forall j :: 0 <= j < k ==> raw[j] == "") && (raw[k] != "" || k == 2))
  {
    hide Trim;
    var raw := [r.normalized, r.token, r.lemmaText];
    var probes := seq(3, k requires 0 <= k < 3 => rules.lower(Trim(raw[k])));
    assert probes[0] == rules.lower(Trim(r.normalized)) && probes[1] == rules.lower(Trim(r.token));
    assert probes[2] == rules.lower(Trim(r.lemmaText));
  }

  /** Items with commas between them. */
  function CommaJoin(items: seq<string>): string {
    if |items| == 0 then "" else if |items| == 1 then items[0] else items[0] + "," + CommaJoin(items[1..])
  }

  /** A text without its comma-separated blanks and dashes names nothing. */
  ghost predicate SaysNothing(item: string) { Trim(item) == "" || Trim(item) == "-" }

  /** The item at `k` is the first that says something, and this is it, trimmed. */
  ghost predicate FirstSaying(items: seq<string>, k: int, hint: string) {
    && 0 <= k < |items| && !SaysNothing(items[k]) && hint == Trim(items[k])
    && forall j :: 0 <= j < k ==> SaysNothing(items[j])
  }

  /** The hint of a comma-separated list is its first item that says something, trimmed. */
  lemma {:induction false} FirstHintIsFirst(items: seq<string>)
    requires items != [] && forall k :: 0 <= k < |items| ==> ',' !in items[k]
    ensures (exists k :: FirstSaying(items, k, FirstHint(CommaJoin(items))))
         || (FirstHint(CommaJoin(items)) == "" && forall k :: 0 <= k < |items| ==> SaysNothing(items[k]))
    decreases |items|
  {
    var list := CommaJoin(items);
    CommaAtFirst(items[0], if |items| == 1 then "" else "," + CommaJoin(items[1..]));
    hide Trim;
    if |items| == 1 {
      assert items[0] + "" == items[0] && list[..|list|] == list;
      assert !SaysNothing(items[0]) ==> FirstSaying(items, 0, FirstHint(list));
    } else {
      assert list == items[0] + ("," + CommaJoin(items[1..]));
      assert list[..|items[0]|] == items[0] && list[|items[0]| + 1..] == CommaJoin(items[1..]);
      if SaysNothing(items[0]) {
        FirstHintIsFirst(items[1..]);
        forall j | 0 < j < |items| ensures items[j] == items[1..][j - 1] {}
        if k :| FirstSaying(items[1..], k, FirstHint(CommaJoin(items[1..]))) {
          assert FirstSaying(items, k + 1, FirstHint(list));
        }
      } else {
        assert FirstSaying(items, 0, FirstHint(list));
      }
    }
  }

  lemma {:induction false} CommaAtFirst(item: string, rest: string)
    requires ',' !in item && (rest == "" || rest[0] == ',')
    ensures CommaAt(item + rest) == |item|
  {
    if item == "" {
      assert item + rest == rest;
    } else {
      assert (item + rest)[1..] == item[1..] + rest && (item + rest)[0] == item[0];
      CommaAtFirst(item[1..], rest);
    }
  }

  // ----- which entries the index lists -----

  /** Every entry that is not rejected and has a text and a category is listed: under its word, or its joined words. */
  lemma IndexListsEntry(rules: Rules, s: State, index: Index, id: int)
    requires IsIndex(rules, s, index) && id in s.entries
    requires s.entries[id].status == PendingReview || s.entries[id].status == Approved
    requires Trim(s.entries[id].normalized) != "" && Trim(s.entries[id].category) != ""
    requires rules.lower(Trim(s.entries[id].normalized)) != ""
    ensures var text, category := rules.lower(Trim(s.entries[id].normalized)), Trim(s.entries[id].category);
      if |Words(text)| > 1 then Join(Words(text)) in index.multi && category in index.multi[Join(Words(text))]
      else text in index.single && category in index.single[text]
  {
    var e := s.entries[id];
    var key, multi := SlotKey(rules, e), IsMulti(rules, e);
    assert Supports(rules, e, multi, key, Trim(e.category));
    hide Trim, Words, Join;
    SupporterCounts(rules, s.entries, multi, key, Trim(e.category), id);
    hide IsPart, Supports, Supporters;
  }

  lemma SupporterCounts(rules: Rules, entries: map<int, Entry>, multi: bool, key: string, category: string, id: int)
    requires id in entries && Supports(rules, entries[id], multi, key, category)
    ensures |Supporters(rules, entries, multi, key, category)| > 0
    ensures forall part :: IsPart(rules, entries, multi, part) ==> key in part && category in part[key]
  {
    hide Supports;
    assert id in Supporters(rules, entries, multi, key, category);
    forall part | IsPart(rules, entries, multi, part) ensures key in part && category in part[key] {
      assert At(part, key)[category] == |Supporters(rules, entries, multi, key, category)|;
    }
  }

  /** And nothing else is: a listed category comes from an entry that is not rejected. */
  lemma IndexListsOnly(rules: Rules, s: State, index: Index, key: string, category: string)
    requires IsIndex(rules, s, index)
    ensures key in index.single && category in index.single[key] ==>
      exists id :: id in s.entries && s.entries[id].status != Rejected && Trim(s.entries[id].category) == category
        && rules.lower(Trim(s.entries[id].normalized)) == key && |Words(key)| <= 1
    ensures key in index.multi && category in index.multi[key] ==>
      exists id :: id in s.entries && s.entries[id].status != Rejected && Trim(s.entries[id].category) == category
        && var words := Words(rules.lower(Trim(s.entries[id].normalized))); |words| > 1 && Join(words) == key
  {
    hide Trim, Words, Join;
    if key in index.single && category in index.single[key] {
      assert At(index.single, key)[category] == |Supporters(rules, s.entries, false, key, category)|;
      SomeSupporter(rules, s.entries, false, key, category);
    }
    if key in index.multi && category in index.multi[key] {
      assert At(index.multi, key)[category] == |Supporters(rules, s.entries, true, key, category)|;
      SomeSupporter(rules, s.entries, true, key, category);
    }
  }

  lemma SomeSupporter(rules: Rules, entries: map<int, Entry>, multi: bool, key: string, category: string)
    requires |Supporters(rules, entries, multi, key, category)| > 0
    ensures exists id :: id in entries && Supports(rules, entries[id], multi, key, category)
  {
    hide Supports;
    NoneIn(Supporters(rules, entries, multi, key, category));
    var id :| id in Supporters(rules, entries, multi, key, category);
  }

  // ----- repeating a row synchronisation -----

  /** Resolving the same hint again, with the resolved category possibly listed meanwhile, gives the same answer. */
  lemma ResolveAgain(s: State, hint: string, u: State)
    requires Sound(s) && Sound(u)
    requires var (t, category, _) := ResolveCategory(s, hint);
      u.categories == t.categories || u.categories == t.categories + {category}
    ensures var (_, category, fallbackUsed) := ResolveCategory(s, hint);
      ResolveCategory(u, hint) == (u, category, fallbackUsed)
  {}

  lemma InsertedIsSimilar(rules: Rules, s: State, r: RowSync)
    requires AfterSync(rules, s, r).1.status == SyncAdded
    ensures var (t, result) := AfterSync(rules, s, r); HasSimilar(rules, t.entries, result.category, result.value)
  {
    hide Candidate, FirstHint, ResolveCategory, HasSimilar;
    var (t, result) := AfterSync(rules, s, r);
    IsSimilar(rules, t.entries, t.nextId - 1, result.category, result.value);
  }

  lemma IsSimilar(rules: Rules, entries: map<int, Entry>, id: int, category: string, normalized: string)
    requires id in entries && entries[id].category == category && entries[id].normalized == normalized
    ensures HasSimilar(rules, entries, category, normalized)
  {}

  /** Sending the same row again changes nothing, categories and sequence included. */
  lemma SyncAgain(rules: Rules, s: State, r: RowSync)
    requires Sound(s)
    ensures var (t, first) := AfterSync(rules, s, r);
      var (u, again) := AfterSync(rules, t, r);
      && u == t
      && again == first.(status := if first.status == SyncAdded then SyncExists else first.status)
  {
    SyncIsSound(rules, s, r);
    var (t, first) := AfterSync(rules, s, r);
    if first.status != SyncRejected { ResolveAgain(s, FirstHint(r.categories), t); }
    hide Candidate, FirstHint, ResolveCategory, Sound, Counted, Trim, HasKey;
    if first.status == SyncAdded { InsertedIsSimilar(rules, s, r); }
    hide HasSimilar, SyncInsert;
  }

  // ----- the index -----

  /** The answer of `buildIndex`; the order inside a list of categories is not fixed by the query. */
  datatype Index = Index(single: map<string, multiset<string>>, multi: map<string, multiset<string>>,
                         totalRows: nat, version: nat)

  function Normal(rules: Rules, e: Entry): string { rules.lower(Trim(e.normalized)) }

  predicate HasText(e: Entry) { Trim(e.normalized) != "" }

  predicate Listed(rules: Rules, e: Entry) {
    HasText(e) && e.status != Rejected && Normal(rules, e) != "" && Trim(e.category) != ""
  }

  predicate IsMulti(rules: Rules, e: Entry) { |Words(Normal(rules, e))| > 1 }

  function SlotKey(rules: Rules, e: Entry): string {
    if IsMulti(rules, e) then Join(Words(Normal(rules, e))) else Normal(rules, e)
  }

  predicate Supports(rules: Rules, e: Entry, multi: bool, key: string, category: string) {
    Listed(rules, e) && IsMulti(rules, e) == multi && SlotKey(rules, e) == key && Trim(e.category) == category
  }

  /** The entries that put `category` under `key` in the one index or the other. */
  function Supporters(rules: Rules, entries: map<int, Entry>, multi: bool, key: string, category: string): set<int> {
    set id | id in entries && Supports(rules, entries[id], multi, key, category)
  }

  /** Every category stands under a key as often as entries put it there, and no key has an empty list. */
  ghost predicate IsPart(rules: Rules, entries: map<int, Entry>, multi: bool, part: map<string, multiset<string>>) {
    && (forall key :: key in part ==> part[key] != multiset{})
    && (forall key, category :: At(part, key)[category] == |Supporters(rules, entries, multi, key, category)|)
  }

  function At(part: map<string, multiset<string>>, key: string): multiset<string> {
    if key in part then part[key] else multiset{}
  }

  function WithText(entries: map<int, Entry>): set<int> { set id | id in entries && HasText(entries[id]) }

  ghost predicate IsIndex(rules: Rules, s: State, index: Index) {
    && IsPart(rules, s.entries, false, index.single) && IsPart(rules, s.entries, true, index.multi)
    && index.totalRows == |WithText(s.entries)| && index.version == s.version
  }

  /** The members that a plain object inherits; looking one of them up does not find nothing. */
  const INHERITED := {"constructor", "hasOwnProperty", "isPrototypeOf", "propertyIsEnumerable", "toLocaleString",
                      "toString", "valueOf", "__proto__", "__defineGetter__", "__defineSetter__",
                      "__lookupGetter__", "__lookupSetter__"}

  predicate IsInherited(key: string) { key in INHERITED }

  /** An entry for a single word that names an inherited member. */
  predicate Blocks(rules: Rules, e: Entry) { Listed(rules, e) && !IsMulti(rules, e) && IsInherited(Normal(rules, e)) }

  /** `buildIndex` fails exactly when some entry blocks it, and otherwise answers with the index. */
  ghost predicate IsAnswer(rules: Rules, s: State, answer: Option<Index>) {
    && (answer == None <==> exists id :: id in s.entries && Blocks(rules, s.entries[id]))
    && (answer.Some? ==> IsIndex(rules, s, answer.value))
  }

  predicate IsUpper(c: char) { 'A' <= c <= 'Z' }

  /** A lower-cased word names an inherited member only if it is one of two. */
  lemma InheritedInLowerCase(key: string)
    requires forall i :: 0 <= i < |key| ==> !IsUpper(key[i])
    ensures IsInherited(key) <==> key == "constructor" || key == "__proto__"
  {
    assert IsUpper("hasOwnProperty"[3]) && IsUpper("isPrototypeOf"[2]) && IsUpper("propertyIsEnumerable"[8]);
    assert IsUpper("toLocaleString"[2]) && IsUpper("toString"[2]) && IsUpper("valueOf"[5]);
    assert IsUpper("__defineGetter__"[8]) && IsUpper("__defineSetter__"[8]);
    assert IsUpper("__lookupGetter__"[8]) && IsUpper("__lookupSetter__"[8]);
  }

  lemma ConstructorIsWord()
    ensures Trim("constructor") == "constructor" && Words("constructor") == ["constructor"]
        && IsInherited("constructor")
  {
    assert IsToken("constructor");
    WordsOfToken("constructor");
  }

  lemma ConstructorEntryBlocks(rules: Rules)
    requires rules.lower("constructor") == "constructor" && rules.lower(Trim("manual")) == "manual"
    ensures Blocks(rules, NewEntry(rules, AUTO_ADDED, "constructor", "manual"))
  {
    ConstructorIsWord();
    CleanNames();
    hide Trim, Words, IsInherited;
  }

  /** Adding the word `constructor` by hand succeeds, and from then on `buildIndex` fails. */
  lemma ConstructorBlocks(rules: Rules, s: State, answer: Option<Index>)
    requires rules.lower("constructor") == "constructor" && rules.lower(Trim("manual")) == "manual"
    requires !HasKey(s.entries, AUTO_ADDED, "constructor")
    requires IsAnswer(rules, AfterAdd(rules, s, Draft("", "constructor"), "manual").0, answer)
    ensures AfterAdd(rules, s, Draft("", "constructor"), "manual").1 == Ok(1) && answer == None
  {
    ConstructorIsWord();
    ConstructorEntryBlocks(rules);
    assert Trim("") == "";
    hide Trim, Words, HasKey, IsIndex, Blocks;
    var t := AfterAdd(rules, s, Draft("", "constructor"), "manual").0;
    assert t.entries[s.nextId] == NewEntry(rules, AUTO_ADDED, "constructor", "manual");
  }

  /** The entries fix each half of the index. */
  lemma PartIsUnique(rules: Rules, entries: map<int, Entry>, multi: bool, a: map<string, multiset<string>>,
          b: map<string, multiset<string>>)
    requires IsPart(rules, entries, multi, a) && IsPart(rules, entries, multi, b)
    ensures a == b
  {
    hide Supporters;
    forall key ensures At(a, key) == At(b, key) {
      forall category ensures At(a, key)[category] == At(b, key)[category] {
        assert At(a, key)[category] == |Supporters(rules, entries, multi, key, category)|;
      }
    }
    forall key ensures key in a <==> key in b {
      assert At(a, key) == At(b, key);
    }
    forall key | key in a ensures a[key] == b[key] {
      assert At(a, key) == At(b, key);
    }
  }

  /** Over a run, two answers of `buildIndex` at the same version are the same answer, failures included. */
  lemma SameVersionSameIndex(rules: Rules, states: seq<State>, ops: seq<Op>, i: nat, j: nat, a: Option<Index>,
          b: Option<Index>)
    requires IsRun(rules, states, ops) && i <= j < |states|
    requires IsAnswer(rules, states[i], a) && IsAnswer(rules, states[j], b)
    ensures states[i].version <= states[j].version
    ensures states[i].version == states[j].version ==> a == b
    ensures a.Some? && b.Some? && a.value.version == b.value.version ==> a == b
  {
    hide IsRun, IsPart, WithText, Blocks;
    VersionTells(rules, states, ops, i, j);
    if states[i].version == states[j].version && a.Some? && b.Some? {
      PartIsUnique(rules, states[i].entries, false, a.value.single, b.value.single);
      PartIsUnique(rules, states[i].entries, true, a.value.multi, b.value.multi);
    }
  }

  function AddTo(part: map<string, multiset<string>>, key: string, category: string): map<string, multiset<string>> {
    part[key := At(part, key) + multiset{category}]
  }

  /** One more row. */
  function PutRow(rules: Rules, e: Entry, multi: bool,
          part: map<string, multiset<string>>): map<string, multiset<string>> {
    if Listed(rules, e) && IsMulti(rules, e) == multi then AddTo(part, SlotKey(rules, e), Trim(e.category)) else part
  }

  lemma SupportersNext(rules: Rules, entries: map<int, Entry>, id: int, e: Entry, multi: bool, key: string,
          category: string)
    requires id !in entries
    ensures |Supporters(rules, entries[id := e], multi, key, category)|
         == |Supporters(rules, entries, multi, key, category)|
            + if Supports(rules, e, multi, key, category) then 1 else 0
  {
    hide Supports;
    var before, after :=
      Supporters(rules, entries, multi, key, category), Supporters(rules, entries[id := e], multi, key, category);
    forall k ensures k in after <==> k in before || (k == id && Supports(rules, e, multi, key, category)) {}
    hide Supporters;
    if Supports(rules, e, multi, key, category) {
      assert after == before + {id};
    } else {
      assert after == before;
    }
  }

  lemma PutRowAt(rules: Rules, e: Entry, multi: bool, part: map<string, multiset<string>>, key: string,
          category: string)
    ensures At(PutRow(rules, e, multi, part), key)[category]
         == At(part, key)[category] + if Supports(rules, e, multi, key, category) then 1 else 0
  {
    hide Listed, IsMulti, SlotKey, Trim;
  }

  lemma PutRowIsPart(rules: Rules, entries: map<int, Entry>, id: int, e: Entry, multi: bool,
          part: map<string, multiset<string>>)
    requires id !in entries && IsPart(rules, entries, multi, part)
    ensures IsPart(rules, entries[id := e], multi, PutRow(rules, e, multi, part))
  {
    var after := PutRow(rules, e, multi, part);
    assert forall key :: key in after ==> after[key] != multiset{} by {
      hide Listed, IsMulti, SlotKey, Trim;
      assert forall key :: key in after ==> key in part || Trim(e.category) in after[key];
    }
    hide Listed, IsMulti, SlotKey, Trim, PutRow, Supports, Supporters;
    forall key, category
      ensures At(after, key)[category] == |Supporters(rules, entries[id := e], multi, key, category)|
    {
      assert At(part, key)[category] == |Supporters(rules, entries, multi, key, category)|;
      SupportersNext(rules, entries, id, e, multi, key, category);
      PutRowAt(rules, e, multi, part, key, category);
    }
  }

  lemma WithTextNext(entries: map<int, Entry>, id: int, e: Entry)
    requires id !in entries
    ensures |WithText(entries[id := e])| == |WithText(entries)| + if HasText(e) then 1 else 0
  {
    hide HasText;
    if HasText(e) {
      assert WithText(entries[id := e]) == WithText(entries) + {id};
    } else {
      assert WithText(entries[id := e]) == WithText(entries);
    }
  }

  // ----- the store -----

  function Part(entries: map<int, Entry>, ids: set<int>): map<int, Entry> {
    map id | id in entries && id in ids :: entries[id]
  }

  lemma ReviewedNext(entries: map<int, Entry>, ids: set<int>, id: int, status: Status, now: string)
    requires id in entries && id !in ids
    ensures var part := ReviewedAll(entries, ids, status, now);
      && id in part
      && part[id := Reviewed(part[id], status, now)] == ReviewedAll(entries, ids + {id}, status, now)
  {
    hide Reviewed;
  }

  lemma ReviewedNone(entries: map<int, Entry>, ids: set<int>, status: Status, now: string)
    ensures ReviewedAll(entries, {}, status, now) == entries
        && ReviewedAll(entries, ids, status, now).Keys == entries.Keys
  {
    hide Reviewed;
  }

  /** A row to update is found under its id, and a done one is not among the rows left. */
  lemma HitNext(keys: set<int>, hit: set<int>, todo: set<int>, all: set<int>, id: int)
    requires hit !! todo && hit + todo * keys == all && id in todo
    ensures hit !! (todo - {id})
    ensures id in keys ==> (hit + {id}) !! (todo - {id}) && |hit + {id}| == |hit| + 1
    ensures id in keys ==> (hit + {id}) + (todo - {id}) * keys == all
    ensures id !in keys ==> hit + (todo - {id}) * keys == all
  {}

  lemma NoneIn(ids: set<int>)
    ensures (forall id :: id !in ids) ==> ids == {}
  {
    assert (forall id :: id !in ids) ==> ids <= {};
  }

  class LexiconRepository {
    var entries: map<int, Entry>
    var categories: set<string>
    var version: nat
    var nextId: int

    ghost function View(): State
      reads this
    {
      State(entries, categories, version, nextId)
    }

    /** Keys are unique, ids come from the sequence, and every entry is sound. */
    ghost predicate Valid()
      reads this
    {
      Sound(View())
    }

    constructor ()
      ensures Valid() && View() == EMPTY
    {
      entries, categories, version, nextId := map[], {}, 0, 1;
      new;
      EmptyIsSound();
    }

    method BumpMeta()
      modifies this`version
      ensures version == old(version) + 1
    {
      version := version + 1;
    }

    method InsertRow(e: Entry) returns (rowCount: nat)
      modifies this`entries, this`nextId
      ensures (View(), rowCount) == Insert(old(View()), e)
    {
      rowCount := 0;
      if !HasKey(entries, e.category, e.normalized) {
        entries := entries[nextId := e];
        rowCount := 1;
      }
      nextId := nextId + 1;
    }

    method AddEntry(rules: Rules, draft: Draft, source: string) returns (outcome: Outcome)
      requires Valid()
      modifies this
      ensures Valid() && Counted(old(View()), View())
      ensures (View(), outcome) == AfterAdd(rules, old(View()), draft, source)
      ensures AddReads(rules, old(View()), View(), outcome, draft, source)
    {
      AddInWords(rules, View(), draft, source);
      hide AddReads;
      AddIsSound(rules, View(), draft, source);
      hide Sound, Counted;
      hide Trim, HasKey;
      var category := Trim(draft.category);
      if category == "" { category := AUTO_ADDED; }
      var value := Trim(draft.value);
      if value == "" { return Err(EmptyValue); }
      categories := categories + {category};
      var rowCount := InsertRow(NewEntry(rules, category, value, source));
      if rowCount > 0 { BumpMeta(); }
      outcome := Ok(rowCount);
    }

    method AddEntries(rules: Rules, drafts: seq<Draft>, source: string) returns (outcome: Outcome)
      requires Valid()
      modifies this
      ensures Valid() && Counted(old(View()), View())
      ensures (View(), outcome) == AfterAddMany(rules, old(View()), drafts, source)
      ensures AddAllReads(rules, old(View()), View(), outcome, drafts, source)
    {
      AddManyInWords(rules, View(), drafts, source);
      AddsAreSound(rules, View(), drafts, source);
      hide Sound, Counted, AfterAddMany, AddAllReads;
      outcome := ApplyAdds(rules, drafts, source);
    }

    /** The loop, with its version bump. */
    method ApplyAdds(rules: Rules, drafts: seq<Draft>, source: string) returns (outcome: Outcome)
      modifies this
      ensures (View(), outcome) == AfterAddMany(rules, old(View()), drafts, source)
    {
      hide Cleaned, InsertAll;
      var insertedCount := InsertRows(rules, Cleaned(drafts), source);
      if insertedCount > 0 { BumpMeta(); }
      outcome := Ok(insertedCount);
    }

    /** The insertion loop of `addEntries`. */
    method InsertRows(rules: Rules, todo: seq<Draft>, source: string) returns (insertedCount: nat)
      modifies this`entries, this`categories, this`nextId
      ensures (View(), insertedCount) == InsertAll(rules, old(View()), todo, source)
    {
      hide Insert;
      insertedCount := 0;
      ghost var before := View();
      assert todo[..0] == [];
      for k := 0 to |todo|
        invariant (View(), insertedCount) == InsertAll(rules, before, todo[..k], source)
      {
        assert todo[..k + 1][..k] == todo[..k];
        categories := categories + {todo[k].category};
        var rowCount := InsertRow(NewEntry(rules, todo[k].category, todo[k].value, source));
        insertedCount := insertedCount + rowCount;
      }
      assert todo[..|todo|] == todo;
    }

    method UpdateEntry(rules: Rules, id: int, change: Change) returns (outcome: Outcome)
      requires Valid()
      modifies this`entries, this`version
      ensures Valid() && Counted(old(View()), View())
      ensures (View(), outcome) == AfterUpdate(rules, old(View()), id, change)
      ensures UpdateReads(rules, old(View()), View(), outcome, id, change)
    {
      UpdateIsSound(rules, View(), id, change);
      UpdateInWords(rules, View(), id, change);
      hide Sound, Counted, AfterUpdate, UpdateReads;
      outcome := ApplyUpdate(rules, id, change);
    }

    /** The checks in their order, and the write. */
    method ApplyUpdate(rules: Rules, id: int, change: Change) returns (outcome: Outcome)
      modifies this`entries, this`version
      ensures (View(), outcome) == AfterUpdate(rules, old(View()), id, change)
    {
      hide Trim, HasKey, EditableStatus, Reviewed;
      var status := EditableStatus(rules, change.status);
      var category, value := Trim(change.category), Trim(change.value);
      if status.None? { return Err(InvalidStatus); }
      if id <= 0 { return Err(InvalidId); }
      if value == "" { return Err(EmptyValue); }
      if category == "" { return Err(EmptyCategory); }
      if id !in entries { return Err(NotFound); }
      var known := CategoryNames();
      if category !in known { return Err(UnknownCategory); }
      if HasKey(entries - {id}, category, rules.lower(value)) { return Err(DuplicateKey); }
      entries := entries[id := Reviewed(entries[id], status.value, change.now)
                               .(category := category, value := value, normalized := rules.lower(value))];
      BumpMeta();
      outcome := Ok(1);
    }

    method CategoryNames() returns (names: set<string>)
      ensures names == ListCategories(View())
    {
      names := (set c | c in categories && Trim(c) != "" :: Trim(c))
        + (set id | id in entries && Trim(entries[id].category) != "" :: Trim(entries[id].category));
      if AUTO_ADDED !in names { names := names + {AUTO_ADDED}; }
    }

    method DeleteEntries(ids: seq<int>) returns (outcome: Outcome)
      requires Valid()
      modifies this`entries, this`version
      ensures Valid() && Counted(old(View()), View())
      ensures (View(), outcome) == AfterDelete(old(View()), ids)
      ensures DeleteReads(old(View()), View(), outcome, ids)
    {
      DeleteIsSound(View(), ids);
      DeleteShows(View(), ids);
      hide Sound, Counted, AfterDelete, DeleteReads;
      outcome := ApplyDelete(ids);
    }

    method ApplyDelete(ids: seq<int>) returns (outcome: Outcome)
      modifies this`entries, this`version
      ensures (View(), outcome) == AfterDelete(old(View()), ids)
    {
      hide Positive, Hits;
      var wanted := Positive(ids);
      if wanted == {} { return Err(InvalidId); }
      var hit := Hits(wanted, entries);
      entries := entries - hit;
      if |hit| > 0 { BumpMeta(); }
      outcome := Ok(|hit|);
    }

    method BulkUpdateStatus(rules: Rules, ids: seq<int>, status: string, now: string) returns (outcome: Outcome)
      requires Valid()
      modifies this`entries, this`version
      ensures Valid() && Counted(old(View()), View())
      ensures (View(), outcome) == AfterStatus(rules, old(View()), ids, status, now)
      ensures StatusReads(rules, old(View()), View(), outcome, ids, status)
    {
      StatusIsSound(rules, View(), ids, status, now);
      StatusInWords(rules, View(), ids, status, now);
      hide Sound, Counted, AfterStatus, StatusReads;
      outcome := ApplyStatus(rules, ids, status, now);
    }

    /** The loop itself. */
    method ApplyStatus(rules: Rules, ids: seq<int>, status: string, now: string) returns (outcome: Outcome)
      modifies this`entries, this`version
      ensures (View(), outcome) == AfterStatus(rules, old(View()), ids, status, now)
    {
      hide EditableStatus, ReviewedAll, Positive, Reviewed, Hits;
      var target := EditableStatus(rules, status);
      if target.None? { return Err(InvalidStatus); }
      ghost var before, wanted := View(), Positive(ids);
      var updated := SetStatus(Positive(ids), target.value, now);
      if updated > 0 { BumpMeta(); }
      ghost var hit := Hits(wanted, before.entries);
      assert View() == Bump(before.(entries := ReviewedAll(before.entries, hit, target.value, now)), hit != {});
      hide Bump;
      outcome := Ok(updated);
    }

    /** The loop over the ids, which skips those without a row; returns the number of rows changed. */
    method SetStatus(ids: set<int>, status: Status, now: string) returns (updated: nat)
      modifies this`entries
      ensures entries == ReviewedAll(old(entries), Hits(ids, old(entries)), status, now)
      ensures updated == |Hits(ids, old(entries))|
      ensures updated > 0 <==> Hits(ids, old(entries)) != {}
    {
      hide Reviewed, ReviewedAll;
      var todo := ids;
      updated := 0;
      ghost var before, hit: set<int> := entries, {};
      ghost var all := ids * before.Keys;
      ReviewedNone(before, hit, status, now);
      while todo != {}
        invariant hit !! todo && hit + todo * before.Keys == all
        invariant entries == ReviewedAll(before, hit, status, now) && updated == |hit|
        decreases |todo|
      {
        NoneIn(todo);
        var id :| id in todo;
        HitNext(before.Keys, hit, todo, all, id);
        ReviewedNone(before, hit, status, now);
        todo := todo - {id};
        if id in entries {
          ReviewedNext(before, hit, id, status, now);
          entries := entries[id := Reviewed(entries[id], status, now)];
          updated := updated + 1;
          hit := hit + {id};
        }
      }
      assert hit == all;
    }

    method CreateCategory(name: string)
      requires Valid()
      modifies this`categories
      ensures Valid() && Counted(old(View()), View())
      ensures View() == AfterCreateCategory(old(View()), name)
    {
      CategoriesAreSound(View(), name);
      NoEntryChange(View(), AfterCreateCategory(View(), name));
      hide Sound, Counted;
      var cleaned := Trim(name);
      if cleaned != "" { categories := categories + {cleaned}; }
    }

    method DeleteCategory(name: string)
      requires Valid()
      modifies this`categories
      ensures Valid() && Counted(old(View()), View())
      ensures View() == AfterDeleteCategory(old(View()), name)
    {
      CategoriesAreSound(View(), name);
      NoEntryChange(View(), AfterDeleteCategory(View(), name));
      hide Sound, Counted;
      var cleaned := Trim(name);
      if !exists id :: id in entries && entries[id].category == cleaned { categories := categories - {cleaned}; }
    }

    method SyncRow(rules: Rules, row: RowSync) returns (result: SyncResult)
      requires Valid()
      modifies this
      ensures Valid() && Counted(old(View()), View())
      ensures (View(), result) == AfterSync(rules, old(View()), row)
      ensures SyncReads(rules, old(View()), View(), result, row)
    {
      SyncInWords(rules, View(), row);
      hide SyncReads;
      SyncIsSound(rules, View(), row);
      hide Sound, Counted;
      hide Candidate, FirstHint, ResolveCategory, SyncInsert, HasSimilar;
      var candidate := Candidate(rules, row);
      if candidate == "" || !rules.allows(candidate) { return SyncResult(SyncRejected, candidate, AUTO_ADDED, true); }
      var category, fallbackUsed := ResolveRowCategory(FirstHint(row.categories));
      if HasSimilar(rules, entries, category, candidate) {
        return SyncResult(SyncExists, candidate, category, fallbackUsed);
      }
      InsertSynced(category, candidate);
      result := SyncResult(SyncAdded, candidate, category, fallbackUsed);
    }

    method InsertSynced(category: string, candidate: string)
      modifies this
      ensures View() == SyncInsert(old(View()), category, candidate)
    {
      categories := categories + {category};
      entries := entries[nextId := Entry(category, candidate, candidate, true, PendingReview, None, None)];
      nextId := nextId + 1;
      BumpMeta();
    }

    method ResolveRowCategory(rawHint: string) returns (category: string, fallbackUsed: bool)
      requires Valid()
      modifies this`categories
      ensures Valid()
      ensures (View(), category, fallbackUsed) == ResolveCategory(old(View()), rawHint)
    {
      hide Sound, Counted, Trim, ListCategories, AfterCreateCategory;
      var known := CategoryNames();
      var hint := Trim(rawHint);
      category, fallbackUsed := AUTO_ADDED, true;
      if hint != "" && hint in known {
        category, fallbackUsed := hint, false;
      } else if hint != "" && hint in AUTO_CREATE {
        CreateCategory(hint);
        category, fallbackUsed := hint, false;
      }
    }

    /**
     Walks the rows in whatever order the query returns them. Looking up the list of a single word finds an
     inherited member instead of nothing when the word names one, and spreading that into a list fails.
     */
    method BuildIndex(rules: Rules) returns (answer: Option<Index>)
      ensures IsAnswer(rules, View(), answer)
    {
      hide Listed, IsMulti, SlotKey, Normal, Trim, HasText, Supports, Supporters, WithText, IsPart, IsInherited;
      var todo := entries.Keys;
      var single: map<string, multiset<string>>, multi: map<string, multiset<string>>, totalRows := map[], map[], 0;
      NoRows(rules);
      assert Part(entries, entries.Keys - todo) == map[];
      while todo != {}
        invariant todo <= entries.Keys
        invariant IsPart(rules, Part(entries, entries.Keys - todo), false, single)
        invariant IsPart(rules, Part(entries, entries.Keys - todo), true, multi)
        invariant totalRows == |WithText(Part(entries, entries.Keys - todo))|
        invariant forall id :: id in entries && id !in todo ==> !Blocks(rules, entries[id])
        invariant forall key :: key in single ==> !IsInherited(key)
        decreases |todo|
      {
        NoneIn(todo);
        var id :| id in todo;
        var e := entries[id];
        ghost var part := Part(entries, entries.Keys - todo);
        assert Part(entries, entries.Keys - (todo - {id})) == part[id := e];
        PutRowIsPart(rules, part, id, e, false, single);
        PutRowIsPart(rules, part, id, e, true, multi);
        WithTextNext(part, id, e);
        PutRowCases(rules, e, single, multi);
        todo := todo - {id};
        if HasText(e) {
          totalRows := totalRows + 1;
          if Listed(rules, e) {
            var key := SlotKey(rules, e);
            if IsMulti(rules, e) {
              multi := AddTo(multi, key, Trim(e.category));
            } else {
              if key !in single && IsInherited(key) { return None; }
              single := AddTo(single, key, Trim(e.category));
            }
          }
        }
      }
      assert Part(entries, entries.Keys - todo) == entries;
      answer := Some(Index(single, multi, totalRows, version));
    }
  }

  lemma NoRows(rules: Rules)
    ensures IsPart(rules, map[], false, map[]) && IsPart(rules, map[], true, map[]) && WithText(map[]) == {}
  {}

  lemma PutRowCases(rules: Rules, e: Entry, single: map<string, multiset<string>>, multi: map<string, multiset<string>>)
    ensures Listed(rules, e) ==> HasText(e)
    ensures Blocks(rules, e) <==> Listed(rules, e) && !IsMulti(rules, e) && IsInherited(SlotKey(rules, e))
    ensures PutRow(rules, e, false, single) ==
      if Listed(rules, e) && !IsMulti(rules, e) then AddTo(single, SlotKey(rules, e), Trim(e.category))
      else single
    ensures PutRow(rules, e, true, multi) ==
      if Listed(rules, e) && IsMulti(rules, e) then AddTo(multi, SlotKey(rules, e), Trim(e.category))
      else multi
  {}
}
