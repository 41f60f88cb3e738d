/**
 The unit store: two tables, units and their subunits, changed by creating, updating and deleting units.
 Each operation is one transaction.
 */
module UnitStore {
  import opened Text
  import opened UnitCodes

  datatype Unit = Unit(code: string, number: nat, count: nat)

  datatype Subunit = Subunit(unitId: nat, code: string, position: nat, content: string)

  /** Both tables by row id, and the next values of their id sequences. */
  datatype Store = Store(units: map<nat, Unit>, subunits: map<nat, Subunit>, nextUnit: nat, nextSubunit: nat)

  const EMPTY := Store(map[], map[], 1, 1)

  // ----- the operations, as functions of the tables -----

  /** `normalizeSubunits`: trimmed contents, empty ones left out. */
  function Normalize(drafts: seq<string>): (r: seq<string>)
    ensures forall k :: 0 <= k < |r| ==> r[k] != ""
  {
    if drafts == [] then []
    else Normalize(drafts[..|drafts| - 1])
         + if Trim(drafts[|drafts| - 1]) != "" then [Trim(drafts[|drafts| - 1])] else []
  }

  /** `contents` are the drafts at the places `at`, trimmed and in order; only blank drafts are left out. */
  ghost predicate IsNormalOf(drafts: seq<string>, at: seq<nat>, contents: seq<string>) {
    && |at| == |contents|
    && (forall k :: 0 <= k < |at| ==> at[k] < |drafts| && contents[k] == Trim(drafts[at[k]]))
    && (forall k, l :: 0 <= k < l < |at| ==> at[k] < at[l])
    && (forall n: nat :: n < |drafts| ==> (n in at <==> Trim(drafts[n]) != ""))
  }

  lemma NormalNext(drafts: seq<string>, n: nat, at: seq<nat>, contents: seq<string>)
    requires |drafts| == n + 1 && IsNormalOf(drafts[..n], at, contents)
    ensures if Trim(drafts[n]) == "" then IsNormalOf(drafts, at, contents)
            else IsNormalOf(drafts, at + [n], contents + [Trim(drafts[n])])
  {
    hide Trim;
    assert forall k :: 0 <= k < n ==> drafts[..n][k] == drafts[k];
  }

  lemma {:induction false} NormalizeInWords(drafts: seq<string>) returns (at: seq<nat>)
    ensures IsNormalOf(drafts, at, Normalize(drafts))
  {
    hide Trim;
    if drafts == [] {
      at := [];
    } else {
      var n := |drafts| - 1;
      at := NormalizeInWords(drafts[..n]);
      NormalNext(drafts, n, at, Normalize(drafts[..n]));
      hide IsNormalOf;
      if Trim(drafts[n]) != "" { at := at + [n]; } else { assert Normalize(drafts) == Normalize(drafts[..n]); }
    }
  }

  /** `number` is `COALESCE(MAX(unit_number), 0)`. */
  ghost predicate IsMaxNumber(units: map<nat, Unit>, number: nat) {
    && (forall id :: id in units ==> units[id].number <= number)
    && (number == 0 || exists id :: id in units && units[id].number == number)
  }

  function NewRow(unitId: nat, number: nat, contents: seq<string>, index: nat): Subunit
    requires index < |contents|
  {
    Subunit(unitId, SubunitCode(number, index), index, contents[index])
  }

  /** The rows that `insertSubunits` adds, with the ids from `next` on. */
  function NewRows(next: nat, unitId: nat, number: nat, contents: seq<string>): (rows: map<nat, Subunit>)
    ensures forall j :: j in rows <==> next <= j < next + |contents|
    ensures forall j :: j in rows ==> rows[j] == NewRow(unitId, number, contents, j - next)
  {
    if contents == [] then map[]
    else
      var init := contents[..|contents| - 1];
      NewRows(next, unitId, number, init)[next + |init| := NewRow(unitId, number, contents, |init|)]
  }

  lemma NextNewRow(next: nat, unitId: nat, number: nat, contents: seq<string>, index: nat)
    requires index < |contents|
    ensures NewRows(next, unitId, number, contents[..index + 1])
         == NewRows(next, unitId, number, contents[..index])[next + index := NewRow(unitId, number, contents, index)]
  {
    assert contents[..index + 1][..index] == contents[..index];
  }

  lemma MapInsert(base: map<nat, Subunit>, rows: map<nat, Subunit>, j: nat, row: Subunit)
    ensures (base + rows)[j := row] == base + rows[j := row]
  {}

  lemma NoNewRows(next: nat, unitId: nat, number: nat)
    ensures NewRows(next, unitId, number, []) == map[]
  {}

  function Create(s: Store, number: nat, contents: seq<string>): Store {
    Store(s.units[s.nextUnit := Unit(UnitCode(number), number, |contents|)],
          s.subunits + NewRows(s.nextSubunit, s.nextUnit, number, contents),
          s.nextUnit + 1, s.nextSubunit + |contents|)
  }

  /** `DELETE FROM unit_subunits WHERE unit_id = ...` */
  function WithoutRows(subunits: map<nat, Subunit>, ids: set<nat>): map<nat, Subunit> {
    map j | j in subunits && subunits[j].unitId !in ids :: subunits[j]
  }

  function Update(s: Store, id: nat, contents: seq<string>): Store
    requires id in s.units
  {
    Store(s.units[id := s.units[id].(count := |contents|)],
          WithoutRows(s.subunits, {id}) + NewRows(s.nextSubunit, id, s.units[id].number, contents),
          s.nextUnit, s.nextSubunit + |contents|)
  }

  /** `DELETE FROM units`, with the cascade to the subunits of the deleted units. */
  function Delete(s: Store, ids: set<nat>): Store {
    s.(units := s.units - ids, subunits := WithoutRows(s.subunits, ids * s.units.Keys))
  }

  // ----- what every run keeps -----

  ghost predicate UnitsSound(s: Store) {
    && (forall id :: id in s.units ==> 1 <= id < s.nextUnit && s.units[id].number >= 1
                                       && s.units[id].code == UnitCode(s.units[id].number))
    && (forall x, y :: x in s.units && y in s.units && x != y ==> s.units[x].number != s.units[y].number)
  }

  /** A row belongs to a unit, at a position below its count, and shows both in its code. */
  ghost predicate RowSound(s: Store, j: nat)
    requires j in s.subunits
  {
    var row := s.subunits[j];
    && j < s.nextSubunit && row.unitId in s.units
    && row.position < s.units[row.unitId].count
    && row.code == SubunitCode(s.units[row.unitId].number, row.position)
  }

  ghost predicate HasRow(s: Store, id: nat, position: nat) {
    exists j :: j in s.subunits && s.subunits[j].unitId == id && s.subunits[j].position == position
  }

  /** The rows of a unit have the positions 0 to count - 1, each once. */
  ghost predicate RowsSound(s: Store) {
    && (forall j :: j in s.subunits ==> RowSound(s, j))
    && (forall j, k :: j in s.subunits && k in s.subunits && j != k ==>
          s.subunits[j].unitId != s.subunits[k].unitId || s.subunits[j].position != s.subunits[k].position)
    && (forall id, p :: id in s.units && 0 <= p < s.units[id].count ==> HasRow(s, id, p))
  }

  ghost predicate Sound(s: Store) { UnitsSound(s) && RowsSound(s) }

  /** The rows of every unit but `id` are sound, and `id` has none. */
  ghost predicate RowsSoundBut(s: Store, id: nat) {
    && (forall j :: j in s.subunits ==> RowSound(s, j) && s.subunits[j].unitId != id)
    && (forall j, k :: j in s.subunits && k in s.subunits && j != k ==>
          s.subunits[j].unitId != s.subunits[k].unitId || s.subunits[j].position != s.subunits[k].position)
    && (forall u, p :: u in s.units && u != id && 0 <= p < s.units[u].count ==> HasRow(s, u, p))
  }

  function AddRows(s: Store, id: nat, contents: seq<string>): Store
    requires id in s.units
  {
    s.(subunits := s.subunits + NewRows(s.nextSubunit, id, s.units[id].number, contents),
       nextSubunit := s.nextSubunit + |contents|)
  }

  lemma AddedRowIsSound(s: Store, id: nat, contents: seq<string>, j: nat)
    requires RowsSoundBut(s, id) && id in s.units && s.units[id].count == |contents|
    requires j in AddRows(s, id, contents).subunits
    ensures RowSound(AddRows(s, id, contents), j)
    ensures j in s.subunits ==> s.subunits[j].unitId != id && AddRows(s, id, contents).subunits[j] == s.subunits[j]
  {
    hide SubunitCode;
    if j in s.subunits { assert RowSound(s, j); }
  }

  lemma AddRowsFills(s: Store, id: nat, contents: seq<string>, u: nat, p: nat)
    requires RowsSoundBut(s, id) && id in s.units && s.units[id].count == |contents|
    requires u in s.units && p < s.units[u].count
    ensures HasRow(AddRows(s, id, contents), u, p)
  {
    hide SubunitCode;
    var t := AddRows(s, id, contents);
    if u == id {
      assert t.subunits[s.nextSubunit + p].position == p;
    } else {
      assert HasRow(s, u, p);
      var j :| j in s.subunits && s.subunits[j].unitId == u && s.subunits[j].position == p;
      AddedRowIsSound(s, id, contents, j);
    }
  }

  /** Inserting the rows of a unit that has none makes all rows sound. */
  lemma AddRowsIsSound(s: Store, id: nat, contents: seq<string>)
    requires UnitsSound(s) && RowsSoundBut(s, id) && id in s.units && s.units[id].count == |contents|
    ensures Sound(AddRows(s, id, contents))
  {
    hide SubunitCode, RowSound, HasRow;
    var t := AddRows(s, id, contents);
    assert UnitsSound(t);
    hide UnitsSound;
    forall j | j in t.subunits
      ensures RowSound(t, j)
      ensures j in s.subunits ==> s.subunits[j].unitId != id && t.subunits[j] == s.subunits[j]
    {
      AddedRowIsSound(s, id, contents, j);
    }
    forall u, p | u in t.units && 0 <= p < t.units[u].count ensures HasRow(t, u, p) {
      AddRowsFills(s, id, contents, u, p);
    }
  }

  lemma CreateIsSound(s: Store, number: nat, contents: seq<string>)
    requires Sound(s) && IsMaxNumber(s.units, number) && s.nextUnit >= 1
    ensures Sound(Create(s, number + 1, contents))
  {
    hide UnitsSound, IsMaxNumber, UnitCode, SubunitCode, RowsSound, RowsSoundBut, NewRows;
    var base := WithUnit(s, number + 1, contents);
    CreateUnitsSound(s, number, contents);
    RowsStaySound(s, base);
    AddRowsIsSound(base, s.nextUnit, contents);
  }

  /** The unit row of a new unit, still without its subunits. */
  function WithUnit(s: Store, number: nat, contents: seq<string>): Store {
    s.(units := s.units[s.nextUnit := Unit(UnitCode(number), number, |contents|)], nextUnit := s.nextUnit + 1)
  }

  lemma CreateUnitsSound(s: Store, number: nat, contents: seq<string>)
    requires UnitsSound(s) && IsMaxNumber(s.units, number) && s.nextUnit >= 1
    ensures UnitsSound(WithUnit(s, number + 1, contents)) && s.nextUnit !in s.units
  {
    hide UnitCode;
  }

  /** A unit without rows, added beside sound rows. */
  lemma RowsStaySound(s: Store, base: Store)
    requires RowsSound(s) && base.subunits == s.subunits && base.nextSubunit == s.nextSubunit
    requires s.nextUnit !in s.units && s.nextUnit in base.units && base.units - {s.nextUnit} == s.units
    ensures RowsSoundBut(base, s.nextUnit)
  {
    hide SubunitCode;
    forall u | u in s.units ensures u in base.units && base.units[u] == s.units[u] {
      assert u in base.units - {s.nextUnit};
    }
    forall j | j in base.subunits
      ensures RowSound(base, j) && base.subunits[j].unitId != s.nextUnit
    {
      assert RowSound(s, j);
    }
    forall u, p | u in base.units && u != s.nextUnit && 0 <= p < base.units[u].count ensures HasRow(base, u, p) {
      assert u in base.units - {s.nextUnit};
      assert HasRow(s, u, p);
    }
  }

  lemma UpdateIsSound(s: Store, id: nat, contents: seq<string>)
    requires Sound(s) && id in s.units
    ensures Sound(Update(s, id, contents))
  {
    hide SubunitCode, UnitCode, NewRows;
    var base :=
      s.(units := s.units[id := s.units[id].(count := |contents|)], subunits := WithoutRows(s.subunits, {id}));
    UpdateBase(s, base, id, |contents|);
    hide UnitsSound, RowsSound, RowsSoundBut;
    AddRowsIsSound(base, id, contents);
  }

  /** A unit loses its rows and gets a new count. */
  ghost predicate Emptied(s: Store, base: Store, id: nat, count: nat) {
    && id in s.units
    && base == s.(units := s.units[id := s.units[id].(count := count)], subunits := WithoutRows(s.subunits, {id}))
  }

  lemma KeptRow(s: Store, base: Store, id: nat, count: nat, j: nat)
    requires RowsSound(s) && Emptied(s, base, id, count)
    ensures j in base.subunits <==> j in s.subunits && s.subunits[j].unitId != id
    ensures j in base.subunits ==> base.subunits[j] == s.subunits[j] && RowSound(base, j)
  {
    hide SubunitCode, UnitCode, HasRow;
    if j in s.subunits { assert RowSound(s, j); }
  }

  lemma KeptHasRow(s: Store, base: Store, id: nat, count: nat, u: nat, p: nat)
    requires RowsSound(s) && Emptied(s, base, id, count) && u in s.units && u != id && p < s.units[u].count
    ensures HasRow(base, u, p)
  {
    hide RowSound, Emptied;
    assert HasRow(s, u, p);
    var j :| j in s.subunits && s.subunits[j].unitId == u && s.subunits[j].position == p;
    KeptRow(s, base, id, count, j);
  }

  lemma UpdateBase(s: Store, base: Store, id: nat, count: nat)
    requires Sound(s) && Emptied(s, base, id, count)
    ensures UnitsSound(base) && RowsSoundBut(base, id)
  {
    hide UnitCode, RowSound, HasRow, WithoutRows;
    assert UnitsSound(base);
    hide UnitsSound;
    forall j
      ensures j in base.subunits <==> j in s.subunits && s.subunits[j].unitId != id
      ensures j in base.subunits ==> base.subunits[j] == s.subunits[j] && RowSound(base, j)
    {
      KeptRow(s, base, id, count, j);
    }
    forall u, p | u in base.units && u != id && 0 <= p < base.units[u].count ensures HasRow(base, u, p) {
      KeptHasRow(s, base, id, count, u, p);
    }
  }

  /** Deleting ids that no unit has changes nothing. */
  lemma DeleteNothing(s: Store, ids: set<nat>)
    requires ids * s.units.Keys == {}
    ensures Delete(s, ids) == s
  {
    assert forall id :: id in s.units ==> id !in ids by {
      forall id | id in s.units ensures id !in ids { assert id in ids ==> id in ids * s.units.Keys; }
    }
    assert s.units - ids == s.units;
    assert WithoutRows(s.subunits, {}) == s.subunits;
  }

  lemma DeleteIsSound(s: Store, ids: set<nat>)
    requires Sound(s)
    ensures Sound(Delete(s, ids))
  {
    var t := Delete(s, ids);
    forall j | j in t.subunits ensures RowSound(t, j) { assert RowSound(s, j); }
    forall id, p | id in t.units && 0 <= p < t.units[id].count ensures HasRow(t, id, p) {
      assert HasRow(s, id, p);
      var j :| j in s.subunits && s.subunits[j].unitId == id && s.subunits[j].position == p;
      assert t.subunits[j] == s.subunits[j];
    }
  }

  // ----- what soundness means -----

  /** Unit numbers, unit codes and all subunit codes are distinct. */
  lemma CodesAreDistinct(s: Store)
    requires Sound(s)
    ensures forall x, y :: x in s.units && y in s.units && x != y ==>
      s.units[x].number != s.units[y].number && s.units[x].code != s.units[y].code
    ensures forall j, k :: j in s.subunits && k in s.subunits && j != k ==> s.subunits[j].code != s.subunits[k].code
  {
    forall x, y | x in s.units && y in s.units && x != y ensures s.units[x].code != s.units[y].code {
      if s.units[x].code == s.units[y].code { UnitCodeInjective(s.units[x].number, s.units[y].number); }
    }
    forall j, k | j in s.subunits && k in s.subunits && j != k ensures s.subunits[j].code != s.subunits[k].code {
      assert RowSound(s, j) && RowSound(s, k);
      var a, b := s.subunits[j], s.subunits[k];
      if a.code == b.code {
        SubunitCodeInjective(s.units[a.unitId].number, a.position, s.units[b.unitId].number, b.position);
      }
    }
  }

  /** The rows of a unit with positions below `n`. */
  ghost function RowsBelow(s: Store, id: nat, n: nat): set<nat> {
    set j | j in RowsOf(s, id) && s.subunits[j].position < n
  }

  ghost function RowsOf(s: Store, id: nat): set<nat> { set j | j in s.subunits && s.subunits[j].unitId == id }

  lemma NextRow(s: Store, id: nat, n: nat)
    requires RowsSound(s) && id in s.units && n < s.units[id].count
    ensures exists j :: j !in RowsBelow(s, id, n) && RowsBelow(s, id, n + 1) == RowsBelow(s, id, n) + {j}
  {
    assert HasRow(s, id, n);
    var last :| last in s.subunits && s.subunits[last].unitId == id && s.subunits[last].position == n;
    assert forall j :: j in RowsOf(s, id) && s.subunits[j].position == n ==> j == last;
    assert RowsBelow(s, id, n + 1) == RowsBelow(s, id, n) + {last};
  }

  lemma OneMore(ids: set<nat>, id: nat)
    requires id !in ids
    ensures |ids + {id}| == |ids| + 1
  {}

  lemma {:induction false} CountRows(s: Store, id: nat, n: nat)
    requires RowsSound(s) && id in s.units && n <= s.units[id].count
    ensures |RowsBelow(s, id, n)| == n
  {
    if n == 0 {
      assert RowsBelow(s, id, 0) == {};
    } else {
      CountRows(s, id, n - 1);
      NextRow(s, id, n - 1);
      hide *;
      var before := RowsBelow(s, id, n - 1);
      var j :| j !in before && RowsBelow(s, id, n) == before + {j};
      OneMore(before, j);
    }
  }

  /** The stored count of a unit is the number of its rows. */
  lemma CountsMatchRows(s: Store, id: nat)
    requires Sound(s) && id in s.units
    ensures |RowsOf(s, id)| == s.units[id].count
  {
    CountRows(s, id, s.units[id].count);
    assert forall j :: j in RowsOf(s, id) ==> RowSound(s, j);
    assert RowsOf(s, id) == RowsBelow(s, id, s.units[id].count);
  }

  /** The contents of a unit in position order. */
  ghost predicate Shows(s: Store, id: nat, contents: seq<string>) {
    && id in s.units && s.units[id].count == |contents|
    && forall j :: j in s.subunits && s.subunits[j].unitId == id ==>
         s.subunits[j].position < |contents| && s.subunits[j].content == contents[s.subunits[j].position]
  }

  lemma AddRowsShows(s: Store, id: nat, contents: seq<string>, other: nat, shown: seq<string>)
    requires RowsSoundBut(s, id) && id in s.units && s.units[id].count == |contents|
    ensures Shows(AddRows(s, id, contents), id, contents)
    ensures other != id && Shows(s, other, shown) ==> Shows(AddRows(s, id, contents), other, shown)
  {
    hide SubunitCode, UnitCode;
  }

  /** A write shows its contents, and every other unit shows what it did. */
  lemma CreateShows(s: Store, number: nat, contents: seq<string>, other: nat, shown: seq<string>)
    requires Sound(s) && IsMaxNumber(s.units, number) && s.nextUnit >= 1
    ensures Shows(Create(s, number + 1, contents), s.nextUnit, contents)
    ensures Shows(s, other, shown) ==> Shows(Create(s, number + 1, contents), other, shown)
  {
    hide UnitsSound, IsMaxNumber, UnitCode, SubunitCode, RowsSound, RowsSoundBut, NewRows;
    var base := WithUnit(s, number + 1, contents);
    CreateUnitsSound(s, number, contents);
    RowsStaySound(s, base);
    assert Shows(s, other, shown) ==> other != s.nextUnit && Shows(base, other, shown);
    hide Shows;
    AddRowsShows(base, s.nextUnit, contents, other, shown);
  }

  lemma UpdateShows(s: Store, id: nat, contents: seq<string>, other: nat, shown: seq<string>)
    requires Sound(s) && id in s.units
    ensures Shows(Update(s, id, contents), id, contents)
    ensures other != id && Shows(s, other, shown) ==> Shows(Update(s, id, contents), other, shown)
  {
    hide SubunitCode, UnitsSound, RowsSound;
  }

  lemma DeleteShows(s: Store, ids: set<nat>, other: nat, shown: seq<string>)
    requires Sound(s) && other !in ids && Shows(s, other, shown)
    ensures Shows(Delete(s, ids), other, shown)
  {}

  // ----- runs -----

  /** `Math.max(0, Number(id) || 0)` */
  function SafeId(id: int): nat { if id >= 0 then id else 0 }

  /** The positive ids, each once, in order of first appearance. */
  function SafeIds(ids: seq<int>): (r: seq<nat>)
    ensures forall k, l :: 0 <= k < l < |r| ==> r[k] != r[l]
    ensures forall id :: id in r <==> id > 0 && (id as int) in ids
  {
    if ids == [] then []
    else
      var init, last := SafeIds(ids[..|ids| - 1]), SafeId(ids[|ids| - 1]);
      assert forall id :: id in ids <==> id in ids[..|ids| - 1] || id == ids[|ids| - 1];
      if last == 0 || last in init then init else init + [last]
  }

  datatype Op =
    | CreateOp(drafts: seq<string>)
    | UpdateOp(id: int, drafts: seq<string>)
    | DeleteOp(id: int)
    | BulkDeleteOp(ids: seq<int>)

  /** What each operation may do to the tables. */
  ghost predicate Steps(s: Store, op: Op, t: Store) {
    match op
    case CreateOp(drafts) =>
      if Normalize(drafts) == [] then t == s
      else exists number: nat :: IsMaxNumber(s.units, number) && t == Create(s, number + 1, Normalize(drafts))
    case UpdateOp(id, drafts) =>
      t == if Normalize(drafts) == [] || SafeId(id) !in s.units then s else Update(s, SafeId(id), Normalize(drafts))
    case DeleteOp(id) => t == Delete(s, {SafeId(id)})
    case BulkDeleteOp(ids) => t == Delete(s, set id | id in SafeIds(ids))
  }

  lemma StepIsSound(s: Store, op: Op, t: Store)
    requires Sound(s) && s.nextUnit >= 1 && Steps(s, op, t)
    ensures Sound(t) && t.nextUnit >= 1
  {
    hide Sound, SafeIds, Normalize;
    match op
    case CreateOp(drafts) =>
      if Normalize(drafts) != [] {
        var number: nat :| IsMaxNumber(s.units, number) && t == Create(s, number + 1, Normalize(drafts));
        CreateIsSound(s, number, Normalize(drafts));
      }
    case UpdateOp(id, drafts) => if t != s { UpdateIsSound(s, SafeId(id), Normalize(drafts)); }
    case DeleteOp(id) => DeleteIsSound(s, {SafeId(id)});
    case BulkDeleteOp(ids) => DeleteIsSound(s, set id | id in SafeIds(ids));
  }

  ghost predicate IsRun(states: seq<Store>, ops: seq<Op>) {
    && |states| == |ops| + 1 && states[0] == EMPTY
    && forall k :: 0 <= k < |ops| ==> Steps(states[k], ops[k], states[k + 1])
  }

  /**
   In every run from the empty store, at every moment: all numbers and codes are distinct, the rows of
   each unit have the positions 0 to count - 1, the count is their number, and no row is without its unit.
   */
  lemma {:induction false} RunIsSound(states: seq<Store>, ops: seq<Op>, k: nat)
    requires IsRun(states, ops) && k < |states|
    ensures Sound(states[k]) && states[k].nextUnit >= 1
    ensures forall x, y :: x in states[k].units && y in states[k].units && x != y ==>
      states[k].units[x].number != states[k].units[y].number && states[k].units[x].code != states[k].units[y].code
    ensures forall i, j :: i in states[k].subunits && j in states[k].subunits && i != j ==>
      states[k].subunits[i].code != states[k].subunits[j].code
    ensures forall id :: id in states[k].units ==> |RowsOf(states[k], id)| == states[k].units[id].count
  {
    hide Steps, Sound, RowsOf;
    if k == 0 {
      EmptyIsSound();
    } else {
      RunIsSound(states, ops, k - 1);
      StepIsSound(states[k - 1], ops[k - 1], states[k]);
    }
    CodesAreDistinct(states[k]);
    forall id | id in states[k].units ensures |RowsOf(states[k], id)| == states[k].units[id].count {
      CountsMatchRows(states[k], id);
    }
  }

  lemma EmptyIsSound()
    ensures Sound(EMPTY)
  {}

  // ----- the repository -----

  datatype Result<T> = Ok(value: T) | Error(message: string)

  const NO_SUBUNITS := "Unit must contain at least one subunit."

  /** `ids.filter(...)` by presence. */
  function Filter(ids: seq<nat>, present: set<nat>, keep: bool): seq<nat> {
    if ids == [] then []
    else Filter(ids[..|ids| - 1], present, keep)
         + if (ids[|ids| - 1] in present) == keep then [ids[|ids| - 1]] else []
  }

  /** The kept ids are those on the wanted side, in order. */
  lemma {:induction false} FilterInWords(ids: seq<nat>, present: set<nat>, keep: bool) returns (at: seq<nat>)
    ensures |at| == |Filter(ids, present, keep)|
    ensures forall k :: 0 <= k < |at| ==> at[k] < |ids| && Filter(ids, present, keep)[k] == ids[at[k]]
    ensures forall k, l :: 0 <= k < l < |at| ==> at[k] < at[l]
    ensures forall n :: 0 <= n < |ids| ==> (n in at <==> (ids[n] in present <==> keep))
  {
    if ids == [] {
      at := [];
    } else {
      var n := |ids| - 1;
      at := FilterInWords(ids[..n], present, keep);
      forall k | 0 <= k < n ensures ids[..n][k] == ids[k] {}
      if (ids[n] in present) == keep { at := at + [n]; }
    }
  }

  ghost predicate SafeAt(ids: seq<int>, n: nat) { n < |ids| && ids[n] > 0 && ids[n] !in ids[..n] }

  lemma SafePlacesNext(ids: seq<int>, m: nat, before: seq<nat>)
    requires m < |ids| && forall n: nat :: n in before <==> SafeAt(ids[..m], n)
    ensures forall n: nat :: n in before <==> SafeAt(ids, n) && n < m
    ensures forall n: nat :: n in (if SafeAt(ids, m) then before + [m] else before) <==> SafeAt(ids, n) && n <= m
  {
    forall n: nat ensures SafeAt(ids[..m], n) <==> SafeAt(ids, n) && n < m {
      if n < m { assert ids[..m][..n] == ids[..n]; }
    }
    hide SafeAt;
  }

  lemma SafeIdsStep(ids: seq<int>, m: nat)
    requires |ids| == m + 1
    ensures SafeAt(ids, m) ==> ids[m] > 0 && SafeIds(ids) == SafeIds(ids[..m]) + [ids[m]]
    ensures !SafeAt(ids, m) ==> SafeIds(ids) == SafeIds(ids[..m])
    ensures forall n: nat :: SafeAt(ids, n) ==> n <= m
  {}

  /** `at` names places of `ids` in order; `r` lists what stands there. */
  ghost predicate PicksIds(ids: seq<int>, at: seq<nat>, r: seq<nat>) {
    && |at| == |r| && (forall k :: 0 <= k < |at| ==> at[k] < |ids| && r[k] == ids[at[k]])
    && (forall k, l :: 0 <= k < l < |at| ==> at[k] < at[l])
  }

  lemma PicksIdsNext(ids: seq<int>, m: nat, at: seq<nat>, r: seq<nat>)
    requires m < |ids| && PicksIds(ids[..m], at, r)
    ensures PicksIds(ids, at, r) && (ids[m] > 0 ==> PicksIds(ids, at + [m], r + [ids[m]]))
  {}

  /** The safe ids are the positive ones, each at its first appearance, in order. */
  lemma {:induction false} SafeIdsInWords(ids: seq<int>) returns (at: seq<nat>)
    ensures PicksIds(ids, at, SafeIds(ids))
    ensures forall n: nat :: n in at <==> SafeAt(ids, n)
  {
    if ids == [] {
      at := [];
    } else {
      var m := |ids| - 1;
      var before := SafeIdsInWords(ids[..m]);
      SafeIdsStep(ids, m);
      SafePlacesNext(ids, m, before);
      PicksIdsNext(ids, m, before, SafeIds(ids[..m]));
      at := if SafeAt(ids, m) then before + [m] else before;
      hide SafeAt, PicksIds, SafeIds;
    }
  }

  class AssignmentsRepository {
    var units: map<nat, Unit>
    var subunits: map<nat, Subunit>
    var nextUnit: nat
    var nextSubunit: nat

    ghost function View(): Store
      reads this
    {
      Store(units, subunits, nextUnit, nextSubunit)
    }

    ghost predicate Valid()
      reads this
    {
      Sound(View()) && nextUnit >= 1
    }

    constructor ()
      ensures Valid() && View() == EMPTY
    {
      units, subunits, nextUnit, nextSubunit := map[], map[], 1, 1;
    }

    method GetNextUnitNumber() returns (next: nat)
      ensures next >= 1 && IsMaxNumber(units, next - 1)
    {
      var most: nat := 0;
      var rest := units.Keys;
      while rest != {}
        invariant rest <= units.Keys
        invariant forall id :: id in units && id !in rest ==> units[id].number <= most
        invariant most == 0 || exists id :: id in units && units[id].number == most
        decreases |rest|
      {
        var id :| id in rest;
        if units[id].number > most { most := units[id].number; }
        rest := rest - {id};
      }
      next := most + 1;
    }

    method InsertSubunits(unitId: nat, number: nat, contents: seq<string>)
      modifies this`subunits, this`nextSubunit
      ensures subunits == old(subunits) + NewRows(old(nextSubunit), unitId, number, contents)
      ensures nextSubunit == old(nextSubunit) + |contents|
    {
      hide NewRows, SubunitCode;
      assert contents[..0] == [];
      NoNewRows(nextSubunit, unitId, number);
      for index := 0 to |contents|
        invariant subunits == old(subunits) + NewRows(old(nextSubunit), unitId, number, contents[..index])
        invariant nextSubunit == old(nextSubunit) + index
      {
        NextNewRow(old(nextSubunit), unitId, number, contents, index);
        MapInsert(old(subunits), NewRows(old(nextSubunit), unitId, number, contents[..index]), nextSubunit,
                  NewRow(unitId, number, contents, index));
        subunits := subunits[nextSubunit := Subunit(unitId, SubunitCode(number, index), index, contents[index])];
        nextSubunit := nextSubunit + 1;
      }
      assert contents[..|contents|] == contents;
    }

    /** A new unit gets the next number and shows the normalized drafts; without any, nothing changes. */
    method CreateUnit(drafts: seq<string>) returns (result: Result<nat>)
      requires Valid()
      modifies this
      ensures Valid()
      ensures Normalize(drafts) == [] ==> result == Error(NO_SUBUNITS) && View() == old(View())
      ensures Normalize(drafts) != [] ==> exists number: nat ::
        && IsMaxNumber(old(units), number)
        && View() == Create(old(View()), number + 1, Normalize(drafts)) && result == Ok(old(nextUnit))
    {
      var contents := Normalize(drafts);
      if |contents| == 0 { return Error(NO_SUBUNITS); }
      var number := GetNextUnitNumber();
      CreateIsSound(View(), number - 1, contents);
      hide Sound, IsMaxNumber;
      var id := nextUnit;
      units := units[id := Unit(UnitCode(number), number, |contents|)];
      nextUnit := nextUnit + 1;
      InsertSubunits(id, number, contents);
      assert View() == Create(old(View()), (number - 1) + 1, contents);
      return Ok(id);
    }

    /** `None` when there is no such unit. */
    method UpdateAssignment(id: int, drafts: seq<string>) returns (result: Result<bool>)
      requires Valid()
      modifies this
      ensures Valid()
      ensures result == if SafeId(id) == 0 then Ok(false)
                        else if Normalize(drafts) == [] then Error(NO_SUBUNITS)
                        else Ok(SafeId(id) in old(units))
      ensures View() == if result == Ok(true) then Update(old(View()), SafeId(id), Normalize(drafts)) else old(View())
    {
      var safeId := SafeId(id);
      if safeId == 0 { return Ok(false); }
      var contents := Normalize(drafts);
      if |contents| == 0 { return Error(NO_SUBUNITS); }
      if safeId !in units { return Ok(false); }
      UpdateIsSound(View(), safeId, contents);
      hide Sound, Update, SafeId, Normalize;
      ReplaceRows(safeId, contents);
      return Ok(true);
    }

    method ReplaceRows(id: nat, contents: seq<string>)
      requires id in units
      modifies this
      ensures View() == Update(old(View()), id, contents)
    {
      hide NewRows, WithoutRows;
      var number := units[id].number;
      units := units[id := units[id].(count := |contents|)];
      subunits := WithoutRows(subunits, {id});
      InsertSubunits(id, number, contents);
    }

    method DeleteAssignment(id: int) returns (deleted: bool)
      requires Valid()
      modifies this
      ensures Valid() && deleted == (SafeId(id) in old(units))
      ensures View() == Delete(old(View()), {SafeId(id)})
    {
      var safeId := SafeId(id);
      DeleteIsSound(View(), {safeId});
      if safeId == 0 {
        assert 0 !in units;
        DeleteNothing(View(), {0});
        return false;
      }
      hide Sound;
      deleted := safeId in units;
      subunits := WithoutRows(subunits, {safeId} * units.Keys);
      units := units - {safeId};
    }

    method BulkDelete(ids: seq<int>) returns (deleted: seq<nat>, notFound: seq<nat>)
      requires Valid()
      modifies this
      ensures Valid()
      ensures View() == Delete(old(View()), set id | id in SafeIds(ids))
      ensures deleted == Filter(SafeIds(ids), old(units).Keys, true)
      ensures notFound == Filter(SafeIds(ids), old(units).Keys, false)
    {
      var safeIds := SafeIds(ids);
      var wanted := set id | id in safeIds;
      DeleteIsSound(View(), wanted);
      hide Sound, SafeIds, Filter;
      var existing := wanted * units.Keys;
      if existing != {} {
        subunits := WithoutRows(subunits, existing);
        units := units - wanted;
      } else {
        DeleteNothing(View(), wanted);
      }
      SameFilter(safeIds, existing, old(units).Keys);
      deleted := Filter(safeIds, existing, true);
      notFound := Filter(safeIds, existing, false);
    }

    lemma {:induction false} SameFilter(ids: seq<nat>, xs: set<nat>, ys: set<nat>)
      requires forall id :: id in ids ==> (id in xs <==> id in ys)
      ensures Filter(ids, xs, true) == Filter(ids, ys, true) && Filter(ids, xs, false) == Filter(ids, ys, false)
    {
      if ids == [] {
      } else {
        SameFilter(ids[..|ids| - 1], xs, ys);
      }
    }
  }
}
