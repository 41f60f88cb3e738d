/**
 The counting half of the assignment scan: n-gram counters, term matches, missing words, and the totals
 of `scanAssignment`, all tied to the known-token mask.
 */
module Scan {
  import opened Common
  import opened KnownMask
  import opened Sorting
  import opened Text
  import Diff

  datatype Match = Match(entryId: int, term: string, category: string, source: string, occurrences: nat)

  datatype Missing = Missing(term: string, occurrences: nat)

  // ----- n-gram counters -----

  /** How often `key` is the joined n-gram of `size` tokens starting before `upto`. */
  function Count(tokens: seq<string>, size: nat, key: string, upto: nat): (n: nat)
    ensures n > 0 <==> exists p :: 0 <= p < upto && JoinsTo(tokens, p, size, key)
  {
    if upto == 0 then 0
    else Count(tokens, size, key, upto - 1) + if JoinsTo(tokens, upto - 1, size, key) then 1 else 0
  }

  predicate JoinsTo(tokens: seq<string>, p: nat, size: nat, key: string) {
    p + size <= |tokens| && Join(tokens[p..p + size]) == key
  }

  ghost function Places(tokens: seq<string>, size: nat, key: string, upto: nat): set<nat> {
    set p: nat | p < upto && JoinsTo(tokens, p, size, key)
  }

  /** The count is the number of positions where the joined n-gram is `key`. */
  lemma {:induction false} CountIsPlaces(tokens: seq<string>, size: nat, key: string, upto: nat)
    ensures Count(tokens, size, key, upto) == |Places(tokens, size, key, upto)|
  {
    hide JoinsTo;
    if upto == 0 {
      assert Places(tokens, size, key, 0) == {};
    } else {
      CountIsPlaces(tokens, size, key, upto - 1);
      OneMore(Places(tokens, size, key, upto - 1), Places(tokens, size, key, upto), upto - 1,
              JoinsTo(tokens, upto - 1, size, key));
    }
  }

  function Get(m: map<string, nat>, key: string): nat { if key in m then m[key] else 0 }

  ghost predicate IsCounter(counter: map<string, nat>, tokens: seq<string>, size: nat, upto: nat) {
    forall key :: Get(counter, key) == Count(tokens, size, key, upto)
  }

  method CountNgrams(tokens: seq<string>, size: nat) returns (counter: map<string, nat>)
    requires size >= 1
    ensures IsCounter(counter, tokens, size, |tokens|)
  {
    counter := map[];
    var index := 0;
    while index <= |tokens| - size
      invariant 0 <= index
      invariant index <= |tokens| - size + 1 || index == 0
      invariant IsCounter(counter, tokens, size, index)
    {
      var key := Join(tokens[index..index + size]);
      counter := counter[key := Get(counter, key) + 1];
      index := index + 1;
    }
    forall key ensures Get(counter, key) == Count(tokens, size, key, |tokens|) {
      NoRoomForNgrams(tokens, size, key, index, |tokens|);
    }
  }

  /** Past the last full window nothing more is counted. */
  lemma {:induction false} NoRoomForNgrams(tokens: seq<string>, size: nat, key: string, from: nat, upto: nat)
    requires from <= upto && from + size > |tokens|
    ensures Count(tokens, size, key, upto) == Count(tokens, size, key, from)
  {
    if from < upto { NoRoomForNgrams(tokens, size, key, from, upto - 1); }
  }

  method BuildNgramCounters(tokens: seq<string>, maxLength: nat) returns (counters: map<nat, map<string, nat>>)
    ensures forall size :: size in counters <==> 1 <= size <= maxLength
    ensures forall size :: size in counters ==> IsCounter(counters[size], tokens, size, |tokens|)
  {
    counters := map[];
    for size := 1 to maxLength + 1
      invariant forall s :: s in counters <==> 1 <= s < size
      invariant forall s :: s in counters ==> IsCounter(counters[s], tokens, s, |tokens|)
    {
      var counter := CountNgrams(tokens, size);
      counters := counters[size := counter];
    }
  }

  // ----- matches -----

  /** How often a row's term is counted: not at all when it has more words than the cap. */
  function TermCount(tokens: seq<string>, cap: nat, term: string): nat {
    if 1 <= |Words(term)| <= cap then Count(tokens, |Words(term)|, term, |tokens|) else 0
  }

  /** The matches that the rows whose term is in `terms` contribute. */
  function MatchBag(rows: seq<Row>, tokens: seq<string>, cap: nat, terms: set<string>): multiset<Match> {
    if rows == [] then multiset{}
    else
      var row := rows[|rows| - 1];
      var term := Trim(row.normalized);
      MatchBag(rows[..|rows| - 1], tokens, cap, terms)
      + if term in terms && TermCount(tokens, cap, term) > 0
        then multiset{Match(row.id, term, row.category, row.source, TermCount(tokens, cap, term))} else multiset{}
  }

  /** The rows of one term, in order. */
  function Bucket(rows: seq<Row>, term: string): seq<Row> {
    if rows == [] then []
    else Bucket(rows[..|rows| - 1], term)
         + if Trim(rows[|rows| - 1].normalized) == term then [rows[|rows| - 1]] else []
  }

  lemma {:induction false} BagOfBucket(rows: seq<Row>, tokens: seq<string>, cap: nat, terms: set<string>, term: string)
    requires term !in terms
    ensures MatchBag(rows, tokens, cap, terms + {term})
         == MatchBag(rows, tokens, cap, terms) + MatchBag(Bucket(rows, term), tokens, cap, {term})
  {
    hide TermCount, Trim;
    if rows == [] {
    } else {
      var init, row := rows[..|rows| - 1], rows[|rows| - 1];
      BagOfBucket(init, tokens, cap, terms, term);
      var bucket := Bucket(init, term);
      BagSnoc(bucket, row, tokens, cap, {term});
      if Trim(row.normalized) == term {
        assert Bucket(rows, term) == bucket + [row];
      } else {
        assert Bucket(rows, term) == bucket;
      }
      hide Bucket;
    }
  }

  lemma BagSnoc(rows: seq<Row>, row: Row, tokens: seq<string>, cap: nat, terms: set<string>)
    ensures var term := Trim(row.normalized);
      MatchBag(rows + [row], tokens, cap, terms) == MatchBag(rows, tokens, cap, terms)
      + if term in terms && TermCount(tokens, cap, term) > 0
        then multiset{Match(row.id, term, row.category, row.source, TermCount(tokens, cap, term))} else multiset{}
  {
    assert (rows + [row])[..|rows|] == rows;
  }

  /** `order` lists the terms of the rows, each once. */
  ghost predicate ListsTerms(rows: seq<Row>, order: seq<string>) {
    && (forall t :: t in order <==> t in JoinedTerms(rows))
    && "" !in order && (forall i, j :: 0 <= i < j < |order| ==> order[i] != order[j])
  }

  ghost predicate HoldsBuckets(rows: seq<Row>, termRows: map<string, seq<Row>>) {
    forall t :: t != "" ==> Bucket(rows, t) == if t in termRows then termRows[t] else []
  }

  /** The rows grouped so far. */
  ghost predicate IsGrouping(rows: seq<Row>, order: seq<string>, termRows: map<string, seq<Row>>) {
    ListsTerms(rows, order) && HoldsBuckets(rows, termRows) && forall t :: t in order <==> t in termRows
  }

  lemma NothingGrouped(rows: seq<Row>)
    ensures IsGrouping(rows[..0], [], map[])
  {
    assert rows[..0] == [] && JoinedTerms([]) == {};
  }

  lemma BucketSnoc(rows: seq<Row>, k: nat, t: string)
    requires k < |rows|
    ensures Bucket(rows[..k + 1], t) == Bucket(rows[..k], t) + if Trim(rows[k].normalized) == t then [rows[k]] else []
  {
    assert rows[..k + 1][..k] == rows[..k];
  }

  lemma GroupNext(rows: seq<Row>, k: nat, order: seq<string>, termRows: map<string, seq<Row>>)
    requires k < |rows| && IsGrouping(rows[..k], order, termRows)
    ensures var t := Trim(rows[k].normalized);
      if t == "" then IsGrouping(rows[..k + 1], order, termRows)
      else var bucket := if t in termRows then termRows[t] else [];
        IsGrouping(rows[..k + 1], if t in termRows then order else order + [t], termRows[t := bucket + [rows[k]]])
  {
    hide Trim, JoinedTerms, Bucket, IsGrouping;
    var t := Trim(rows[k].normalized);
    JoinedTermsSnoc(rows, k);
    forall u ensures Bucket(rows[..k + 1], u) == Bucket(rows[..k], u) + if t == u then [rows[k]] else [] {
      BucketSnoc(rows, k, u);
    }
    GroupWith(rows[..k], rows[..k + 1], rows[k], t, order, termRows);
  }

  lemma ListNext(before: seq<Row>, after: seq<Row>, t: string, order: seq<string>)
    requires ListsTerms(before, order)
    requires JoinedTerms(after) == JoinedTerms(before) + if t == "" then {} else {t}
    ensures ListsTerms(after, if t == "" || t in order then order else order + [t])
  {
    hide JoinedTerms;
  }

  lemma BucketsNext(before: seq<Row>, after: seq<Row>, row: Row, t: string, termRows: map<string, seq<Row>>)
    requires HoldsBuckets(before, termRows)
    requires forall u :: Bucket(after, u) == Bucket(before, u) + if t == u then [row] else []
    ensures var bucket := if t in termRows then termRows[t] else [];
      HoldsBuckets(after, if t == "" then termRows else termRows[t := bucket + [row]])
  {
    hide Bucket;
    var bucket := if t in termRows then termRows[t] else [];
    var grown := if t == "" then termRows else termRows[t := bucket + [row]];
    forall u | u != "" ensures Bucket(after, u) == if u in grown then grown[u] else [] {
      if u != t { assert Bucket(before, u) + [] == Bucket(before, u); }
    }
  }

  lemma GroupWith(before: seq<Row>, after: seq<Row>, row: Row, t: string, order: seq<string>,
                  termRows: map<string, seq<Row>>)
    requires IsGrouping(before, order, termRows)
    requires JoinedTerms(after) == JoinedTerms(before) + if t == "" then {} else {t}
    requires forall u :: Bucket(after, u) == Bucket(before, u) + if t == u then [row] else []
    ensures
      if t == "" then IsGrouping(after, order, termRows)
      else var bucket := if t in termRows then termRows[t] else [];
        IsGrouping(after, if t in termRows then order else order + [t], termRows[t := bucket + [row]])
  {
    hide JoinedTerms, Bucket, ListsTerms, HoldsBuckets;
    assert t in order <==> t in termRows;
    ListNext(before, after, t, order);
    BucketsNext(before, after, row, t, termRows);
  }

  lemma GroupingIs(rows: seq<Row>, order: seq<string>, termRows: map<string, seq<Row>>)
    requires IsGrouping(rows[..|rows|], order, termRows)
    ensures forall t :: t in order <==> t in JoinedTerms(rows)
    ensures forall k, l :: 0 <= k < l < |order| ==> order[k] != order[l]
    ensures forall t :: t in order ==> t in termRows && termRows[t] == Bucket(rows, t)
  {
    hide JoinedTerms, Bucket;
    assert rows[..|rows|] == rows;
  }

  /** The rows grouped by term: `order` is the map's insertion order. */
  method GroupRows(rows: seq<Row>) returns (order: seq<string>, termRows: map<string, seq<Row>>)
    ensures forall t :: t in order <==> t in JoinedTerms(rows)
    ensures forall k, l :: 0 <= k < l < |order| ==> order[k] != order[l]
    ensures forall t :: t in order ==> t in termRows && termRows[t] == Bucket(rows, t)
  {
    hide Trim, Words, Join, JoinedTerms, Bucket, IsGrouping;
    order, termRows := [], map[];
    NothingGrouped(rows);
    for k := 0 to |rows|
      invariant IsGrouping(rows[..k], order, termRows)
    {
      GroupNext(rows, k, order, termRows);
      var normalized := Trim(rows[k].normalized);
      if normalized == "" { continue; }
      var bucket := if normalized in termRows then termRows[normalized] else [];
      if normalized !in termRows { order := order + [normalized]; }
      termRows := termRows[normalized := bucket + [rows[k]]];
    }
    GroupingIs(rows, order, termRows);
  }

  /** The comparison of `localeCompare`, as any total preorder on texts. */
  type Collation = (string, string) -> bool

  predicate Same(collate: Collation, x: string, y: string) { collate(x, y) && collate(y, x) }

  /** More occurrences first, then by term, category and entry. */
  predicate MatchBefore(collate: Collation, a: Match, b: Match) {
    if a.occurrences != b.occurrences then a.occurrences > b.occurrences
    else if !Same(collate, a.term, b.term) then collate(a.term, b.term)
    else if !Same(collate, a.category, b.category) then collate(a.category, b.category)
    else a.entryId <= b.entryId
  }

  function MatchOrder(collate: Collation): (Match, Match) -> bool { (a, b) => MatchBefore(collate, a, b) }

  lemma MatchOrderIsPreorder(collate: Collation)
    requires TotalPreorder(collate)
    ensures TotalPreorder(MatchOrder(collate))
  {}

  /** One match for each row whose term occurs, with the number of its occurrences, in the order of the report. */
  method MatchTerms(rows: seq<Row>, tokens: seq<string>, collate: Collation) returns (matches: seq<Match>)
    requires TotalPreorder(collate)
    ensures multiset(matches) == MatchBag(rows, tokens, Cap(rows), JoinedTerms(rows))
    ensures Sorted(MatchOrder(collate), matches)
  {
    var found := FindMatches(rows, tokens);
    MatchOrderIsPreorder(collate);
    StableSortSorts(MatchOrder(collate), found);
    matches := StableSort(MatchOrder(collate), found);
  }

  /** The matches before they are sorted. */
  method FindMatches(rows: seq<Row>, tokens: seq<string>) returns (matches: seq<Match>)
    ensures multiset(matches) == MatchBag(rows, tokens, Cap(rows), JoinedTerms(rows))
  {
    matches := [];
    if |rows| == 0 || |tokens| == 0 {
      NothingToMatch(rows, tokens, Cap(rows), JoinedTerms(rows));
      return;
    }
    var order, termRows := GroupRows(rows);
    var _, maxTermLength := CollectTerms(rows);
    var counters := BuildNgramCounters(tokens, maxTermLength);
    NoTerms(rows, tokens, maxTermLength);
    SeenAll(order, JoinedTerms(rows));
    hide *;
    for k := 0 to |order|
      invariant multiset(matches) == MatchBag(rows, tokens, maxTermLength, Seen(order, k))
    {
      var term := order[k];
      var occurrences := Occurrences(tokens, counters, maxTermLength, term);
      SeenNext(order, k);
      BagOfBucket(rows, tokens, maxTermLength, Seen(order, k), term);
      BucketTerms(rows, term);
      var found := MatchBucket(termRows[term], tokens, maxTermLength, term, occurrences);
      matches := matches + found;
    }
  }

  ghost function Seen(order: seq<string>, k: nat): set<string>
    requires k <= |order|
  {
    set t | t in order[..k]
  }

  lemma SeenNext(order: seq<string>, k: nat)
    requires k < |order| && forall i, j :: 0 <= i < j < |order| ==> order[i] != order[j]
    ensures order[k] !in Seen(order, k) && Seen(order, k + 1) == Seen(order, k) + {order[k]}
  {
    assert order[..k + 1] == order[..k] + [order[k]];
  }

  lemma SeenAll(order: seq<string>, terms: set<string>)
    requires forall t :: t in order <==> t in terms
    ensures Seen(order, 0) == {} && Seen(order, |order|) == terms
  {
    assert order[..|order|] == order;
  }

  /** `ngramCounters.get(size)?.get(term) ?? 0` */
  method Occurrences(ghost tokens: seq<string>, counters: map<nat, map<string, nat>>, ghost cap: nat, term: string)
    returns (occurrences: nat)
    requires forall size :: size in counters <==> 1 <= size <= cap
    requires forall size :: size in counters ==> IsCounter(counters[size], tokens, size, |tokens|)
    ensures occurrences == TermCount(tokens, cap, term)
  {
    var size := |Words(term)|;
    occurrences := if size in counters then Get(counters[size], term) else 0;
  }

  /** The inner loop over the rows of one term. */
  method MatchBucket(bucket: seq<Row>, ghost tokens: seq<string>, ghost cap: nat, term: string, occurrences: nat)
    returns (found: seq<Match>)
    requires forall r :: r in bucket ==> Trim(r.normalized) == term
    requires occurrences == TermCount(tokens, cap, term)
    ensures multiset(found) == MatchBag(bucket, tokens, cap, {term})
  {
    found := [];
    if occurrences == 0 {
      AllUnmatched(bucket, tokens, cap, term);
      return;
    }
    for k := 0 to |bucket|
      invariant multiset(found) == MatchBag(bucket[..k], tokens, cap, {term})
    {
      assert bucket[..k + 1][..k] == bucket[..k];
      assert bucket[k] in bucket;
      found := found + [Match(bucket[k].id, term, bucket[k].category, bucket[k].source, occurrences)];
    }
    assert bucket[..|bucket|] == bucket;
  }

  lemma {:induction false} AllUnmatched(bucket: seq<Row>, tokens: seq<string>, cap: nat, term: string)
    requires TermCount(tokens, cap, term) == 0
    ensures MatchBag(bucket, tokens, cap, {term}) == multiset{}
  {
    if bucket == [] {
    } else {
      AllUnmatched(bucket[..|bucket| - 1], tokens, cap, term);
    }
  }

  lemma {:induction false} BucketTerms(rows: seq<Row>, term: string)
    ensures forall r :: r in Bucket(rows, term) ==> Trim(r.normalized) == term
  {
    if rows == [] {
    } else {
      BucketTerms(rows[..|rows| - 1], term);
    }
  }

  lemma {:induction false} NoTerms(rows: seq<Row>, tokens: seq<string>, cap: nat)
    ensures MatchBag(rows, tokens, cap, {}) == multiset{}
  {
    if rows == [] {
    } else {
      NoTerms(rows[..|rows| - 1], tokens, cap);
    }
  }

  lemma {:induction false} NothingToMatch(rows: seq<Row>, tokens: seq<string>, cap: nat, terms: set<string>)
    requires rows == [] || tokens == []
    ensures MatchBag(rows, tokens, cap, terms) == multiset{}
  {
    if rows == [] {
    } else {
      NothingToMatch(rows[..|rows| - 1], tokens, cap, terms);
    }
  }

  /** A row whose term occurs contributes a match, and no other row does. */
  lemma {:induction false} BagIsEmpty(rows: seq<Row>, tokens: seq<string>, cap: nat, terms: set<string>)
    ensures MatchBag(rows, tokens, cap, terms) == multiset{}
       <==> forall r :: r in rows && Trim(r.normalized) in terms ==> TermCount(tokens, cap, Trim(r.normalized)) == 0
  {
    if rows == [] {
    } else {
      var init, row := rows[..|rows| - 1], rows[|rows| - 1];
      BagIsEmpty(init, tokens, cap, terms);
      assert forall r :: r in rows <==> r in init || r == row;
    }
  }

  // ----- matches, place by place -----

  /** From `p` on, as many tokens as the term has words, joined by single spaces, are the term. */
  ghost predicate StandsAt(tokens: seq<string>, term: string, p: nat) {
    var n := |Words(term)|;
    p + n <= |tokens| && Join(tokens[p..p + n]) == term
  }

  ghost function Standing(tokens: seq<string>, term: string): set<nat> {
    set p: nat | p < |tokens| && StandsAt(tokens, term, p)
  }

  /** The match a row contributes: its term has one to six words and stands somewhere. */
  ghost predicate IsMatchOf(m: Match, row: Row, tokens: seq<string>) {
    var term := Trim(row.normalized);
    && m.entryId == row.id && m.term == term && m.category == row.category && m.source == row.source
    && 1 <= |Words(term)| <= 6 && m.occurrences == |Standing(tokens, term)| && Standing(tokens, term) != {}
  }

  lemma PlacesAreStanding(tokens: seq<string>, term: string)
    ensures Words(term) != [] ==> Places(tokens, |Words(term)|, term, |tokens|) == Standing(tokens, term)
  {
    forall p: nat ensures JoinsTo(tokens, p, |Words(term)|, term) <==> StandsAt(tokens, term, p) {}
    hide JoinsTo, StandsAt, Words;
  }

  lemma TermCountIs(rows: seq<Row>, row: Row, tokens: seq<string>)
    requires row in rows
    ensures var term := Trim(row.normalized);
      if 1 <= |Words(term)| <= 6 then TermCount(tokens, Cap(rows), term) == |Standing(tokens, term)|
      else TermCount(tokens, Cap(rows), term) == 0
  {
    var term := Trim(row.normalized);
    var size := |Words(term)|;
    if 1 <= size <= 6 {
      ShortTermIsTerm(rows, row, Words(term));
      CountIsPlaces(tokens, size, term, |tokens|);
      PlacesAreStanding(tokens, term);
      hide Words, Trim, Cap, Places, Standing, Count, SplitTerms, SpelledTerms;
    } else {
      CapIsShort(rows);
      hide Words, Trim, Cap, Standing, Count;
    }
  }

  lemma CapIsShort(rows: seq<Row>)
    ensures 1 <= Cap(rows) <= 6
  {}

  /** `row` adds `m` to the bag. */
  ghost predicate Adds(row: Row, tokens: seq<string>, cap: nat, terms: set<string>, m: Match) {
    var term := Trim(row.normalized);
    && term in terms && m.occurrences > 0
    && m == Match(row.id, term, row.category, row.source, TermCount(tokens, cap, term))
  }

  ghost function Adding(rows: seq<Row>, tokens: seq<string>, cap: nat, terms: set<string>, m: Match): set<nat> {
    set k: nat | k < |rows| && Adds(rows[k], tokens, cap, terms, m)
  }

  lemma AddingNext(rows: seq<Row>, n: nat, tokens: seq<string>, cap: nat, terms: set<string>, m: Match)
    requires |rows| == n + 1
    ensures |Adding(rows, tokens, cap, terms, m)|
         == |Adding(rows[..n], tokens, cap, terms, m)| + if Adds(rows[n], tokens, cap, terms, m) then 1 else 0
  {
    hide Adds;
    forall k: nat | k < n ensures rows[..n][k] == rows[k] {}
    OneMore(Adding(rows[..n], tokens, cap, terms, m), Adding(rows, tokens, cap, terms, m), n,
            Adds(rows[n], tokens, cap, terms, m));
  }

  /** The bag has a match as often as rows add it. */
  lemma {:induction false} BagIsAdded(rows: seq<Row>, tokens: seq<string>, cap: nat, terms: set<string>, m: Match)
    ensures MatchBag(rows, tokens, cap, terms)[m] == |Adding(rows, tokens, cap, terms, m)|
  {
    hide TermCount, Trim;
    if rows == [] {
      assert Adding(rows, tokens, cap, terms, m) == {};
    } else {
      var n := |rows| - 1;
      BagIsAdded(rows[..n], tokens, cap, terms, m);
      AddingNext(rows, n, tokens, cap, terms, m);
      hide Adding;
    }
  }

  lemma AddsIffMatch(rows: seq<Row>, row: Row, tokens: seq<string>, m: Match)
    requires row in rows
    ensures IsMatchOf(m, row, tokens) <==> Adds(row, tokens, Cap(rows), JoinedTerms(rows), m)
  {
    assert Words("") == [];
    TermCountIs(rows, row, tokens);
    hide Words, Trim, TermCount, Standing, Cap;
  }

  ghost function RowsOf(m: Match, rows: seq<Row>, tokens: seq<string>): set<nat> {
    set k: nat | k < |rows| && IsMatchOf(m, rows[k], tokens)
  }

  /** A match is in the bag as often as it is the match of a row: the row's fields with the number of its places. */
  lemma MatchesInWords(rows: seq<Row>, tokens: seq<string>, m: Match)
    ensures MatchBag(rows, tokens, Cap(rows), JoinedTerms(rows))[m] == |RowsOf(m, rows, tokens)|
  {
    BagIsAdded(rows, tokens, Cap(rows), JoinedTerms(rows), m);
    forall k: nat | k < |rows|
      ensures IsMatchOf(m, rows[k], tokens) <==> Adds(rows[k], tokens, Cap(rows), JoinedTerms(rows), m)
    {
      AddsIffMatch(rows, rows[k], tokens, m);
    }
    hide Adds, IsMatchOf, Cap, JoinedTerms, MatchBag;
    assert Adding(rows, tokens, Cap(rows), JoinedTerms(rows), m) == RowsOf(m, rows, tokens);
  }

  // ----- matches and mask agree -----

  /** A stored term that occurs at `p` covers it. */
  lemma OccurrenceIsCovered(terms: set<seq<string>>, tokens: seq<string>, cap: nat, p: nat, size: nat)
    requires 1 <= size <= cap && OccursAt(terms, tokens, p, size)
    ensures Covered(Cover(terms, tokens, cap, 0), p)
  {
    CoverIsCover(terms, tokens, cap, 0);
  }

  /** The tokens of a row's term, when its text is their single-spaced spelling. */
  lemma TermIsSpelled(rows: seq<Row>, slice: seq<string>)
    requires AllTokens(slice)
    ensures Join(slice) in JoinedTerms(rows) <==> slice in SpelledTerms(rows)
    ensures Words(Join(slice)) == slice
    ensures Join(slice) in JoinedTerms(rows) ==> slice != []
  {
    WordsOfJoin(slice);
  }

  /** Every counted occurrence of a row's term starts on a known token. */
  lemma OccurrenceIsKnown(rows: seq<Row>, tokens: seq<string>, mask: seq<bool>, p: nat, size: nat)
    requires AllTokens(tokens)
    requires IsMaskOf(mask, Cover(SpelledTerms(rows), tokens, Cap(rows), 0), |tokens|)
    requires p + size <= |tokens| && size <= Cap(rows)
    requires Join(tokens[p..p + size]) in JoinedTerms(rows)
    ensures p < |tokens| && mask[p]
  {
    TermIsSpelled(rows, tokens[p..p + size]);
    hide JoinedTerms, SpelledTerms, Cap, Cover, Covered, Join, Words;
    assert size > 0;
    OccurrenceIsCovered(SpelledTerms(rows), tokens, Cap(rows), p, size);
  }

  /** The term under a tile is some row's term, and it is counted. */
  lemma TileIsCounted(rows: seq<Row>, tokens: seq<string>, t: Tile, cap: nat)
    requires AllTokens(tokens)
    requires IsLongestTerm(SpelledTerms(rows), tokens, cap, t)
    ensures var term := Join(tokens[t.start..t.start + t.size]);
      term in JoinedTerms(rows) && TermCount(tokens, cap, term) > 0
  {
    var slice := tokens[t.start..t.start + t.size];
    assert slice in SpelledTerms(rows);
    TermIsSpelled(rows, slice);
    assert JoinsTo(tokens, t.start, |slice|, Join(slice));
  }

  function CountTrue(mask: seq<bool>): (n: nat)
    ensures n <= |mask|
    ensures n > 0 <==> exists p :: 0 <= p < |mask| && mask[p]
  {
    if mask == [] then 0
    else CountTrue(mask[..|mask| - 1]) + if mask[|mask| - 1] then 1 else 0
  }

  /** There is a match exactly when some row's term is counted. */
  lemma MatchesIffCounted(rows: seq<Row>, tokens: seq<string>, cap: nat)
    ensures MatchBag(rows, tokens, cap, JoinedTerms(rows)) != multiset{}
       <==> exists term :: term in JoinedTerms(rows) && TermCount(tokens, cap, term) > 0
  {
    BagIsEmpty(rows, tokens, cap, JoinedTerms(rows));
  }

  /** There is a match exactly when some token is known. */
  lemma MatchesIffKnown(rows: seq<Row>, tokens: seq<string>, mask: seq<bool>)
    requires AllTokens(tokens)
    requires IsMaskOf(mask, Cover(SpelledTerms(rows), tokens, Cap(rows), 0), |tokens|)
    ensures MatchBag(rows, tokens, Cap(rows), JoinedTerms(rows)) != multiset{} <==> CountTrue(mask) > 0
  {
    hide JoinedTerms, SpelledTerms, Cap, Cover, Words, Join, MatchBag, Covered, CountTrue;
    var cap := Cap(rows);
    MatchesIffCounted(rows, tokens, cap);
    if term :| term in JoinedTerms(rows) && TermCount(tokens, cap, term) > 0 {
      var p :| 0 <= p < |tokens| && JoinsTo(tokens, p, |Words(term)|, term);
      OccurrenceIsKnown(rows, tokens, mask, p, |Words(term)|);
    }
    if p :| 0 <= p < |mask| && mask[p] {
      KnownIsCounted(rows, tokens, p);
    }
  }

  /** A covered position lies under a tile whose term is counted. */
  lemma KnownIsCounted(rows: seq<Row>, tokens: seq<string>, p: nat)
    requires AllTokens(tokens)
    requires Covered(Cover(SpelledTerms(rows), tokens, Cap(rows), 0), p)
    ensures exists term :: term in JoinedTerms(rows) && TermCount(tokens, Cap(rows), term) > 0
  {
    hide JoinedTerms, SpelledTerms, Cap, TermCount;
    CoverIsCover(SpelledTerms(rows), tokens, Cap(rows), 0);
    var tiles := Cover(SpelledTerms(rows), tokens, Cap(rows), 0);
    var k :| 0 <= k < |tiles| && Covers(tiles[k], p);
    TileIsCounted(rows, tokens, tiles[k], Cap(rows));
  }

  // ----- missing words -----

  /** Unknown occurrences of `term` before `upto`. */
  function UnknownCount(tokens: seq<string>, mask: seq<bool>, term: string, upto: nat): nat
    requires upto <= |tokens| == |mask|
  {
    if upto == 0 then 0
    else UnknownCount(tokens, mask, term, upto - 1)
         + if !mask[upto - 1] && tokens[upto - 1] == term then 1 else 0
  }

  ghost function UnknownPlaces(tokens: seq<string>, mask: seq<bool>, term: string, upto: nat): set<nat>
    requires upto <= |tokens| == |mask|
  {
    set p: nat | p < upto && !mask[p] && tokens[p] == term
  }

  lemma {:induction false} UnknownCountIsPlaces(tokens: seq<string>, mask: seq<bool>, term: string, upto: nat)
    requires upto <= |tokens| == |mask|
    ensures UnknownCount(tokens, mask, term, upto) == |UnknownPlaces(tokens, mask, term, upto)|
  {
    if upto == 0 {
      assert UnknownPlaces(tokens, mask, term, 0) == {};
    } else {
      UnknownCountIsPlaces(tokens, mask, term, upto - 1);
      OneMore(UnknownPlaces(tokens, mask, term, upto - 1), UnknownPlaces(tokens, mask, term, upto), upto - 1,
              !mask[upto - 1] && tokens[upto - 1] == term);
    }
  }

  /** Unknown tokens before `upto` that are long (or short) enough. */
  function UnknownTokens(tokens: seq<string>, mask: seq<bool>, long: bool, upto: nat): nat
    requires upto <= |tokens| == |mask|
  {
    if upto == 0 then 0
    else UnknownTokens(tokens, mask, long, upto - 1)
         + if !mask[upto - 1] && (|tokens[upto - 1]| >= 2 <==> long) then 1 else 0
  }

  function SumCounts(order: seq<string>, counts: map<string, nat>): nat
    requires forall t :: t in order ==> t in counts
  {
    if order == [] then 0 else SumCounts(order[..|order| - 1], counts) + counts[order[|order| - 1]]
  }

  ghost predicate Distinct(order: seq<string>) {
    forall k, l :: 0 <= k < l < |order| ==> order[k] != order[l]
  }

  lemma {:induction false} SumUpdate(order: seq<string>, counts: map<string, nat>, t: string, c: nat)
    requires Distinct(order) && forall u :: u in order ==> u in counts
    ensures SumCounts(order, counts[t := c]) + (if t in order then counts[t] else 0)
         == SumCounts(order, counts) + (if t in order then c else 0)
  {
    if order == [] {
    } else {
      var init, last := order[..|order| - 1], order[|order| - 1];
      SumUpdate(init, counts, t, c);
      assert forall u :: u in order <==> u in init || u == last;
    }
  }

  /** A counter map whose keys were first seen in `order`. */
  ghost predicate Ordered(order: seq<string>, counts: map<string, nat>) {
    && Distinct(order)
    && (forall t :: t in order <==> t in counts)
    && (forall t :: t in counts ==> |t| >= 2 && counts[t] > 0)
  }

  lemma SumSnoc(order: seq<string>, counts: map<string, nat>, t: string)
    requires t in counts && forall u :: u in order ==> u in counts
    ensures SumCounts(order + [t], counts) == SumCounts(order, counts) + counts[t]
  {
    assert (order + [t])[..|order|] == order;
  }

  /** `counts.set(token, (counts.get(token) ?? 0) + 1)` */
  method Bump(order: seq<string>, counts: map<string, nat>, token: string)
    returns (order': seq<string>, counts': map<string, nat>)
    requires Ordered(order, counts) && |token| >= 2
    ensures Ordered(order', counts') && counts' == counts[token := Get(counts, token) + 1]
    ensures SumCounts(order', counts') == SumCounts(order, counts) + 1
  {
    SumUpdate(order, counts, token, Get(counts, token) + 1);
    counts' := counts[token := Get(counts, token) + 1];
    order' := order;
    if token !in counts {
      order' := order + [token];
      SumSnoc(order, counts', token);
      hide SumCounts;
    }
  }

  method CountUnknown(tokens: seq<string>, mask: seq<bool>) returns (order: seq<string>, counts: map<string, nat>)
    requires |tokens| == |mask|
    ensures Ordered(order, counts)
    ensures forall t :: |t| >= 2 ==> Get(counts, t) == UnknownCount(tokens, mask, t, |tokens|)
    ensures SumCounts(order, counts) == UnknownTokens(tokens, mask, true, |tokens|)
  {
    order, counts := [], map[];
    for index := 0 to |tokens|
      invariant Ordered(order, counts)
      invariant forall t :: |t| >= 2 ==> Get(counts, t) == UnknownCount(tokens, mask, t, index)
      invariant SumCounts(order, counts) == UnknownTokens(tokens, mask, true, index)
    {
      if mask[index] { continue; }
      if |tokens[index]| < 2 { continue; }
      order, counts := Bump(order, counts, tokens[index]);
    }
  }

  function SumMissing(missing: seq<Missing>): nat {
    if missing == [] then 0 else SumMissing(missing[..|missing| - 1]) + missing[|missing| - 1].occurrences
  }

  /** `[...counts.entries()]` as missing words. */
  method ListCounts(order: seq<string>, counts: map<string, nat>) returns (missing: seq<Missing>)
    requires forall t :: t in order ==> t in counts
    ensures |missing| == |order|
    ensures forall k :: 0 <= k < |order| ==> missing[k] == Missing(order[k], counts[order[k]])
    ensures SumMissing(missing) == SumCounts(order, counts)
  {
    missing := [];
    for k := 0 to |order|
      invariant |missing| == k
      invariant forall l :: 0 <= l < k ==> missing[l] == Missing(order[l], counts[order[l]])
      invariant SumMissing(missing) == SumCounts(order[..k], counts)
    {
      assert order[..k + 1][..k] == order[..k];
      var item := Missing(order[k], counts[order[k]]);
      assert (missing + [item])[..k] == missing;
      missing := missing + [item];
    }
    assert order[..|order|] == order;
  }

  /** The missing words list each unknown word of two or more letters once, with its unknown occurrences. */
  ghost predicate ListsUnknown(missing: seq<Missing>, tokens: seq<string>, mask: seq<bool>)
    requires |tokens| == |mask|
  {
    && NoRepeats(missing)
    && (forall m :: m in missing ==> |m.term| >= 2 && m.occurrences == UnknownCount(tokens, mask, m.term, |tokens|) > 0)
    && (forall p :: 0 <= p < |tokens| && !mask[p] && |tokens[p]| >= 2 ==>
          Missing(tokens[p], UnknownCount(tokens, mask, tokens[p], |tokens|)) in missing)
  }

  /** More occurrences first, then by term. */
  predicate MissingBefore(collate: Collation, a: Missing, b: Missing) {
    if a.occurrences != b.occurrences then a.occurrences > b.occurrences else collate(a.term, b.term)
  }

  function MissingOrder(collate: Collation): (Missing, Missing) -> bool { (a, b) => MissingBefore(collate, a, b) }

  lemma {:induction false} InsertSum(le: (Missing, Missing) -> bool, s: seq<Missing>, m: Missing)
    ensures SumMissing(Insert(le, s, m)) == SumMissing(s) + m.occurrences
  {
    if s == [] {
    } else {
      var init, last := s[..|s| - 1], s[|s| - 1];
      if le(last, m) {
        assert (s + [m])[..|s|] == s;
      } else {
        InsertSum(le, init, m);
        var rest := Insert(le, init, m);
        assert (rest + [last])[..|rest|] == rest;
      }
    }
  }

  lemma {:induction false} SortSum(le: (Missing, Missing) -> bool, s: seq<Missing>)
    ensures SumMissing(StableSort(le, s)) == SumMissing(s)
  {
    if s == [] {
    } else {
      SortSum(le, s[..|s| - 1]);
      InsertSum(le, StableSort(le, s[..|s| - 1]), s[|s| - 1]);
    }
  }

  method CollectMissingWords(tokens: seq<string>, mask: seq<bool>, collate: Collation) returns (missing: seq<Missing>)
    requires |tokens| == |mask| && TotalPreorder(collate)
    ensures ListsUnknown(missing, tokens, mask) && Sorted(MissingOrder(collate), missing)
    ensures SumMissing(missing) == UnknownTokens(tokens, mask, true, |tokens|)
  {
    var order, counts := CountUnknown(tokens, mask);
    var listed := ListCounts(order, counts);
    CountsListUnknown(tokens, mask, order, counts, listed);
    missing := StableSort(MissingOrder(collate), listed);
    SortKeepsDistinct(MissingOrder(collate), listed);
    StableSortSorts(MissingOrder(collate), listed);
    SortSum(MissingOrder(collate), listed);
  }

  lemma CountsListUnknown(tokens: seq<string>, mask: seq<bool>, order: seq<string>, counts: map<string, nat>,
          listed: seq<Missing>)
    requires |tokens| == |mask| && Ordered(order, counts)
    requires forall t :: |t| >= 2 ==> Get(counts, t) == UnknownCount(tokens, mask, t, |tokens|)
    requires |listed| == |order| && forall k :: 0 <= k < |order| ==> listed[k] == Missing(order[k], counts[order[k]])
    ensures ListsUnknown(listed, tokens, mask)
  {
    forall p | 0 <= p < |tokens| && !mask[p] && |tokens[p]| >= 2
      ensures Missing(tokens[p], UnknownCount(tokens, mask, tokens[p], |tokens|)) in listed
    {
      UnknownIsCounted(tokens, mask, p, |tokens|);
      assert tokens[p] in order;
      var k :| 0 <= k < |order| && order[k] == tokens[p];
      assert listed[k].term == tokens[p];
    }
  }

  lemma {:induction false} UnknownIsCounted(tokens: seq<string>, mask: seq<bool>, p: nat, upto: nat)
    requires p < upto <= |tokens| == |mask| && !mask[p]
    ensures UnknownCount(tokens, mask, tokens[p], upto) > 0
  {
    if p < upto - 1 { UnknownIsCounted(tokens, mask, p, upto - 1); }
  }

  // ----- the scan -----

  /** Every token is known, unknown with two or more letters, or unknown with fewer. */
  lemma {:induction false} TokensAreConserved(tokens: seq<string>, mask: seq<bool>, upto: nat)
    requires upto <= |tokens| == |mask|
    ensures upto == CountTrue(mask[..upto]) + UnknownTokens(tokens, mask, true, upto)
                    + UnknownTokens(tokens, mask, false, upto)
  {
    if upto == 0 {
    } else {
      TokensAreConserved(tokens, mask, upto - 1);
      assert mask[..upto][..upto - 1] == mask[..upto - 1];
    }
  }

  method CountKnown(mask: array<bool>) returns (n: nat)
    ensures n == CountTrue(mask[..])
  {
    n := 0;
    for k := 0 to mask.Length
      invariant n == CountTrue(mask[..k])
    {
      assert mask[..k + 1][..k] == mask[..k];
      if mask[k] { n := n + 1; }
    }
    assert mask[..mask.Length] == mask[..];
  }

  datatype ScanResult = ScanResult(wordCount: nat, knownTokenCount: nat, unknownTokenCount: nat,
                                   coverage: real, completed: bool,
                                   matches: seq<Match>, missingWords: seq<Missing>, diffChunks: seq<Diff.Chunk>)

  /** The rows that count as known: approved ones, and ones whose review is pending. */
  function KnownRows(rows: seq<Row>): (r: seq<Row>)
    ensures forall row :: row in r <==> row in rows && Trim(row.status) in {"approved", "pending_review"}
  {
    if rows == [] then []
    else
      var init, last := rows[..|rows| - 1], rows[|rows| - 1];
      assert rows == init + [last];
      KnownRows(init) + if Trim(last.status) in {"approved", "pending_review"} then [last] else []
  }

  ghost function Marked(mask: seq<bool>): set<nat> { set p: nat | p < |mask| && mask[p] }

  /** What a scan says about the words of a text: `known` of them are marked, and the two lists are these. */
  ghost predicate ReportReads(matches: seq<Match>, missing: seq<Missing>, known: nat,
                              rows: seq<Row>, tokens: seq<string>, mask: seq<bool>)
    requires |tokens| == |mask|
  {
    && (forall m :: multiset(matches)[m] == |RowsOf(m, rows, tokens)|)
    && (forall t, n :: Missing(t, n) in missing <==> |t| >= 2 && n == |UnknownPlaces(tokens, mask, t, |tokens|)| > 0)
    && known == |Marked(mask)|
  }

  /** The two lists begin with what occurs most; terms, and then categories and entries, break ties. */
  ghost predicate ReportIsOrdered(collate: Collation, matches: seq<Match>, missing: seq<Missing>) {
    && (forall i, j :: 0 <= i < j < |matches| ==> matches[i].occurrences >= matches[j].occurrences)
    && (forall i, j :: 0 <= i < j < |matches| && matches[i].occurrences == matches[j].occurrences ==>
          collate(matches[i].term, matches[j].term))
    && (forall i, j :: 0 <= i < j < |matches| && matches[i].occurrences == matches[j].occurrences
                       && collate(matches[j].term, matches[i].term) ==>
          && collate(matches[i].category, matches[j].category)
          && (collate(matches[j].category, matches[i].category) ==> matches[i].entryId <= matches[j].entryId))
    && (forall i, j :: 0 <= i < j < |missing| ==> missing[i].occurrences >= missing[j].occurrences)
    && (forall i, j :: 0 <= i < j < |missing| && missing[i].occurrences == missing[j].occurrences ==>
          collate(missing[i].term, missing[j].term))
  }

  lemma OrderInWords(collate: Collation, matches: seq<Match>, missing: seq<Missing>)
    requires TotalPreorder(collate)
    requires Sorted(MatchOrder(collate), matches) && Sorted(MissingOrder(collate), missing)
    ensures ReportIsOrdered(collate, matches, missing)
  {
    forall i, j | 0 <= i < j < |matches| ensures MatchBefore(collate, matches[i], matches[j]) {
      assert MatchOrder(collate)(matches[i], matches[j]);
    }
    forall i, j | 0 <= i < j < |missing| ensures MissingBefore(collate, missing[i], missing[j]) {
      assert MissingOrder(collate)(missing[i], missing[j]);
    }
    hide Sorted;
  }

  lemma {:induction false} MarkedAre(mask: seq<bool>)
    ensures CountTrue(mask) == |Marked(mask)|
  {
    if mask == [] {
    } else {
      var n := |mask| - 1;
      MarkedAre(mask[..n]);
      forall p: nat | p < n ensures mask[..n][p] == mask[p] {}
      OneMore(Marked(mask[..n]), Marked(mask), n, mask[n]);
    }
  }

  lemma MissingInWords(missing: seq<Missing>, tokens: seq<string>, mask: seq<bool>, t: string, n: nat)
    requires |tokens| == |mask| && ListsUnknown(missing, tokens, mask)
    ensures Missing(t, n) in missing <==> |t| >= 2 && n == |UnknownPlaces(tokens, mask, t, |tokens|)| > 0
  {
    UnknownCountIsPlaces(tokens, mask, t, |tokens|);
    var places := UnknownPlaces(tokens, mask, t, |tokens|);
    if |t| >= 2 && n == |places| > 0 {
      var p :| p in places;
      assert tokens[p] == t && !mask[p];
    }
  }

  lemma ReportInWords(matches: seq<Match>, missing: seq<Missing>, rows: seq<Row>, tokens: seq<string>, mask: seq<bool>)
    requires |tokens| == |mask| && ListsUnknown(missing, tokens, mask)
    requires multiset(matches) == MatchBag(rows, tokens, Cap(rows), JoinedTerms(rows))
    ensures ReportReads(matches, missing, CountTrue(mask), rows, tokens, mask)
  {
    hide RowsOf, ListsUnknown, MatchBag, Cap, JoinedTerms, UnknownPlaces, CountTrue, Marked;
    forall m ensures multiset(matches)[m] == |RowsOf(m, rows, tokens)| { MatchesInWords(rows, tokens, m); }
    forall t, n
      ensures Missing(t, n) in missing <==> |t| >= 2 && n == |UnknownPlaces(tokens, mask, t, |tokens|)| > 0
    {
      MissingInWords(missing, tokens, mask, t, n);
    }
    MarkedAre(mask);
  }

  /** Rounding to two decimals, as any rounding that keeps the order and the two ends. */
  ghost predicate Rounds(round: real -> real) {
    (forall x, y :: x <= y ==> round(x) <= round(y)) && round(0.0) == 0.0 && round(100.0) == 100.0
  }

  function Coverage(known: nat, words: nat, round: real -> real): real {
    if words > 0 then round(known as real / words as real * 100.0) else 0.0
  }

  /** Coverage is a percentage, and never falls when more of the same number of words are known. */
  lemma CoverageIsMonotone(known: nat, more: nat, words: nat, round: real -> real)
    requires Rounds(round) && known <= more <= words
    ensures 0.0 <= Coverage(known, words, round) <= Coverage(more, words, round) <= 100.0
    ensures words > 0 && more == words ==> Coverage(more, words, round) == 100.0
  {
    if words > 0 {
      var w := words as real;
      Divides(0.0, known as real, w);
      Divides(known as real, more as real, w);
      Divides(more as real, w, w);
      Ends(w);
    }
  }

  /** With a rounding that moves a number by 0.005 at most, coverage is that close to the known share in percent. */
  lemma CoverageIsClose(known: nat, words: nat, round: real -> real)
    requires words > 0 && forall x :: -0.005 <= round(x) - x <= 0.005
    ensures -0.005 * words as real <= Coverage(known, words, round) * words as real - 100.0 * known as real
    ensures Coverage(known, words, round) * words as real - 100.0 * known as real <= 0.005 * words as real
  {
    var share := known as real / words as real * 100.0;
    ShareTimes(known as real, words as real, share);
    CloseTo(Coverage(known, words, round), known as real, words as real, share);
  }

  lemma ShareTimes(k: real, w: real, share: real)
    requires w > 0.0 && share == k / w * 100.0
    ensures share * w == 100.0 * k
  {
    var q := k / w;
    assert q * w == k;
    assert share == q * 100.0;
  }

  lemma CloseTo(coverage: real, k: real, w: real, share: real)
    requires w > 0.0 && -0.005 <= coverage - share <= 0.005 && share * w == 100.0 * k
    ensures -0.005 * w <= coverage * w - 100.0 * k <= 0.005 * w
  {
    Scaled(share - 0.005, coverage, w);
    Scaled(coverage, share + 0.005, w);
    assert (share - 0.005) * w == share * w - 0.005 * w;
    assert (share + 0.005) * w == share * w + 0.005 * w;
  }

  lemma Scaled(x: real, y: real, w: real)
    requires x <= y && w > 0.0
    ensures x * w <= y * w
  {}

  lemma Ends(w: real)
    requires w > 0.0
    ensures 0.0 / w * 100.0 == 0.0 && w / w * 100.0 == 100.0
  {
    assert w / w == 1.0;
  }

  lemma Divides(x: real, y: real, w: real)
    requires x <= y && w > 0.0
    ensures x / w * 100.0 <= y / w * 100.0
  {}

  /** What the counting part of a scan reports about a mask. */
  ghost predicate TotalsOf(result: ScanResult, tokens: seq<string>, mask: seq<bool>)
    requires |tokens| == |mask|
  {
    && result.wordCount == |tokens|
    && result.knownTokenCount == CountTrue(mask)
    && result.unknownTokenCount == SumMissing(result.missingWords) + UnknownTokens(tokens, mask, false, |tokens|)
    && result.wordCount == result.knownTokenCount + result.unknownTokenCount
    && ListsUnknown(result.missingWords, tokens, mask)
  }

  /** `mask` is the scanner's known mask of the tokens. */
  ghost predicate IsKnownMask(mask: seq<bool>, rows: seq<Row>, tokens: seq<string>) {
    IsMaskOf(mask, Cover(SpelledTerms(rows), tokens, Cap(rows), 0), |tokens|)
  }

  /**
   The scan over the known rows: every word is known, listed as missing, or an unknown single letter; there are
   matches exactly when some word is known; and the diff is over the two texts.
   */
  method ScanAssignment(rows: seq<Row>, original: seq<string>, completed: seq<string>, threshold: real,
                        collate: Collation, round: real -> real)
    returns (result: ScanResult, ghost mask: seq<bool>)
    requires AllTokens(original) && AllTokens(completed) && TotalPreorder(collate)
    ensures IsKnownMask(mask, KnownRows(rows), completed) && TotalsOf(result, completed, mask)
    ensures multiset(result.matches)
         == MatchBag(KnownRows(rows), completed, Cap(KnownRows(rows)), JoinedTerms(KnownRows(rows)))
    ensures Sorted(MatchOrder(collate), result.matches) && Sorted(MissingOrder(collate), result.missingWords)
    ensures result.matches != [] <==> result.knownTokenCount > 0
    ensures ReportReads(result.matches, result.missingWords, result.knownTokenCount, KnownRows(rows), completed, mask)
    ensures ReportIsOrdered(collate, result.matches, result.missingWords)
    ensures result.coverage == Coverage(result.knownTokenCount, |completed|, round)
    ensures result.completed <==> result.coverage >= threshold
    ensures Diff.OriginalWords(result.diffChunks) == original && Diff.CompletedWords(result.diffChunks) == completed
    ensures Diff.IsLongestCommon(Diff.EqualWords(result.diffChunks), original, completed)
  {
    hide *;
    var knownRows := KnownRows(rows);
    var matches, missing, knownTokenCount;
    matches, missing, knownTokenCount, mask := ScanTokens(knownRows, completed, collate);
    var wordCount := |completed|;
    var unknownTokenCount := if wordCount >= knownTokenCount then wordCount - knownTokenCount else 0;
    var coverage := Coverage(knownTokenCount, wordCount, round);
    var diff, runs := Diff.BuildDiffChunks(original, completed);
    result := ScanResult(wordCount, knownTokenCount, unknownTokenCount, coverage, coverage >= threshold,
                         matches, missing, diff);
    ReportInWords(matches, missing, knownRows, completed, mask);
    OrderInWords(collate, matches, missing);
    TotalsAre(result, completed, mask);
  }

  /** The part of a scan that is about the completed text alone. */
  method ScanTokens(rows: seq<Row>, tokens: seq<string>, collate: Collation)
    returns (matches: seq<Match>, missing: seq<Missing>, knownTokenCount: nat, ghost mask: seq<bool>)
    requires AllTokens(tokens) && TotalPreorder(collate)
    ensures IsKnownMask(mask, rows, tokens) && |mask| == |tokens| && knownTokenCount == CountTrue(mask)
    ensures multiset(matches) == MatchBag(rows, tokens, Cap(rows), JoinedTerms(rows))
    ensures Sorted(MatchOrder(collate), matches) && Sorted(MissingOrder(collate), missing)
    ensures matches != [] <==> knownTokenCount > 0
    ensures ListsUnknown(missing, tokens, mask)
    ensures SumMissing(missing) == UnknownTokens(tokens, mask, true, |tokens|)
  {
    hide *;
    matches := MatchTerms(rows, tokens, collate);
    var knownMask := BuildKnownMask(rows, tokens);
    mask := knownMask[..];
    MaskIsKnown(mask, rows, tokens);
    knownTokenCount := CountKnown(knownMask);
    missing := CollectMissingWords(tokens, knownMask[..], collate);
    MatchesIffKnown(rows, tokens, mask);
    NonEmptyBag(matches);
  }

  lemma MaskIsKnown(mask: seq<bool>, rows: seq<Row>, tokens: seq<string>)
    requires IsMaskOf(mask, Cover(SpelledTerms(rows), tokens, Cap(rows), 0), |tokens|)
    ensures IsKnownMask(mask, rows, tokens) && |mask| == |tokens|
  {
    hide Cover, Covered, SpelledTerms, Cap;
  }

  lemma TotalsAre(result: ScanResult, tokens: seq<string>, mask: seq<bool>)
    requires |tokens| == |mask| && result.wordCount == |tokens| && result.knownTokenCount == CountTrue(mask)
    requires result.unknownTokenCount
          == if |tokens| >= CountTrue(mask) then |tokens| - CountTrue(mask) else 0
    requires SumMissing(result.missingWords) == UnknownTokens(tokens, mask, true, |tokens|)
    requires ListsUnknown(result.missingWords, tokens, mask)
    ensures TotalsOf(result, tokens, mask)
  {
    hide ListsUnknown, SumMissing, UnknownTokens;
    TokensAreConserved(tokens, mask, |tokens|);
    assert mask[..|tokens|] == mask;
  }

  lemma NonEmptyBag(matches: seq<Match>)
    ensures matches != [] <==> multiset(matches) != multiset{}
  {
    if matches != [] { assert matches[0] in multiset(matches); }
  }
}
