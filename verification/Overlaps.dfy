/**
 Overlap resolution of the multi-word expression detector: candidates are taken in rank order, each unless
 its token interval meets one already taken, and the taken ones are put into text order.
 */
module Overlaps {
  import opened Sorting

  datatype Candidate = Candidate(expressionId: int, expressionType: string, isSeparable: bool,
                                 spanStart: int, spanEnd: int, tokenStart: int, tokenEnd: int,
                                 semanticScore: real, semanticBoosted: bool, detectionSource: string)

  function Bit(b: bool): int { if b then 1 else 0 }

  /** The rank tuple of the sort, compared from left to right. */
  predicate RankGreater(a: Candidate, b: Candidate) {
    var (la, lb) := (a.tokenEnd - a.tokenStart, b.tokenEnd - b.tokenStart);
    if la != lb then la > lb
    else if a.semanticBoosted != b.semanticBoosted then a.semanticBoosted
    else if a.semanticScore != b.semanticScore then a.semanticScore > b.semanticScore
    else if Bit(a.expressionType == "idiom") != Bit(b.expressionType == "idiom") then a.expressionType == "idiom"
    else a.isSeparable && !b.isSeparable
  }

  /** `a` may stand before `b` in descending rank order. */
  predicate RankOrder(a: Candidate, b: Candidate) { !RankGreater(b, a) }

  predicate SpanOrder(a: Candidate, b: Candidate) {
    a.spanStart < b.spanStart || (a.spanStart == b.spanStart && a.spanEnd <= b.spanEnd)
  }

  /** The token intervals share a token. */
  predicate Meets(a: Candidate, b: Candidate) {
    !(a.tokenEnd < b.tokenStart || a.tokenStart > b.tokenEnd)
  }

  predicate MeetsAny(c: Candidate, kept: seq<Candidate>) {
    exists k :: 0 <= k < |kept| && Meets(c, kept[k])
  }

  /** The candidates kept from a ranked list. */
  function Greedy(ranked: seq<Candidate>): (r: seq<Candidate>)
    ensures forall c :: c in r ==> c in ranked
  {
    if ranked == [] then []
    else
      var kept, last := Greedy(ranked[..|ranked| - 1]), ranked[|ranked| - 1];
      assert ranked == ranked[..|ranked| - 1] + [last];
      if MeetsAny(last, kept) then kept else kept + [last]
  }

  /** The candidates dropped from a ranked list. */
  function Dropped(ranked: seq<Candidate>): seq<Candidate> {
    if ranked == [] then []
    else
      var last := ranked[|ranked| - 1];
      Dropped(ranked[..|ranked| - 1])
      + if MeetsAny(last, Greedy(ranked[..|ranked| - 1])) then [last] else []
  }

  function Dedupe(candidates: seq<Candidate>): seq<Candidate> {
    StableSort(SpanOrder, Greedy(StableSort(RankOrder, candidates)))
  }

  method DedupeOverlaps(candidates: seq<Candidate>) returns (selected: seq<Candidate>)
    ensures selected == Dedupe(candidates)
  {
    var ranked := StableSort(RankOrder, candidates);
    selected := [];
    var occupied: seq<(int, int)> := [];
    for n := 0 to |ranked|
      invariant selected == Greedy(ranked[..n])
      invariant |occupied| == |selected|
      invariant forall k :: 0 <= k < |selected| ==> occupied[k] == (selected[k].tokenStart, selected[k].tokenEnd)
    {
      assert ranked[..n + 1][..n] == ranked[..n];
      var item := ranked[n];
      var intersects :=
        exists k :: 0 <= k < |occupied| && !(item.tokenEnd < occupied[k].0 || item.tokenStart > occupied[k].1);
      assert intersects <==> MeetsAny(item, selected) by {
        assert forall k :: 0 <= k < |occupied| ==>
          (!(item.tokenEnd < occupied[k].0 || item.tokenStart > occupied[k].1) <==> Meets(item, selected[k]));
      }
      if intersects { continue; }
      selected := selected + [item];
      occupied := occupied + [(item.tokenStart, item.tokenEnd)];
    }
    assert ranked[..|ranked|] == ranked;
    selected := StableSort(SpanOrder, selected);
  }

  lemma RankIsPreorder()
    ensures TotalPreorder(RankOrder)
  {}

  lemma SpanIsPreorder()
    ensures TotalPreorder(SpanOrder)
  {}

  // ----- what is kept -----

  ghost predicate PairwiseDisjoint(s: seq<Candidate>) {
    forall i, j :: 0 <= i < j < |s| ==> !Meets(s[i], s[j])
  }

  lemma {:induction false} GreedyIsDisjoint(ranked: seq<Candidate>)
    ensures PairwiseDisjoint(Greedy(ranked))
  {
    if ranked == [] {
    } else {
      GreedyIsDisjoint(ranked[..|ranked| - 1]);
    }
  }

  lemma {:induction false} InsertKeepsDisjoint(le: (Candidate, Candidate) -> bool, s: seq<Candidate>, x: Candidate)
    requires PairwiseDisjoint(s) && !MeetsAny(x, s)
    ensures PairwiseDisjoint(Insert(le, s, x))
  {
    if s != [] && !le(s[|s| - 1], x) {
      var init, last := s[..|s| - 1], s[|s| - 1];
      assert !Meets(x, last);
      assert !MeetsAny(x, init) by { assert forall k :: 0 <= k < |init| ==> init[k] == s[k]; }
      InsertKeepsDisjoint(le, init, x);
      forall e | e in init ensures !Meets(e, last) {
        var i :| 0 <= i < |init| && init[i] == e;
        assert s[i] == e;
      }
      var r := Insert(le, init, x);
      assert forall e :: e in r ==> !Meets(e, last);
    } else {
      assert forall k :: 0 <= k < |s| ==> !Meets(x, s[k]);
    }
  }

  lemma {:induction false} SortKeepsDisjoint(le: (Candidate, Candidate) -> bool, s: seq<Candidate>)
    requires PairwiseDisjoint(s)
    ensures PairwiseDisjoint(StableSort(le, s))
  {
    if s == [] {
    } else {
      var init, last := s[..|s| - 1], s[|s| - 1];
      SortKeepsDisjoint(le, init);
      var sorted := StableSort(le, init);
      forall k | 0 <= k < |sorted| ensures !Meets(last, sorted[k]) {
        assert sorted[k] in init;
        var i :| 0 <= i < |init| && init[i] == sorted[k];
        assert s[i] == sorted[k];
      }
      InsertKeepsDisjoint(le, sorted, last);
    }
  }

  ghost predicate Splits(whole: seq<Candidate>, kept: seq<Candidate>, dropped: seq<Candidate>) {
    multiset(whole) == multiset(kept) + multiset(dropped)
  }

  /** Appending one candidate to the whole and to one of the two parts. */
  lemma SplitsAppend(whole: seq<Candidate>, kept: seq<Candidate>, dropped: seq<Candidate>, last: Candidate)
    requires Splits(whole, kept, dropped)
    ensures Splits(whole + [last], kept + [last], dropped)
    ensures Splits(whole + [last], kept, dropped + [last])
  {
    assert multiset(whole + [last]) == multiset(kept) + multiset(dropped) + multiset{last};
  }

  /** Every ranked candidate is kept or dropped. */
  lemma {:induction false} GreedySplits(ranked: seq<Candidate>)
    ensures Splits(ranked, Greedy(ranked), Dropped(ranked))
  {
    if ranked == [] {
    } else {
      var init, last := ranked[..|ranked| - 1], ranked[|ranked| - 1];
      GreedySplits(init);
      SplitsAppend(init, Greedy(init), Dropped(init), last);
      assert ranked == init + [last];
      hide Splits, MeetsAny;
    }
  }

  /** A dropped candidate meets a kept one of no lower rank. */
  lemma {:induction false} DroppedMeetsKept(ranked: seq<Candidate>, d: Candidate)
    requires Sorted(RankOrder, ranked) && d in Dropped(ranked)
    ensures exists k :: k in Greedy(ranked) && Meets(d, k) && !RankGreater(d, k)
  {
    hide RankGreater, Meets;
    var init, last := ranked[..|ranked| - 1], ranked[|ranked| - 1];
    if d in Dropped(init) {
      DroppedMeetsKept(init, d);
      var k :| k in Greedy(init) && Meets(d, k) && !RankGreater(d, k);
      assert k in Greedy(ranked);
    } else {
      var m :| 0 <= m < |Greedy(init)| && Meets(last, Greedy(init)[m]);
      var k := Greedy(init)[m];
      assert k in init;
      var i :| 0 <= i < |init| && init[i] == k;
      assert RankOrder(ranked[i], ranked[|ranked| - 1]);
      assert k in Greedy(ranked);
    }
  }

  /**
   The output is a sub-multiset of the candidates with pairwise disjoint token intervals, in text order;
   every candidate left out meets a kept one of equal or higher rank.
   */
  lemma DedupeIsMaximalCover(candidates: seq<Candidate>)
    ensures var kept := Dedupe(candidates);
      && multiset(kept) <= multiset(candidates)
      && PairwiseDisjoint(kept) && Sorted(SpanOrder, kept)
      && forall d :: d in multiset(candidates) - multiset(kept) ==>
           exists k :: k in kept && Meets(d, k) && !RankGreater(d, k)
  {
    RankIsPreorder();
    SpanIsPreorder();
    hide RankOrder, RankGreater, SpanOrder, Meets, TotalPreorder;
    var ranked := StableSort(RankOrder, candidates);
    var greedy := Greedy(ranked);
    StableSortSorts(RankOrder, candidates);
    GreedySplits(ranked);
    GreedyIsDisjoint(ranked);
    SortKeepsDisjoint(SpanOrder, greedy);
    StableSortSorts(SpanOrder, greedy);
    hide StableSort, Greedy, Dropped, PairwiseDisjoint, Sorted;
    forall d | d in multiset(candidates) - multiset(Dedupe(candidates))
      ensures exists k :: k in Dedupe(candidates) && Meets(d, k) && !RankGreater(d, k)
    {
      assert multiset(candidates) - multiset(greedy) == multiset(Dropped(ranked));
      DroppedMeetsKept(ranked, d);
    }
  }

  /** The token intervals have a token in common. */
  ghost predicate ShareToken(a: Candidate, b: Candidate) { a.tokenStart <= b.tokenEnd && b.tokenStart <= a.tokenEnd }

  /**
   `k` ranks at least as high as `d`: it is longer; or as long and boosted where `d` is not; or alike in that with a
   higher score; or alike in that an idiom where `d` is none; or alike in that and separable, if `d` is.
   */
  ghost predicate AtLeastAsHigh(k: Candidate, d: Candidate) {
    var n, m := k.tokenEnd - k.tokenStart, d.tokenEnd - d.tokenStart;
    || n > m
    || (n == m && (
          || (k.semanticBoosted && !d.semanticBoosted)
          || (k.semanticBoosted == d.semanticBoosted && (
                || k.semanticScore > d.semanticScore
                || (k.semanticScore == d.semanticScore && (
                      || (k.expressionType == "idiom" && d.expressionType != "idiom")
                      || ((k.expressionType == "idiom" <==> d.expressionType == "idiom")
                          && (d.isSeparable ==> k.isSeparable))))))))
  }

  lemma RankInWords(k: Candidate, d: Candidate)
    ensures !RankGreater(d, k) <==> AtLeastAsHigh(k, d)
    ensures Meets(d, k) <==> ShareToken(d, k)
  {}

  /**
   In plain terms: no two results share a token; whatever is left out shares a token with a result that ranks at
   least as high; the results stand in text order.
   */
  lemma DedupeInWords(candidates: seq<Candidate>)
    ensures var kept := Dedupe(candidates);
      && (forall i, j :: 0 <= i < j < |kept| ==> !ShareToken(kept[i], kept[j]))
      && (forall i, j :: 0 <= i < j < |kept| ==>
            && kept[i].spanStart <= kept[j].spanStart
            && (kept[i].spanStart == kept[j].spanStart ==> kept[i].spanEnd <= kept[j].spanEnd))
      && (forall d :: d in multiset(candidates) - multiset(kept) ==>
            exists k :: k in kept && ShareToken(d, k) && AtLeastAsHigh(k, d))
  {
    DedupeIsMaximalCover(candidates);
    var kept := Dedupe(candidates);
    hide Dedupe, RankGreater, Meets, AtLeastAsHigh, ShareToken;
    forall i, j | 0 <= i < j < |kept|
      ensures !ShareToken(kept[i], kept[j]) && kept[i].spanStart <= kept[j].spanStart
          && (kept[i].spanStart == kept[j].spanStart ==> kept[i].spanEnd <= kept[j].spanEnd)
    {
      RankInWords(kept[j], kept[i]);
      assert SpanOrder(kept[i], kept[j]);
    }
    forall d | d in multiset(candidates) - multiset(kept)
      ensures exists k :: k in kept && ShareToken(d, k) && AtLeastAsHigh(k, d)
    {
      var k :| k in kept && Meets(d, k) && !RankGreater(d, k);
      RankInWords(k, d);
    }
  }

  // ----- idempotence -----

  lemma MeetsBothWays(a: Candidate, b: Candidate)
    ensures Meets(a, b) == Meets(b, a)
  {}

  lemma {:induction false} DisjointStays(s: seq<Candidate>)
    requires PairwiseDisjoint(s)
    ensures Greedy(s) == s
  {
    if s == [] {
    } else {
      var init, last := s[..|s| - 1], s[|s| - 1];
      hide Meets;
      forall k | 0 <= k < |init| ensures !Meets(last, init[k]) {
        assert !Meets(s[k], s[|s| - 1]) && s[k] == init[k];
        MeetsBothWays(last, init[k]);
      }
      DisjointStays(init);
      assert s == init + [last];
    }
  }

  lemma {:induction false} GreedyKeepsOrder(ranked: seq<Candidate>)
    requires Sorted(RankOrder, ranked)
    ensures Sorted(RankOrder, Greedy(ranked))
  {
    if ranked == [] {
    } else {
      var init, last := ranked[..|ranked| - 1], ranked[|ranked| - 1];
      GreedyKeepsOrder(init);
      forall k | k in Greedy(init) ensures RankOrder(k, last) {
        var i :| 0 <= i < |init| && init[i] == k;
        assert RankOrder(ranked[i], ranked[|ranked| - 1]);
      }
    }
  }

  /** Text order, and rank order among equal spans. */
  predicate FinalOrder(a: Candidate, b: Candidate) {
    SpanOrder(a, b) && (SpanOrder(b, a) ==> RankOrder(a, b))
  }

  lemma FinalIsPreorder()
    ensures TotalPreorder(FinalOrder)
  {}

  lemma {:induction false} InsertFinal(s: seq<Candidate>, x: Candidate)
    requires Sorted(FinalOrder, s) && forall e :: e in s ==> RankOrder(e, x)
    ensures Sorted(FinalOrder, Insert(SpanOrder, s, x))
  {
    FinalIsPreorder();
    SpanIsPreorder();
    hide RankOrder, SpanOrder;
    if s == [] {
    } else {
      var init, last := s[..|s| - 1], s[|s| - 1];
      assert last in s;
      forall e | e in init ensures FinalOrder(e, last) && e in s {
        var i :| 0 <= i < |init| && init[i] == e;
        assert s[i] == e && FinalOrder(s[i], s[|s| - 1]);
      }
      if SpanOrder(last, x) {
        assert FinalOrder(last, x);
        assert forall e :: e in s ==> FinalOrder(e, x) by {
          assert forall e :: e in s <==> e in init || e == last;
        }
      } else {
        InsertFinal(init, x);
        assert FinalOrder(x, last);
        hide TotalPreorder, FinalOrder;
        assert forall e :: e in Insert(SpanOrder, init, x) ==> FinalOrder(e, last);
      }
    }
  }

  /** Sorting a ranked list into text order leaves equal spans in rank order. */
  lemma {:induction false} SpanSortIsFinal(ranked: seq<Candidate>)
    requires Sorted(RankOrder, ranked)
    ensures Sorted(FinalOrder, StableSort(SpanOrder, ranked))
  {
    if ranked == [] {
    } else {
      var init, last := ranked[..|ranked| - 1], ranked[|ranked| - 1];
      SpanSortIsFinal(init);
      forall e | e in StableSort(SpanOrder, init) ensures RankOrder(e, last) {
        assert e in init;
        var i :| 0 <= i < |init| && init[i] == e;
        assert RankOrder(ranked[i], ranked[|ranked| - 1]);
      }
      InsertFinal(StableSort(SpanOrder, init), last);
    }
  }

  lemma TiedFinal(x: Candidate, y: Candidate)
    ensures Tied(FinalOrder, x, y) <==> Tied(SpanOrder, x, y) && Tied(RankOrder, x, y)
  {
    hide SpanOrder, RankOrder;
  }

  lemma {:induction false} FinalClass(s: seq<Candidate>, x: Candidate)
    ensures Class(FinalOrder, s, x) == Class(RankOrder, Class(SpanOrder, s, x), x)
    ensures Class(FinalOrder, s, x) == Class(SpanOrder, Class(RankOrder, s, x), x)
  {
    hide Tied;
    if s == [] {
    } else {
      var init, last := s[..|s| - 1], s[|s| - 1];
      FinalClass(init, x);
      TiedFinal(x, last);
      var spans, ranks := Class(SpanOrder, init, x), Class(RankOrder, init, x);
      assert spans + [] == spans && ranks + [] == ranks;
      ClassSnoc(RankOrder, spans, last, x);
      ClassSnoc(SpanOrder, ranks, last, x);
    }
  }

  /** Neither sort changes the order of candidates with equal span and equal rank. */
  lemma SortsKeepFinalClass(s: seq<Candidate>, x: Candidate)
    ensures Class(FinalOrder, StableSort(SpanOrder, s), x) == Class(FinalOrder, s, x)
    ensures Class(FinalOrder, StableSort(RankOrder, s), x) == Class(FinalOrder, s, x)
  {
    RankIsPreorder();
    SpanIsPreorder();
    FinalClass(s, x);
    FinalClass(StableSort(SpanOrder, s), x);
    FinalClass(StableSort(RankOrder, s), x);
    StableSortIsStable(SpanOrder, s, x);
    StableSortIsStable(RankOrder, s, x);
  }

  /** Resolving a resolved list changes nothing, whatever the spans and intervals. */
  lemma DedupeIsIdempotent(candidates: seq<Candidate>)
    ensures Dedupe(Dedupe(candidates)) == Dedupe(candidates)
  {
    RankIsPreorder();
    FinalIsPreorder();
    var ranked := StableSort(RankOrder, candidates);
    var greedy := Greedy(ranked);
    var out := StableSort(SpanOrder, greedy);
    var ranked2 := StableSort(RankOrder, out);
    StableSortSorts(RankOrder, candidates);
    StableSortSorts(RankOrder, out);
    GreedyIsDisjoint(ranked);
    SortKeepsDisjoint(SpanOrder, greedy);
    SortKeepsDisjoint(RankOrder, out);
    DisjointStays(ranked2);
    GreedyKeepsOrder(ranked);
    SpanSortIsFinal(greedy);
    SpanSortIsFinal(ranked2);
    forall x ensures Class(FinalOrder, StableSort(SpanOrder, ranked2), x) == Class(FinalOrder, out, x) {
      SortsKeepFinalClass(ranked2, x);
      SortsKeepFinalClass(out, x);
    }
    ClassesDetermine(FinalOrder, StableSort(SpanOrder, ranked2), out);
  }
}
