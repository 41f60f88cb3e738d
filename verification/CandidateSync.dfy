/**
 Candidate synchronisation: each round adds the candidates that the shared term sets do not hold yet, and
 up to three rounds of one request share the sets.
 */
module CandidateSync {
  import opened Common
  import opened Sorting
  import opened Text

  /** The shared sets of existing terms and categories. */
  datatype Terms = Terms(single: set<string>, multi: set<string>, categories: set<string>)

  /** What is fixed for a request: the fallback category, the categories created on demand, and what the
      repository answers when one is created (`None`: it raises). */
  datatype Settings = Settings(autoAdd: string, autoCreate: set<string>, created: string -> Option<seq<string>>)

  predicate HasSpace(c: string) { ' ' in c }

  /** A candidate with a space is looked up among the multi-word terms, any other among the single ones. */
  predicate Known(terms: Terms, c: string) { if HasSpace(c) then c in terms.multi else c in terms.single }

  function Remember(terms: Terms, c: string): Terms {
    if HasSpace(c) then terms.(multi := terms.multi + {c}) else terms.(single := terms.single + {c})
  }

  // ----- categories -----

  /** The trimmed, non-empty items of a payload. */
  function CleanSet(items: seq<string>): set<string> {
    set i | 0 <= i < |items| && Trim(items[i]) != "" :: Trim(items[i])
  }

  lemma CleanSetIs(items: seq<string>, c: string)
    ensures c in CleanSet(items) <==> c != "" && exists i :: 0 <= i < |items| && Trim(items[i]) == c
  {}

  /** `ensure_category_exists`, which always ends with the category in the set, even when creating it fails. */
  function EnsureCategory(settings: Settings, category: string, categories: set<string>): (r: set<string>)
    ensures categories <= r && (category != "" && category == Trim(category) ==> category in r)
  {
    if Trim(category) == "" || Trim(category) in categories then categories
    else
      match settings.created(Trim(category))
      case Some(items) => categories + CleanSet(items) + {Trim(category)}
      case None => categories + {Trim(category)}
  }

  /** `resolve_sync_category`: the category to use, whether it is the fallback, and the categories afterwards. */
  function ResolveCategory(settings: Settings, suggested: string,
          categories: set<string>): (string, bool, set<string>) {
    var clean := Trim(suggested);
    if clean == "" then (settings.autoAdd, true, categories)
    else if clean in categories then (clean, false, categories)
    else if clean in settings.autoCreate then (clean, false, EnsureCategory(settings, clean, categories))
    else (settings.autoAdd, true, categories)
  }

  /** `candidate_categories.get(candidate, auto)`, or auto without a table. */
  function Suggestion(suggestions: Option<map<string, string>>, settings: Settings, candidate: string): string {
    if suggestions.Some? && candidate in suggestions.value then suggestions.value[candidate] else settings.autoAdd
  }

  /** The suggestion names a category that exists or that may be created on demand. */
  predicate Usable(settings: Settings, suggested: string, categories: set<string>) {
    Trim(suggested) != "" && (Trim(suggested) in categories || Trim(suggested) in settings.autoCreate)
  }

  // ----- what a round does, stated on the candidates it has processed -----

  /** The last candidate brings a new term: unknown before the round and not seen earlier in it. */
  predicate LastIsNew(terms: Terms, candidates: seq<string>)
    requires candidates != []
  {
    var last := |candidates| - 1;
    !Known(terms, candidates[last]) && candidates[last] !in candidates[..last]
  }

  /** The candidates that are new where they stand (or that are not), in order. */
  function Select(terms: Terms, candidates: seq<string>, wantNew: bool): seq<string> {
    if candidates == [] then []
    else
      var last := |candidates| - 1;
      Select(terms, candidates[..last], wantNew)
      + if LastIsNew(terms, candidates) == wantNew then [candidates[last]] else []
  }

  /** The terms known after the candidates have been processed. */
  ghost predicate KnownAfter(terms: Terms, candidates: seq<string>, now: Terms) {
    forall c :: Known(now, c) <==> Known(terms, c) || c in candidates
  }

  /** The new candidates are distinct, unknown before, and as a set the unknown part of what was processed. */
  lemma {:induction false} SelectIsFresh(terms: Terms, candidates: seq<string>)
    ensures NoRepeats(Select(terms, candidates, true))
    ensures forall c :: c in Select(terms, candidates, true) <==> !Known(terms, c) && c in candidates
  {
    if candidates == [] {
    } else {
      var init, last := candidates[..|candidates| - 1], candidates[|candidates| - 1];
      SelectIsFresh(terms, init);
      assert candidates == init + [last];
    }
  }

  /** Nothing is lost or invented: the two parts together are the processed candidates. */
  lemma {:induction false} SelectSplits(terms: Terms, candidates: seq<string>)
    ensures multiset(Select(terms, candidates, true)) + multiset(Select(terms, candidates, false))
        == multiset(candidates)
  {
    if candidates == [] {
    } else {
      SelectSplits(terms, candidates[..|candidates| - 1]);
      assert candidates == candidates[..|candidates| - 1] + [candidates[|candidates| - 1]];
    }
  }

  /** Running a round again over candidates that are all known by then adds nothing. */
  lemma {:induction false} RerunAddsNothing(terms: Terms, candidates: seq<string>, now: Terms, again: seq<string>)
    requires KnownAfter(terms, candidates, now) && forall c :: c in again ==> c in candidates
    ensures Select(now, again, true) == [] && Select(now, again, false) == again
  {
    if again == [] {
    } else {
      var init, last := again[..|again| - 1], again[|again| - 1];
      RerunAddsNothing(terms, candidates, now, init);
      assert last in again && again == init + [last];
    }
  }

  /** A round after a round does what one round over both lists does. */
  lemma {:induction false} RoundsCompose(terms: Terms, earlier: seq<string>, now: Terms, later: seq<string>,
          wantNew: bool)
    requires KnownAfter(terms, earlier, now)
    ensures Select(terms, earlier + later, wantNew) == Select(terms, earlier, wantNew) + Select(now, later, wantNew)
  {
    if later == [] {
      assert earlier + later == earlier;
    } else {
      var init, last := later[..|later| - 1], later[|later| - 1];
      RoundsCompose(terms, earlier, now, init, wantNew);
      assert (earlier + later)[..|earlier + later| - 1] == earlier + init;
      assert LastIsNew(terms, earlier + later) == LastIsNew(now, later);
    }
  }

  /** Candidate `n` is a term that the sets lack and that does not stand earlier in the list. */
  ghost predicate NewAt(terms: Terms, candidates: seq<string>, n: nat) {
    && n < |candidates| && candidates[n] !in candidates[..n]
    && (if ' ' in candidates[n] then candidates[n] !in terms.multi else candidates[n] !in terms.single)
  }

  lemma NewInPrefix(terms: Terms, candidates: seq<string>, m: nat, n: nat)
    requires n < m <= |candidates|
    ensures NewAt(terms, candidates[..m], n) <==> NewAt(terms, candidates, n)
  {
    assert candidates[..m][..n] == candidates[..n];
  }

  /** `at` lists, of the first `n` positions, the new ones (or the others). */
  ghost predicate ListsNew(terms: Terms, candidates: seq<string>, wantNew: bool, at: seq<nat>, n: nat) {
    forall k: nat :: k in at <==> k < n && NewAt(terms, candidates, k) == wantNew
  }

  lemma ListsNext(terms: Terms, candidates: seq<string>, wantNew: bool, at: seq<nat>, n: nat)
    requires n < |candidates| && ListsNew(terms, candidates[..n], wantNew, at, n)
    ensures ListsNew(terms, candidates, wantNew,
                     if NewAt(terms, candidates, n) == wantNew then at + [n] else at, n + 1)
  {
    forall k: nat | k < n ensures NewAt(terms, candidates[..n], k) <==> NewAt(terms, candidates, k) {
      NewInPrefix(terms, candidates, n, k);
    }
    hide NewAt;
  }

  /** The new candidates stand in the order of the list, each where it is met first; the others are all the rest. */
  lemma {:induction false} SelectInOrder(terms: Terms, candidates: seq<string>, wantNew: bool) returns (at: seq<nat>)
    ensures Picks(candidates, at, Select(terms, candidates, wantNew))
    ensures forall k: nat :: k in at <==> k < |candidates| && NewAt(terms, candidates, k) == wantNew
  {
    if candidates == [] {
      at := [];
    } else {
      var n := |candidates| - 1;
      at := SelectInOrder(terms, candidates[..n], wantNew);
      ListsNext(terms, candidates, wantNew, at, n);
      PicksNext(candidates, n, at, Select(terms, candidates[..n], wantNew));
      assert LastIsNew(terms, candidates) <==> NewAt(terms, candidates, n);
      hide NewAt, Picks;
      at := if NewAt(terms, candidates, n) == wantNew then at + [n] else at;
    }
  }

  // ----- where the added candidates go -----

  datatype Review = Review(candidate: string, suggested: string)
  datatype Plan = Plan(toInsert: seq<(string, string)>, reviews: seq<Review>, categories: set<string>)

  /** The categories chosen for the added candidates, one after the other. */
  function Place(settings: Settings, suggestions: Option<map<string, string>>, added: seq<string>,
          categories: set<string>): (p: Plan)
    ensures |p.toInsert| == |added| && categories <= p.categories
  {
    if added == [] then Plan([], [], categories)
    else
      var last := added[|added| - 1];
      var before := Place(settings, suggestions, added[..|added| - 1], categories);
      var suggested := Suggestion(suggestions, settings, last);
      var (chosen, fallback, after) := ResolveCategory(settings, suggested, before.categories);
      Plan(before.toInsert + [(chosen, last)],
           before.reviews + if fallback && suggested != settings.autoAdd then [Review(last, suggested)] else [],
           after + {chosen})
  }

  /** The categories at hand when the `k`-th added candidate is placed. */
  function AtHand(settings: Settings, suggestions: Option<map<string, string>>, added: seq<string>,
          categories: set<string>, k: nat): set<string>
    requires k <= |added|
  {
    Place(settings, suggestions, added[..k], categories).categories
  }

  /** The `k`-th added candidate has a suggestion of its own that could not be used when it was placed. */
  ghost predicate NeedsReview(settings: Settings, suggestions: Option<map<string, string>>, added: seq<string>,
          categories: set<string>, k: int) {
    && 0 <= k < |added|
    && Suggestion(suggestions, settings, added[k]) != settings.autoAdd
    && !Usable(settings, Suggestion(suggestions, settings, added[k]),
        AtHand(settings, suggestions, added, categories, k))
  }

  /** Where the `k`-th added candidate belongs: its trimmed suggestion when that is usable, else the fallback. */
  function Chosen(settings: Settings, suggestions: Option<map<string, string>>, added: seq<string>,
          categories: set<string>, k: nat): string
    requires k < |added|
  {
    if Usable(settings, Suggestion(suggestions, settings, added[k]),
        AtHand(settings, suggestions, added, categories, k))
    then Trim(Suggestion(suggestions, settings, added[k])) else settings.autoAdd
  }

  lemma PrefixIsPlacedAlike(settings: Settings, suggestions: Option<map<string, string>>, added: seq<string>,
          categories: set<string>, n: nat, k: nat)
    requires k < n <= |added|
    ensures added[..n][..k] == added[..k]
    ensures Chosen(settings, suggestions, added[..n], categories, k)
        == Chosen(settings, suggestions, added, categories, k)
    ensures NeedsReview(settings, suggestions, added[..n], categories, k)
        <==> NeedsReview(settings, suggestions, added, categories, k)
  {
    assert added[..n][..k] == added[..k];
  }

  /**
   Every added candidate is inserted, in order, under the trimmed suggestion when that is usable and under the
   fallback otherwise, and the category exists by the end of the round.
   */
  lemma {:induction false} PlaceExplains(settings: Settings, suggestions: Option<map<string, string>>,
          added: seq<string>, categories: set<string>, k: nat)
    requires k < |added|
    ensures var p := Place(settings, suggestions, added, categories);
      && p.toInsert[k] == (Chosen(settings, suggestions, added, categories, k), added[k])
      && p.toInsert[k].0 in p.categories
  {
    hide Trim;
    var n := |added| - 1;
    if k < n {
      PlaceExplains(settings, suggestions, added[..n], categories, k);
      PrefixIsPlacedAlike(settings, suggestions, added, categories, n, k);
    }
  }

  /** The `k`-th added candidate needs the review `r`. */
  ghost predicate ReviewAt(settings: Settings, suggestions: Option<map<string, string>>, added: seq<string>,
          categories: set<string>, k: int, r: Review)
  {
    && NeedsReview(settings, suggestions, added, categories, k)
    && r == Review(added[k], Suggestion(suggestions, settings, added[k]))
  }

  lemma PrefixIsReviewedAlike(settings: Settings, suggestions: Option<map<string, string>>, added: seq<string>,
          categories: set<string>, n: nat, k: int, r: Review)
    requires n <= |added|
    ensures ReviewAt(settings, suggestions, added[..n], categories, k, r)
       <==> k < n && ReviewAt(settings, suggestions, added, categories, k, r)
  {
    hide AtHand, Usable, Suggestion, Place;
    if 0 <= k < n { PrefixIsPlacedAlike(settings, suggestions, added, categories, n, k); }
  }

  lemma LastReview(settings: Settings, suggestions: Option<map<string, string>>, added: seq<string>,
          categories: set<string>, r: Review)
    requires added != []
    ensures var n := |added| - 1;
      r in Place(settings, suggestions, added, categories).reviews <==>
      || r in Place(settings, suggestions, added[..n], categories).reviews
      || ReviewAt(settings, suggestions, added, categories, n, r)
  {
    hide Trim;
  }

  /** Review is asked for exactly the added candidates whose own suggestion could not be used. */
  lemma {:induction false} ReviewsExplain(settings: Settings, suggestions: Option<map<string, string>>,
          added: seq<string>, categories: set<string>, r: Review)
    ensures r in Place(settings, suggestions, added, categories).reviews
       <==> exists k :: ReviewAt(settings, suggestions, added, categories, k, r)
  {
    if added == [] {
      assert forall k :: !ReviewAt(settings, suggestions, added, categories, k, r);
    } else {
      var n := |added| - 1;
      ReviewsExplain(settings, suggestions, added[..n], categories, r);
      LastReview(settings, suggestions, added, categories, r);
      assert forall k :: ReviewAt(settings, suggestions, added, categories, k, r) ==> k <= n;
      hide ReviewAt, Place;
      forall k ensures ReviewAt(settings, suggestions, added[..n], categories, k, r)
                  <==> k < n && ReviewAt(settings, suggestions, added, categories, k, r)
      {
        PrefixIsReviewedAlike(settings, suggestions, added, categories, n, k, r);
      }
    }
  }

  // ----- places and reviews, from the table's entries -----

  /**
   `chosen` is the category for a candidate whose entry is `entry`: the trimmed entry when that is a category at hand
   or one that is created on demand, and else the fallback.
   */
  ghost predicate ChoiceReads(entry: string, settings: Settings, hand: set<string>, chosen: string) {
    && (Trim(entry) == "" ==> chosen == settings.autoAdd)
    && (Trim(entry) != "" && Trim(entry) in hand ==> chosen == Trim(entry))
    && (Trim(entry) in settings.autoCreate && Trim(entry) != "" ==> chosen == Trim(entry))
    && (Trim(entry) !in hand && Trim(entry) !in settings.autoCreate ==> chosen == settings.autoAdd)
  }

  /**
   Candidate `k` of those added stands in row `k` under the category its own entry in the table leads to; without an
   entry, the fallback itself is its entry.
   */
  lemma PlaceInWords(settings: Settings, suggestions: Option<map<string, string>>, added: seq<string>,
                     categories: set<string>, k: nat)
    requires k < |added|
    ensures var row, hand := Place(settings, suggestions, added, categories).toInsert[k],
                             AtHand(settings, suggestions, added, categories, k);
      && row.1 == added[k]
      && (suggestions.Some? && added[k] in suggestions.value ==>
            ChoiceReads(suggestions.value[added[k]], settings, hand, row.0))
      && (suggestions == None || added[k] !in suggestions.value ==>
            ChoiceReads(settings.autoAdd, settings, hand, row.0))
  {
    PlaceExplains(settings, suggestions, added, categories, k);
    hide Place, AtHand, Trim;
  }

  /** `entry` is what the table has for a candidate, or the fallback. */
  ghost predicate IsEntry(suggestions: Option<map<string, string>>, settings: Settings, c: string, entry: string) {
    entry == if suggestions.Some? && c in suggestions.value then suggestions.value[c] else settings.autoAdd
  }

  lemma LastGrows(settings: Settings, suggestions: Option<map<string, string>>, added: seq<string>,
                  categories: set<string>, entry: string)
    requires added != [] && IsEntry(suggestions, settings, added[|added| - 1], entry)
    ensures var hand, clean := Place(settings, suggestions, added[..|added| - 1], categories).categories, Trim(entry);
      Place(settings, suggestions, added, categories).categories ==
        hand + {if Usable(settings, entry, hand) then clean else settings.autoAdd}
        + if clean != "" && clean !in hand && clean in settings.autoCreate && settings.created(clean).Some?
          then CleanSet(settings.created(clean).value) else {}
  {
    var before := Place(settings, suggestions, added[..|added| - 1], categories);
    var (chosen, fallback, after) := ResolveCategory(settings, entry, before.categories);
    assert Suggestion(suggestions, settings, added[|added| - 1]) == entry;
    assert Place(settings, suggestions, added, categories).categories == after + {chosen};
    hide Place, Trim, CleanSet, Suggestion;
  }

  /**
   The categories at hand begin with the given ones and grow by the chosen one, and by what creating it on demand
   brings in.
   */
  lemma AtHandGrows(settings: Settings, suggestions: Option<map<string, string>>, added: seq<string>,
                    categories: set<string>, k: nat, entry: string)
    requires k < |added| && IsEntry(suggestions, settings, added[k], entry)
    ensures AtHand(settings, suggestions, added, categories, 0) == categories
    ensures var hand, clean := AtHand(settings, suggestions, added, categories, k), Trim(entry);
      var chosen := Place(settings, suggestions, added, categories).toInsert[k].0;
      AtHand(settings, suggestions, added, categories, k + 1) == hand + {chosen} +
        if clean != "" && clean !in hand && clean in settings.autoCreate && settings.created(clean).Some?
        then CleanSet(settings.created(clean).value) else {}
  {
    PlaceExplains(settings, suggestions, added, categories, k);
    assert added[..k + 1][..k] == added[..k] && added[..0] == [];
    LastGrows(settings, suggestions, added[..k + 1], categories, entry);
    hide Place, ResolveCategory, EnsureCategory, Trim, CleanSet;
  }

  /** `r` asks about candidate `k` of those added: its entry is not the fallback and names no category to be had. */
  ghost predicate AsksAbout(settings: Settings, suggestions: Option<map<string, string>>, added: seq<string>,
                            categories: set<string>, k: nat, r: Review) {
    && k < |added| && suggestions.Some? && added[k] in suggestions.value
    && var entry := suggestions.value[added[k]];
      && r.candidate == added[k] && r.suggested == entry && entry != settings.autoAdd
      && (Trim(entry) == "" || (Trim(entry) !in AtHand(settings, suggestions, added, categories, k)
                                && Trim(entry) !in settings.autoCreate))
  }

  lemma ReviewIsInside(settings: Settings, suggestions: Option<map<string, string>>, added: seq<string>,
                       categories: set<string>, k: int, r: Review)
    ensures ReviewAt(settings, suggestions, added, categories, k, r) ==> k >= 0
  {}

  lemma AsksIffReview(settings: Settings, suggestions: Option<map<string, string>>, added: seq<string>,
                      categories: set<string>, k: nat, r: Review)
    ensures ReviewAt(settings, suggestions, added, categories, k, r)
       <==> AsksAbout(settings, suggestions, added, categories, k, r)
  {
    hide Place, AtHand, Trim;
  }

  lemma ReviewsInWords(settings: Settings, suggestions: Option<map<string, string>>, added: seq<string>,
                       categories: set<string>, r: Review)
    ensures r in Place(settings, suggestions, added, categories).reviews
       <==> exists k: nat :: AsksAbout(settings, suggestions, added, categories, k, r)
  {
    ReviewsExplain(settings, suggestions, added, categories, r);
    hide *;
    forall k: nat
      ensures ReviewAt(settings, suggestions, added, categories, k, r)
         <==> AsksAbout(settings, suggestions, added, categories, k, r)
    {
      AsksIffReview(settings, suggestions, added, categories, k, r);
    }
    if k :| ReviewAt(settings, suggestions, added, categories, k, r) {
      ReviewIsInside(settings, suggestions, added, categories, k, r);
    }
  }

  // ----- the shared sets and a round -----

  /** One more candidate: it goes to the one side or the other by what is known by then. */
  lemma SelectNext(terms: Terms, candidates: seq<string>, k: nat, now: Terms)
    requires k < |candidates| && KnownAfter(terms, candidates[..k], now)
    ensures Select(terms, candidates[..k + 1], !Known(now, candidates[k]))
        == Select(terms, candidates[..k], !Known(now, candidates[k])) + [candidates[k]]
    ensures Select(terms, candidates[..k + 1], Known(now, candidates[k]))
        == Select(terms, candidates[..k], Known(now, candidates[k]))
    ensures KnownAfter(terms, candidates[..k + 1], Remember(now, candidates[k]))
  {
    assert candidates[..k + 1][..k] == candidates[..k];
    assert candidates[..k + 1] == candidates[..k] + [candidates[k]];
    assert LastIsNew(terms, candidates[..k + 1]) == !Known(now, candidates[k]);
  }

  lemma NothingYet(terms: Terms, settings: Settings, suggestions: Option<map<string, string>>)
    ensures Select(terms, [], true) == Select(terms, [], false) == [] && KnownAfter(terms, [], terms)
    ensures Place(settings, suggestions, [], terms.categories) == Plan([], [], terms.categories)
  {}

  /** What is known does not depend on the categories. */
  lemma SameTerms(terms: Terms, candidates: seq<string>, now: Terms, also: Terms)
    requires KnownAfter(terms, candidates, now) && now.single == also.single && now.multi == also.multi
    ensures KnownAfter(terms, candidates, also)
  {
    forall c ensures Known(also, c) <==> Known(now, c) {}
  }

  /** Placing one more added candidate, as one iteration does it. */
  lemma PlaceNext(settings: Settings, suggestions: Option<map<string, string>>, added: seq<string>, candidate: string,
          categories: set<string>)
    ensures var before := Place(settings, suggestions, added, categories);
      var suggested := Suggestion(suggestions, settings, candidate);
      var (chosen, fallback, after) := ResolveCategory(settings, suggested, before.categories);
      Place(settings, suggestions, added + [candidate], categories)
      == Plan(before.toInsert + [(chosen, candidate)],
              before.reviews + if fallback && suggested != settings.autoAdd then [Review(candidate, suggested)] else [],
              after + {chosen})
  {}

  /** The shared, mutable sets. */
  class SharedTerms {
    var single: set<string>
    var multi: set<string>
    var categories: set<string>

    ghost function View(): Terms
      reads this
    {
      Terms(single, multi, categories)
    }

    constructor (terms: Terms)
      ensures View() == terms
    {
      single, multi, categories := terms.single, terms.multi, terms.categories;
    }

    /**
     One round over the candidates processed before the timeout: they split in order into added and already
     existing, are all known afterwards, and the added ones are placed under categories.
     */
    method SyncCandidates(candidates: seq<string>, suggestions: Option<map<string, string>>, settings: Settings,
            processed: nat)
      returns (added: seq<string>, existed: seq<string>, toInsert: seq<(string, string)>, reviews: seq<Review>)
      requires processed <= |candidates|
      modifies this
      ensures added == Select(old(View()), candidates[..processed], true)
      ensures existed == Select(old(View()), candidates[..processed], false)
      ensures KnownAfter(old(View()), candidates[..processed], View())
      ensures single == old(single) + set c | c in candidates[..processed] && ' ' !in c
      ensures multi == old(multi) + set c | c in candidates[..processed] && ' ' in c
      ensures Plan(toInsert, reviews, categories) == Place(settings, suggestions, added, old(categories))
    {
      hide ResolveCategory, Select, Place, KnownAfter, Suggestion;
      added, existed, toInsert, reviews := [], [], [], [];
      ghost var before := View();
      assert candidates[..0] == [];
      NothingYet(before, settings, suggestions);
      for k := 0 to processed
        invariant added == Select(before, candidates[..k], true)
        invariant existed == Select(before, candidates[..k], false)
        invariant KnownAfter(before, candidates[..k], View())
        invariant single == before.single + set c | c in candidates[..k] && ' ' !in c
        invariant multi == before.multi + set c | c in candidates[..k] && ' ' in c
        invariant Plan(toInsert, reviews, categories) == Place(settings, suggestions, added, before.categories)
      {
        var candidate := candidates[k];
        SelectNext(before, candidates, k, View());
        var exists_ := if HasSpace(candidate) then candidate in multi else candidate in single;
        if exists_ {
          existed := existed + [candidate];
          assert Remember(View(), candidate) == View();
          continue;
        }
        PlaceNext(settings, suggestions, added, candidate, before.categories);
        var suggested := Suggestion(suggestions, settings, candidate);
        var (chosen, fallback, categories') := ResolveCategory(settings, suggested, categories);
        if fallback && suggested != settings.autoAdd {
          reviews := reviews + [Review(candidate, suggested)];
        }
        toInsert := toInsert + [(chosen, candidate)];
        added := added + [candidate];
        ghost var now := View();
        if HasSpace(candidate) { multi := multi + {candidate}; } else { single := single + {candidate}; }
        categories := categories' + {chosen};
        SameTerms(before, candidates[..k + 1], Remember(now, candidate), View());
      }
    }
  }

  // ----- three rounds -----

  /** A round of a request: the candidates accepted for it and how many the timeout lets through. */
  datatype Round = Round(candidates: seq<string>, suggestions: Option<map<string, string>>, processed: nat)
  {
    function Processed(): seq<string>
      requires processed <= |candidates|
    {
      candidates[..processed]
    }
  }

  /** What three rounds add before the final `unique`: their lists one after the other. */
  function AddedInTurn(start: Terms, afterFirst: Terms, afterSecond: Terms,
                       first: seq<string>, second: seq<string>, third: seq<string>): seq<string>
  {
    Select(start, first, true) + Select(afterFirst, second, true) + Select(afterSecond, third, true)
  }

  /**
   Each round's additions are among what the rounds before it did not know, so no term is added twice over the
   three rounds, `unique` changes nothing, and the rounds add what one round over all candidates would.
   */
  lemma RoundsAreDisjoint(start: Terms, afterFirst: Terms, afterSecond: Terms,
                          first: seq<string>, second: seq<string>, third: seq<string>)
    requires KnownAfter(start, first, afterFirst) && KnownAfter(afterFirst, second, afterSecond)
    ensures var inTurn := AddedInTurn(start, afterFirst, afterSecond, first, second, third);
      && NoRepeats(inTurn) && Unique(inTurn) == inTurn
      && inTurn == Select(start, first + second + third, true)
  {
    RoundsCompose(start, first, afterFirst, second, true);
    RoundsCompose(start, first + second, afterSecond, third, true);
    SelectIsFresh(start, first + second + third);
    UniqueOfDistinct(Select(start, first + second + third, true));
  }

  /**
   The rounds of one request in direct mode (a pass that does not take place is a round without candidates).
   The ghost results are what is known after the first and after the second round: each round adds, in order,
   the candidates that are new by then, and the answer is these three lists as they stand.
   */
  method SyncRounds(terms: SharedTerms, settings: Settings, first: Round, second: Round, third: Round)
    returns (added: seq<string>, existed: seq<string>, ghost afterFirst: Terms, ghost afterSecond: Terms)
    requires first.processed <= |first.candidates| && second.processed <= |second.candidates|
    requires third.processed <= |third.candidates|
    modifies terms
    ensures KnownAfter(old(terms.View()), first.Processed(), afterFirst)
    ensures KnownAfter(afterFirst, second.Processed(), afterSecond)
    ensures KnownAfter(afterSecond, third.Processed(), terms.View())
    ensures added == AddedInTurn(old(terms.View()), afterFirst, afterSecond,
                                 first.Processed(), second.Processed(), third.Processed())
    ensures NoRepeats(added) && Unique(added) == added
    ensures var all := first.Processed() + second.Processed() + third.Processed();
      && added == Select(old(terms.View()), all, true)
      && existed == Unique(Select(old(terms.View()), all, false))
  {
    hide Select, Place, Unique, NoRepeats, KnownAfter;
    ghost var start := terms.View();
    ghost var p, q, r := first.Processed(), second.Processed(), third.Processed();
    var toInsert, reviews, more, moreExisted;
    added, existed, toInsert, reviews :=
      terms.SyncCandidates(first.candidates, first.suggestions, settings, first.processed);
    afterFirst := terms.View();

    more, moreExisted, toInsert, reviews :=
      terms.SyncCandidates(second.candidates, second.suggestions, settings, second.processed);
    added, existed := added + more, existed + moreExisted;
    afterSecond := terms.View();
    KnownInTurn(start, p, afterFirst, q, afterSecond);
    RoundsCompose(start, p, afterFirst, q, false);

    more, moreExisted, toInsert, reviews :=
      terms.SyncCandidates(third.candidates, third.suggestions, settings, third.processed);
    added, existed := added + more, existed + moreExisted;
    RoundsCompose(start, p + q, afterSecond, r, false);
    RoundsAreDisjoint(start, afterFirst, afterSecond, p, q, r);
    added, existed := Unique(added), Unique(existed);
  }

  lemma KnownInTurn(start: Terms, first: seq<string>, middle: Terms, second: seq<string>, end: Terms)
    requires KnownAfter(start, first, middle) && KnownAfter(middle, second, end)
    ensures KnownAfter(start, first + second, end)
  {}

  // ----- the category table of a pass -----

  /** One item of the raw table: a candidate as extracted, and its category. */
  datatype Hint = Hint(candidate: string, category: string)

  /** `canonicalize_candidate_categories`: the first category given for each non-empty canonical form. */
  function CanonicalTable(hints: seq<Hint>, canonical: string -> string, autoAdd: string): map<string, string> {
    if hints == [] then map[]
    else
      var table, last := CanonicalTable(hints[..|hints| - 1], canonical, autoAdd), hints[|hints| - 1];
      var form := canonical(last.candidate);
      if form == "" || form in table then table else table[form := CategoryOf(last, autoAdd)]
  }

  /** The trimmed category of an item, or the fallback. */
  function CategoryOf(hint: Hint, autoAdd: string): string {
    if Trim(hint.category) == "" then autoAdd else Trim(hint.category)
  }

  method CanonicalizeCandidateCategories(hints: seq<Hint>, canonical: string -> string, autoAdd: string)
    returns (table: map<string, string>)
    ensures table == CanonicalTable(hints, canonical, autoAdd)
  {
    table := map[];
    for n := 0 to |hints|
      invariant table == CanonicalTable(hints[..n], canonical, autoAdd)
    {
      assert hints[..n + 1][..n] == hints[..n];
      var form := canonical(hints[n].candidate);
      if form == "" { continue; }
      var category := Trim(hints[n].category);
      if category == "" { category := autoAdd; }
      if form !in table { table := table[form := category]; }
    }
    assert hints[..|hints|] == hints;
  }

  /** The keys are the non-empty canonical forms of the extracted candidates. */
  lemma {:induction false} CanonicalTableKeys(hints: seq<Hint>, canonical: string -> string, autoAdd: string,
          key: string)
    ensures key in CanonicalTable(hints, canonical, autoAdd)
      <==> key != "" && exists k :: 0 <= k < |hints| && canonical(hints[k].candidate) == key
  {
    hide Trim;
    if hints == [] {
    } else {
      var init, last := hints[..|hints| - 1], hints[|hints| - 1];
      CanonicalTableKeys(init, canonical, autoAdd, key);
      assert hints == init + [last];
    }
  }

  /** Item `k` is the first one with that canonical form. */
  ghost predicate IsFirst(hints: seq<Hint>, canonical: string -> string, key: string, k: nat) {
    && k < |hints| && canonical(hints[k].candidate) == key
    && forall j :: 0 <= j < k ==> canonical(hints[j].candidate) != key
  }

  /** The entry of a key is the category of the first item with that canonical form. */
  lemma {:induction false} CanonicalTableFirst(hints: seq<Hint>, canonical: string -> string, autoAdd: string,
          key: string, k: nat)
    requires key != "" && IsFirst(hints, canonical, key, k)
    ensures var table := CanonicalTable(hints, canonical, autoAdd);
      key in table && table[key] == CategoryOf(hints[k], autoAdd)
  {
    hide CategoryOf;
    var init := hints[..|hints| - 1];
    if k == |hints| - 1 {
      if key in CanonicalTable(init, canonical, autoAdd) { CanonicalTableKeys(init, canonical, autoAdd, key); }
    } else {
      CanonicalTableFirst(init, canonical, autoAdd, key, k);
    }
  }

  /** Every key of the table has such a first item. */
  lemma {:induction false} HasFirst(hints: seq<Hint>, canonical: string -> string, key: string, n: nat)
    requires n < |hints| && canonical(hints[n].candidate) == key
    ensures exists k :: IsFirst(hints, canonical, key, k)
  {
    if j: nat :| j < n && canonical(hints[j].candidate) == key {
      HasFirst(hints, canonical, key, j);
    } else {
      assert IsFirst(hints, canonical, key, n);
    }
  }

  lemma CategoryReads(hint: Hint, autoAdd: string)
    ensures Trim(hint.category) != "" ==> CategoryOf(hint, autoAdd) == Trim(hint.category)
    ensures Trim(hint.category) == "" ==> CategoryOf(hint, autoAdd) == autoAdd
  {}

  /** A key of the canonicalised table has the category of the first candidate with that form, or the fallback. */
  lemma FirstCategoryStands(hints: seq<Hint>, canonical: string -> string, autoAdd: string, key: string)
    requires key in CanonicalTable(hints, canonical, autoAdd)
    ensures exists k: nat ::
      && IsFirst(hints, canonical, key, k)
      && var category, entry := Trim(hints[k].category), CanonicalTable(hints, canonical, autoAdd)[key];
        (category != "" ==> entry == category) && (category == "" ==> entry == autoAdd)
  {
    hide CategoryOf, CanonicalTable, Trim;
    CanonicalTableKeys(hints, canonical, autoAdd, key);
    var n: nat :| n < |hints| && canonical(hints[n].candidate) == key;
    HasFirst(hints, canonical, key, n);
    var k: nat :| IsFirst(hints, canonical, key, k);
    CanonicalTableFirst(hints, canonical, autoAdd, key, k);
    CategoryReads(hints[k], autoAdd);
  }

  // ----- partition -----

  /** The canonical form, the admission rule on a form and a suggestion, and the category table of a pass. */
  datatype Sieve = Sieve(canonical: string -> string, rule: (string, string) -> bool,
          table: Option<map<string, string>>)

  function Lookup(table: Option<map<string, string>>, key: string): string {
    if table.Some? && key in table.value then table.value[key] else ""
  }

  /** The entry of the candidate itself, or else of its canonical form, trimmed. */
  function Suggested(sieve: Sieve, candidate: string): string {
    var own := Lookup(sieve.table, candidate);
    Trim(if own != "" then own else Lookup(sieve.table, sieve.canonical(candidate)))
  }

  /** An entry of the candidate's own counts before one of its canonical form; an empty entry is none. */
  lemma SuggestedInWords(sieve: Sieve, candidate: string)
    requires sieve.table.Some?
    ensures var table, form, s := sieve.table.value, sieve.canonical(candidate), Suggested(sieve, candidate);
      && (candidate in table && table[candidate] != "" ==> s == Trim(table[candidate]))
      && ((candidate !in table || table[candidate] == "") && form in table ==> s == Trim(table[form]))
      && ((candidate !in table || table[candidate] == "") && form !in table ==> s == "")
  {}

  predicate Admits(sieve: Sieve, candidate: string) {
    sieve.rule(sieve.canonical(candidate), Suggested(sieve, candidate))
  }

  /** The non-empty canonical forms of the candidates that are admitted (or that are refused), in order. */
  function Forms(candidates: seq<string>, sieve: Sieve, admitted: bool): seq<string> {
    if candidates == [] then []
    else
      var init, last := candidates[..|candidates| - 1], candidates[|candidates| - 1];
      Forms(init, sieve, admitted)
      + if sieve.canonical(last) != "" && Admits(sieve, last) == admitted then [sieve.canonical(last)] else []
  }

  lemma {:induction false} FormsAre(candidates: seq<string>, sieve: Sieve, admitted: bool, c: string)
    ensures c in Forms(candidates, sieve, admitted)
      <==> c != "" && exists k :: (0 <= k < |candidates| && sieve.canonical(candidates[k]) == c
                                   && Admits(sieve, candidates[k]) == admitted)
  {
    hide Admits;
    if candidates == [] {
    } else {
      var init, last := candidates[..|candidates| - 1], candidates[|candidates| - 1];
      FormsAre(init, sieve, admitted, c);
      assert candidates == init + [last];
    }
  }

  /**
   `partition_sync_candidates`: the distinct non-empty canonical forms that some candidate has admitted, and
   those that some candidate has refused, in order of first appearance; no form is on both lists when the
   entries of the table agree.
   */
  method PartitionSyncCandidates(candidates: seq<string>, sieve: Sieve)
    returns (accepted: seq<string>, rejected: seq<string>)
    ensures accepted == Unique(Forms(candidates, sieve, true))
    ensures rejected == Unique(Forms(candidates, sieve, false))
    ensures EntriesAgree(sieve) ==> forall form :: !(form in accepted && form in rejected)
  {
    if EntriesAgree(sieve) { AgreementSplits(sieve, candidates); }
    accepted, rejected := [], [];
    assert candidates[..0] == [];
    assert Unique(Forms([], sieve, true)) == Unique(Forms([], sieve, false)) == [];
    hide Unique, Forms, EntriesAgree;
    for n := 0 to |candidates|
      invariant accepted == Unique(Forms(candidates[..n], sieve, true))
      invariant rejected == Unique(Forms(candidates[..n], sieve, false))
    {
      var form := sieve.canonical(candidates[n]);
      PartitionNext(candidates, n, sieve, true);
      PartitionNext(candidates, n, sieve, false);
      if form == "" { continue; }
      var suggested := "";
      if sieve.table.Some? {
        var own := if candidates[n] in sieve.table.value then sieve.table.value[candidates[n]] else "";
        var general := if form in sieve.table.value then sieve.table.value[form] else "";
        suggested := Trim(if own != "" then own else general);
      }
      assert suggested == Suggested(sieve, candidates[n]);
      if sieve.rule(form, suggested) {
        if form !in accepted { accepted := accepted + [form]; }
      } else {
        if form !in rejected { rejected := rejected + [form]; }
      }
    }
    assert candidates[..|candidates|] == candidates;
  }

  lemma PartitionNext(candidates: seq<string>, n: nat, sieve: Sieve, side: bool)
    requires n < |candidates|
    ensures var form, u := sieve.canonical(candidates[n]), Unique(Forms(candidates[..n], sieve, side));
      Unique(Forms(candidates[..n + 1], sieve, side))
      == if form != "" && Admits(sieve, candidates[n]) == side && form !in u then u + [form] else u
  {
    hide Admits;
    assert candidates[..n + 1][..n] == candidates[..n];
    var items, form := Forms(candidates[..n], sieve, side), sieve.canonical(candidates[n]);
    assert candidates[..n + 1][n] == candidates[n];
    if form != "" && Admits(sieve, candidates[n]) == side {
      assert (items + [form])[..|items|] == items;
      assert Forms(candidates[..n + 1], sieve, side) == items + [form];
    } else {
      assert Forms(candidates[..n + 1], sieve, side) == items;
    }
  }

  // ----- when the two lists are disjoint -----

  ghost predicate Splits(sieve: Sieve, candidates: seq<string>) {
    forall form :: !(form in Unique(Forms(candidates, sieve, true)) && form in Unique(Forms(candidates, sieve, false)))
  }

  /** An entry of the table leads to the same verdict as the entry of its key's canonical form. */
  ghost predicate EntriesAgree(sieve: Sieve) {
    forall key :: Lookup(sieve.table, key) != "" && sieve.canonical(key) != "" ==>
      sieve.rule(sieve.canonical(key), Trim(Lookup(sieve.table, key)))
      == sieve.rule(sieve.canonical(key), Trim(Lookup(sieve.table, sieve.canonical(key))))
  }

  /** The verdict then depends on the form alone. */
  lemma VerdictByForm(sieve: Sieve, candidate: string)
    requires EntriesAgree(sieve) && sieve.canonical(candidate) != ""
    ensures Admits(sieve, candidate)
         == sieve.rule(sieve.canonical(candidate), Trim(Lookup(sieve.table, sieve.canonical(candidate))))
  {
    hide Trim, Lookup;
  }

  lemma AgreementSplits(sieve: Sieve, candidates: seq<string>)
    requires EntriesAgree(sieve)
    ensures Splits(sieve, candidates)
  {
    hide Admits, EntriesAgree, Forms, Unique;
    forall form
      ensures !(form in Unique(Forms(candidates, sieve, true)) && form in Unique(Forms(candidates, sieve, false)))
    {
      UniqueKeeps(Forms(candidates, sieve, true));
      UniqueKeeps(Forms(candidates, sieve, false));
      FormsAre(candidates, sieve, true, form);
      FormsAre(candidates, sieve, false, form);
      forall c | c in candidates && sieve.canonical(c) == form != ""
        ensures Admits(sieve, c) == sieve.rule(form, Trim(Lookup(sieve.table, form)))
      {
        VerdictByForm(sieve, c);
      }
    }
  }

  /** Two candidates of one form with different verdicts put it on both lists. */
  lemma DisagreementShows(sieve: Sieve, x: string, y: string)
    requires sieve.canonical(x) == sieve.canonical(y) != "" && Admits(sieve, x) != Admits(sieve, y)
    ensures !Splits(sieve, [x, y])
  {
    hide Admits, Forms, Unique;
    var form, candidates := sieve.canonical(x), [x, y];
    UniqueKeeps(Forms(candidates, sieve, true));
    UniqueKeeps(Forms(candidates, sieve, false));
    FormsAre(candidates, sieve, true, form);
    FormsAre(candidates, sieve, false, form);
    assert candidates[0] == x && candidates[1] == y;
  }

  function Padded(c: string, n: nat): (r: string)
    ensures |r| == n + |c|
  {
    if n == 0 then c else " " + Padded(c, n - 1)
  }

  lemma {:induction false} PaddedIsSame(sieve: Sieve, c: string, n: nat)
    requires forall s :: sieve.canonical(" " + s) == sieve.canonical(s)
    ensures sieve.canonical(Padded(c, n)) == sieve.canonical(c)
  {
    if n == 0 {
    } else {
      PaddedIsSame(sieve, c, n - 1);
    }
  }

  lemma {:induction false} LengthBound(keys: set<string>) returns (n: nat)
    ensures forall key :: key in keys ==> |key| <= n
  {
    if keys == {} {
      n := 0;
    } else {
      var key :| key in keys;
      var rest := LengthBound(keys - {key});
      n := Max(rest, |key|);
    }
  }

  /** A table is finite, so every form has a spelling without an entry of its own. */
  lemma UnlistedSpelling(sieve: Sieve, key: string) returns (plain: string)
    requires forall s :: sieve.canonical(" " + s) == sieve.canonical(s)
    ensures sieve.canonical(plain) == sieve.canonical(key) && Lookup(sieve.table, plain) == ""
  {
    var n := 0;
    if sieve.table.Some? { n := LengthBound(sieve.table.value.Keys); }
    plain := Padded(key, n + 1);
    PaddedIsSame(sieve, key, n + 1);
  }

  /**
   The two lists are disjoint for every candidate list if and only if the entries agree. Canonical forms ignore
   blanks in front, as the source's do.
   */
  lemma SplitsIff(sieve: Sieve)
    requires forall s :: sieve.canonical(" " + s) == sieve.canonical(s)
    ensures (forall candidates :: Splits(sieve, candidates)) <==> EntriesAgree(sieve)
  {
    if EntriesAgree(sieve) {
      hide Splits, EntriesAgree;
      forall candidates ensures Splits(sieve, candidates) { AgreementSplits(sieve, candidates); }
    } else {
      hide Splits, Trim, Lookup;
      var key :| && Lookup(sieve.table, key) != "" && sieve.canonical(key) != ""
                 && sieve.rule(sieve.canonical(key), Trim(Lookup(sieve.table, key)))
                    != sieve.rule(sieve.canonical(key), Trim(Lookup(sieve.table, sieve.canonical(key))));
      var plain := UnlistedSpelling(sieve, key);
      DisagreementShows(sieve, key, plain);
    }
  }

  /** A raw table can fail: with an entry for `In` only, `In` is admitted as a particle and `in` is refused. */
  lemma RawTableFails(sieve: Sieve)
    requires sieve.table == Some(map["In" := "Particle"])
    requires sieve.canonical("In") == sieve.canonical("in") == "in"
    requires sieve.rule("in", "Particle") && !sieve.rule("in", "")
    ensures !Splits(sieve, ["In", "in"])
  {
    assert Trim("Particle") == "Particle" && Trim("") == "";
    DisagreementShows(sieve, "In", "in");
  }

  /** What `allow_auto_add` asks about a form: the suggestion counts only for a word on the blocklist. */
  datatype Admission = Admission(proper: string -> bool, blocked: string -> bool, stopword: (string, string) -> bool)

  /**
   At the call sites the table is canonicalised first. Blocked terms are single words, and a canonical form that
   is a single word is its own canonical form (for phrases it need not be: the verb head may change again). So
   the entries agree, and the two lists are disjoint for every candidate list.
   */
  lemma CallSitesSplit(sieve: Sieve, a: Admission, hints: seq<Hint>, autoAdd: string, candidates: seq<string>)
    requires sieve.table == None || sieve.table == Some(CanonicalTable(hints, sieve.canonical, autoAdd))
    requires forall form, suggested :: sieve.rule(form, suggested) <==>
      a.proper(form) && (!a.blocked(form) || a.stopword(form, suggested))
    requires forall form :: a.blocked(form) ==> !HasSpace(form)
    requires forall c ::
      !HasSpace(sieve.canonical(sieve.canonical(c))) ==> sieve.canonical(sieve.canonical(c)) == sieve.canonical(c)
    ensures EntriesAgree(sieve) && Splits(sieve, candidates)
  {
    hide Trim, CanonicalTable, Splits;
    forall key | Lookup(sieve.table, key) != "" && sieve.canonical(key) != ""
      ensures sieve.rule(sieve.canonical(key), Trim(Lookup(sieve.table, key)))
           == sieve.rule(sieve.canonical(key), Trim(Lookup(sieve.table, sieve.canonical(key))))
    {
      CanonicalTableKeys(hints, sieve.canonical, autoAdd, key);
      assert HasSpace(sieve.canonical(key)) || sieve.canonical(key) == key;
    }
    assert EntriesAgree(sieve);
    AgreementSplits(sieve, candidates);
  }
}
