/**
 Detection of multi-word expressions: contiguous phrases at every start, separable verbs with their particle,
 and the overlap resolution over both.
 */
module MweDetection {
  import opened Common
  import opened Text
  import opened Sorting
  import opened Overlaps

  /** `dep` and `pos` are taken stripped and in one case; `children` are the token's syntactic children. */
  datatype Token = Token(lower: string, lemmaText: string, pos: string, dep: string, start: int, end: int,
          children: seq<int>)

  datatype Expression = Expression(id: int, expressionType: string, isSeparable: bool, maxGap: int)

  /** One item of each index. */
  datatype Phrase = Phrase(words: seq<string>, ids: seq<int>)
  datatype Verb = Verb(verb: string, particle: string, ids: seq<int>)

  datatype Settings = Settings(maxGap: int, wordnetThreshold: real, trfThreshold: real,
                               wordnet: (Token, Token, Expression) -> real, trf: (Token, Token, Expression) -> real)

  function LemmaOf(t: Token): string { if t.lemmaText != "" then t.lemmaText else t.lower }

  function MaxReal(a: real, b: real): real { if a >= b then a else b }

  function Build(tokens: seq<Token>, i: int, j: int, last: Token, e: Expression, source: string, score: real,
          boosted: bool): Candidate
    requires 0 <= i < |tokens|
  {
    var spanEnd := if last.end < tokens[i].start then tokens[i].start else last.end;
    Candidate(e.id, e.expressionType, e.isSeparable, tokens[i].start, spanEnd, i, j, MaxReal(0.0, score), boosted,
        source)
  }

  /** A place where an expression has been found: its first and last token, and its key in the table. */
  datatype Spot = Spot(start: int, end: int, id: int)

  // ----- one candidate for each expression and interval -----

  function Marker(c: Candidate): (int, int, int) { (c.expressionId, c.tokenStart, c.tokenEnd) }

  predicate Marked(found: seq<Candidate>, c: Candidate) {
    exists k :: 0 <= k < |found| && Marker(found[k]) == Marker(c)
  }

  /** The first candidate of each marker, in order. */
  function Once(hits: seq<Candidate>): seq<Candidate> {
    if hits == [] then []
    else
      var init, last := Once(hits[..|hits| - 1]), hits[|hits| - 1];
      if Marked(init, last) then init else init + [last]
  }

  ghost predicate OnePerMarker(found: seq<Candidate>) {
    forall i, j :: 0 <= i < j < |found| ==> Marker(found[i]) != Marker(found[j])
  }

  lemma {:induction false} OnceIs(hits: seq<Candidate>)
    ensures forall c :: c in Once(hits) ==> c in hits
    ensures forall c :: c in hits ==> Marked(Once(hits), c)
    ensures OnePerMarker(Once(hits))
  {
    if hits == [] {
    } else {
      var init, last := hits[..|hits| - 1], hits[|hits| - 1];
      OnceIs(init);
      assert hits == init + [last];
      forall c | Marked(Once(init), c) ensures Marked(Once(hits), c) {
        var k :| 0 <= k < |Once(init)| && Marker(Once(init)[k]) == Marker(c);
        assert Once(hits)[k] == Once(init)[k];
      }
      if !Marked(Once(init), last) { assert Once(hits)[|Once(hits)| - 1] == last; }
    }
  }

  lemma OnceNext(hits: seq<Candidate>, c: Candidate)
    ensures Once(hits + [c]) == if Marked(Once(hits), c) then Once(hits) else Once(hits) + [c]
  {
    assert (hits + [c])[..|hits|] == hits;
  }

  // ----- contiguous phrases -----

  function Get(index: seq<Phrase>, words: seq<string>): seq<int> {
    if index == [] then []
    else if index[0].words == words then index[0].ids
    else Get(index[1..], words)
  }

  function LengthsOf(index: seq<Phrase>): (r: seq<nat>)
    ensures |r| == |index| && forall k :: 0 <= k < |r| ==> r[k] == |index[k].words|
  {
    if index == [] then [] else [|index[0].words|] + LengthsOf(index[1..])
  }

  /** `sorted({len(key) ...}, reverse=True)` */
  function Lengths(index: seq<Phrase>): seq<nat> { StableSort((a: nat, b: nat) => a >= b, Unique(LengthsOf(index))) }

  function Lowers(tokens: seq<Token>): (r: seq<string>)
    ensures |r| == |tokens|
  {
    if tokens == [] then [] else [tokens[0].lower] + Lowers(tokens[1..])
  }

  function Lemmas(tokens: seq<Token>): (r: seq<string>)
    ensures |r| == |tokens|
  {
    if tokens == [] then [] else [LemmaOf(tokens[0])] + Lemmas(tokens[1..])
  }

  /** The expressions stored for the words or for the lemmas of an interval, each once, in ascending order. */
  function IdsAt(index: seq<Phrase>, tokens: seq<Token>, start: nat, length: nat): seq<int>
    requires start + length <= |tokens|
  {
    var key, lemmaKey := Lowers(tokens)[start..start + length], Lemmas(tokens)[start..start + length];
    StableSort((a: int, b: int) => a <= b,
        Unique(Get(index, key) + if lemmaKey != key then Get(index, lemmaKey) else []))
  }

  /** The hit of a stored phrase; for an empty phrase at the first token, `tokens[end - 1]` is the last token. */
  function PhraseHit(tokens: seq<Token>, expressions: map<int, Expression>, s: Spot): Candidate
    requires 0 <= s.start < |tokens| && -1 <= s.end < |tokens| && s.id in expressions
  {
    var last := if s.end == -1 then tokens[|tokens| - 1] else tokens[s.end];
    Build(tokens, s.start, s.end, last, expressions[s.id], "second_pass_spacy", 0.0, false)
  }

  /** The expression is in the table and is stored for the words or for the lemmas of the interval. */
  ghost predicate IsPhraseAt(tokens: seq<Token>, expressions: map<int, Expression>, index: seq<Phrase>, s: Spot) {
    && 0 <= s.start < |tokens| && s.start - 1 <= s.end < |tokens|
    && s.id in expressions
    && (s.id in Get(index, Lowers(tokens)[s.start..s.end + 1])
        || s.id in Get(index, Lemmas(tokens)[s.start..s.end + 1]))
  }

  ghost predicate AllPhrases(tokens: seq<Token>, expressions: map<int, Expression>, index: seq<Phrase>,
          spots: seq<Spot>) {
    forall k :: 0 <= k < |spots| ==> IsPhraseAt(tokens, expressions, index, spots[k])
  }

  ghost function PhraseHits(tokens: seq<Token>, expressions: map<int, Expression>, index: seq<Phrase>,
          spots: seq<Spot>): seq<Candidate>
    requires AllPhrases(tokens, expressions, index, spots)
  {
    seq(|spots|, k requires 0 <= k < |spots| => PhraseHit(tokens, expressions, spots[k]))
  }

  lemma {:induction false} GetHasLength(index: seq<Phrase>, words: seq<string>)
    requires Get(index, words) != []
    ensures |words| in Lengths(index)
  {
    if index[0].words == words {
      assert LengthsOf(index)[0] == |words|;
    } else {
      GetHasLength(index[1..], words);
      UniqueKeeps(LengthsOf(index[1..]));
      var rest := LengthsOf(index[1..]);
      assert forall k :: 0 <= k < |rest| ==> LengthsOf(index)[k + 1] == rest[k];
    }
    UniqueKeeps(LengthsOf(index));
  }

  /** The expressions looked up for an interval are the ones stored for it. */
  lemma IdsAre(tokens: seq<Token>, expressions: map<int, Expression>, index: seq<Phrase>, s: Spot)
    requires 0 <= s.start < |tokens| && s.start - 1 <= s.end < |tokens|
    ensures s.id in IdsAt(index, tokens, s.start, s.end + 1 - s.start) && s.id in expressions
        <==> IsPhraseAt(tokens, expressions, index, s)
  {
    hide Get, Unique, StableSort, NoRepeats, Lowers, Lemmas;
    var key, lemmaKey := Lowers(tokens)[s.start..s.end + 1], Lemmas(tokens)[s.start..s.end + 1];
    UniqueKeeps(Get(index, key) + if lemmaKey != key then Get(index, lemmaKey) else []);
  }

  /** The length of a stored phrase is among the lengths searched. */
  lemma LengthIsSearched(tokens: seq<Token>, expressions: map<int, Expression>, index: seq<Phrase>, s: Spot)
    requires IsPhraseAt(tokens, expressions, index, s)
    ensures s.end + 1 - s.start in Lengths(index)
  {
    hide Get, Lengths, Lowers, Lemmas;
    var key, lemmaKey := Lowers(tokens)[s.start..s.end + 1], Lemmas(tokens)[s.start..s.end + 1];
    if s.id in Get(index, key) { GetHasLength(index, key); } else { GetHasLength(index, lemmaKey); }
  }

  /** The search has come past the spot: an earlier start, a length that is done, or an id that is done. */
  predicate Passed(s: Spot, start: nat, lengths: seq<nat>, length: nat, ids: seq<int>) {
    || s.start < start
    || (s.start == start && (s.end + 1 - start in lengths || (s.end + 1 - start == length && s.id in ids)))
  }

  /** The spots found so far are the stored phrases that the search has come past. */
  ghost predicate Covered(tokens: seq<Token>, expressions: map<int, Expression>, index: seq<Phrase>, spots: seq<Spot>,
                          start: nat, lengths: seq<nat>, length: nat, ids: seq<int>) {
    forall s :: s in spots <==> IsPhraseAt(tokens, expressions, index, s) && Passed(s, start, lengths, length, ids)
  }

  lemma CoveredNextId(tokens: seq<Token>, expressions: map<int, Expression>, index: seq<Phrase>, spots: seq<Spot>,
                      start: nat, lengths: seq<nat>, length: nat, ids: seq<int>, k: nat)
    requires start < |tokens| && start + length <= |tokens| && ids == IdsAt(index, tokens, start, length) && k < |ids|
    requires Covered(tokens, expressions, index, spots, start, lengths, length, ids[..k])
    ensures var spot := Spot(start, start + length - 1, ids[k]);
      && IsPhraseAt(tokens, expressions, index, spot) == (ids[k] in expressions)
      && Covered(tokens, expressions, index, if ids[k] in expressions then spots + [spot] else spots,
                 start, lengths, length, ids[..k + 1])
  {
    hide IsPhraseAt, IdsAt;
    var spot := Spot(start, start + length - 1, ids[k]);
    IdsAre(tokens, expressions, index, spot);
    assert ids[..k + 1] == ids[..k] + [ids[k]];
    forall s
      ensures Passed(s, start, lengths, length, ids[..k + 1])
         <==> Passed(s, start, lengths, length, ids[..k]) || s == spot
    {}
    hide Passed;
  }

  /** All ids of a length are done, or the length does not fit any more. */
  lemma CoveredNextLength(tokens: seq<Token>, expressions: map<int, Expression>, index: seq<Phrase>, spots: seq<Spot>,
                          start: nat, lengths: seq<nat>, n: nat, ids: seq<int>)
    requires start < |tokens| && n < |lengths|
    requires if start + lengths[n] <= |tokens| then ids == IdsAt(index, tokens, start, lengths[n]) else ids == []
    requires Covered(tokens, expressions, index, spots, start, lengths[..n], lengths[n], ids)
    ensures Covered(tokens, expressions, index, spots, start, lengths[..n + 1], 0, [])
  {
    hide IdsAt;
    assert lengths[..n + 1] == lengths[..n] + [lengths[n]];
    forall s | IsPhraseAt(tokens, expressions, index, s)
      ensures Passed(s, start, lengths[..n + 1], 0, []) <==> Passed(s, start, lengths[..n], lengths[n], ids)
    {
      IdsAre(tokens, expressions, index, s);
    }
    hide Passed, IsPhraseAt;
  }

  lemma CoveredNextStart(tokens: seq<Token>, expressions: map<int, Expression>, index: seq<Phrase>, spots: seq<Spot>,
          start: nat)
    requires Covered(tokens, expressions, index, spots, start, Lengths(index), 0, [])
    ensures Covered(tokens, expressions, index, spots, start + 1, [], 0, [])
  {
    hide IsPhraseAt, Lengths;
    forall s | IsPhraseAt(tokens, expressions, index, s)
      ensures Passed(s, start + 1, [], 0, []) <==> Passed(s, start, Lengths(index), 0, [])
    {
      LengthIsSearched(tokens, expressions, index, s);
    }
    hide Passed;
  }

  lemma CoveredEnds(tokens: seq<Token>, expressions: map<int, Expression>, index: seq<Phrase>, spots: seq<Spot>)
    ensures Covered(tokens, expressions, index, [], 0, [], 0, [])
    ensures Covered(tokens, expressions, index, spots, |tokens|, [], 0, []) ==>
      forall s :: s in spots <==> IsPhraseAt(tokens, expressions, index, s)
  {
    hide Get, Lowers, Lemmas;
  }

  lemma PhraseHitsNext(tokens: seq<Token>, expressions: map<int, Expression>, index: seq<Phrase>, spots: seq<Spot>,
          spot: Spot)
    requires AllPhrases(tokens, expressions, index, spots) && IsPhraseAt(tokens, expressions, index, spot)
    ensures AllPhrases(tokens, expressions, index, spots + [spot])
    ensures var hits := PhraseHits(tokens, expressions, index, spots);
      var hit := PhraseHit(tokens, expressions, spot);
      && PhraseHits(tokens, expressions, index, spots + [spot]) == hits + [hit]
      && Once(hits + [hit]) == if Marked(Once(hits), hit) then Once(hits) else Once(hits) + [hit]
  {}

  lemma CoveredIdle(tokens: seq<Token>, expressions: map<int, Expression>, index: seq<Phrase>, spots: seq<Spot>,
                    start: nat, lengths: seq<nat>, length: nat)
    requires Covered(tokens, expressions, index, spots, start, lengths, 0, [])
    ensures Covered(tokens, expressions, index, spots, start, lengths, length, [])
  {}

  /** What the search holds: the hits of the spots it has come past, each expression once per interval. */
  ghost predicate Searched(tokens: seq<Token>, expressions: map<int, Expression>, index: seq<Phrase>,
          found: seq<Candidate>, spots: seq<Spot>,
                           start: nat, lengths: seq<nat>, length: nat, ids: seq<int>) {
    && Covered(tokens, expressions, index, spots, start, lengths, length, ids)
    && AllPhrases(tokens, expressions, index, spots)
    && found == Once(PhraseHits(tokens, expressions, index, spots))
  }

  lemma NothingSearched(tokens: seq<Token>, expressions: map<int, Expression>, index: seq<Phrase>)
    ensures Searched(tokens, expressions, index, [], [], 0, [], 0, [])
  {}

  /** The expressions stored for one interval. */
  method DetectAt(tokens: seq<Token>, expressions: map<int, Expression>, index: seq<Phrase>, found0: seq<Candidate>,
          ghost spots0: seq<Spot>,
                  start: nat, ghost lengths: seq<nat>, length: nat)
    returns (found: seq<Candidate>, ghost spots: seq<Spot>)
    requires start < |tokens| && start + length <= |tokens|
    requires Searched(tokens, expressions, index, found0, spots0, start, lengths, length, [])
    ensures Searched(tokens, expressions, index, found, spots, start, lengths, length,
        IdsAt(index, tokens, start, length))
  {
    hide IsPhraseAt, IdsAt, Once, PhraseHit, Marked, Covered, AllPhrases, PhraseHits;
    found, spots := found0, spots0;
    var ids := IdsAt(index, tokens, start, length);
    assert ids[..0] == [];
    for k := 0 to |ids|
      invariant Searched(tokens, expressions, index, found, spots, start, lengths, length, ids[..k])
    {
      CoveredNextId(tokens, expressions, index, spots, start, lengths, length, ids, k);
      if ids[k] !in expressions { continue; }
      var candidate := PhraseHit(tokens, expressions, Spot(start, start + length - 1, ids[k]));
      PhraseHitsNext(tokens, expressions, index, spots, Spot(start, start + length - 1, ids[k]));
      spots := spots + [Spot(start, start + length - 1, ids[k])];
      if !Marked(found, candidate) { found := found + [candidate]; }
    }
    assert ids[..|ids|] == ids;
  }

  /** The phrases that begin at one token, longest first. */
  method DetectFrom(tokens: seq<Token>, expressions: map<int, Expression>, index: seq<Phrase>, found0: seq<Candidate>,
          ghost spots0: seq<Spot>,
                    start: nat, lengths: seq<nat>)
    returns (found: seq<Candidate>, ghost spots: seq<Spot>)
    requires start < |tokens|
    requires Searched(tokens, expressions, index, found0, spots0, start, [], 0, [])
    ensures Searched(tokens, expressions, index, found, spots, start, lengths, 0, [])
  {
    hide IdsAt, Covered, AllPhrases, PhraseHits;
    found, spots := found0, spots0;
    assert lengths[..0] == [];
    for n := 0 to |lengths|
      invariant Searched(tokens, expressions, index, found, spots, start, lengths[..n], 0, [])
    {
      CoveredIdle(tokens, expressions, index, spots, start, lengths[..n], lengths[n]);
      if start + lengths[n] > |tokens| {
        CoveredNextLength(tokens, expressions, index, spots, start, lengths, n, []);
        continue;
      }
      found, spots := DetectAt(tokens, expressions, index, found, spots, start, lengths[..n], lengths[n]);
      CoveredNextLength(tokens, expressions, index, spots, start, lengths, n, IdsAt(index, tokens, start, lengths[n]));
    }
    assert lengths[..|lengths|] == lengths;
  }

  ghost predicate IsPhraseHit(tokens: seq<Token>, expressions: map<int, Expression>, phrases: seq<Phrase>,
          c: Candidate) {
    exists s :: IsPhraseAt(tokens, expressions, phrases, s) && c == PhraseHit(tokens, expressions, s)
  }

  lemma ContiguousIs(tokens: seq<Token>, expressions: map<int, Expression>, index: seq<Phrase>, spots: seq<Spot>)
    requires AllPhrases(tokens, expressions, index, spots)
    requires forall s :: s in spots <==> IsPhraseAt(tokens, expressions, index, s)
    ensures var found := Once(PhraseHits(tokens, expressions, index, spots));
      && (forall c :: c in found ==> IsPhraseHit(tokens, expressions, index, c))
      && (forall s :: IsPhraseAt(tokens, expressions, index, s) ==> Marked(found, PhraseHit(tokens, expressions, s)))
      && OnePerMarker(found)
  {
    var hits := PhraseHits(tokens, expressions, index, spots);
    OnceIs(hits);
    hide Get, Lowers, Lemmas, PhraseHit, Once, Marked, OnePerMarker;
    forall c | c in Once(hits) ensures IsPhraseHit(tokens, expressions, index, c) {
      var m :| 0 <= m < |hits| && hits[m] == c;
      assert IsPhraseAt(tokens, expressions, index, spots[m]);
    }
    forall s | IsPhraseAt(tokens, expressions, index, s) ensures Marked(Once(hits), PhraseHit(tokens, expressions, s)) {
      var n :| 0 <= n < |spots| && spots[n] == s;
      assert hits[n] == PhraseHit(tokens, expressions, s);
    }
  }

  /** The candidate is of the expression and of the tokens from `i` to `j`. */
  ghost predicate IsOf(tokens: seq<Token>, i: int, j: int, e: Expression, c: Candidate) {
    && 0 <= i < |tokens| && 0 <= j < |tokens|
    && c.expressionId == e.id && c.expressionType == e.expressionType && c.isSeparable == e.isSeparable
    && c.tokenStart == i && c.tokenEnd == j && c.spanStart == tokens[i].start
    && (tokens[j].end >= tokens[i].start ==> c.spanEnd == tokens[j].end)
    && (tokens[j].end < tokens[i].start ==> c.spanEnd == tokens[i].start)
  }

  /** The tokens from `start` on are these words, */
  ghost predicate HasWords(tokens: seq<Token>, start: int, words: seq<string>) {
    0 <= start <= start + |words| <= |tokens|
    && forall k :: 0 <= k < |words| ==> words[k] == tokens[start + k].lower
  }

  /** or have them as lemmas; a token without a lemma counts as its own. */
  ghost predicate HasLemmas(tokens: seq<Token>, start: int, words: seq<string>) {
    0 <= start <= start + |words| <= |tokens|
    && forall k :: 0 <= k < |words| ==>
         words[k] == if tokens[start + k].lemmaText == "" then tokens[start + k].lower else tokens[start + k].lemmaText
  }

  /** A phrase stored for the expression is spelled by the words of the interval, or by their lemmas. */
  ghost predicate PhraseReads(tokens: seq<Token>, expressions: map<int, Expression>, index: seq<Phrase>, s: Spot) {
    && 0 <= s.start <= s.end < |tokens| && s.id in expressions
    && exists phrase :: phrase in index && s.id in phrase.ids && |phrase.words| == s.end + 1 - s.start
         && (HasWords(tokens, s.start, phrase.words) || HasLemmas(tokens, s.start, phrase.words))
  }

  /** The index has one item for each phrase. */
  ghost predicate OneItemEach(index: seq<Phrase>) {
    forall m, n :: 0 <= m < n < |index| ==> index[m].words != index[n].words
  }

  lemma {:induction false} LowersAre(tokens: seq<Token>, k: nat)
    requires k < |tokens|
    ensures Lowers(tokens)[k] == tokens[k].lower
    ensures Lemmas(tokens)[k] == if tokens[k].lemmaText == "" then tokens[k].lower else tokens[k].lemmaText
  {
    if k == 0 {
    } else {
      LowersAre(tokens[1..], k - 1);
    }
  }

  lemma {:induction false} GetFinds(index: seq<Phrase>, words: seq<string>, id: int)
    ensures id in Get(index, words) ==> exists phrase :: phrase in index && phrase.words == words && id in phrase.ids
    ensures OneItemEach(index) && (exists phrase :: phrase in index && phrase.words == words && id in phrase.ids)
        ==> id in Get(index, words)
  {
    if index == [] {
    } else {
      GetFinds(index[1..], words, id);
      assert forall phrase :: phrase in index <==> phrase == index[0] || phrase in index[1..];
      if OneItemEach(index) {
        assert OneItemEach(index[1..]);
        assert forall m :: 0 <= m < |index[1..]| ==> index[1..][m].words != index[0].words;
      }
    }
  }

  lemma LowersSpell(tokens: seq<Token>, start: nat, end: nat, words: seq<string>)
    requires start < end <= |tokens|
    ensures words == Lowers(tokens)[start..end] <==> |words| == end - start && HasWords(tokens, start, words)
  {
    var slice := Lowers(tokens)[start..end];
    forall k | 0 <= k < end - start ensures slice[k] == tokens[start + k].lower { LowersAre(tokens, start + k); }
    hide Lowers;
    if |words| == end - start && HasWords(tokens, start, words) {
      assert forall k :: 0 <= k < |words| ==> words[k] == slice[k];
    }
  }

  lemma LemmasSpell(tokens: seq<Token>, start: nat, end: nat, words: seq<string>)
    requires start < end <= |tokens|
    ensures words == Lemmas(tokens)[start..end] <==> |words| == end - start && HasLemmas(tokens, start, words)
  {
    var slice := Lemmas(tokens)[start..end];
    forall k | 0 <= k < end - start
      ensures slice[k]
           == if tokens[start + k].lemmaText == "" then tokens[start + k].lower else tokens[start + k].lemmaText
    {
      LowersAre(tokens, start + k);
    }
    hide Lemmas;
    if |words| == end - start && HasLemmas(tokens, start, words) {
      assert forall k :: 0 <= k < |words| ==> words[k] == slice[k];
    }
  }

  lemma SliceSpells(tokens: seq<Token>, start: nat, end: nat, words: seq<string>)
    requires start < end <= |tokens|
    ensures words == Lowers(tokens)[start..end] <==> |words| == end - start && HasWords(tokens, start, words)
    ensures words == Lemmas(tokens)[start..end] <==> |words| == end - start && HasLemmas(tokens, start, words)
  {
    hide HasWords, HasLemmas, Lowers, Lemmas;
    LowersSpell(tokens, start, end, words);
    LemmasSpell(tokens, start, end, words);
  }

  lemma AtReads(tokens: seq<Token>, expressions: map<int, Expression>, index: seq<Phrase>, s: Spot)
    requires s.start <= s.end && IsPhraseAt(tokens, expressions, index, s)
    ensures PhraseReads(tokens, expressions, index, s)
  {
    hide Lowers, Lemmas, Get, HasWords, HasLemmas;
    var lowers, lemmas := Lowers(tokens)[s.start..s.end + 1], Lemmas(tokens)[s.start..s.end + 1];
    var words := if s.id in Get(index, lowers) then lowers else lemmas;
    GetFinds(index, words, s.id);
    SliceSpells(tokens, s.start, s.end + 1, words);
  }

  lemma ReadsAt(tokens: seq<Token>, expressions: map<int, Expression>, index: seq<Phrase>, s: Spot)
    requires OneItemEach(index) && PhraseReads(tokens, expressions, index, s)
    ensures IsPhraseAt(tokens, expressions, index, s)
  {
    hide Lowers, Lemmas, Get, HasWords, HasLemmas, OneItemEach;
    var phrase :| phrase in index && s.id in phrase.ids && |phrase.words| == s.end + 1 - s.start
      && (HasWords(tokens, s.start, phrase.words) || HasLemmas(tokens, s.start, phrase.words));
    GetFinds(index, phrase.words, s.id);
    SliceSpells(tokens, s.start, s.end + 1, phrase.words);
  }

  /** The candidate is that of a stored phrase, with no score. */
  ghost predicate IsContiguousHit(tokens: seq<Token>, expressions: map<int, Expression>, index: seq<Phrase>,
          c: Candidate) {
    && c.semanticScore == 0.0 && !c.semanticBoosted && c.detectionSource == "second_pass_spacy"
    && exists s :: PhraseReads(tokens, expressions, index, s) && IsOf(tokens, s.start, s.end, expressions[s.id], c)
  }

  lemma PhraseHitMeans(tokens: seq<Token>, expressions: map<int, Expression>, index: seq<Phrase>, c: Candidate)
    requires IsPhraseHit(tokens, expressions, index, c) && c.tokenStart <= c.tokenEnd
    ensures IsContiguousHit(tokens, expressions, index, c)
  {
    hide Get, Lowers, Lemmas, PhraseReads;
    var s :| IsPhraseAt(tokens, expressions, index, s) && c == PhraseHit(tokens, expressions, s);
    AtReads(tokens, expressions, index, s);
    assert s.id in expressions && IsOf(tokens, s.start, s.end, expressions[s.id], c);
    ReadsInTable(tokens, expressions, index);
  }

  lemma ReadsInTable(tokens: seq<Token>, expressions: map<int, Expression>, index: seq<Phrase>)
    ensures forall s :: PhraseReads(tokens, expressions, index, s) ==> s.id in expressions
  {}

  lemma ReadIsMarked(tokens: seq<Token>, expressions: map<int, Expression>, index: seq<Phrase>, found: seq<Candidate>,
          s: Spot)
    requires OneItemEach(index) && PhraseReads(tokens, expressions, index, s)
    requires forall r :: IsPhraseAt(tokens, expressions, index, r) ==> Marked(found, PhraseHit(tokens, expressions, r))
    ensures IsFound(found, expressions[s.id].id, s.start, s.end)
  {
    ReadsAt(tokens, expressions, index, s);
    hide Get, Lowers, Lemmas;
    var hit := PhraseHit(tokens, expressions, s);
    var k :| 0 <= k < |found| && Marker(found[k]) == Marker(hit);
  }

  /** A candidate of that expression and those tokens is among the found ones. */
  ghost predicate IsFound(found: seq<Candidate>, id: int, start: int, end: int) {
    exists c :: c in found && c.expressionId == id && c.tokenStart == start && c.tokenEnd == end
  }

  /**
   `_detect_contiguous`: what is found are stored phrases that occur, by their words or by their lemmas; each of
   them is found, as far as its expression and interval have not been found before.
   */
  method DetectContiguous(tokens: seq<Token>, expressions: map<int, Expression>, index: seq<Phrase>)
    returns (found: seq<Candidate>)
    ensures forall c :: c in found ==> IsPhraseHit(tokens, expressions, index, c)
    ensures forall s :: IsPhraseAt(tokens, expressions, index, s) ==> Marked(found, PhraseHit(tokens, expressions, s))
    ensures OnePerMarker(found)
    ensures forall c :: c in found && c.tokenStart <= c.tokenEnd ==> IsContiguousHit(tokens, expressions, index, c)
    ensures OneItemEach(index) ==> forall s ::
      PhraseReads(tokens, expressions, index, s) ==> IsFound(found, expressions[s.id].id, s.start, s.end)
  {
    hide IsPhraseAt, IsPhraseHit, PhraseHit, Marked, OnePerMarker, Lengths, Covered, AllPhrases, PhraseHits;
    found := [];
    ghost var spots := [];
    NothingSearched(tokens, expressions, index);
    for start := 0 to |tokens|
      invariant Searched(tokens, expressions, index, found, spots, start, [], 0, [])
    {
      found, spots := DetectFrom(tokens, expressions, index, found, spots, start, Lengths(index));
      CoveredNextStart(tokens, expressions, index, spots, start);
    }
    CoveredEnds(tokens, expressions, index, spots);
    ContiguousIs(tokens, expressions, index, spots);
    ReadsInTable(tokens, expressions, index);
    hide *;
    forall c | c in found && c.tokenStart <= c.tokenEnd ensures IsContiguousHit(tokens, expressions, index, c) {
      PhraseHitMeans(tokens, expressions, index, c);
    }
    if OneItemEach(index) {
      forall s | PhraseReads(tokens, expressions, index, s)
        ensures s.id in expressions && IsFound(found, expressions[s.id].id, s.start, s.end)
      {
        ReadIsMarked(tokens, expressions, index, found, s);
      }
    }
  }

  // ----- the particle of a verb -----

  predicate Linked(t: Token) { t.dep in {"prt", "compound:prt", "prep", "advmod"} || t.pos in {"PART", "ADP", "ADV"} }

  /** A child of the verb that is the particle, behind the verb and near enough. */
  predicate ChildFits(tokens: seq<Token>, at: nat, particle: string, gap: int, c: int) {
    at < c < |tokens| && tokens[c].lower == particle && c - at - 1 <= gap
  }

  /** A token that is the particle, within the gap and linked like one. */
  predicate ProbeFits(tokens: seq<Token>, at: nat, particle: string, gap: int, p: int) {
    at < p < |tokens| && p < at + gap + 2 && tokens[p].lower == particle && Linked(tokens[p])
  }

  ghost predicate NoChildFits(tokens: seq<Token>, at: nat, particle: string, gap: int, upto: int)
    requires at < |tokens| && upto <= |tokens[at].children|
  {
    forall k :: 0 <= k < upto ==> !ChildFits(tokens, at, particle, gap, tokens[at].children[k])
  }

  /** The first fitting child; when there is none, the nearest fitting token; when there is none either, nothing. */
  ghost predicate IsParticle(tokens: seq<Token>, at: nat, particle: string, gap: int, r: Option<int>)
    requires at < |tokens|
  {
    var children := tokens[at].children;
    (exists k :: 0 <= k < |children| && NoChildFits(tokens, at, particle, gap, k)
        && ChildFits(tokens, at, particle, gap, children[k]) && r == Some(children[k]))
    || (NoChildFits(tokens, at, particle, gap, |children|)
        && match r
           case Some(p) => ProbeFits(tokens, at, particle, gap, p)
               && forall q :: ProbeFits(tokens, at, particle, gap, q) ==> p <= q
           case None => forall q :: !ProbeFits(tokens, at, particle, gap, q))
  }

  lemma ParticleIsUnique(tokens: seq<Token>, at: nat, particle: string, gap: int, a: Option<int>, b: Option<int>)
    requires at < |tokens| && IsParticle(tokens, at, particle, gap, a) && IsParticle(tokens, at, particle, gap, b)
    ensures a == b
    ensures a.Some? ==> at < a.value < |tokens| && a.value - at - 1 <= gap && tokens[a.value].lower == particle
  {}

  /** Linked to its verb as a particle, */
  ghost predicate AsParticle(t: Token) { t.dep == "prt" || t.dep == "compound:prt" || t.pos == "PART" }

  /** or in a way that may be a particle's. */
  ghost predicate Ambiguously(t: Token) {
    t.dep == "prep" || t.dep == "advmod" || t.pos == "ADP" || t.pos == "ADV"
  }

  /** The word itself behind the verb, within the gap: a child of the verb, or linked like a particle. */
  ghost predicate InReach(tokens: seq<Token>, at: nat, particle: string, gap: int, p: int) {
    && at < p < |tokens| && p - at - 1 <= gap && tokens[p].lower == particle
    && (p in tokens[at].children || AsParticle(tokens[p]) || Ambiguously(tokens[p]))
  }

  lemma ParticleIsInReach(tokens: seq<Token>, at: nat, particle: string, gap: int, r: Option<int>)
    requires at < |tokens| && IsParticle(tokens, at, particle, gap, r)
    ensures r.Some? ==> InReach(tokens, at, particle, gap, r.value)
    ensures r == None ==> forall q :: !InReach(tokens, at, particle, gap, q)
  {
    if r == None {
      forall q ensures !InReach(tokens, at, particle, gap, q) {
        assert !ProbeFits(tokens, at, particle, gap, q);
        assert ChildFits(tokens, at, particle, gap, q) ==> q !in tokens[at].children;
      }
    }
  }

  method FindParticleIndex(tokens: seq<Token>, at: nat, particle: string, gap: int) returns (r: Option<int>)
    requires at < |tokens|
    ensures IsParticle(tokens, at, particle, gap, r)
    ensures if r.Some? then InReach(tokens, at, particle, gap, r.value)
            else forall q :: !InReach(tokens, at, particle, gap, q)
  {
    forall x | IsParticle(tokens, at, particle, gap, x)
      ensures if x.Some? then InReach(tokens, at, particle, gap, x.value)
              else forall q :: !InReach(tokens, at, particle, gap, q)
    {
      ParticleIsInReach(tokens, at, particle, gap, x);
    }
    hide Linked;
    var children := tokens[at].children;
    for k := 0 to |children|
      invariant NoChildFits(tokens, at, particle, gap, k)
    {
      var c := children[k];
      if c <= at || c >= |tokens| { continue; }
      if tokens[c].lower != particle { continue; }
      if c - at - 1 <= gap { return Some(c); }
    }
    var maxEnd := if |tokens| < at + gap + 2 then |tokens| else at + gap + 2;
    var probe := at + 1;
    while probe < maxEnd
      invariant at < probe
      invariant forall q :: q < probe ==> !ProbeFits(tokens, at, particle, gap, q)
      decreases maxEnd - probe
    {
      if tokens[probe].lower == particle && Linked(tokens[probe]) { return Some(probe); }
      probe := probe + 1;
    }
    r := None;
  }

  // ----- separable verbs -----

  function Gap(settings: Settings): int { if settings.maxGap < 1 then 1 else settings.maxGap }

  function VerbOf(t: Token): string { Trim(LemmaOf(t)) }

  /** The candidate for a verb and its particle, unless the gap or the lack of evidence rules it out. */
  function Judge(settings: Settings, tokens: seq<Token>, i: int, p: int, e: Expression): Option<Candidate>
    requires 0 <= i < |tokens| && 0 <= p < |tokens|
  {
    var particle := tokens[p];
    var limit := if e.maxGap != 0 then e.maxGap else Gap(settings);
    if !e.isSeparable || p - i - 1 > limit then None
    else
      var isParticle := particle.dep in {"prt", "compound:prt"} || particle.pos == "PART";
      var isAmbiguous := particle.dep in {"prep", "advmod"} || particle.pos in {"ADP", "ADV"};
      var wordnet, trf := settings.wordnet(tokens[i], particle, e), settings.trf(tokens[i], particle, e);
      var score := MaxReal(wordnet, trf);
      if isAmbiguous && trf >= MaxReal(0.0, settings.trfThreshold) then
        Some(Build(tokens, i, p, particle, e, "spacy_trf_semantic", score, true))
      else if isAmbiguous && wordnet >= MaxReal(0.0, settings.wordnetThreshold) then
        Some(Build(tokens, i, p, particle, e, "second_pass_spacy_semantic", score, true))
      else if !isParticle && !isAmbiguous && score <= 0.0 then None
      else Some(Build(tokens, i, p, particle, e, "second_pass_spacy", score, false))
  }

  // ----- which expressions pass, and what a candidate shows -----

  ghost predicate WithinGap(settings: Settings, e: Expression, i: int, p: int) {
    if e.maxGap != 0 then p - i - 1 <= e.maxGap else p - i - 1 <= settings.maxGap || p - i - 1 <= 1
  }

  /** The link speaks for the expression, or some score does. */
  ghost predicate HasEvidence(settings: Settings, verb: Token, particle: Token, e: Expression) {
    || AsParticle(particle) || Ambiguously(particle)
    || settings.wordnet(verb, particle, e) > 0.0 || settings.trf(verb, particle, e) > 0.0
  }

  /** An ambiguous link with a score that reaches its threshold; a negative threshold counts as 0. */
  ghost predicate TrfReaches(settings: Settings, verb: Token, particle: Token, e: Expression) {
    var score := settings.trf(verb, particle, e);
    Ambiguously(particle) && score >= settings.trfThreshold && score >= 0.0
  }

  ghost predicate WordnetReaches(settings: Settings, verb: Token, particle: Token, e: Expression) {
    var score := settings.wordnet(verb, particle, e);
    Ambiguously(particle) && score >= settings.wordnetThreshold && score >= 0.0
  }

  /** The candidate's score is the better of the two, and it tells whether and by which scorer it was boosted. */
  ghost predicate IsScored(settings: Settings, verb: Token, particle: Token, e: Expression, c: Candidate) {
    var wordnet, trf := settings.wordnet(verb, particle, e), settings.trf(verb, particle, e);
    && c.semanticScore >= 0.0 && c.semanticScore >= wordnet && c.semanticScore >= trf
    && (c.semanticScore == 0.0 || c.semanticScore == wordnet || c.semanticScore == trf)
    && (c.semanticBoosted <==> TrfReaches(settings, verb, particle, e) || WordnetReaches(settings, verb, particle, e))
    && (TrfReaches(settings, verb, particle, e) ==> c.detectionSource == "spacy_trf_semantic")
    && (c.semanticBoosted && !TrfReaches(settings, verb, particle, e)
        ==> c.detectionSource == "second_pass_spacy_semantic")
    && (!c.semanticBoosted ==> c.detectionSource == "second_pass_spacy")
  }

  /** An expression passes exactly when it is separable, within its own gap and backed by some evidence. */
  lemma JudgeIs(settings: Settings, tokens: seq<Token>, i: int, p: int, e: Expression)
    requires 0 <= i < |tokens| && 0 <= p < |tokens|
    ensures Judge(settings, tokens, i, p, e).Some?
       <==> e.isSeparable && WithinGap(settings, e, i, p) && HasEvidence(settings, tokens[i], tokens[p], e)
    ensures Judge(settings, tokens, i, p, e).Some? ==>
      var c := Judge(settings, tokens, i, p, e).value;
      IsOf(tokens, i, p, e, c) && IsScored(settings, tokens[i], tokens[p], e, c)
  {}

  /** The spot is a verb and its particle for an expression that passes the judgement. */
  ghost predicate Valid(settings: Settings, tokens: seq<Token>, expressions: map<int, Expression>, s: Spot) {
    && 0 <= s.start < s.end < |tokens| && s.id in expressions
    && Judge(settings, tokens, s.start, s.end, expressions[s.id]).Some?
  }

  /** The item's verb stands at the start of the spot, its particle at the end, and the expression passes. */
  ghost predicate ItemHit(settings: Settings, tokens: seq<Token>, expressions: map<int, Expression>, item: Verb,
          s: Spot) {
    && Valid(settings, tokens, expressions, s)
    && VerbOf(tokens[s.start]) == item.verb != ""
    && IsParticle(tokens, s.start, item.particle, Gap(settings), Some(s.end))
    && s.id in item.ids
  }

  ghost predicate IsVerbAt(settings: Settings, tokens: seq<Token>, expressions: map<int, Expression>,
          items: seq<Verb>, s: Spot) {
    exists item :: item in items && ItemHit(settings, tokens, expressions, item, s)
  }

  ghost predicate AllValid(settings: Settings, tokens: seq<Token>, expressions: map<int, Expression>,
          spots: seq<Spot>) {
    forall k :: 0 <= k < |spots| ==> Valid(settings, tokens, expressions, spots[k])
  }

  ghost function VerbHits(settings: Settings, tokens: seq<Token>, expressions: map<int, Expression>,
          spots: seq<Spot>): seq<Candidate>
    requires AllValid(settings, tokens, expressions, spots)
  {
    seq(|spots|, k requires 0 <= k < |spots| => Judge(settings, tokens, spots[k].start, spots[k].end,
        expressions[spots[k].id]).value)
  }

  /** The search holds the hits of its spots, each expression once per interval. */
  ghost predicate Holds(settings: Settings, tokens: seq<Token>, expressions: map<int, Expression>,
          found: seq<Candidate>, spots: seq<Spot>) {
    AllValid(settings, tokens, expressions, spots) && found == Once(VerbHits(settings, tokens, expressions, spots))
  }

  lemma HoldsNext(settings: Settings, tokens: seq<Token>, expressions: map<int, Expression>, found: seq<Candidate>,
          spots: seq<Spot>, spot: Spot)
    requires Holds(settings, tokens, expressions, found, spots) && Valid(settings, tokens, expressions, spot)
    ensures var c := Judge(settings, tokens, spot.start, spot.end, expressions[spot.id]).value;
      Holds(settings, tokens, expressions, if Marked(found, c) then found else found + [c], spots + [spot])
  {
    hide Judge, Marked, Once;
    var c := Judge(settings, tokens, spot.start, spot.end, expressions[spot.id]).value;
    var hits := VerbHits(settings, tokens, expressions, spots);
    OnceNext(hits, c);
    assert VerbHits(settings, tokens, expressions, spots + [spot]) == hits + [c];
  }

  function Options(items: seq<Verb>, verb: string): seq<Verb> {
    if items == [] then []
    else Options(items[..|items| - 1], verb) + if items[|items| - 1].verb == verb then [items[|items| - 1]] else []
  }

  lemma {:induction false} OptionsAre(items: seq<Verb>, verb: string, item: Verb)
    ensures item in Options(items, verb) <==> item in items && item.verb == verb
  {
    if items == [] {
    } else {
      OptionsAre(items[..|items| - 1], verb, item);
      assert items == items[..|items| - 1] + [items[|items| - 1]];
    }
  }

  method GroupByVerb(items: seq<Verb>) returns (byVerb: map<string, seq<Verb>>)
    ensures forall verb :: Options(items, verb) == if verb in byVerb then byVerb[verb] else []
  {
    byVerb := map[];
    assert items[..0] == [];
    for k := 0 to |items|
      invariant forall verb :: Options(items[..k], verb) == if verb in byVerb then byVerb[verb] else []
    {
      assert items[..k + 1][..k] == items[..k];
      var verb := items[k].verb;
      byVerb := byVerb[verb := (if verb in byVerb then byVerb[verb] else []) + [items[k]]];
    }
    assert items[..|items|] == items;
  }

  /** One verb and one particle: the expressions of the item that pass. */
  method DetectItem(settings: Settings, tokens: seq<Token>, expressions: map<int, Expression>, item: Verb, i: nat,
                    found0: seq<Candidate>, ghost spots0: seq<Spot>)
    returns (found: seq<Candidate>, ghost more: seq<Spot>)
    requires i < |tokens| && VerbOf(tokens[i]) == item.verb != ""
    requires Holds(settings, tokens, expressions, found0, spots0)
    ensures Holds(settings, tokens, expressions, found, spots0 + more)
    ensures forall s :: s in more <==> s.start == i && ItemHit(settings, tokens, expressions, item, s)
  {
    hide Judge, Marked, Holds, IsParticle, VerbOf;
    found, more := found0, [];
    var particle := FindParticleIndex(tokens, i, item.particle, Gap(settings));
    ghost var gap := Gap(settings);
    hide Gap;
    forall r | IsParticle(tokens, i, item.particle, gap, r)
      ensures r == particle && (r.Some? ==> i < r.value < |tokens|)
    {
      ParticleIsUnique(tokens, i, item.particle, gap, particle, r);
    }
    assert spots0 + [] == spots0;
    if particle.None? { return; }
    var p := particle.value;
    for k := 0 to |item.ids|
      invariant Holds(settings, tokens, expressions, found, spots0 + more)
      invariant forall s ::
        s in more <==> s.start == i && s.end == p && s.id in item.ids[..k] && Valid(settings, tokens, expressions, s)
    {
      var id := item.ids[k];
      assert item.ids[..k + 1] == item.ids[..k] + [id];
      if id !in expressions { continue; }
      var verdict := Judge(settings, tokens, i, p, expressions[id]);
      if verdict.None? { continue; }
      HoldsNext(settings, tokens, expressions, found, spots0 + more, Spot(i, p, id));
      assert spots0 + (more + [Spot(i, p, id)]) == spots0 + more + [Spot(i, p, id)];
      more := more + [Spot(i, p, id)];
      if !Marked(found, verdict.value) { found := found + [verdict.value]; }
    }
    assert item.ids[..|item.ids|] == item.ids;
  }

  /** One token: all items of its verb. */
  method DetectVerb(settings: Settings, tokens: seq<Token>, expressions: map<int, Expression>, options: seq<Verb>,
          i: nat,
                    found0: seq<Candidate>, ghost spots0: seq<Spot>)
    returns (found: seq<Candidate>, ghost more: seq<Spot>)
    requires i < |tokens| && forall item :: item in options ==> VerbOf(tokens[i]) == item.verb != ""
    requires Holds(settings, tokens, expressions, found0, spots0)
    ensures Holds(settings, tokens, expressions, found, spots0 + more)
    ensures forall s :: s in more <==> s.start == i && IsVerbAt(settings, tokens, expressions, options, s)
  {
    hide Holds, ItemHit, VerbOf;
    found, more := found0, [];
    assert spots0 + [] == spots0;
    ghost var here;
    for n := 0 to |options|
      invariant Holds(settings, tokens, expressions, found, spots0 + more)
      invariant forall s :: s in more <==> s.start == i && IsVerbAt(settings, tokens, expressions, options[..n], s)
    {
      assert options[..n + 1] == options[..n] + [options[n]];
      found, here := DetectItem(settings, tokens, expressions, options[n], i, found, spots0 + more);
      assert spots0 + (more + here) == spots0 + more + here;
      more := more + here;
    }
    assert options[..|options|] == options;
  }

  ghost predicate IsVerbHit(settings: Settings, tokens: seq<Token>, expressions: map<int, Expression>,
          verbs: seq<Verb>, c: Candidate) {
    exists s :: IsVerbAt(settings, tokens, expressions, verbs, s)
        && Some(c) == Judge(settings, tokens, s.start, s.end, expressions[s.id])
  }

  lemma SeparableIs(settings: Settings, tokens: seq<Token>, expressions: map<int, Expression>, items: seq<Verb>,
          spots: seq<Spot>)
    requires AllValid(settings, tokens, expressions, spots)
    requires forall s :: s in spots <==> IsVerbAt(settings, tokens, expressions, items, s)
    ensures var found := Once(VerbHits(settings, tokens, expressions, spots));
      && (forall c :: c in found ==> IsVerbHit(settings, tokens, expressions, items, c))
      && AllVerbsMarked(settings, tokens, expressions, items, found)
      && OnePerMarker(found)
  {
    var hits := VerbHits(settings, tokens, expressions, spots);
    OnceIs(hits);
    hide Judge, IsParticle, VerbOf, Gap, Once, Marked, OnePerMarker;
    forall c | c in Once(hits) ensures IsVerbHit(settings, tokens, expressions, items, c) {
      var m :| 0 <= m < |hits| && hits[m] == c;
      assert spots[m] in spots && Valid(settings, tokens, expressions, spots[m]);
    }
    forall s | IsVerbAt(settings, tokens, expressions, items, s)
      ensures Marked(Once(hits), Judge(settings, tokens, s.start, s.end, expressions[s.id]).value)
    {
      var n :| 0 <= n < |spots| && spots[n] == s;
      assert hits[n] == Judge(settings, tokens, s.start, s.end, expressions[s.id]).value;
    }
  }

  /** Every verb with its particle is found, as far as its expression and interval have not been found before. */
  ghost predicate AllVerbsMarked(settings: Settings, tokens: seq<Token>, expressions: map<int, Expression>,
          items: seq<Verb>, found: seq<Candidate>) {
    forall s :: IsVerbAt(settings, tokens, expressions, items, s) ==>
      Marked(found, Judge(settings, tokens, s.start, s.end, expressions[s.id]).value)
  }

  /** The item's verb stands at the start of the spot and its particle, the one the search gives, at the end. */
  ghost predicate VerbWithParticle(settings: Settings, tokens: seq<Token>, expressions: map<int, Expression>,
          items: seq<Verb>, s: Spot) {
    && 0 <= s.start < s.end < |tokens| && s.id in expressions
    && exists item :: item in items && s.id in item.ids && item.verb != ""
         && item.verb == Trim(if tokens[s.start].lemmaText == "" then tokens[s.start].lower
                              else tokens[s.start].lemmaText)
         && IsParticle(tokens, s.start, item.particle, if settings.maxGap >= 1 then settings.maxGap else 1, Some(s.end))
  }

  /** Its expression is separable, within its own gap, and has evidence. */
  ghost predicate Passes(settings: Settings, tokens: seq<Token>, expressions: map<int, Expression>, s: Spot) {
    && 0 <= s.start < |tokens| && 0 <= s.end < |tokens| && s.id in expressions
    && expressions[s.id].isSeparable && WithinGap(settings, expressions[s.id], s.start, s.end)
    && HasEvidence(settings, tokens[s.start], tokens[s.end], expressions[s.id])
  }

  /** The candidate is that of a verb with its particle whose expression passes. */
  ghost predicate IsSeparableHit(settings: Settings, tokens: seq<Token>, expressions: map<int, Expression>,
          items: seq<Verb>, c: Candidate) {
    exists s :: VerbWithParticle(settings, tokens, expressions, items, s) && Passes(settings, tokens, expressions, s)
      && IsOf(tokens, s.start, s.end, expressions[s.id], c)
      && IsScored(settings, tokens[s.start], tokens[s.end], expressions[s.id], c)
  }

  lemma VerbAtMeans(settings: Settings, tokens: seq<Token>, expressions: map<int, Expression>, items: seq<Verb>,
          s: Spot)
    ensures IsVerbAt(settings, tokens, expressions, items, s)
       <==> VerbWithParticle(settings, tokens, expressions, items, s) && Passes(settings, tokens, expressions, s)
    ensures IsVerbAt(settings, tokens, expressions, items, s) ==>
      0 <= s.start < |tokens| && 0 <= s.end < |tokens| && s.id in expressions
  {
    if 0 <= s.start < s.end < |tokens| && s.id in expressions {
      JudgeIs(settings, tokens, s.start, s.end, expressions[s.id]);
    }
    hide Judge, IsParticle, WithinGap, HasEvidence, Trim;
    assert Gap(settings) == if settings.maxGap >= 1 then settings.maxGap else 1;
    if IsVerbAt(settings, tokens, expressions, items, s) {
      var item :| item in items && ItemHit(settings, tokens, expressions, item, s);
    }
    if VerbWithParticle(settings, tokens, expressions, items, s) && Passes(settings, tokens, expressions, s) {
      var item :| item in items && s.id in item.ids && item.verb != ""
        && item.verb == Trim(if tokens[s.start].lemmaText == "" then tokens[s.start].lower
                             else tokens[s.start].lemmaText)
        && IsParticle(tokens, s.start, item.particle, Gap(settings), Some(s.end));
      assert ItemHit(settings, tokens, expressions, item, s);
    }
  }

  lemma VerbHitMeans(settings: Settings, tokens: seq<Token>, expressions: map<int, Expression>, items: seq<Verb>,
          c: Candidate)
    requires IsVerbHit(settings, tokens, expressions, items, c)
    ensures IsSeparableHit(settings, tokens, expressions, items, c)
  {
    forall s
      ensures IsVerbAt(settings, tokens, expressions, items, s)
         <==> VerbWithParticle(settings, tokens, expressions, items, s) && Passes(settings, tokens, expressions, s)
    {
      VerbAtMeans(settings, tokens, expressions, items, s);
    }
    hide Judge, IsVerbAt, VerbWithParticle, IsOf, IsScored;
    var s :| IsVerbAt(settings, tokens, expressions, items, s)
        && Some(c) == Judge(settings, tokens, s.start, s.end, expressions[s.id]);
    JudgeIs(settings, tokens, s.start, s.end, expressions[s.id]);
  }

  /** A verb with its particle is found when its expression passes, */
  lemma PassingIsFound(settings: Settings, tokens: seq<Token>, expressions: map<int, Expression>, items: seq<Verb>,
          found: seq<Candidate>, s: Spot)
    requires AllVerbsMarked(settings, tokens, expressions, items, found)
    requires VerbWithParticle(settings, tokens, expressions, items, s) && Passes(settings, tokens, expressions, s)
    ensures IsFound(found, expressions[s.id].id, s.start, s.end)
  {
    VerbAtMeans(settings, tokens, expressions, items, s);
    hide VerbWithParticle, IsVerbAt, Judge;
    JudgeIs(settings, tokens, s.start, s.end, expressions[s.id]);
    var c := Judge(settings, tokens, s.start, s.end, expressions[s.id]).value;
    var k :| 0 <= k < |found| && Marker(found[k]) == Marker(c);
  }

  /** and, in a table that keeps every expression under its own id, only then. */
  lemma FoundIsPassing(settings: Settings, tokens: seq<Token>, expressions: map<int, Expression>, items: seq<Verb>,
          found: seq<Candidate>, s: Spot)
    requires forall c :: c in found ==> IsSeparableHit(settings, tokens, expressions, items, c)
    requires (forall id :: id in expressions ==> expressions[id].id == id) && IsFound(found, s.id, s.start, s.end)
    ensures VerbWithParticle(settings, tokens, expressions, items, s) && Passes(settings, tokens, expressions, s)
  {
    hide VerbWithParticle, WithinGap, HasEvidence, IsScored;
    var c :| c in found && c.expressionId == s.id && c.tokenStart == s.start && c.tokenEnd == s.end;
    var r :| VerbWithParticle(settings, tokens, expressions, items, r) && Passes(settings, tokens, expressions, r)
      && IsOf(tokens, r.start, r.end, expressions[r.id], c)
      && IsScored(settings, tokens[r.start], tokens[r.end], expressions[r.id], c);
    assert r == s;
  }

  /**
   `_detect_separable`: what is found are verbs of the index with their particle in reach whose expression
   passes; each of them is found, once per expression and interval.
   */
  method DetectSeparable(settings: Settings, tokens: seq<Token>, expressions: map<int, Expression>, items: seq<Verb>)
    returns (found: seq<Candidate>)
    ensures forall c :: c in found ==> IsVerbHit(settings, tokens, expressions, items, c)
    ensures AllVerbsMarked(settings, tokens, expressions, items, found)
    ensures OnePerMarker(found)
    ensures forall c :: c in found ==> IsSeparableHit(settings, tokens, expressions, items, c)
    ensures forall s ::
      VerbWithParticle(settings, tokens, expressions, items, s) && Passes(settings, tokens, expressions, s)
      ==> IsFound(found, expressions[s.id].id, s.start, s.end)
  {
    hide ItemHit, IsVerbAt, IsVerbHit, AllVerbsMarked, OnePerMarker, VerbOf, Options;
    found := [];
    ghost var spots, more: seq<Spot> := [], [];
    var byVerb := GroupByVerb(items);
    assert VerbHits(settings, tokens, expressions, []) == [];
    VerbsAreInside(settings, tokens, expressions, items);
    for i := 0 to |tokens|
      invariant Holds(settings, tokens, expressions, found, spots)
      invariant forall s :: s in spots <==> s.start < i && IsVerbAt(settings, tokens, expressions, items, s)
    {
      var verb := VerbOf(tokens[i]);
      VerbItems(settings, tokens, expressions, items, i);
      if verb != "" && verb in byVerb {
        found, more := DetectVerb(settings, tokens, expressions, byVerb[verb], i, found, spots);
        spots := spots + more;
      }
    }
    SeparableIs(settings, tokens, expressions, items, spots);
    hide *;
    forall c | c in found ensures IsSeparableHit(settings, tokens, expressions, items, c) {
      VerbHitMeans(settings, tokens, expressions, items, c);
    }
    forall s | VerbWithParticle(settings, tokens, expressions, items, s) && Passes(settings, tokens, expressions, s)
      ensures s.id in expressions && IsFound(found, expressions[s.id].id, s.start, s.end)
    {
      PassingIsFound(settings, tokens, expressions, items, found, s);
      VerbAtMeans(settings, tokens, expressions, items, s);
    }
  }

  /** At a token only the items of its verb count. */
  lemma VerbItems(settings: Settings, tokens: seq<Token>, expressions: map<int, Expression>, items: seq<Verb>, i: nat)
    requires i < |tokens|
    ensures forall item :: item in Options(items, VerbOf(tokens[i])) ==> item.verb == VerbOf(tokens[i])
    ensures forall s: Spot :: s.start == i ==>
      (IsVerbAt(settings, tokens, expressions, items, s)
       <==> VerbOf(tokens[i]) != "" && IsVerbAt(settings, tokens, expressions, Options(items, VerbOf(tokens[i])), s))
    ensures Options(items, VerbOf(tokens[i])) == [] ==>
      forall s: Spot :: s.start == i ==> !IsVerbAt(settings, tokens, expressions, items, s)
  {}

  lemma VerbsAreInside(settings: Settings, tokens: seq<Token>, expressions: map<int, Expression>, items: seq<Verb>)
    ensures forall s :: IsVerbAt(settings, tokens, expressions, items, s) ==> 0 <= s.start < |tokens|
  {
    hide IsParticle, VerbOf, Gap, Judge;
  }

  // ----- the detector -----

  /** The table keeps every expression under its own id. */
  ghost predicate Keyed(expressions: map<int, Expression>) {
    forall id :: id in expressions ==> expressions[id].id == id
  }

  /** In a keyed table no hit is lost when each expression is taken once per interval. */
  lemma PhraseIsKept(tokens: seq<Token>, expressions: map<int, Expression>, index: seq<Phrase>, found: seq<Candidate>,
          s: Spot)
    requires forall c :: c in found ==> IsPhraseHit(tokens, expressions, index, c)
    requires Keyed(expressions) && IsPhraseAt(tokens, expressions, index, s)
        && Marked(found, PhraseHit(tokens, expressions, s))
    ensures PhraseHit(tokens, expressions, s) in found
  {
    hide Get, Lowers, Lemmas;
    var k :| 0 <= k < |found| && Marker(found[k]) == Marker(PhraseHit(tokens, expressions, s));
    assert IsPhraseHit(tokens, expressions, index, found[k]);
    var r :| IsPhraseAt(tokens, expressions, index, r) && found[k] == PhraseHit(tokens, expressions, r);
    assert r == s;
  }

  lemma VerbIsKept(settings: Settings, tokens: seq<Token>, expressions: map<int, Expression>, items: seq<Verb>,
          found: seq<Candidate>, s: Spot)
    requires forall c :: c in found ==> IsVerbHit(settings, tokens, expressions, items, c)
    requires Keyed(expressions) && IsVerbAt(settings, tokens, expressions, items, s)
    requires Marked(found, Judge(settings, tokens, s.start, s.end, expressions[s.id]).value)
    ensures Judge(settings, tokens, s.start, s.end, expressions[s.id]).value in found
    ensures Judge(settings, tokens, s.start, s.end, expressions[s.id]).value.tokenStart == s.start < s.end
    ensures Judge(settings, tokens, s.start, s.end, expressions[s.id]).value.tokenEnd == s.end
  {
    JudgeMarker(settings, tokens, expressions, items, s);
    var k :| 0 <= k < |found|
        && Marker(found[k]) == Marker(Judge(settings, tokens, s.start, s.end, expressions[s.id]).value);
    assert IsVerbHit(settings, tokens, expressions, items, found[k]);
    var r :| IsVerbAt(settings, tokens, expressions, items, r)
        && Some(found[k]) == Judge(settings, tokens, r.start, r.end, expressions[r.id]);
    JudgeMarker(settings, tokens, expressions, items, r);
    hide *;
    assert r == s;
  }

  lemma JudgeMarker(settings: Settings, tokens: seq<Token>, expressions: map<int, Expression>, items: seq<Verb>,
          s: Spot)
    requires Keyed(expressions) && IsVerbAt(settings, tokens, expressions, items, s)
    ensures Judge(settings, tokens, s.start, s.end, expressions[s.id]).Some? && s.start < s.end
    ensures var c := Judge(settings, tokens, s.start, s.end, expressions[s.id]).value;
      Marker(c) == (s.id, s.start, s.end) && c.tokenStart == s.start && c.tokenEnd == s.end
  {
    hide IsParticle, VerbOf, Gap, MaxReal;
  }

  /** A candidate of the result stands for the hit: it meets it and is not outranked by it. */
  ghost predicate StandsFor(kept: seq<Candidate>, c: Candidate) {
    exists k :: k in kept && Meets(c, k) && !RankGreater(c, k)
  }

  lemma CandidateIsCovered(candidates: seq<Candidate>, c: Candidate)
    requires c in candidates && c.tokenStart <= c.tokenEnd
    ensures StandsFor(Dedupe(candidates), c)
  {
    hide Dedupe;
    DedupeIsMaximalCover(candidates);
    if c in Dedupe(candidates) {
      assert Meets(c, c) && !RankGreater(c, c);
    } else {
      assert c in multiset(candidates) - multiset(Dedupe(candidates));
    }
  }

  /** Every stored phrase that occurs in an interval of its own has a candidate standing for it. */
  ghost predicate PhrasesStand(tokens: seq<Token>, expressions: map<int, Expression>, phrases: seq<Phrase>,
          kept: seq<Candidate>) {
    forall s :: IsPhraseAt(tokens, expressions, phrases, s) && s.start <= s.end
        ==> StandsFor(kept, PhraseHit(tokens, expressions, s))
  }

  /** So has every verb with its particle. */
  ghost predicate VerbsStand(settings: Settings, tokens: seq<Token>, expressions: map<int, Expression>,
          verbs: seq<Verb>, kept: seq<Candidate>) {
    forall s :: IsVerbAt(settings, tokens, expressions, verbs, s) ==>
      StandsFor(kept, Judge(settings, tokens, s.start, s.end, expressions[s.id]).value)
  }

  lemma PhrasesDoStand(tokens: seq<Token>, expressions: map<int, Expression>, phrases: seq<Phrase>,
          found: seq<Candidate>, candidates: seq<Candidate>)
    requires Keyed(expressions) && forall c :: c in found ==> IsPhraseHit(tokens, expressions, phrases, c)
    requires forall s ::
      IsPhraseAt(tokens, expressions, phrases, s) ==> Marked(found, PhraseHit(tokens, expressions, s))
    requires forall c :: c in found ==> c in candidates
    ensures PhrasesStand(tokens, expressions, phrases, Dedupe(candidates))
  {
    hide Get, Lowers, Lemmas, IsPhraseHit, Marked, Dedupe, StandsFor;
    forall s | IsPhraseAt(tokens, expressions, phrases, s) && s.start <= s.end
      ensures StandsFor(Dedupe(candidates), PhraseHit(tokens, expressions, s))
    {
      PhraseIsKept(tokens, expressions, phrases, found, s);
      CandidateIsCovered(candidates, PhraseHit(tokens, expressions, s));
    }
  }

  lemma VerbsDoStand(settings: Settings, tokens: seq<Token>, expressions: map<int, Expression>, verbs: seq<Verb>,
          found: seq<Candidate>, candidates: seq<Candidate>)
    requires Keyed(expressions) && forall c :: c in found ==> IsVerbHit(settings, tokens, expressions, verbs, c)
    requires AllVerbsMarked(settings, tokens, expressions, verbs, found)
    requires forall c :: c in found ==> c in candidates
    ensures VerbsStand(settings, tokens, expressions, verbs, Dedupe(candidates))
  {
    hide IsParticle, VerbOf, Gap, Judge, IsVerbHit, Marked, Dedupe, StandsFor;
    forall s | IsVerbAt(settings, tokens, expressions, verbs, s)
      ensures StandsFor(Dedupe(candidates), Judge(settings, tokens, s.start, s.end, expressions[s.id]).value)
    {
      VerbIsKept(settings, tokens, expressions, verbs, found, s);
      CandidateIsCovered(candidates, Judge(settings, tokens, s.start, s.end, expressions[s.id]).value);
    }
  }

  /**
   `detect`: the result has pairwise disjoint intervals in text order, holds nothing but hits, and leaves out no
   hit of either kind for which it has no candidate that meets it and ranks at least as high. (An empty phrase
   has an empty interval, which meets nothing.)
   */
  method Detect(settings: Settings, tokens: seq<Token>, expressions: map<int, Expression>, phrases: seq<Phrase>,
          verbs: seq<Verb>)
    returns (selected: seq<Candidate>)
    ensures PairwiseDisjoint(selected) && Sorted(SpanOrder, selected)
    ensures forall c :: c in selected ==>
      IsPhraseHit(tokens, expressions, phrases, c) || IsVerbHit(settings, tokens, expressions, verbs, c)
    ensures forall c :: c in selected && c.tokenStart <= c.tokenEnd ==>
      IsContiguousHit(tokens, expressions, phrases, c) || IsSeparableHit(settings, tokens, expressions, verbs, c)
    ensures Keyed(expressions) ==> PhrasesStand(tokens, expressions, phrases, selected)
    ensures Keyed(expressions) ==> VerbsStand(settings, tokens, expressions, verbs, selected)
  {
    NothingDetected(settings, tokens, expressions, phrases, verbs);
    hide *;
    if tokens == [] { return []; }
    var contiguous := DetectContiguous(tokens, expressions, phrases);
    var separable := DetectSeparable(settings, tokens, expressions, verbs);
    var candidates := contiguous + separable;
    selected := DedupeOverlaps(candidates);
    DedupeIsMaximalCover(candidates);
    forall c | c in selected ensures c in candidates {
      assert c in multiset(candidates);
    }
    if Keyed(expressions) {
      PhrasesDoStand(tokens, expressions, phrases, contiguous, candidates);
      VerbsDoStand(settings, tokens, expressions, verbs, separable, candidates);
    }
  }

  lemma NothingDetected(settings: Settings, tokens: seq<Token>, expressions: map<int, Expression>,
          phrases: seq<Phrase>, verbs: seq<Verb>)
    ensures PairwiseDisjoint([]) && Sorted(SpanOrder, [])
    ensures tokens == []
        ==> PhrasesStand(tokens, expressions, phrases, []) && VerbsStand(settings, tokens, expressions, verbs, [])
  {
    hide Judge, IsParticle;
  }
}
