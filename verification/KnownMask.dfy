/**
 The known-token mask of the assignment scanner: a greedy walk that marks, from left to right, the
 longest stored term at each position. `BuildKnownMask` compares joined strings, its Python twin
 `BuildKnownMaskTuples` compares token tuples.
 */
module KnownMask {
  import opened Common
  import opened Text

  /** A lexicon row as the scanner reads it. Texts are taken lower-cased. */
  datatype Row = Row(id: int, normalized: string, category: string := "", source: string := "",
          status: string := "approved")

  datatype Tile = Tile(start: nat, size: nat)

  const MAX_TERM_WORDS: nat := 6

  // ----- the terms of the rows -----

  function JoinedTerms(rows: seq<Row>): set<string> {
    set r | r in rows && Trim(r.normalized) != "" :: Trim(r.normalized)
  }

  /** The rows' terms as token tuples. */
  function SplitTerms(rows: seq<Row>): set<seq<string>> {
    set t | t in JoinedTerms(rows) :: Words(t)
  }

  /** Of those, the ones whose row spells them with single spaces. */
  function SpelledTerms(rows: seq<Row>): set<seq<string>> {
    set t | t in JoinedTerms(rows) && t == Join(Words(t)) :: Words(t)
  }

  lemma JoinedTermsSnoc(rows: seq<Row>, k: nat)
    requires k < |rows|
    ensures rows[..k + 1][..k] == rows[..k]
    ensures JoinedTerms(rows[..k + 1])
         == JoinedTerms(rows[..k]) + if Trim(rows[k].normalized) == "" then {} else {Trim(rows[k].normalized)}
  {}

  function Min(x: nat, y: nat): nat { if x <= y then x else y }

  /** The most words any row has, at least 1. */
  function MostWords(rows: seq<Row>): (m: nat)
    ensures m >= 1
    ensures forall r :: r in rows && Trim(r.normalized) != "" ==> |Words(Trim(r.normalized))| <= m
  {
    if rows == [] then 1
    else
      var last := Trim(rows[|rows| - 1].normalized);
      if last == "" then MostWords(rows[..|rows| - 1])
      else Max(MostWords(rows[..|rows| - 1]), |Words(last)|)
  }

  function Cap(rows: seq<Row>): nat { Max(1, Min(MostWords(rows), MAX_TERM_WORDS)) }

  // ----- leftmost-longest covers, declaratively -----

  /** `tokens[p..p + size]` is a stored term. */
  ghost predicate OccursAt(terms: set<seq<string>>, tokens: seq<string>, p: nat, size: nat) {
    p + size <= |tokens| && tokens[p..p + size] in terms
  }

  predicate Covers(t: Tile, p: nat) { t.start <= p < t.start + t.size }

  ghost predicate Covered(tiles: seq<Tile>, p: nat) {
    exists k :: 0 <= k < |tiles| && Covers(tiles[k], p)
  }

  /** A stored term of at most `cap` tokens, the longest one at its start. */
  ghost predicate IsLongestTerm(terms: set<seq<string>>, tokens: seq<string>, cap: nat, t: Tile) {
    && 1 <= t.size <= cap && OccursAt(terms, tokens, t.start, t.size)
    && forall size :: t.size < size <= cap ==> !OccursAt(terms, tokens, t.start, size)
  }

  /**
   The tiles from position `from` on: stored terms, each the longest at its start, disjoint and in
   order; a position outside them starts no stored term.
   */
  ghost predicate IsCover(terms: set<seq<string>>, tokens: seq<string>, cap: nat, from: nat, tiles: seq<Tile>) {
    && (forall k :: 0 <= k < |tiles| ==> from <= tiles[k].start && IsLongestTerm(terms, tokens, cap, tiles[k]))
    && (forall k, l :: 0 <= k < l < |tiles| ==> tiles[k].start + tiles[k].size <= tiles[l].start)
    && (forall p, size :: from <= p < |tokens| && !Covered(tiles, p) && 1 <= size <= cap
                          ==> !OccursAt(terms, tokens, p, size))
  }

  lemma CoveredTail(tiles: seq<Tile>, p: nat)
    requires tiles != []
    ensures Covered(tiles, p) <==> Covers(tiles[0], p) || Covered(tiles[1..], p)
  {}

  ghost predicate IsMaskOf(mask: seq<bool>, tiles: seq<Tile>, n: nat) {
    |mask| == n && forall p :: 0 <= p < n ==> (mask[p] <==> Covered(tiles, p))
  }

  // ----- the greedy walk -----

  /** The longest stored term of at most `size` tokens at `p`, or 0. */
  function LongestAt(terms: set<seq<string>>, tokens: seq<string>, p: nat, size: nat): (r: nat)
    requires p + size <= |tokens|
    ensures r <= size && (r > 0 ==> OccursAt(terms, tokens, p, r))
    ensures forall s :: r < s <= size ==> !OccursAt(terms, tokens, p, s)
  {
    if size == 0 || tokens[p..p + size] in terms then size else LongestAt(terms, tokens, p, size - 1)
  }

  /** The tile size the greedy walk uses at `p`. */
  function StepSize(terms: set<seq<string>>, tokens: seq<string>, cap: nat, p: nat): (r: nat)
    requires p < |tokens|
    ensures r <= cap && p + r <= |tokens|
  {
    LongestAt(terms, tokens, p, Min(cap, |tokens| - p))
  }

  function Cover(terms: set<seq<string>>, tokens: seq<string>, cap: nat, p: nat): seq<Tile>
    requires p <= |tokens|
    decreases |tokens| - p
  {
    if p == |tokens| then []
    else
      var r := StepSize(terms, tokens, cap, p);
      if r == 0 then Cover(terms, tokens, cap, p + 1)
      else [Tile(p, r)] + Cover(terms, tokens, cap, p + r)
  }

  lemma ConsIsCover(terms: set<seq<string>>, tokens: seq<string>, cap: nat, t: Tile, rest: seq<Tile>)
    requires IsLongestTerm(terms, tokens, cap, t)
    requires IsCover(terms, tokens, cap, t.start + t.size, rest)
    ensures IsCover(terms, tokens, cap, t.start, [t] + rest)
  {
    hide IsLongestTerm, OccursAt;
    var tiles := [t] + rest;
    assert t.size >= 0 && forall k :: 0 < k < |tiles| ==> tiles[k] == rest[k - 1];
    forall q, size | t.start <= q < |tokens| && !Covered(tiles, q) && 1 <= size <= cap
      ensures !OccursAt(terms, tokens, q, size)
    {
      assert tiles[0] == t && tiles[1..] == rest;
      CoveredTail(tiles, q);
    }
  }

  /** What a step of the walk says about the terms at its position. */
  lemma StepIsLongest(terms: set<seq<string>>, tokens: seq<string>, cap: nat, p: nat)
    requires p < |tokens|
    ensures var r := StepSize(terms, tokens, cap, p);
      && (r > 0 ==> IsLongestTerm(terms, tokens, cap, Tile(p, r)))
      && (r == 0 ==> forall size :: 1 <= size <= cap ==> !OccursAt(terms, tokens, p, size))
  {}

  lemma SkipBack(terms: set<seq<string>>, tokens: seq<string>, cap: nat, p: nat, tiles: seq<Tile>)
    requires IsCover(terms, tokens, cap, p + 1, tiles)
    requires forall size :: 1 <= size <= cap ==> !OccursAt(terms, tokens, p, size)
    ensures IsCover(terms, tokens, cap, p, tiles)
  {}

  /** The walk's tiles are a leftmost-longest cover. */
  lemma {:induction false} CoverIsCover(terms: set<seq<string>>, tokens: seq<string>, cap: nat, p: nat)
    requires p <= |tokens|
    ensures IsCover(terms, tokens, cap, p, Cover(terms, tokens, cap, p))
    decreases |tokens| - p
  {
    hide IsCover, IsLongestTerm, OccursAt;
    if p == |tokens| {
      NoTiles(terms, tokens, cap);
    } else {
      var r := StepSize(terms, tokens, cap, p);
      StepIsLongest(terms, tokens, cap, p);
      if r == 0 {
        CoverIsCover(terms, tokens, cap, p + 1);
        SkipBack(terms, tokens, cap, p, Cover(terms, tokens, cap, p + 1));
      } else {
        CoverIsCover(terms, tokens, cap, p + r);
        ConsIsCover(terms, tokens, cap, Tile(p, r), Cover(terms, tokens, cap, p + r));
      }
    }
  }

  lemma NoTiles(terms: set<seq<string>>, tokens: seq<string>, cap: nat)
    ensures IsCover(terms, tokens, cap, |tokens|, [])
  {}

  /** A tile that covers the first position starts there, and is the first tile. */
  lemma FirstTile(terms: set<seq<string>>, tokens: seq<string>, cap: nat, p: nat, tiles: seq<Tile>, size: nat)
    requires p < |tokens| && IsCover(terms, tokens, cap, p, tiles)
    requires 1 <= size <= cap && OccursAt(terms, tokens, p, size)
    ensures tiles != [] && tiles[0].start == p
  {}

  /** The part of a cover behind its first tile is a cover again. */
  lemma TailIsCover(terms: set<seq<string>>, tokens: seq<string>, cap: nat, p: nat, tiles: seq<Tile>)
    requires IsCover(terms, tokens, cap, p, tiles) && tiles != []
    ensures IsCover(terms, tokens, cap, tiles[0].start + tiles[0].size, tiles[1..])
  {
    hide IsLongestTerm, OccursAt;
    var end, rest := tiles[0].start + tiles[0].size, tiles[1..];
    assert forall k :: 0 <= k < |rest| ==> rest[k] == tiles[k + 1];
    forall q, size | end <= q < |tokens| && !Covered(rest, q) && 1 <= size <= cap
      ensures !OccursAt(terms, tokens, q, size)
    {
      CoveredTail(tiles, q);
    }
  }

  /** A cover uses no tile at a position where no term starts. */
  lemma SkipIsCover(terms: set<seq<string>>, tokens: seq<string>, cap: nat, p: nat, tiles: seq<Tile>)
    requires IsCover(terms, tokens, cap, p, tiles)
    requires forall size :: 1 <= size <= cap ==> !OccursAt(terms, tokens, p, size)
    ensures IsCover(terms, tokens, cap, p + 1, tiles)
  {
    assert forall k :: 0 <= k < |tiles| ==> IsLongestTerm(terms, tokens, cap, tiles[k]);
  }

  lemma NoRoom(terms: set<seq<string>>, tokens: seq<string>, cap: nat, tiles: seq<Tile>)
    requires IsCover(terms, tokens, cap, |tokens|, tiles)
    ensures tiles == []
  {
    assert tiles != [] ==> IsLongestTerm(terms, tokens, cap, tiles[0]);
  }

  /** There is only one leftmost-longest cover. */
  lemma {:induction false} CoverIsUnique(terms: set<seq<string>>, tokens: seq<string>, cap: nat, p: nat,
                                         xs: seq<Tile>, ys: seq<Tile>)
    requires p <= |tokens|
    requires IsCover(terms, tokens, cap, p, xs) && IsCover(terms, tokens, cap, p, ys)
    ensures xs == ys
    decreases |tokens| - p
  {
    hide IsCover, IsLongestTerm, OccursAt;
    if p == |tokens| {
      NoRoom(terms, tokens, cap, xs);
      NoRoom(terms, tokens, cap, ys);
    } else if size :| 1 <= size <= cap && OccursAt(terms, tokens, p, size) {
      FirstTile(terms, tokens, cap, p, xs, size);
      FirstTile(terms, tokens, cap, p, ys, size);
      SameTile(terms, tokens, cap, p, xs, ys);
      TailIsCover(terms, tokens, cap, p, xs);
      TailIsCover(terms, tokens, cap, p, ys);
      CoverIsUnique(terms, tokens, cap, p + xs[0].size, xs[1..], ys[1..]);
      assert xs == [xs[0]] + xs[1..] && ys == [ys[0]] + ys[1..];
    } else {
      SkipIsCover(terms, tokens, cap, p, xs);
      SkipIsCover(terms, tokens, cap, p, ys);
      CoverIsUnique(terms, tokens, cap, p + 1, xs, ys);
    }
  }

  lemma SameTile(terms: set<seq<string>>, tokens: seq<string>, cap: nat, p: nat, xs: seq<Tile>, ys: seq<Tile>)
    requires IsCover(terms, tokens, cap, p, xs) && IsCover(terms, tokens, cap, p, ys)
    requires xs != [] && ys != [] && xs[0].start == ys[0].start
    ensures xs[0] == ys[0] && 1 <= xs[0].size && xs[0].start + xs[0].size <= |tokens|
  {
    assert IsLongestTerm(terms, tokens, cap, xs[0]) && IsLongestTerm(terms, tokens, cap, ys[0]);
  }

  // ----- terms of up to six words -----

  /** `words` are the words of the row's term, one to six of them. */
  ghost predicate HasShortTerm(row: Row, words: seq<string>) {
    words == Words(Trim(row.normalized)) && 1 <= |words| <= 6
  }

  ghost predicate IsSingleSpaced(row: Row, words: seq<string>) { Trim(row.normalized) == Join(words) }

  /** A short term is within the cap, and a term of both walks: of the string walk when it is single-spaced. */
  lemma ShortTermIsTerm(rows: seq<Row>, row: Row, words: seq<string>)
    requires row in rows && HasShortTerm(row, words)
    ensures |words| <= Cap(rows) && words in SplitTerms(rows)
    ensures IsSingleSpaced(row, words) ==> words in SpelledTerms(rows)
  {
    assert Words("") == [];
    hide Trim, Words, Join;
    assert Trim(row.normalized) in JoinedTerms(rows);
  }

  /**
   A stored term of up to six words is known wherever it stands: its first word is under a tile of the tuple walk, and
   of the string walk when the row spells it with single spaces.
   */
  lemma ShortTermIsKnown(rows: seq<Row>, row: Row, words: seq<string>, tokens: seq<string>, p: nat)
    requires row in rows && HasShortTerm(row, words)
    requires p + |words| <= |tokens| && tokens[p..p + |words|] == words
    ensures Covered(Cover(SplitTerms(rows), tokens, Cap(rows), 0), p)
    ensures IsSingleSpaced(row, words) ==> Covered(Cover(SpelledTerms(rows), tokens, Cap(rows), 0), p)
  {
    ShortTermIsTerm(rows, row, words);
    hide Trim, Words, Join, Cap, Cover, Covered, SplitTerms, SpelledTerms, IsSingleSpaced;
    StandingIsCovered(SplitTerms(rows), words, tokens, Cap(rows), p);
    if IsSingleSpaced(row, words) { StandingIsCovered(SpelledTerms(rows), words, tokens, Cap(rows), p); }
  }

  lemma StandingIsCovered(terms: set<seq<string>>, words: seq<string>, tokens: seq<string>, cap: nat, p: nat)
    requires words in terms && 1 <= |words| <= cap && p + |words| <= |tokens| && tokens[p..p + |words|] == words
    ensures Covered(Cover(terms, tokens, cap, 0), p)
  {
    hide Cover, Covered;
    CoverIsCover(terms, tokens, cap, 0);
    assert OccursAt(terms, tokens, p, |words|);
  }

  /** A stored term of up to six words that is the whole text is one tile. */
  lemma ShortTermAlone(rows: seq<Row>, row: Row, words: seq<string>)
    requires row in rows && HasShortTerm(row, words)
    ensures Cover(SplitTerms(rows), words, Cap(rows), 0) == [Tile(0, |words|)]
    ensures IsSingleSpaced(row, words) ==> Cover(SpelledTerms(rows), words, Cap(rows), 0) == [Tile(0, |words|)]
  {
    ShortTermIsTerm(rows, row, words);
    hide Trim, Words, Join, Cap, Cover, SplitTerms, SpelledTerms, IsSingleSpaced;
    WholeTextIsTile(SplitTerms(rows), words, Cap(rows));
    if IsSingleSpaced(row, words) { WholeTextIsTile(SpelledTerms(rows), words, Cap(rows)); }
  }

  lemma WholeTextIsTile(terms: set<seq<string>>, tokens: seq<string>, cap: nat)
    requires 1 <= |tokens| <= cap && tokens in terms
    ensures Cover(terms, tokens, cap, 0) == [Tile(0, |tokens|)]
  {
    var n := |tokens|;
    assert tokens[0..0 + n] == tokens;
    assert StepSize(terms, tokens, cap, 0) == n;
    assert Cover(terms, tokens, cap, 0) == [Tile(0, n)] + Cover(terms, tokens, cap, n);
  }

  /** No tile of either walk has more than six words, so a longer term never makes its words known. */
  lemma TilesAreShort(rows: seq<Row>, terms: set<seq<string>>, tokens: seq<string>, k: nat)
    requires k < |Cover(terms, tokens, Cap(rows), 0)|
    ensures 1 <= Cover(terms, tokens, Cap(rows), 0)[k].size <= 6
  {
    hide Cover;
    CoverIsCover(terms, tokens, Cap(rows), 0);
  }

  /** With a row of more than six words alone, no text has a known word. */
  lemma LongTermIsUnknown(row: Row, tokens: seq<string>)
    requires |Words(Trim(row.normalized))| > 6
    ensures Cover(SplitTerms([row]), tokens, Cap([row]), 0) == []
    ensures Cover(SpelledTerms([row]), tokens, Cap([row]), 0) == []
  {
    hide Trim, Words, Join, Cover;
    var terms := SplitTerms([row]);
    CoverIsCover(terms, tokens, Cap([row]), 0);
    CoverIsCover(SpelledTerms([row]), tokens, Cap([row]), 0);
    forall t | t in terms || t in SpelledTerms([row]) ensures |t| > 6 {}
    if Cover(terms, tokens, Cap([row]), 0) != [] { TilesAreShort([row], terms, tokens, 0); }
    if Cover(SpelledTerms([row]), tokens, Cap([row]), 0) != [] { TilesAreShort([row], SpelledTerms([row]), tokens, 0); }
  }

  // ----- the two implementations -----

  /** `mask` marks the tiles `done`, which all end before `index`. */
  ghost predicate MarkedUpTo(mask: seq<bool>, done: seq<Tile>, index: nat) {
    && index <= |mask|
    && (forall p :: 0 <= p < |mask| ==> (mask[p] <==> Covered(done, p)))
    && (forall k :: 0 <= k < |done| ==> done[k].start + done[k].size <= index)
  }

  /** `done` lists the walk's tiles before `index`. */
  ghost predicate DoneUpTo(terms: set<seq<string>>, tokens: seq<string>, cap: nat, done: seq<Tile>, index: nat) {
    index <= |tokens| && Cover(terms, tokens, cap, 0) == done + Cover(terms, tokens, cap, index)
  }

  lemma StepDone(terms: set<seq<string>>, tokens: seq<string>, cap: nat, done: seq<Tile>, index: nat)
    requires DoneUpTo(terms, tokens, cap, done, index) && index < |tokens|
    ensures var r := StepSize(terms, tokens, cap, index);
      if r == 0 then DoneUpTo(terms, tokens, cap, done, index + 1)
      else DoneUpTo(terms, tokens, cap, done + [Tile(index, r)], index + r)
  {}

  lemma StepMark(mask: seq<bool>, next: seq<bool>, done: seq<Tile>, index: nat, r: nat)
    requires MarkedUpTo(mask, done, index) && |next| == |mask| && index + r <= |mask|
    requires forall p :: 0 <= p < |mask| ==> next[p] == (mask[p] || index <= p < index + r)
    ensures MarkedUpTo(next, done + [Tile(index, r)], index + r)
  {
    var more := done + [Tile(index, r)];
    forall p | 0 <= p < |mask| ensures Covered(more, p) <==> Covered(done, p) || index <= p < index + r {
      if k :| 0 <= k < |done| && Covers(done[k], p) { assert Covers(more[k], p); }
      if index <= p < index + r { assert Covers(more[|done|], p); }
    }
  }

  /** Sets the mask under a new tile. */
  method Mark(mask: array<bool>, ghost done: seq<Tile>, index: nat, size: nat)
    requires MarkedUpTo(mask[..], done, index) && index + size <= mask.Length
    modifies mask
    ensures MarkedUpTo(mask[..], done + [Tile(index, size)], index + size)
  {
    for offset := 0 to size
      invariant forall p :: 0 <= p < mask.Length ==> mask[p] == (old(mask[p]) || index <= p < index + offset)
    {
      mask[index + offset] := true;
    }
    StepMark(old(mask[..]), mask[..], done, index, size);
  }

  /** The terms of the rows as joined strings, and the cap on their words. */
  method CollectTerms(rows: seq<Row>) returns (terms: set<string>, maxLength: nat)
    ensures terms == JoinedTerms(rows) && maxLength == Cap(rows)
  {
    hide Trim, Words;
    terms, maxLength := {}, 1;
    for k := 0 to |rows|
      invariant terms == JoinedTerms(rows[..k])
      invariant maxLength == MostWords(rows[..k])
    {
      JoinedTermsSnoc(rows, k);
      var normalized := Trim(rows[k].normalized);
      if normalized == "" { continue; }
      terms := terms + {normalized};
      maxLength := Max(maxLength, |Words(normalized)|);
    }
    assert rows[..|rows|] == rows;
    maxLength := Max(1, Min(maxLength, MAX_TERM_WORDS));
  }

  /** The joined strings in `terms` stand for the tuples in `spelled`. */
  ghost predicate StandsFor(terms: set<string>, spelled: set<seq<string>>) {
    forall slice {:trigger Join(slice)} :: AllTokens(slice) ==> (Join(slice) in terms <==> slice in spelled)
  }

  lemma JoinedStandForSpelled(rows: seq<Row>)
    ensures StandsFor(JoinedTerms(rows), SpelledTerms(rows))
  {
    forall slice | AllTokens(slice) ensures Join(slice) in JoinedTerms(rows) <==> slice in SpelledTerms(rows) {
      WordsOfJoin(slice);
    }
  }

  /** The string-joined mask: the cover by the terms that some row spells with single spaces. */
  method BuildKnownMask(rows: seq<Row>, tokens: seq<string>) returns (mask: array<bool>)
    requires AllTokens(tokens)
    ensures fresh(mask)
    ensures IsMaskOf(mask[..], Cover(SpelledTerms(rows), tokens, Cap(rows), 0), |tokens|)
  {
    var terms, maxLength := CollectTerms(rows);
    JoinedStandForSpelled(rows);
    mask := WalkJoined(SpelledTerms(rows), terms, tokens, maxLength);
  }

  method WalkJoined(ghost spelled: set<seq<string>>, terms: set<string>, tokens: seq<string>, maxLength: nat)
    returns (mask: array<bool>)
    requires AllTokens(tokens) && StandsFor(terms, spelled)
    ensures fresh(mask)
    ensures IsMaskOf(mask[..], Cover(spelled, tokens, maxLength, 0), |tokens|)
  {
    mask := new bool[|tokens|](_ => false);
    ghost var done: seq<Tile> := [];
    var index := 0;
    while index < |tokens|
      invariant DoneUpTo(spelled, tokens, maxLength, done, index)
      invariant fresh(mask) && mask.Length == |tokens| && MarkedUpTo(mask[..], done, index)
      decreases |tokens| - index
    {
      var matchedLength := LongestJoined(spelled, terms, tokens, index, Min(maxLength, |tokens| - index));
      StepDone(spelled, tokens, maxLength, done, index);
      if matchedLength == 0 {
        index := index + 1;
      } else {
        Mark(mask, done, index, matchedLength);
        done := done + [Tile(index, matchedLength)];
        index := index + matchedLength;
      }
    }
    assert done == Cover(spelled, tokens, maxLength, 0);
  }

  /** The inner loop of the string-joined mask. */
  method LongestJoined(ghost spelled: set<seq<string>>, terms: set<string>, tokens: seq<string>, index: nat, limit: nat)
    returns (matched: nat)
    requires AllTokens(tokens) && StandsFor(terms, spelled)
    requires index + limit <= |tokens|
    ensures matched == LongestAt(spelled, tokens, index, limit)
  {
    var size := limit;
    while size >= 1
      invariant 0 <= size <= limit
      invariant LongestAt(spelled, tokens, index, limit) == LongestAt(spelled, tokens, index, size)
    {
      assert AllTokens(tokens[index..index + size]);
      if Join(tokens[index..index + size]) in terms { return size; }
      size := size - 1;
    }
    return 0;
  }

  /** The terms of the rows as token tuples, and the cap on their words. */
  method CollectTuples(rows: seq<Row>) returns (terms: set<seq<string>>, maxLength: nat)
    ensures terms == SplitTerms(rows) && maxLength == Cap(rows)
  {
    hide Trim, Words;
    terms, maxLength := {}, 1;
    for k := 0 to |rows|
      invariant terms == SplitTerms(rows[..k])
      invariant maxLength == MostWords(rows[..k])
    {
      JoinedTermsSnoc(rows, k);
      var normalized := Trim(rows[k].normalized);
      if normalized == "" { continue; }
      terms := terms + {Words(normalized)};
      maxLength := Max(maxLength, |Words(normalized)|);
    }
    assert rows[..|rows|] == rows;
    maxLength := Max(1, Min(maxLength, MAX_TERM_WORDS));
  }

  /** The tuple mask: the cover by all the rows' terms. */
  method BuildKnownMaskTuples(rows: seq<Row>, tokens: seq<string>) returns (mask: array<bool>)
    ensures fresh(mask)
    ensures IsMaskOf(mask[..], Cover(SplitTerms(rows), tokens, Cap(rows), 0), |tokens|)
  {
    var terms, maxLength := CollectTuples(rows);
    mask := WalkTuples(terms, tokens, maxLength);
  }

  method WalkTuples(terms: set<seq<string>>, tokens: seq<string>, maxLength: nat) returns (mask: array<bool>)
    ensures fresh(mask)
    ensures IsMaskOf(mask[..], Cover(terms, tokens, maxLength, 0), |tokens|)
  {
    mask := new bool[|tokens|](_ => false);
    ghost var done: seq<Tile> := [];
    var index := 0;
    while index < |tokens|
      invariant DoneUpTo(terms, tokens, maxLength, done, index)
      invariant fresh(mask) && mask.Length == |tokens| && MarkedUpTo(mask[..], done, index)
      decreases |tokens| - index
    {
      var bestSize := LongestTuple(terms, tokens, index, Min(maxLength, |tokens| - index));
      StepDone(terms, tokens, maxLength, done, index);
      if bestSize == 0 {
        index := index + 1;
      } else {
        Mark(mask, done, index, bestSize);
        done := done + [Tile(index, bestSize)];
        index := index + bestSize;
      }
    }
    assert done == Cover(terms, tokens, maxLength, 0);
  }

  method LongestTuple(terms: set<seq<string>>, tokens: seq<string>, index: nat, limit: nat) returns (best: nat)
    requires index + limit <= |tokens|
    ensures best == LongestAt(terms, tokens, index, limit)
  {
    var size := limit;
    while size >= 1
      invariant 0 <= size <= limit
      invariant LongestAt(terms, tokens, index, limit) == LongestAt(terms, tokens, index, size)
    {
      if tokens[index..index + size] in terms { return size; }
      size := size - 1;
    }
    return 0;
  }
}
