/**
 The string mask and the tuple mask on the same tokens: when the two walks tile a text alike, and when they mark
 the same tokens although they tile it differently.
 */
module TwinMasks {
  import opened Common
  import opened KnownMask
  import opened Text

  // ----- when the tilings are the same -----

  /** Every term short enough to match is spelled with single spaces by some row. */
  ghost predicate SingleSpaced(rows: seq<Row>) {
    forall t :: t in JoinedTerms(rows) && |Words(t)| <= MAX_TERM_WORDS ==> Join(Words(t)) in JoinedTerms(rows)
  }

  lemma {:induction false} SameLongest(xs: set<seq<string>>, ys: set<seq<string>>, tokens: seq<string>, cap: nat,
          p: nat, size: nat)
    requires forall t :: |t| <= cap ==> (t in xs <==> t in ys)
    requires p + size <= |tokens| && size <= cap
    ensures LongestAt(xs, tokens, p, size) == LongestAt(ys, tokens, p, size)
  {
    if size == 0 {
    } else {
      SameLongest(xs, ys, tokens, cap, p, size - 1);
    }
  }

  lemma {:induction false} SameCover(xs: set<seq<string>>, ys: set<seq<string>>, tokens: seq<string>, cap: nat, p: nat)
    requires forall t :: |t| <= cap ==> (t in xs <==> t in ys)
    requires p <= |tokens|
    ensures Cover(xs, tokens, cap, p) == Cover(ys, tokens, cap, p)
    decreases |tokens| - p
  {
    hide LongestAt;
    if p == |tokens| {
    } else {
      SameLongest(xs, ys, tokens, cap, p, Min(cap, |tokens| - p));
      var r := StepSize(xs, tokens, cap, p);
      SameCover(xs, ys, tokens, cap, if r == 0 then p + 1 else p + r);
    }
  }

  lemma ShortTermsAgree(rows: seq<Row>)
    requires SingleSpaced(rows)
    ensures forall t :: |t| <= MAX_TERM_WORDS ==> (t in SpelledTerms(rows) <==> t in SplitTerms(rows))
  {
    forall t | |t| <= MAX_TERM_WORDS && t in SplitTerms(rows) ensures t in SpelledTerms(rows) {
      var s :| s in JoinedTerms(rows) && t == Words(s);
      WordsOfJoin(t);
      assert Join(t) in JoinedTerms(rows);
    }
  }

  /** On the same tokens and single-spaced terms the string mask and the tuple mask are the same. */
  lemma TwinMasksAgree(rows: seq<Row>, tokens: seq<string>, mask: seq<bool>, twin: seq<bool>)
    requires SingleSpaced(rows)
    requires IsMaskOf(mask, Cover(SpelledTerms(rows), tokens, Cap(rows), 0), |tokens|)
    requires IsMaskOf(twin, Cover(SplitTerms(rows), tokens, Cap(rows), 0), |tokens|)
    ensures mask == twin
  {
    ShortTermsAgree(rows);
    SameCover(SpelledTerms(rows), SplitTerms(rows), tokens, Cap(rows), 0);
  }

  ghost predicate TilingsAgreeOn(rows: seq<Row>, tokens: seq<string>) {
    Cover(SpelledTerms(rows), tokens, Cap(rows), 0) == Cover(SplitTerms(rows), tokens, Cap(rows), 0)
  }

  lemma TermRoom(rows: seq<Row>, t: string)
    requires t in JoinedTerms(rows) && |Words(t)| <= MAX_TERM_WORDS
    ensures 1 <= |Words(t)| <= Cap(rows) && Words(t) in SplitTerms(rows)
  {}

  lemma NotSpelled(rows: seq<Row>, ws: seq<string>)
    requires Join(ws) !in JoinedTerms(rows)
    ensures ws !in SpelledTerms(rows)
  {
    hide JoinedTerms, Join, Words;
  }

  /** A short term that no row spells with single spaces is one tile of its own words for the tuple walk only. */
  lemma OddTermDiffers(rows: seq<Row>, t: string)
    requires t in JoinedTerms(rows) && |Words(t)| <= MAX_TERM_WORDS && Join(Words(t)) !in JoinedTerms(rows)
    ensures Cover(SplitTerms(rows), Words(t), Cap(rows), 0) == [Tile(0, |Words(t)|)]
    ensures !TilingsAgreeOn(rows, Words(t))
  {
    hide Join, Words, JoinedTerms, SplitTerms, SpelledTerms, Cap, Cover;
    var tokens, cap := Words(t), Cap(rows);
    var n := |tokens|;
    TermRoom(rows, t);
    NotSpelled(rows, tokens);
    assert tokens[0..n] == tokens;
    CoverIsCover(SplitTerms(rows), tokens, cap, 0);
    CoverIsCover(SpelledTerms(rows), tokens, cap, 0);
    var tiles := Cover(SplitTerms(rows), tokens, cap, 0);
    FirstTile(SplitTerms(rows), tokens, cap, 0, tiles, n);
    assert IsLongestTerm(SplitTerms(rows), tokens, cap, tiles[0]) && tiles[0] == Tile(0, n);
    TailIsCover(SplitTerms(rows), tokens, cap, 0, tiles);
    NoRoom(SplitTerms(rows), tokens, cap, tiles[1..]);
    assert tiles == [tiles[0]] + tiles[1..];
    assert !IsLongestTerm(SpelledTerms(rows), tokens, cap, Tile(0, n));
  }

  /**
   The twins tile every text alike exactly when the short terms are single-spaced. (Different tilings may still
   give the same mask: see below.)
   */
  lemma TilingsAgreeIff(rows: seq<Row>)
    ensures SingleSpaced(rows) <==> forall tokens :: AllTokens(tokens) ==> TilingsAgreeOn(rows, tokens)
  {
    if SingleSpaced(rows) {
      forall tokens | AllTokens(tokens) ensures TilingsAgreeOn(rows, tokens) {
        ShortTermsAgree(rows);
        SameCover(SpelledTerms(rows), SplitTerms(rows), tokens, Cap(rows), 0);
      }
    } else {
      var t :| t in JoinedTerms(rows) && |Words(t)| <= MAX_TERM_WORDS && Join(Words(t)) !in JoinedTerms(rows);
      OddTermDiffers(rows, t);
      assert AllTokens(Words(t));
    }
  }

  lemma DoubleSpaceWords()
    ensures Trim("a  b") == "a  b" && Words("a  b") == ["a", "b"] && Join(["a", "b"]) != "a  b"
  {
    TokenEndOf("a", "  b");
    assert "a" + "  b" == "a  b";
    assert "a  b"[..1] == "a" && "a  b"[1..] == "  b";
    assert "  b"[1..] == " b" && " b"[1..] == "b";
    WordsOfToken("b");
    assert Words("  b") == Words(" b") == Words("b");
    assert |Join(["a", "b"])| == 3;
  }

  lemma DoubleSpaceTerms(rows: seq<Row>)
    requires rows == [Row(1, "a  b")]
    ensures JoinedTerms(rows) == {"a  b"} && Cap(rows) == 2
  {
    DoubleSpaceWords();
    hide Trim, Words;
    assert rows[0] in rows;
    assert rows[..0] == [] && rows[|rows| - 1] == Row(1, "a  b");
    assert MostWords([]) == 1 && MostWords(rows) == 2;
  }

  /** A doubly spaced term is known to the tuple mask only. */
  lemma DoubleSpaceDiffers(rows: seq<Row>, tokens: seq<string>)
    requires rows == [Row(1, "a  b")] && tokens == ["a", "b"]
    ensures Cover(SpelledTerms(rows), tokens, Cap(rows), 0) == []
    ensures Cover(SplitTerms(rows), tokens, Cap(rows), 0) == [Tile(0, 2)]
  {
    DoubleSpaceTerms(rows);
    DoubleSpaceWords();
    hide Trim, Words, JoinedTerms, Cap;
    assert SpelledTerms(rows) == {} && SplitTerms(rows) == {tokens};
    hide SpelledTerms, SplitTerms;
    PairCovers(tokens);
  }

  lemma PairCovers(tokens: seq<string>)
    requires |tokens| == 2
    ensures Cover({}, tokens, 2, 0) == [] && Cover({tokens}, tokens, 2, 0) == [Tile(0, 2)]
  {
    assert tokens[0..2] == tokens;
    assert Cover({tokens}, tokens, 2, 2) == [];
    assert Cover({}, tokens, 2, 1) == Cover({}, tokens, 2, 2) == [];
  }

  // ----- masks, read off the rest of the text -----

  function Trues(n: nat): seq<bool> { seq(n, _ => true) }

  function Front(terms: set<seq<string>>, rest: seq<string>, cap: nat): (r: nat)
    ensures r <= cap && r <= |rest|
  {
    if rest == [] then 0 else StepSize(terms, rest, cap, 0)
  }

  /** The mask of a walk over the rest of a text. */
  function WalkMask(terms: set<seq<string>>, rest: seq<string>, cap: nat): (m: seq<bool>)
    ensures |m| == |rest|
    decreases |rest|
  {
    if rest == [] then []
    else
      var r := Front(terms, rest, cap);
      if r == 0 then [false] + WalkMask(terms, rest[1..], cap) else Trues(r) + WalkMask(terms, rest[r..], cap)
  }

  lemma {:induction false} LongestShift(terms: set<seq<string>>, tokens: seq<string>, p: nat, size: nat)
    requires p + size <= |tokens|
    ensures LongestAt(terms, tokens[p..], 0, size) == LongestAt(terms, tokens, p, size)
  {
    assert tokens[p..][0..size] == tokens[p..p + size];
    if size == 0 {
    } else {
      LongestShift(terms, tokens, p, size - 1);
    }
  }

  lemma WalkMaskStep(terms: set<seq<string>>, tokens: seq<string>, cap: nat, p: nat)
    requires p < |tokens|
    ensures var r := StepSize(terms, tokens, cap, p);
      WalkMask(terms, tokens[p..], cap)
      == if r == 0 then [false] + WalkMask(terms, tokens[p + 1..], cap)
         else Trues(r) + WalkMask(terms, tokens[p + r..], cap)
  {
    LongestShift(terms, tokens, p, Min(cap, |tokens| - p));
    hide LongestAt;
    var r := StepSize(terms, tokens, cap, p);
    assert Front(terms, tokens[p..], cap) == r;
    assert tokens[p..][1..] == tokens[p + 1..] && tokens[p..][r..] == tokens[p + r..];
  }

  lemma CoverStep(terms: set<seq<string>>, tokens: seq<string>, cap: nat, p: nat, q: nat)
    requires p <= q < |tokens|
    ensures var r := StepSize(terms, tokens, cap, p);
      Covered(Cover(terms, tokens, cap, p), q)
      <==> q < p + r || Covered(Cover(terms, tokens, cap, if r == 0 then p + 1 else p + r), q)
  {
    hide StepSize, LongestAt;
    var r := StepSize(terms, tokens, cap, p);
    if r > 0 {
      var rest := Cover(terms, tokens, cap, p + r);
      assert ([Tile(p, r)] + rest)[1..] == rest;
      hide Covered;
      CoveredTail([Tile(p, r)] + rest, q);
    }
  }

  /** The walk's mask is the mask of its tiles. */
  lemma {:induction false} WalkMaskIs(terms: set<seq<string>>, tokens: seq<string>, cap: nat, p: nat, q: nat)
    requires p <= q < |tokens|
    ensures WalkMask(terms, tokens[p..], cap)[q - p] <==> Covered(Cover(terms, tokens, cap, p), q)
    decreases |tokens| - p
  {
    hide WalkMask, StepSize, LongestAt, Cover, Covered;
    WalkMaskStep(terms, tokens, cap, p);
    CoverStep(terms, tokens, cap, p, q);
    var r := StepSize(terms, tokens, cap, p);
    if r == 0 && q == p {
      NotBefore(terms, tokens, cap, p + 1, p);
    } else if q >= p + r {
      WalkMaskIs(terms, tokens, cap, if r == 0 then p + 1 else p + r, q);
    }
  }

  lemma NotBefore(terms: set<seq<string>>, tokens: seq<string>, cap: nat, from: nat, p: nat)
    requires p < from <= |tokens|
    ensures !Covered(Cover(terms, tokens, cap, from), p)
  {
    hide Cover;
    CoverIsCover(terms, tokens, cap, from);
  }

  lemma MaskIsWalkMask(terms: set<seq<string>>, tokens: seq<string>, cap: nat, mask: seq<bool>)
    ensures IsMaskOf(mask, Cover(terms, tokens, cap, 0), |tokens|) <==> mask == WalkMask(terms, tokens, cap)
  {
    hide Cover, WalkMask, Covered;
    assert tokens[0..] == tokens;
    forall q | 0 <= q < |tokens| ensures WalkMask(terms, tokens, cap)[q] <==> Covered(Cover(terms, tokens, cap, 0), q) {
      WalkMaskIs(terms, tokens, cap, 0, q);
    }
  }

  /** The two masks of a text are the same. */
  ghost predicate MasksAgreeOn(rows: seq<Row>, tokens: seq<string>) {
    WalkMask(SpelledTerms(rows), tokens, Cap(rows)) == WalkMask(SplitTerms(rows), tokens, Cap(rows))
  }

  /** That is: any two results of the two implementations are equal. */
  lemma MasksAgreeMeans(rows: seq<Row>, tokens: seq<string>, mask: seq<bool>, twin: seq<bool>)
    requires IsMaskOf(mask, Cover(SpelledTerms(rows), tokens, Cap(rows), 0), |tokens|)
    requires IsMaskOf(twin, Cover(SplitTerms(rows), tokens, Cap(rows), 0), |tokens|)
    ensures mask == twin <==> MasksAgreeOn(rows, tokens)
  {
    MaskIsWalkMask(SpelledTerms(rows), tokens, Cap(rows), mask);
    MaskIsWalkMask(SplitTerms(rows), tokens, Cap(rows), twin);
  }

  /**
   On its own words, a short term that no row spells with single spaces makes the masks differ if and only if the
   spelled terms leave one of the words uncovered.
   */
  lemma OddTermMasks(rows: seq<Row>, t: string)
    requires t in JoinedTerms(rows) && |Words(t)| <= MAX_TERM_WORDS && Join(Words(t)) !in JoinedTerms(rows)
    ensures MasksAgreeOn(rows, Words(t))
       <==> forall p :: 0 <= p < |Words(t)| ==> Covered(Cover(SpelledTerms(rows), Words(t), Cap(rows), 0), p)
  {
    hide Join, Words, JoinedTerms, SplitTerms, SpelledTerms, Cap, Cover, WalkMask;
    var tokens, cap := Words(t), Cap(rows);
    OddTermDiffers(rows, t);
    var mask, twin := WalkMask(SpelledTerms(rows), tokens, cap), WalkMask(SplitTerms(rows), tokens, cap);
    MaskIsWalkMask(SpelledTerms(rows), tokens, cap, mask);
    MaskIsWalkMask(SplitTerms(rows), tokens, cap, twin);
    forall p | 0 <= p < |tokens| ensures twin[p] {
      assert Covers([Tile(0, |tokens|)][0], p);
    }
  }

  /** Every word of a term is a term itself. */
  ghost predicate WordsAreTerms(terms: set<seq<string>>) { forall t, w :: t in terms && w in t ==> [w] in terms }

  lemma TileWord(terms: set<seq<string>>, tokens: seq<string>, cap: nat, t: Tile, q: nat)
    requires WordsAreTerms(terms) && IsLongestTerm(terms, tokens, cap, t) && Covers(t, q)
    ensures q < |tokens| && [tokens[q]] in terms
  {
    assert tokens[t.start..t.start + t.size][q - t.start] == tokens[q];
  }

  /** Then the known tokens are exactly the words of terms. */
  lemma VocabularyMask(terms: set<seq<string>>, tokens: seq<string>, cap: nat, q: nat)
    requires cap >= 1 && q < |tokens| && WordsAreTerms(terms)
    ensures Covered(Cover(terms, tokens, cap, 0), q) <==> [tokens[q]] in terms
  {
    hide Cover, WordsAreTerms, IsLongestTerm;
    CoverIsCover(terms, tokens, cap, 0);
    var tiles := Cover(terms, tokens, cap, 0);
    if k :| 0 <= k < |tiles| && Covers(tiles[k], q) { TileWord(terms, tokens, cap, tiles[k], q); }
    hide Covered;
    assert tokens[q..q + 1] == [tokens[q]];
    assert [tokens[q]] in terms ==> OccursAt(terms, tokens, q, 1);
  }

  lemma SameVocabulary(xs: set<seq<string>>, ys: set<seq<string>>, tokens: seq<string>, cap: nat)
    requires cap >= 1 && WordsAreTerms(xs) && WordsAreTerms(ys) && forall w :: [w] in xs <==> [w] in ys
    ensures WalkMask(xs, tokens, cap) == WalkMask(ys, tokens, cap)
  {
    hide Cover, Covered, WalkMask, WordsAreTerms;
    var x, y := WalkMask(xs, tokens, cap), WalkMask(ys, tokens, cap);
    MaskIsWalkMask(xs, tokens, cap, x);
    MaskIsWalkMask(ys, tokens, cap, y);
    forall q | 0 <= q < |tokens| ensures x[q] == y[q] {
      VocabularyMask(xs, tokens, cap, q);
      VocabularyMask(ys, tokens, cap, q);
    }
  }

  lemma AlikeWords()
    ensures Trim("a") == "a" && Trim("b") == "b" && Trim("a  b") == "a  b"
    ensures Words("a") == ["a"] && Words("b") == ["b"] && Words("a  b") == ["a", "b"]
    ensures Join(["a"]) == "a" && Join(["b"]) == "b" && |Join(["a", "b"])| == 3
  {
    DoubleSpaceWords();
    WordsOfToken("a");
    WordsOfToken("b");
  }

  lemma AlikeJoined(rows: seq<Row>)
    requires rows == [Row(1, "a"), Row(2, "b"), Row(3, "a  b")]
    ensures JoinedTerms(rows) == {"a", "b", "a  b"}
  {
    AlikeWords();
    hide Trim, Words, Join;
    assert rows[0] in rows && rows[1] in rows && rows[2] in rows;
  }

  lemma ThreeSplit(rows: seq<Row>, x: string, y: string, z: string)
    requires JoinedTerms(rows) == {x, y, z}
    ensures SplitTerms(rows) == {Words(x), Words(y), Words(z)}
  {
    hide Trim, Words, JoinedTerms;
    assert x in JoinedTerms(rows) && y in JoinedTerms(rows) && z in JoinedTerms(rows);
    forall w | w in SplitTerms(rows) ensures w in {Words(x), Words(y), Words(z)} {
      var t :| t in JoinedTerms(rows) && w == Words(t);
    }
  }

  lemma TwoSpelled(rows: seq<Row>, x: string, y: string, z: string)
    requires JoinedTerms(rows) == {x, y, z}
    requires Join(Words(x)) == x && Join(Words(y)) == y && Join(Words(z)) != z
    ensures SpelledTerms(rows) == {Words(x), Words(y)}
  {
    hide Trim, Words, Join, JoinedTerms;
    assert x in JoinedTerms(rows) && y in JoinedTerms(rows);
    forall w | w in SpelledTerms(rows) ensures w in {Words(x), Words(y)} {
      var t :| t in JoinedTerms(rows) && t == Join(Words(t)) && w == Words(t);
    }
  }

  lemma AlikeTerms(rows: seq<Row>)
    requires rows == [Row(1, "a"), Row(2, "b"), Row(3, "a  b")]
    ensures SpelledTerms(rows) == {["a"], ["b"]} && SplitTerms(rows) == {["a"], ["b"], ["a", "b"]}
  {
    AlikeWords();
    AlikeJoined(rows);
    assert |"a"| == |"b"| == 1 && |"a  b"| == 4;
    hide Trim, Words, Join, JoinedTerms;
    ThreeSplit(rows, "a", "b", "a  b");
    TwoSpelled(rows, "a", "b", "a  b");
  }

  lemma AlikeIsUnspaced(rows: seq<Row>)
    requires rows == [Row(1, "a"), Row(2, "b"), Row(3, "a  b")]
    ensures !SingleSpaced(rows)
  {
    AlikeWords();
    AlikeJoined(rows);
    assert |"a"| == |"b"| == 1 && |"a  b"| == 4;
    hide Trim, Words, Join, JoinedTerms;
    assert "a  b" in JoinedTerms(rows) && Join(["a", "b"]) !in JoinedTerms(rows);
  }

  lemma AlikeVocabulary(xs: set<seq<string>>, ys: set<seq<string>>)
    requires xs == {["a"], ["b"]} && ys == {["a"], ["b"], ["a", "b"]}
    ensures WordsAreTerms(xs) && WordsAreTerms(ys) && forall w :: [w] in xs <==> [w] in ys
  {}

  lemma CapIsPositive(rows: seq<Row>)
    ensures Cap(rows) >= 1
  {
    hide MostWords;
  }

  /**
   So single spacing is not needed for the masks: with rows `a`, `b`, and both with two blanks between them, they
   agree on every text.
   */
  lemma AlikeThoughUnspaced(rows: seq<Row>, tokens: seq<string>)
    requires rows == [Row(1, "a"), Row(2, "b"), Row(3, "a  b")]
    ensures !SingleSpaced(rows) && MasksAgreeOn(rows, tokens)
  {
    hide SpelledTerms, SplitTerms, SingleSpaced, WalkMask, WordsAreTerms, JoinedTerms, Cap, Words, Join, Trim;
    AlikeTerms(rows);
    AlikeIsUnspaced(rows);
    AlikeVocabulary(SpelledTerms(rows), SplitTerms(rows));
    CapIsPositive(rows);
    SameVocabulary(SpelledTerms(rows), SplitTerms(rows), tokens, Cap(rows));
  }

  // ----- when the masks are the same on every text -----

  /** The words of the rows' terms. */
  function RowWords(rows: seq<Row>): set<string> {
    set t, w | t in SplitTerms(rows) && w in t :: w
  }

  /** The two walks of a row list, and the tokens of the texts they walk over. */
  datatype Twins = Twins(spelled: set<seq<string>>, split: set<seq<string>>, cap: nat, alphabet: set<string>)

  /** Besides the words of the terms, one further token stands for all the others. */
  function TwinsOf(rows: seq<Row>, other: string): Twins {
    Twins(SpelledTerms(rows), SplitTerms(rows), Cap(rows), RowWords(rows) + {other})
  }

  predicate Over(tw: Twins, s: seq<string>) { forall i :: 0 <= i < |s| ==> s[i] in tw.alphabet }

  /** All texts of at most `n` tokens. */
  function Texts(alphabet: set<string>, n: nat): set<seq<string>> {
    if n == 0 then {[]} else {[]} + set w, s | w in alphabet && s in Texts(alphabet, n - 1) :: [w] + s
  }

  lemma {:induction false} TextsAre(tw: Twins, n: nat, s: seq<string>)
    ensures s in Texts(tw.alphabet, n) <==> |s| <= n && Over(tw, s)
  {
    if n == 0 || s == [] {
    } else {
      TextsAre(tw, n - 1, s[1..]);
      assert s == [s[0]] + s[1..];
      if s in Texts(tw.alphabet, n) {
        var w, r :| w in tw.alphabet && r in Texts(tw.alphabet, n - 1) && s == [w] + r;
        assert s[1..] == r;
      }
    }
  }

  /** The terms of the walk that is behind, when the other one is ahead. */
  function Behind(tw: Twins, splitAhead: bool): set<seq<string>> { if splitAhead then tw.spelled else tw.split }

  /** The walk behind marks the next `lag` tokens, and then goes on like the walk that is ahead. */
  ghost predicate Even(tw: Twins, splitAhead: bool, rest: seq<string>, lag: nat)
    requires lag <= |rest|
  {
    WalkMask(Behind(tw, splitAhead), rest, tw.cap)
        == Trues(lag) + WalkMask(Behind(tw, !splitAhead), rest[lag..], tw.cap)
  }

  function Take(s: seq<string>, n: nat): seq<string> { if n <= |s| then s[..n] else s }

  /** One walk is `lag` tokens ahead; `window` is as much of the text as decides the next step. */
  datatype Race = Race(splitAhead: bool, lag: nat, window: seq<string>)

  function RaceAt(tw: Twins, splitAhead: bool, rest: seq<string>, lag: nat): Race {
    Race(splitAhead, lag, Take(rest, lag + tw.cap))
  }

  /** Where both walks are at the same place: both mark nothing there, or the race that follows is among `races`. */
  predicate StartOk(tw: Twins, rest: seq<string>, races: set<Race>) {
    var s := Front(tw.split, rest, tw.cap);
    if s == 0 then Front(tw.spelled, rest, tw.cap) == 0 else RaceAt(tw, true, rest, s) in races
  }

  /** The walk behind marks something, and draws level, stays behind or gets ahead in a race among `races`. */
  predicate StepOk(tw: Twins, splitAhead: bool, rest: seq<string>, lag: nat, races: set<Race>)
    requires lag <= |rest|
  {
    var r := Front(Behind(tw, splitAhead), rest, tw.cap);
    && r > 0
    && (r < lag ==> RaceAt(tw, splitAhead, rest[r..], lag - r) in races)
    && (r > lag ==> RaceAt(tw, !splitAhead, rest[lag..], r - lag) in races)
  }

  /** The races that there are: finitely many. */
  function AllRaces(tw: Twins): set<Race> {
    set splitAhead: bool, lag, window | 0 <= lag <= tw.cap && window in Texts(tw.alphabet, 2 * tw.cap) ::
      Race(splitAhead, lag, window)
  }

  /** The races are closed: a local condition, on the finitely many texts of at most twice the length cap. */
  predicate Closed(tw: Twins, races: set<Race>) {
    && (forall rest | rest in Texts(tw.alphabet, 2 * tw.cap) :: StartOk(tw, rest, races))
    && (forall splitAhead: bool, rest, lag: nat | rest in Texts(tw.alphabet, 2 * tw.cap) && 0 < lag <= |rest| ::
          RaceAt(tw, splitAhead, rest, lag) in races ==> StepOk(tw, splitAhead, rest, lag, races))
  }

  /** Some set of races is closed: a finite search, from the rows alone. */
  predicate HasClosedRaces(tw: Twins) {
    exists races | races <= AllRaces(tw) :: Closed(tw, races)
  }

  lemma RaceIsListed(tw: Twins, splitAhead: bool, rest: seq<string>, lag: nat)
    requires Over(tw, rest) && lag <= tw.cap
    ensures RaceAt(tw, splitAhead, rest, lag) in AllRaces(tw)
  {
    TextsAre(tw, 2 * tw.cap, Take(rest, lag + tw.cap));
  }

  /** A walk decides by the next `cap` tokens. */
  lemma FrontLooks(terms: set<seq<string>>, x: seq<string>, y: seq<string>, cap: nat)
    requires Take(x, cap) == Take(y, cap)
    ensures Front(terms, x, cap) == Front(terms, y, cap)
  {
    assert x == [] || cap == 0 <==> y == [] || cap == 0;
    if x != [] && y != [] { LongestLooks(terms, x, y, Min(cap, |x|)); }
  }

  lemma {:induction false} LongestLooks(terms: set<seq<string>>, x: seq<string>, y: seq<string>, size: nat)
    requires size <= |x| && size <= |y| && x[..size] == y[..size]
    ensures LongestAt(terms, x, 0, size) == LongestAt(terms, y, 0, size)
  {
    assert x[0..size] == x[..size] && y[0..size] == y[..size];
    if size == 0 {
    } else {
      assert x[..size - 1] == x[..size][..size - 1] && y[..size - 1] == y[..size][..size - 1];
      LongestLooks(terms, x, y, size - 1);
    }
  }

  lemma TruesSplit(m: nat, n: nat)
    ensures Trues(m) + Trues(n) == Trues(m + n)
  {}

  /** Where both walks are at the same place. */
  lemma EvenStart(tw: Twins, rest: seq<string>)
    ensures var s := Front(tw.split, rest, tw.cap);
      Even(tw, true, rest, 0) <==>
      if rest == [] then true
      else if s == 0 then Front(tw.spelled, rest, tw.cap) == 0 && Even(tw, true, rest[1..], 0)
      else Even(tw, true, rest, s)
  {
    hide Front;
    if rest != [] {
      var r, s := Front(tw.spelled, rest, tw.cap), Front(tw.split, rest, tw.cap);
      assert rest[0..] == rest && rest[1..][0..] == rest[1..];
      if s == 0 {
        assert WalkMask(tw.split, rest, tw.cap)[0] == false;
        assert r > 0 ==> WalkMask(tw.spelled, rest, tw.cap)[0] == true;
        SameTail([false], WalkMask(tw.spelled, rest[1..], tw.cap), WalkMask(tw.split, rest[1..], tw.cap));
      }
    }
  }

  lemma SameTail(head: seq<bool>, x: seq<bool>, y: seq<bool>)
    ensures head + x == head + y <==> x == y
  {
    assert (head + x)[|head|..] == x && (head + y)[|head|..] == y;
  }

  /** Where one walk is ahead: the other one marks nothing, */
  lemma EvenStuck(tw: Twins, splitAhead: bool, rest: seq<string>, lag: nat)
    requires 0 < lag <= |rest| && Front(Behind(tw, splitAhead), rest, tw.cap) == 0
    ensures !Even(tw, splitAhead, rest, lag)
  {
    WalkMaskFront(Behind(tw, splitAhead), rest, tw.cap);
    TruesAre(lag);
    hide Front, Trues, Behind, WalkMask;
  }

  /** draws level or stays behind, */
  lemma EvenWithin(tw: Twins, splitAhead: bool, rest: seq<string>, lag: nat, r: nat)
    requires 0 < r <= lag <= |rest| && Front(Behind(tw, splitAhead), rest, tw.cap) == r
    ensures Even(tw, splitAhead, rest, lag) <==> Even(tw, splitAhead, rest[r..], lag - r)
  {
    WalkMaskFront(Behind(tw, splitAhead), rest, tw.cap);
    hide Front, Trues, Behind, WalkMask;
    assert rest[r..][lag - r..] == rest[lag..];
    CatchUp(WalkMask(Behind(tw, splitAhead), rest[r..], tw.cap),
        WalkMask(Behind(tw, !splitAhead), rest[lag..], tw.cap), r, lag);
  }

  /** or gets ahead. */
  lemma EvenBeyond(tw: Twins, splitAhead: bool, rest: seq<string>, lag: nat, r: nat)
    requires 0 < lag < r <= |rest| && Front(Behind(tw, splitAhead), rest, tw.cap) == r
    ensures Even(tw, splitAhead, rest, lag) <==> Even(tw, !splitAhead, rest[lag..], r - lag)
  {
    WalkMaskFront(Behind(tw, splitAhead), rest, tw.cap);
    hide Front, Trues, Behind, WalkMask;
    assert rest[lag..][r - lag..] == rest[r..] && !!splitAhead == splitAhead;
    CatchUp(WalkMask(Behind(tw, !splitAhead), rest[lag..], tw.cap),
        WalkMask(Behind(tw, splitAhead), rest[r..], tw.cap), lag, r);
  }

  lemma EvenStep(tw: Twins, splitAhead: bool, rest: seq<string>, lag: nat)
    requires 0 < lag <= |rest|
    ensures var r := Front(Behind(tw, splitAhead), rest, tw.cap);
      Even(tw, splitAhead, rest, lag) <==>
      r > 0 && (if r <= lag then Even(tw, splitAhead, rest[r..], lag - r)
          else Even(tw, !splitAhead, rest[lag..], r - lag))
  {
    hide Front, Behind, Even;
    var r := Front(Behind(tw, splitAhead), rest, tw.cap);
    if r == 0 {
      EvenStuck(tw, splitAhead, rest, lag);
    } else if r <= lag {
      EvenWithin(tw, splitAhead, rest, lag, r);
    } else {
      EvenBeyond(tw, splitAhead, rest, lag, r);
    }
  }

  lemma TruesAre(n: nat)
    ensures |Trues(n)| == n && forall k :: 0 <= k < n ==> Trues(n)[k]
  {}

  lemma WalkMaskFront(terms: set<seq<string>>, rest: seq<string>, cap: nat)
    requires rest != []
    ensures var r := Front(terms, rest, cap);
      if r == 0 then !WalkMask(terms, rest, cap)[0]
      else WalkMask(terms, rest, cap) == Trues(r) + WalkMask(terms, rest[r..], cap)
  {
    hide Front;
  }

  /** Taking the marks of the shorter advance off both masks. */
  lemma CatchUp(x: seq<bool>, y: seq<bool>, m: nat, n: nat)
    requires m <= n
    ensures Trues(m) + x == Trues(n) + y <==> x == Trues(n - m) + y
  {
    TruesSplit(m, n - m);
    assert Trues(n) + y == Trues(m) + (Trues(n - m) + y);
    SameTail(Trues(m), x, Trues(n - m) + y);
  }

  // ----- the certificate is exact -----

  ghost predicate AlwaysEven(tw: Twins) {
    forall rest :: Over(tw, rest) ==> WalkMask(tw.spelled, rest, tw.cap) == WalkMask(tw.split, rest, tw.cap)
  }

  lemma EvenAtZero(tw: Twins, splitAhead: bool, rest: seq<string>)
    ensures Even(tw, splitAhead, rest, 0) <==> WalkMask(tw.spelled, rest, tw.cap) == WalkMask(tw.split, rest, tw.cap)
  {
    assert rest[0..] == rest;
    assert Trues(0) == [] && forall m: seq<bool> :: [] + m == m;
  }

  /** A text cut to twice the cap decides as the whole text does. */
  lemma CutFronts(tw: Twins, rest: seq<string>)
    ensures var cut := Take(rest, 2 * tw.cap);
      && Front(tw.spelled, cut, tw.cap) == Front(tw.spelled, rest, tw.cap)
      && Front(tw.split, cut, tw.cap) == Front(tw.split, rest, tw.cap)
  {
    hide Front;
    var cut := Take(rest, 2 * tw.cap);
    assert Take(cut, tw.cap) == Take(rest, tw.cap);
    FrontLooks(tw.spelled, cut, rest, tw.cap);
    FrontLooks(tw.split, cut, rest, tw.cap);
  }

  lemma CutRace(tw: Twins, splitAhead: bool, rest: seq<string>, n: nat, lag: nat)
    requires n <= |Take(rest, 2 * tw.cap)| && n + lag <= tw.cap
    ensures RaceAt(tw, splitAhead, Take(rest, 2 * tw.cap)[n..], lag) == RaceAt(tw, splitAhead, rest[n..], lag)
  {
    CutLater(rest, 2 * tw.cap, n, lag + tw.cap);
  }

  lemma CutLater(rest: seq<string>, size: nat, n: nat, m: nat)
    requires n <= |Take(rest, size)| && n + m <= size
    ensures n <= |rest| && Take(Take(rest, size)[n..], m) == Take(rest[n..], m)
  {}

  /** Along closed races the two walks mark the same tokens. */
  lemma {:induction false} ClosedIsEven(tw: Twins, races: set<Race>, splitAhead: bool, rest: seq<string>, lag: nat)
    requires Closed(tw, races) && Over(tw, rest) && lag <= |rest| && lag <= tw.cap
    requires lag == 0 || RaceAt(tw, splitAhead, rest, lag) in races
    ensures Even(tw, splitAhead, rest, lag)
    decreases |rest|, if lag == 0 then 1 else 0
  {
    hide Even, Front, RaceAt, Closed, Behind, Texts;
    if lag == 0 {
      EvenAtZero(tw, true, rest);
      EvenAtZero(tw, splitAhead, rest);
      EvenStart(tw, rest);
      if rest == [] {
      } else {
        var s := Front(tw.split, rest, tw.cap);
        StartFollows(tw, races, rest);
        if s == 0 { ClosedIsEven(tw, races, true, rest[1..], 0); } else { ClosedIsEven(tw, races, true, rest, s); }
      }
    } else {
      var r := Front(Behind(tw, splitAhead), rest, tw.cap);
      EvenStep(tw, splitAhead, rest, lag);
      StepFollows(tw, races, splitAhead, rest, lag);
      if r <= lag {
        ClosedIsEven(tw, races, splitAhead, rest[r..], lag - r);
      } else {
        ClosedIsEven(tw, races, !splitAhead, rest[lag..], r - lag);
      }
    }
  }

  lemma CutTokens(tw: Twins, rest: seq<string>, n: nat)
    requires Over(tw, rest)
    ensures |Take(rest, n)| <= n && Take(rest, n) in Texts(tw.alphabet, n)
  {
    TextsAre(tw, n, Take(rest, n));
  }

  lemma StartFollows(tw: Twins, races: set<Race>, rest: seq<string>)
    requires Closed(tw, races) && Over(tw, rest)
    ensures StartOk(tw, rest, races)
  {
    hide Front, RaceAt, Over, Take, StepOk, Texts;
    var cut := Take(rest, 2 * tw.cap);
    CutTokens(tw, rest, 2 * tw.cap);
    CutFronts(tw, rest);
    assert StartOk(tw, cut, races);
    var s := Front(tw.split, rest, tw.cap);
    CutRace(tw, true, rest, 0, s);
    assert cut[0..] == cut && rest[0..] == rest;
  }

  lemma StepFollows(tw: Twins, races: set<Race>, splitAhead: bool, rest: seq<string>, lag: nat)
    requires Closed(tw, races) && Over(tw, rest) && 0 < lag <= |rest| && lag <= tw.cap
    requires RaceAt(tw, splitAhead, rest, lag) in races
    ensures StepOk(tw, splitAhead, rest, lag, races)
  {
    hide Front, RaceAt, Over, StartOk, Texts;
    var cut := Take(rest, 2 * tw.cap);
    CutTokens(tw, rest, 2 * tw.cap);
    CutFronts(tw, rest);
    CutRace(tw, splitAhead, rest, 0, lag);
    assert cut[0..] == cut && rest[0..] == rest && lag <= |cut|;
    hide Take;
    assert StepOk(tw, splitAhead, cut, lag, races);
    hide Closed;
    var r := Front(Behind(tw, splitAhead), rest, tw.cap);
    if r < lag { CutRace(tw, splitAhead, rest, r, lag - r); }
    if r > lag { CutRace(tw, !splitAhead, rest, lag, r - lag); }
  }

  /** Whatever text goes on from the window, the two walks mark the same tokens. */
  ghost predicate Safe(tw: Twins, race: Race) {
    forall rest :: Over(tw, rest) && race.lag <= |rest| && Take(rest, race.lag + tw.cap) == race.window ==>
      Even(tw, race.splitAhead, rest, race.lag)
  }

  ghost function SafeRaces(tw: Twins): set<Race> { set race | race in AllRaces(tw) && race.lag > 0 && Safe(tw, race) }

  lemma SafeIsListed(tw: Twins, splitAhead: bool, rest: seq<string>, lag: nat)
    requires Over(tw, rest) && 0 < lag <= tw.cap && Safe(tw, RaceAt(tw, splitAhead, rest, lag))
    ensures RaceAt(tw, splitAhead, rest, lag) in SafeRaces(tw)
  {
    RaceIsListed(tw, splitAhead, rest, lag);
    hide AllRaces, Safe;
  }

  lemma TakeLess(x: seq<string>, y: seq<string>, m: nat, n: nat)
    requires Take(x, n) == Take(y, n) && m <= n
    ensures Take(x, m) == Take(y, m)
  {
    assert Take(Take(x, n), m) == Take(x, m) && Take(Take(y, n), m) == Take(y, m);
  }

  lemma TakeAfter(head: seq<string>, x: seq<string>, y: seq<string>, n: nat)
    requires Take(x, n) == Take(y, n)
    ensures Take(head + x, |head| + n) == Take(head + y, |head| + n)
  {
    assert Take(head + x, |head| + n) == head + Take(x, n) && Take(head + y, |head| + n) == head + Take(y, n);
  }

  lemma StartRaceIsSafe(tw: Twins, rest: seq<string>)
    requires AlwaysEven(tw) && Over(tw, rest) && Front(tw.split, rest, tw.cap) > 0
    ensures Safe(tw, RaceAt(tw, true, rest, Front(tw.split, rest, tw.cap)))
  {
    hide Front, Even, Over, Take;
    var s := Front(tw.split, rest, tw.cap);
    forall ys | Over(tw, ys) && s <= |ys| && Take(ys, s + tw.cap) == Take(rest, s + tw.cap)
      ensures Even(tw, true, ys, s)
    {
      TakeLess(ys, rest, tw.cap, s + tw.cap);
      FrontLooks(tw.split, ys, rest, tw.cap);
      EvenAtZero(tw, true, ys);
      EvenStart(tw, ys);
    }
  }

  lemma StartIsSafe(tw: Twins, rest: seq<string>)
    requires AlwaysEven(tw) && Over(tw, rest)
    ensures StartOk(tw, rest, SafeRaces(tw))
  {
    hide Front, Even, Over, Take, Texts, AllRaces, SafeRaces, Safe, RaceAt;
    var s := Front(tw.split, rest, tw.cap);
    EvenAtZero(tw, true, rest);
    EvenStart(tw, rest);
    if s > 0 {
      StartRaceIsSafe(tw, rest);
      SafeIsListed(tw, true, rest, s);
    } else if rest == [] {
      assert Front(tw.spelled, rest, tw.cap) <= |rest|;
    }
  }

  /** A safe race that goes on from the window can be spliced onto the text before it. */
  lemma SpliceIsEven(tw: Twins, splitAhead: bool, rest: seq<string>, lag: nat, head: nat, ys: seq<string>)
    requires Safe(tw, RaceAt(tw, splitAhead, rest, lag)) && Over(tw, rest) && Over(tw, ys)
    requires 0 < lag <= |rest| && head <= |rest| && lag <= head + |ys|
    requires exists n: nat :: lag + tw.cap <= head + n && Take(ys, n) == Take(rest[head..], n)
    ensures var zs := rest[..head] + ys;
      && Even(tw, splitAhead, zs, lag)
      && Front(Behind(tw, splitAhead), zs, tw.cap) == Front(Behind(tw, splitAhead), rest, tw.cap)
  {
    hide Front, Even, Take;
    var n: nat :| lag + tw.cap <= head + n && Take(ys, n) == Take(rest[head..], n);
    var zs := rest[..head] + ys;
    assert rest == rest[..head] + rest[head..];
    TakeAfter(rest[..head], ys, rest[head..], n);
    TakeLess(zs, rest, lag + tw.cap, head + n);
    TakeLess(zs, rest, tw.cap, head + n);
    FrontLooks(Behind(tw, splitAhead), zs, rest, tw.cap);
    assert Over(tw, zs);
  }

  lemma SafeWithin(tw: Twins, splitAhead: bool, rest: seq<string>, lag: nat, r: nat)
    requires Over(tw, rest) && 0 < r < lag <= |rest| && Safe(tw, RaceAt(tw, splitAhead, rest, lag))
    requires r == Front(Behind(tw, splitAhead), rest, tw.cap)
    ensures Safe(tw, RaceAt(tw, splitAhead, rest[r..], lag - r))
  {
    hide Front, Even, Over, Take, Behind;
    var n := lag - r + tw.cap;
    forall ys | Over(tw, ys) && lag - r <= |ys| && Take(ys, n) == Take(rest[r..], n)
      ensures Even(tw, splitAhead, ys, lag - r)
    {
      SpliceIsEven(tw, splitAhead, rest, lag, r, ys);
      EvenWithin(tw, splitAhead, rest[..r] + ys, lag, r);
      assert (rest[..r] + ys)[r..] == ys;
    }
  }

  lemma SafeBeyond(tw: Twins, splitAhead: bool, rest: seq<string>, lag: nat, r: nat)
    requires Over(tw, rest) && 0 < lag < r <= |rest| && Safe(tw, RaceAt(tw, splitAhead, rest, lag))
    requires r == Front(Behind(tw, splitAhead), rest, tw.cap)
    ensures Safe(tw, RaceAt(tw, !splitAhead, rest[lag..], r - lag))
  {
    hide Front, Even, Over, Take, Behind;
    var n := r - lag + tw.cap;
    forall ys | Over(tw, ys) && r - lag <= |ys| && Take(ys, n) == Take(rest[lag..], n)
      ensures Even(tw, !splitAhead, ys, r - lag)
    {
      SpliceIsEven(tw, splitAhead, rest, lag, lag, ys);
      EvenBeyond(tw, splitAhead, rest[..lag] + ys, lag, r);
      assert (rest[..lag] + ys)[lag..] == ys;
    }
  }

  lemma StepIsSafe(tw: Twins, splitAhead: bool, rest: seq<string>, lag: nat)
    requires Over(tw, rest) && 0 < lag <= |rest| && lag <= tw.cap && Safe(tw, RaceAt(tw, splitAhead, rest, lag))
    ensures StepOk(tw, splitAhead, rest, lag, SafeRaces(tw))
  {
    hide Front, Even, Take, Behind, Safe, RaceAt, AllRaces, SafeRaces;
    var r := Front(Behind(tw, splitAhead), rest, tw.cap);
    SafeIsEven(tw, splitAhead, rest, lag);
    EvenStep(tw, splitAhead, rest, lag);
    if r < lag { SafeWithin(tw, splitAhead, rest, lag, r); SafeIsListed(tw, splitAhead, rest[r..], lag - r); }
    if r > lag { SafeBeyond(tw, splitAhead, rest, lag, r); SafeIsListed(tw, !splitAhead, rest[lag..], r - lag); }
  }

  lemma SafeIsEven(tw: Twins, splitAhead: bool, rest: seq<string>, lag: nat)
    requires Over(tw, rest) && lag <= |rest| && Safe(tw, RaceAt(tw, splitAhead, rest, lag))
    ensures Even(tw, splitAhead, rest, lag)
  {
    hide Even, Over, Take;
  }

  lemma SafeIsSafe(tw: Twins, splitAhead: bool, rest: seq<string>, lag: nat)
    requires RaceAt(tw, splitAhead, rest, lag) in SafeRaces(tw)
    ensures 0 < lag <= tw.cap && Safe(tw, RaceAt(tw, splitAhead, rest, lag))
  {
    hide Safe, Texts, Take;
  }

  lemma SafeIsClosed(tw: Twins)
    requires AlwaysEven(tw)
    ensures HasClosedRaces(tw)
  {
    hide StartOk, StepOk, Safe, Take, AlwaysEven, Over, Texts, AllRaces, RaceAt;
    var races := SafeRaces(tw);
    forall rest | rest in Texts(tw.alphabet, 2 * tw.cap) ensures StartOk(tw, rest, races) {
      TextsAre(tw, 2 * tw.cap, rest);
      StartIsSafe(tw, rest);
    }
    forall splitAhead: bool, rest, lag: nat
      | rest in Texts(tw.alphabet, 2 * tw.cap) && 0 < lag <= |rest| && RaceAt(tw, splitAhead, rest, lag) in races
      ensures StepOk(tw, splitAhead, rest, lag, races)
    {
      TextsAre(tw, 2 * tw.cap, rest);
      SafeIsSafe(tw, splitAhead, rest, lag);
      StepIsSafe(tw, splitAhead, rest, lag);
    }
    assert Closed(tw, races) && races <= AllRaces(tw);
  }

  // ----- one further token stands for all the others -----

  /** The text with every token that is no word of a term replaced by `other`. */
  function Collapse(words: set<string>, other: string, tokens: seq<string>): (r: seq<string>)
    ensures |r| == |tokens|
  {
    seq(|tokens|, k requires 0 <= k < |tokens| => if tokens[k] in words then tokens[k] else other)
  }

  ghost predicate WordsWithin(terms: set<seq<string>>, words: set<string>) {
    forall t, w :: t in terms && w in t ==> w in words
  }

  lemma SliceCollapses(terms: set<seq<string>>, words: set<string>, other: string, s: seq<string>)
    requires WordsWithin(terms, words) && other !in words
    ensures Collapse(words, other, s) in terms <==> s in terms
  {
    var c := Collapse(words, other, s);
    if s in terms { assert c == s; }
    if c in terms {
      forall k | 0 <= k < |s| ensures c[k] == s[k] { assert c[k] in c; }
      assert c == s;
    }
  }

  lemma {:induction false} LongestCollapses(terms: set<seq<string>>, words: set<string>, other: string,
          s: seq<string>, size: nat)
    requires WordsWithin(terms, words) && other !in words && size <= |s|
    ensures LongestAt(terms, Collapse(words, other, s), 0, size) == LongestAt(terms, s, 0, size)
  {
    hide WordsWithin;
    if size == 0 {
    } else {
      LongestCollapses(terms, words, other, s, size - 1);
      SliceCollapses(terms, words, other, s[0..size]);
      assert Collapse(words, other, s)[0..size] == Collapse(words, other, s[0..size]);
    }
  }

  lemma {:induction false} MaskCollapses(terms: set<seq<string>>, words: set<string>, other: string,
          s: seq<string>, cap: nat)
    requires WordsWithin(terms, words) && other !in words
    ensures WalkMask(terms, Collapse(words, other, s), cap) == WalkMask(terms, s, cap)
    decreases |s|
  {
    hide WordsWithin, LongestAt;
    if s == [] {
    } else {
      LongestCollapses(terms, words, other, s, Min(cap, |s|));
      var r := Front(terms, s, cap);
      var n := if r == 0 then 1 else r;
      MaskCollapses(terms, words, other, s[n..], cap);
      assert Collapse(words, other, s)[n..] == Collapse(words, other, s[n..]);
      assert Front(terms, Collapse(words, other, s), cap) == r;
      hide Front, Collapse;
    }
  }

  lemma TermsWithin(rows: seq<Row>)
    ensures WordsWithin(SplitTerms(rows), RowWords(rows)) && WordsWithin(SpelledTerms(rows), RowWords(rows))
  {
    hide JoinedTerms, Words, Join;
    assert SpelledTerms(rows) <= SplitTerms(rows);
  }

  lemma WordsAreTokens(rows: seq<Row>, w: string)
    requires w in RowWords(rows)
    ensures IsToken(w)
  {
    var t :| t in JoinedTerms(rows) && w in Words(t);
  }

  /** Texts over the words of the terms and one further token decide whether the masks agree. */
  lemma AlphabetDecides(rows: seq<Row>, other: string)
    requires IsToken(other) && other !in RowWords(rows)
    ensures (forall tokens :: AllTokens(tokens) ==> MasksAgreeOn(rows, tokens)) <==> AlwaysEven(TwinsOf(rows, other))
  {
    hide RowWords, SplitTerms, SpelledTerms, Cap, WalkMask, IsToken;
    var tw, words := TwinsOf(rows, other), RowWords(rows);
    if AlwaysEven(tw) {
      forall tokens ensures MasksAgreeOn(rows, tokens) {
        var s := Collapse(words, other, tokens);
        assert Over(tw, s);
        TermsWithin(rows);
        MaskCollapses(tw.split, words, other, tokens, tw.cap);
        MaskCollapses(tw.spelled, words, other, tokens, tw.cap);
      }
    } else {
      var s :| Over(tw, s) && WalkMask(tw.spelled, s, tw.cap) != WalkMask(tw.split, s, tw.cap);
      forall k | 0 <= k < |s| ensures IsToken(s[k]) {
        if s[k] != other { WordsAreTokens(rows, s[k]); }
      }
      assert AllTokens(s) && !MasksAgreeOn(rows, s);
    }
  }

  lemma {:induction false} LongerToken(words: set<string>) returns (other: string)
    ensures IsToken(other) && forall w :: w in words ==> |w| < |other|
  {
    if words == {} {
      other := "x";
    } else {
      var w :| w in words;
      var rest := LongerToken(words - {w});
      other := seq(Max(|rest|, |w| + 1), _ => 'x');
    }
  }

  /** There always is a further token. */
  lemma FurtherToken(rows: seq<Row>) returns (other: string)
    ensures IsToken(other) && other !in RowWords(rows)
  {
    other := LongerToken(RowWords(rows));
  }

  /**
   The string mask and the tuple mask agree on every text if and only if there is a closed set of races: from
   every place where the walks are level, and in every race of the set, the walk behind keeps up. Both the races
   and the texts that the condition looks at are finitely many: at most twice the length cap of tokens, each of
   them a word of a term or the one further token `other`.
   */
  lemma MasksAgreeIff(rows: seq<Row>, other: string)
    requires IsToken(other) && other !in RowWords(rows)
    ensures (forall tokens :: AllTokens(tokens) ==> MasksAgreeOn(rows, tokens))
       <==> HasClosedRaces(TwinsOf(rows, other))
  {
    var tw := TwinsOf(rows, other);
    AlphabetDecides(rows, other);
    hide SpelledTerms, SplitTerms, Cap, WalkMask, Closed, Over, RowWords, IsToken, AllTokens, MasksAgreeOn, AllRaces;
    if HasClosedRaces(tw) {
      var races :| races <= AllRaces(tw) && Closed(tw, races);
      forall tokens | Over(tw, tokens)
        ensures WalkMask(tw.spelled, tokens, tw.cap) == WalkMask(tw.split, tokens, tw.cap)
      {
        ClosedIsEven(tw, races, true, tokens, 0);
        EvenAtZero(tw, true, tokens);
      }
    } else if AlwaysEven(tw) {
      SafeIsClosed(tw);
    }
  }
}
