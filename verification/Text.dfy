/** Words, single-space joining, trimming and decimal numerals, shared by the other modules. */
module Text {

  /** The blank characters: what the modelled code trims and splits on. */
  predicate IsBlank(c: char) {
    c == ' ' || c == '\t' || c == '\n' || c == '\r'
  }

  /** A token as the tokenisers produce it: not empty and free of blanks. */
  predicate IsToken(t: string) {
    t != [] && forall i :: 0 <= i < |t| ==> !IsBlank(t[i])
  }

  ghost predicate AllTokens(ts: seq<string>) {
    forall i :: 0 <= i < |ts| ==> IsToken(ts[i])
  }

  /** `tokens.join(' ')`. */
  function Join(ts: seq<string>): string {
    if |ts| == 0 then ""
    else if |ts| == 1 then ts[0]
    else ts[0] + " " + Join(ts[1..])
  }

  /** Length of the blank-free prefix. */
  function TokenEnd(s: string): (k: nat)
    ensures k <= |s|
    ensures forall i :: 0 <= i < k ==> !IsBlank(s[i])
    ensures k < |s| ==> IsBlank(s[k])
  {
    if s == [] || IsBlank(s[0]) then 0 else 1 + TokenEnd(s[1..])
  }

  /** `s.split()`: the maximal blank-free runs, in order. */
  function Words(s: string): (ws: seq<string>)
    ensures AllTokens(ws)
    decreases |s|
  {
    if s == [] then []
    else if IsBlank(s[0]) then Words(s[1..])
    else [s[..TokenEnd(s)]] + Words(s[TokenEnd(s)..])
  }

  /** Strips blanks at both ends. */
  function Trim(s: string): (r: string)
    ensures r != [] ==> !IsBlank(r[0]) && !IsBlank(r[|r| - 1])
    ensures |r| <= |s|
    decreases |s|
  {
    if s == [] then s
    else if IsBlank(s[0]) then Trim(s[1..])
    else if IsBlank(s[|s| - 1]) then Trim(s[..|s| - 1])
    else s
  }

  lemma TokenEndOf(t: string, rest: string)
    requires IsToken(t)
    requires rest == [] || IsBlank(rest[0])
    ensures TokenEnd(t + rest) == |t|
  {
    var s := t + rest;
    assert forall i :: 0 <= i < |t| ==> s[i] == t[i];
    assert rest != [] ==> s[|t|] == rest[0];
  }

  /** Splitting undoes joining, so joining blank-free tokens loses nothing. */
  lemma {:induction false} WordsOfJoin(ts: seq<string>)
    requires AllTokens(ts)
    ensures Words(Join(ts)) == ts
  {
    if |ts| == 0 {
    } else if |ts| == 1 {
      TokenEndOf(ts[0], "");
      assert ts[0] + "" == ts[0];
      assert Words(ts[0]) == [ts[0]] + Words("");
    } else {
      WordsOfJoin(ts[1..]);
      var rest := " " + Join(ts[1..]);
      TokenEndOf(ts[0], rest);
      assert Join(ts) == ts[0] + rest;
      assert (ts[0] + rest)[..|ts[0]|] == ts[0];
      assert (ts[0] + rest)[|ts[0]|..] == rest;
      assert rest[1..] == Join(ts[1..]);
      assert Words(rest) == Words(rest[1..]);
      assert ts == [ts[0]] + ts[1..];
    }
  }

  lemma JoinInjective(xs: seq<string>, ys: seq<string>)
    requires AllTokens(xs) && AllTokens(ys)
    requires Join(xs) == Join(ys)
    ensures xs == ys
  {
    WordsOfJoin(xs);
    WordsOfJoin(ys);
  }

  /** A joined token list has no outer blanks and is empty only for no tokens. */
  lemma {:induction false} JoinEnds(ts: seq<string>)
    requires AllTokens(ts) && ts != []
    ensures Join(ts) != [] && !IsBlank(Join(ts)[0]) && !IsBlank(Join(ts)[|Join(ts)| - 1])
  {
    assert IsToken(ts[0]);
    if |ts| > 1 { JoinEnds(ts[1..]); }
  }

  lemma TrimJoin(ts: seq<string>)
    requires AllTokens(ts)
    ensures Trim(Join(ts)) == Join(ts)
  {
    if ts != [] { JoinEnds(ts); }
  }

  /** The blank-separated text has one word exactly when it is that word. */
  lemma WordsOfToken(t: string)
    requires IsToken(t)
    ensures Words(t) == [t]
  {
    WordsOfJoin([t]);
  }

  ghost predicate AllBlank(s: string) { forall i :: 0 <= i < |s| ==> IsBlank(s[i]) }

  /** `part` is what stands in `s` from `i` to `j`, with nothing but blanks around it. */
  ghost predicate IsTrimmed(s: string, i: int, j: int, part: string) {
    && 0 <= i <= j <= |s| && part == s[i..j]
    && (forall k :: 0 <= k < i ==> IsBlank(s[k])) && (forall k :: j <= k < |s| ==> IsBlank(s[k]))
  }

  lemma TrimmedTail(s: string, i: int, j: int, part: string)
    requires s != "" && IsBlank(s[0]) && IsTrimmed(s[1..], i, j, part)
    ensures IsTrimmed(s, i + 1, j + 1, part)
  {
    hide IsBlank;
    assert forall k :: 0 < k < |s| ==> s[k] == s[1..][k - 1];
  }

  lemma TrimmedInit(s: string, i: int, j: int, part: string)
    requires s != "" && IsBlank(s[|s| - 1]) && IsTrimmed(s[..|s| - 1], i, j, part)
    ensures IsTrimmed(s, i, j, part)
  {
    hide IsBlank;
    assert forall k :: 0 <= k < |s| - 1 ==> s[k] == s[..|s| - 1][k];
  }

  /** Trimming takes off blanks at the two ends, and nothing else. */
  lemma {:induction false} TrimIsInside(s: string) returns (i: nat, j: nat)
    ensures IsTrimmed(s, i, j, Trim(s))
    decreases |s|
  {
    if s == [] || (!IsBlank(s[0]) && !IsBlank(s[|s| - 1])) {
      i, j := 0, |s|;
      assert s[0..|s|] == s;
    } else if IsBlank(s[0]) {
      i, j := TrimIsInside(s[1..]);
      TrimmedTail(s, i, j, Trim(s[1..]));
      i, j := i + 1, j + 1;
    } else {
      i, j := TrimIsInside(s[..|s| - 1]);
      TrimmedInit(s, i, j, Trim(s[..|s| - 1]));
    }
  }

  /** A text laid out as tokens with runs of blanks before, between and behind them. */
  function Spread(gaps: seq<string>, tokens: seq<string>): string
    requires |gaps| == |tokens| + 1
    decreases |tokens|
  {
    if tokens == [] then gaps[0] else gaps[0] + (tokens[0] + Spread(gaps[1..], tokens[1..]))
  }

  lemma {:induction false} WordsAfterGap(gap: string, s: string)
    requires AllBlank(gap)
    ensures Words(gap + s) == Words(s)
  {
    if gap == "" {
      assert gap + s == s;
    } else {
      assert (gap + s)[0] == gap[0] && (gap + s)[1..] == gap[1..] + s;
      WordsAfterGap(gap[1..], s);
    }
  }

  /** Splitting gives the tokens of a text back, whatever blanks stand around them. */
  lemma {:induction false} WordsOfSpread(gaps: seq<string>, tokens: seq<string>)
    requires |gaps| == |tokens| + 1 && AllTokens(tokens)
    requires forall k :: 0 <= k < |gaps| ==> AllBlank(gaps[k]) && (0 < k < |tokens| ==> gaps[k] != "")
    ensures Words(Spread(gaps, tokens)) == tokens
    decreases |tokens|
  {
    if tokens == [] {
      WordsAfterGap(gaps[0], "");
      assert gaps[0] + "" == gaps[0];
    } else {
      var rest := Spread(gaps[1..], tokens[1..]);
      WordsOfSpread(gaps[1..], tokens[1..]);
      WordsAfterGap(gaps[0], tokens[0] + rest);
      assert rest == "" || IsBlank(rest[0]) by {
        if |tokens| > 1 { assert gaps[1..][0] == gaps[1] != "" && rest[0] == gaps[1][0]; }
      }
      TokenEndOf(tokens[0], rest);
      assert (tokens[0] + rest)[..|tokens[0]|] == tokens[0] && (tokens[0] + rest)[|tokens[0]|..] == rest;
      assert tokens == [tokens[0]] + tokens[1..];
    }
  }

  // ----- decimal numerals -----

  predicate IsDigit(c: char) { '0' <= c <= '9' }

  function DigitChar(d: nat): (c: char)
    requires d < 10
    ensures IsDigit(c)
  {
    '0' + d as char
  }

  /** `String(n)` for a natural number. */
  function Decimal(n: nat): (s: string)
    ensures s != [] && forall i :: 0 <= i < |s| ==> IsDigit(s[i])
  {
    if n < 10 then [DigitChar(n)] else Decimal(n / 10) + [DigitChar(n % 10)]
  }

  function DecimalValue(s: string): nat
    requires forall i :: 0 <= i < |s| ==> IsDigit(s[i])
  {
    if s == [] then 0
    else
      assert IsDigit(s[|s| - 1]);
      10 * DecimalValue(s[..|s| - 1]) + (s[|s| - 1] as int - '0' as int)
  }

  lemma {:induction false} DecimalRoundTrip(n: nat)
    ensures DecimalValue(Decimal(n)) == n
  {
    if n >= 10 {
      DecimalRoundTrip(n / 10);
      var s := Decimal(n);
      assert s[..|s| - 1] == Decimal(n / 10);
    } else {
      assert Decimal(n)[..0] == [];
    }
  }

  /** A numeral has no leading zero. */
  lemma {:induction false} DecimalIsShort(n: nat)
    ensures if n == 0 then Decimal(n) == "0" else Decimal(n)[0] != '0'
  {
    if n >= 10 { DecimalIsShort(n / 10); }
  }

  lemma DecimalInjective(m: nat, n: nat)
    requires Decimal(m) == Decimal(n)
    ensures m == n
  {
    DecimalRoundTrip(m);
    DecimalRoundTrip(n);
  }
}
