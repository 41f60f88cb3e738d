/** Unit and subunit codes: `Unit07`, `7A` ... `7Z`, `7AA` ... */
module UnitCodes {
  import opened Text

  predicate IsLetter(c: char) { 'A' <= c <= 'Z' }

  ghost predicate IsAlphaIndex(s: string) { s != [] && forall k :: 0 <= k < |s| ==> IsLetter(s[k]) }

  function Letter(d: nat): (c: char)
    requires d < 26
    ensures IsLetter(c)
  {
    'A' + d as char
  }

  function LetterValue(c: char): (d: nat)
    requires IsLetter(c)
    ensures d < 26 && Letter(d) == c
  {
    c as int - 'A' as int
  }

  /** What the do-while loop of `toAlphaIndex` spells. */
  function Alpha(n: nat): (s: string)
    ensures IsAlphaIndex(s)
  {
    if n < 26 then [Letter(n)] else Alpha(n / 26 - 1) + [Letter(n % 26)]
  }

  lemma AlphaStep(n: nat, suffix: string)
    ensures Alpha(n) + suffix == (if n < 26 then [] else Alpha(n / 26 - 1)) + ([Letter(n % 26)] + suffix)
  {}

  method ToAlphaIndex(index: int) returns (result: string)
    ensures result == Alpha(if index >= 0 then index else 0)
  {
    var value := if index >= 0 then index else 0;
    ghost var n := value;
    AlphaStep(value, "");
    hide Alpha;
    result := [Letter(value % 26)] + "";
    value := value / 26 - 1;
    while value >= 0
      invariant -1 <= value
      invariant Alpha(n) + "" == (if value >= 0 then Alpha(value) else []) + result
      decreases value
    {
      AlphaStep(value, result);
      result := [Letter(value % 26)] + result;
      value := value / 26 - 1;
    }
    assert Alpha(n) + "" == Alpha(n) && [] + result == result;
  }

  function AlphaValue(s: string): nat
    requires IsAlphaIndex(s)
  {
    var d := LetterValue(s[|s| - 1]);
    if |s| == 1 then d else (AlphaValue(s[..|s| - 1]) + 1) * 26 + d
  }

  /** The index spells a code that reads back as the index. */
  lemma {:induction false} AlphaRoundTrip(n: nat)
    ensures AlphaValue(Alpha(n)) == n
  {
    var s := Alpha(n);
    assert LetterValue(s[|s| - 1]) == n % 26;
    if n >= 26 {
      AlphaRoundTrip(n / 26 - 1);
      assert s[..|s| - 1] == Alpha(n / 26 - 1);
    }
  }

  /** Every non-empty string of letters A to Z is the code of its value: with the above, a bijection. */
  lemma {:induction false} AlphaCoversAll(s: string)
    requires IsAlphaIndex(s)
    ensures Alpha(AlphaValue(s)) == s
  {
    var init, d := s[..|s| - 1], LetterValue(s[|s| - 1]);
    assert s == init + [s[|s| - 1]];
    if |s| > 1 {
      AlphaCoversAll(init);
      var n := AlphaValue(s);
      DivideBack(AlphaValue(init) + 1, d);
      assert n / 26 == AlphaValue(init) + 1 && n % 26 == d;
    }
  }

  lemma DivideBack(q: nat, d: nat)
    requires d < 26
    ensures (q * 26 + d) / 26 == q && (q * 26 + d) % 26 == d
  {}

  /** Shorter first, then by the first letter that differs. */
  ghost predicate Precedes(s: string, t: string) {
    |s| < |t| || (|s| == |t| && exists k: nat :: DiffersFirst(s, t, k))
  }

  ghost predicate DiffersFirst(s: string, t: string, k: nat) {
    k < |s| && k < |t| && s[..k] == t[..k] && s[k] < t[k]
  }

  /** Greater indices have later codes. */
  lemma {:induction false} AlphaIsMonotone(m: nat, n: nat)
    requires m < n
    ensures Precedes(Alpha(m), Alpha(n))
  {
    var s, t := Alpha(m), Alpha(n);
    if n >= 26 {
      if m >= 26 {
        var si, ti := Alpha(m / 26 - 1), Alpha(n / 26 - 1);
        assert s[..|si|] == si && t[..|ti|] == ti;
        if m / 26 == n / 26 {
          assert m % 26 < n % 26;
          assert DiffersFirst(s, t, |si|);
        } else {
          assert m / 26 < n / 26;
          AlphaIsMonotone(m / 26 - 1, n / 26 - 1);
          if |si| == |ti| {
            var k: nat :| DiffersFirst(si, ti, k);
            assert s[..k] == si[..k] && t[..k] == ti[..k];
            assert DiffersFirst(s, t, k);
          }
        }
      }
    } else {
      assert DiffersFirst(s, t, 0);
    }
  }

  // ----- codes -----

  function AtLeastOne(n: int): nat { if n >= 1 then n else 1 }

  /** `formatUnitCode`, with `padStart(2, '0')`. */
  function UnitCode(number: int): string {
    var digits := Decimal(AtLeastOne(number));
    "Unit" + (if |digits| < 2 then "0" + digits else digits)
  }

  /** `formatSubunitCode` */
  function SubunitCode(number: int, index: nat): string {
    Decimal(AtLeastOne(number)) + Alpha(index)
  }

  lemma UnitCodeInjective(m: nat, n: nat)
    requires m >= 1 && n >= 1 && UnitCode(m) == UnitCode(n)
    ensures m == n
  {
    PaddedValue(m);
    PaddedValue(n);
    assert UnitCode(m)[4..] == UnitCode(n)[4..];
  }

  /** Padding does not change the number a code shows. */
  lemma PaddedValue(n: nat)
    requires n >= 1
    ensures var tail := UnitCode(n)[4..];
      (forall k :: 0 <= k < |tail| ==> IsDigit(tail[k])) && DecimalValue(tail) == n
  {
    var digits := Decimal(n);
    DecimalRoundTrip(n);
    var tail := UnitCode(n)[4..];
    if |digits| < 2 {
      assert tail == "0" + digits && tail[..1] == "0" && "0"[..0] == "" && digits[..0] == "";
      assert DecimalValue("0") == 0;
    } else {
      assert tail == digits;
    }
  }

  lemma DigitsEnd(digits: string, letters: string, digits': string, letters': string)
    requires forall k :: 0 <= k < |digits| ==> IsDigit(digits[k])
    requires forall k :: 0 <= k < |digits'| ==> IsDigit(digits'[k])
    requires IsAlphaIndex(letters) && IsAlphaIndex(letters')
    requires digits + letters == digits' + letters'
    ensures digits == digits' && letters == letters'
  {
    var s := digits + letters;
    assert forall k :: 0 <= k < |digits| ==> IsDigit(s[k]);
    assert forall k :: 0 <= k < |digits'| ==> IsDigit(s[k]);
    assert s[|digits|] == letters[0] && s[|digits'|] == letters'[0];
    assert |digits| == |digits'|;
    assert s[..|digits|] == digits && s[..|digits|] == digits';
    assert s[|digits|..] == letters && s[|digits|..] == letters';
  }

  /** A subunit code determines the unit number and the index. */
  lemma SubunitCodeInjective(m: nat, i: nat, n: nat, j: nat)
    requires m >= 1 && n >= 1 && SubunitCode(m, i) == SubunitCode(n, j)
    ensures m == n && i == j
  {
    DigitsEnd(Decimal(m), Alpha(i), Decimal(n), Alpha(j));
    DecimalInjective(m, n);
    AlphaRoundTrip(i);
    AlphaRoundTrip(j);
  }

  /**
   A unit's code is `Unit` and its number, with a zero in front when that has a single digit; a subunit's code is the
   number and the letters of its index. Numbers below 1 count as 1.
   */
  lemma CodesInWords(number: int, index: nat)
    ensures number < 1 ==> UnitCode(number) == "Unit01" && SubunitCode(number, index) == "1" + Alpha(index)
    ensures 1 <= number <= 9 ==> UnitCode(number) == "Unit0" + Decimal(number)
    ensures number >= 10 ==> UnitCode(number) == "Unit" + Decimal(number)
    ensures number >= 1 ==> SubunitCode(number, index) == Decimal(number) + Alpha(index)
    ensures index < 26 ==> Alpha(index) == ['A' + index as char]
  {
    assert Decimal(1) == "1";
    if number >= 10 { assert |Decimal(number)| == |Decimal(number / 10)| + 1; }
    if number <= 9 { assert "Unit" + ("0" + Decimal(AtLeastOne(number))) == "Unit0" + Decimal(AtLeastOne(number)); }
  }
}
