/** Sheet titles of an Excel export: cleaned, cut to 31 characters, and made unique by a numeric suffix. */
module SheetTitles {
  import opened Text

  predicate IsForbidden(c: char) { c in "\\/*?:[]" }

  /** Every forbidden character becomes an underscore. */
  function Replaced(s: string): (r: string)
    ensures |r| == |s| && forall i :: 0 <= i < |r| ==> !IsForbidden(r[i])
  {
    if s == "" then "" else [if IsForbidden(s[0]) then '_' else s[0]] + Replaced(s[1..])
  }

  /** `strip("'")` */
  function Unquoted(s: string): (r: string)
    ensures r != "" ==> r[0] != '\'' && r[|r| - 1] != '\''
    ensures (forall i :: 0 <= i < |s| ==> !IsForbidden(s[i])) ==> forall i :: 0 <= i < |r| ==> !IsForbidden(r[i])
    decreases |s|
  {
    if s == "" then s
    else if s[0] == '\'' then Unquoted(s[1..])
    else if s[|s| - 1] == '\'' then Unquoted(s[..|s| - 1])
    else s
  }

  predicate IsBase(s: string) {
    s != "" && s[0] != '\'' && s[|s| - 1] != '\'' && forall i :: 0 <= i < |s| ==> !IsForbidden(s[i])
  }

  function Base(name: string): (r: string)
    ensures IsBase(r)
  {
    var cleaned := Unquoted(Replaced(Trim(name)));
    if cleaned == "" then "Sheet" else cleaned
  }

  function Take(s: string, n: nat): string { if n <= |s| then s[..n] else s }

  function Suffix(k: nat): string { "_" + Decimal(k) }

  function Room(k: nat): nat { if |Suffix(k)| <= 30 then 31 - |Suffix(k)| else 1 }

  /** The `k`-th title tried for a base: the cut base itself, then the bases cut to make room for `_2`, `_3`, ... */
  function Title(base: string, k: nat): string
    requires k >= 1
  {
    if k == 1 then Take(base, 31) else Take(base, Room(k)) + Suffix(k)
  }

  // ----- bases and titles, character by character -----

  /** The characters a sheet title must not have. */
  ghost predicate NotAllowed(c: char) {
    c == '\\' || c == '/' || c == '*' || c == '?' || c == ':' || c == '[' || c == ']'
  }

  lemma ForbiddenAre(c: char)
    ensures IsForbidden(c) <==> NotAllowed(c)
  {}

  lemma {:induction false} ReplacedIs(s: string, k: nat)
    requires k < |s|
    ensures Replaced(s)[k] == if NotAllowed(s[k]) then '_' else s[k]
  {
    ForbiddenAre(s[k]);
    if k == 0 {
    } else {
      ReplacedIs(s[1..], k - 1);
    }
  }

  /** The part of `s` from `i` to `j`, with nothing but apostrophes around it. */
  ghost predicate IsInside(s: string, i: int, j: int, part: string) {
    && 0 <= i <= j <= |s| && part == s[i..j]
    && (forall k :: 0 <= k < i ==> s[k] == '\'') && (forall k :: j <= k < |s| ==> s[k] == '\'')
  }

  lemma InsideTail(s: string, i: int, j: int, part: string)
    requires s != "" && s[0] == '\'' && IsInside(s[1..], i, j, part)
    ensures IsInside(s, i + 1, j + 1, part)
  {
    assert forall k :: 0 < k < |s| ==> s[k] == s[1..][k - 1];
  }

  lemma InsideInit(s: string, i: int, j: int, part: string)
    requires s != "" && s[|s| - 1] == '\'' && IsInside(s[..|s| - 1], i, j, part)
    ensures IsInside(s, i, j, part)
  {
    assert forall k :: 0 <= k < |s| - 1 ==> s[k] == s[..|s| - 1][k];
  }

  lemma {:induction false} UnquotedIsInside(s: string) returns (i: nat, j: nat)
    ensures IsInside(s, i, j, Unquoted(s))
    decreases |s|
  {
    hide IsInside;
    if s == "" {
      i, j := 0, 0;
      NothingAround(s);
    } else if s[0] == '\'' {
      i, j := UnquotedIsInside(s[1..]);
      InsideTail(s, i, j, Unquoted(s[1..]));
      i, j := i + 1, j + 1;
    } else if s[|s| - 1] == '\'' {
      i, j := UnquotedIsInside(s[..|s| - 1]);
      InsideInit(s, i, j, Unquoted(s[..|s| - 1]));
    } else {
      i, j := 0, |s|;
      NothingAround(s);
    }
  }

  lemma NothingAround(s: string)
    ensures IsInside(s, 0, |s|, s)
  {
    assert s[0..|s|] == s;
  }

  /**
   The base of a name is the trimmed name without the apostrophes at its ends and with underscores for the characters
   that are not allowed; when nothing is left, it is `Sheet`.
   */
  lemma BaseInWords(name: string) returns (i: nat, j: nat)
    ensures i <= j <= |Trim(name)| && IsInside(Trim(name), i, j, Trim(name)[i..j])
    ensures var s := Trim(name);
      && (i == j ==> Base(name) == "Sheet")
      && (i < j ==> |Base(name)| == j - i && s[i] != '\'' && s[j - 1] != '\'')
      && (i < j ==> forall k :: 0 <= k < j - i ==> Base(name)[k] == if NotAllowed(s[i + k]) then '_' else s[i + k])
  {
    var s := Trim(name);
    i, j := UnquotedIsInside(Replaced(s));
    forall k | 0 <= k < |s| ensures Replaced(s)[k] == if NotAllowed(s[k]) then '_' else s[k] { ReplacedIs(s, k); }
    BaseFrom(s, Replaced(s), i, j);
    hide Replaced, Trim, Unquoted, IsInside, NotAllowed;
  }

  lemma BaseFrom(s: string, r: string, i: nat, j: nat)
    requires |s| == |r| && forall k :: 0 <= k < |s| ==> r[k] == if NotAllowed(s[k]) then '_' else s[k]
    requires IsInside(r, i, j, Unquoted(r))
    ensures i <= j <= |s| && IsInside(s, i, j, s[i..j]) && |Unquoted(r)| == j - i
    ensures i < j ==> s[i] != '\'' && s[j - 1] != '\''
    ensures forall k :: 0 <= k < j - i ==> Unquoted(r)[k] == if NotAllowed(s[i + k]) then '_' else s[i + k]
  {
    var u := Unquoted(r);
    assert i < j ==> u[0] == r[i] && u[|u| - 1] == r[j - 1];
    hide Unquoted;
    forall k | 0 <= k < |s| && r[k] == '\'' ensures s[k] == '\'' {}
  }

  /**
   The first title is the base up to 31 characters; the `k`-th one is a beginning of the base followed by an
   underscore and `k`, of 31 characters unless the base is too short for that or the number too long.
   */
  lemma TitleInWords(base: string, k: nat)
    requires k >= 1
    ensures var t, suffix := Title(base, k), "_" + Decimal(k);
      && (k == 1 && |base| <= 31 ==> t == base)
      && (k == 1 && |base| > 31 ==> t == base[..31])
      && (k >= 2 && |base| + |suffix| <= 31 ==> t == base + suffix)
      && (k >= 2 && |suffix| <= 30 && |base| + |suffix| > 31 ==> |t| == 31 && t == base[..31 - |suffix|] + suffix)
      && (k >= 2 && |suffix| > 30 && base != "" ==> t == base[..1] + suffix)
  {
    assert base[..|base|] == base;
  }

  // ----- what a title looks like -----

  /** Digits after the last underscore give the suffix back. */
  lemma DigitsAtEnd(p: string, d: string, q: string, e: string)
    requires forall i :: 0 <= i < |d| ==> IsDigit(d[i])
    requires forall i :: 0 <= i < |e| ==> IsDigit(e[i])
    requires p + "_" + d == q + "_" + e && |d| <= |e|
    ensures d == e
  {
    var s := p + "_" + d;
    assert s[|s| - |d| - 1] == '_';
    assert forall i :: |s| - |e| <= i < |s| ==> s[i] == e[i - (|s| - |e|)] && IsDigit(s[i]);
    assert |d| == |e|;
    assert forall i :: 0 <= i < |d| ==> d[i] == s[|p| + 1 + i] && e[i] == s[|q| + 1 + i];
  }

  /** Distinct suffixes give distinct titles, whatever the cut leaves of the base. */
  lemma SuffixShows(base: string, j: nat, k: nat)
    requires j >= 2 && k >= 2 && Title(base, j) == Title(base, k)
    ensures j == k
  {
    hide Room, Take, Decimal;
    var p, q := Take(base, Room(j)), Take(base, Room(k));
    assert Title(base, j) == p + "_" + Decimal(j) && Title(base, k) == q + "_" + Decimal(k);
    if |Decimal(j)| <= |Decimal(k)| {
      DigitsAtEnd(p, Decimal(j), q, Decimal(k));
    } else {
      DigitsAtEnd(q, Decimal(k), p, Decimal(j));
    }
    DecimalInjective(j, k);
  }

  /** A title keeps the limit exactly while its suffix text has at most 30 characters. */
  lemma TitleFits(base: string, k: nat)
    requires IsBase(base) && k >= 1
    ensures Title(base, k) != "" && (|Title(base, k)| <= 31 <==> k == 1 || |Suffix(k)| <= 30)
  {}

  /**
   A title has no forbidden character and does not begin with an apostrophe; it ends with one exactly when it is
   the cut base and the cut falls behind an apostrophe.
   */
  lemma TitleIsPlain(base: string, k: nat)
    requires IsBase(base) && k >= 1
    ensures var t := Title(base, k);
      && (forall i :: 0 <= i < |t| ==> !IsForbidden(t[i]))
      && t[0] != '\''
      && (t[|t| - 1] == '\'' <==> k == 1 && |base| > 31 && base[30] == '\'')
  {}

  // ----- how many titles are tried -----

  function SuffixTitles(base: string, n: nat): set<string> {
    set k | 2 <= k < n + 2 :: Title(base, k)
  }

  lemma SuffixTitlesNext(base: string, n: nat)
    ensures Title(base, n + 2) !in SuffixTitles(base, n)
    ensures SuffixTitles(base, n + 1) == SuffixTitles(base, n) + {Title(base, n + 2)}
  {
    hide Title;
    forall j | 2 <= j < n + 2 ensures Title(base, j) != Title(base, n + 2) {
      if Title(base, j) == Title(base, n + 2) { SuffixShows(base, j, n + 2); }
    }
  }

  lemma {:induction false} SuffixTitlesCount(base: string, n: nat)
    ensures |SuffixTitles(base, n)| == n
  {
    if n == 0 {
      assert SuffixTitles(base, 0) == {};
    } else {
      SuffixTitlesCount(base, n - 1);
      SuffixTitlesNext(base, n - 1);
      hide SuffixTitles;
    }
  }

  /** All of the first `n` suffixed titles can be used only when at least `n` titles are. */
  lemma Pigeonhole(base: string, n: nat, used: set<string>)
    requires forall k :: 2 <= k < n + 2 ==> Title(base, k) in used
    ensures n <= |used|
  {
    SuffixTitlesCount(base, n);
    assert SuffixTitles(base, n) <= used;
    Subset(SuffixTitles(base, n), used);
  }

  lemma {:induction false} Subset(a: set<string>, b: set<string>)
    requires a <= b
    ensures |a| <= |b|
  {
    assert b == a + (b - a);
  }

  /** The cut base ends like one of the suffixed titles tried before the `k`-th. */
  ghost predicate BaseRecurs(base: string, k: nat) {
    exists j :: 2 <= j < k && Title(base, j) == Title(base, 1)
  }

  /** The `k`-th title is the first one not in use. */
  ghost predicate FirstFree(base: string, used: set<string>, k: nat) {
    k >= 1 && Title(base, k) !in used && forall j :: 1 <= j < k ==> Title(base, j) in used
  }

  /**
   At most |used| + 1 titles are tried, unless the cut base comes up a second time among the suffixed titles:
   then one more may be.
   */
  lemma TriesAreFew(base: string, used: set<string>, k: nat)
    requires FirstFree(base, used, k)
    ensures k <= |used| + if BaseRecurs(base, k) then 2 else 1
  {
    if k >= 2 {
      Pigeonhole(base, k - 2, used);
      if !BaseRecurs(base, k) {
        var tried := SuffixTitles(base, k - 2) + {Title(base, 1)};
        SuffixTitlesCount(base, k - 2);
        assert Title(base, 1) !in SuffixTitles(base, k - 2);
        assert |tried| == k - 1;
        Subset(tried, used);
      }
    }
  }

  /** A suffixed title is the cut base again exactly when the first 31 characters of the base end in that suffix. */
  lemma RecursWhen(base: string, j: nat)
    requires j >= 2 && |Suffix(j)| <= 30
    ensures Title(base, j) == Title(base, 1) <==> |base| >= 31 && base[31 - |Suffix(j)|..31] == Suffix(j)
  {}

  /**
   So the bound of |used| + 1 fails: a base of 31 characters ending in `_2`, with only itself in use, takes
   three tries.
   */
  lemma RecurringBase(base: string)
    requires IsBase(base) && |base| == 31 && base[29..] == "_2"
    ensures FirstFree(base, {base}, 3) && BaseRecurs(base, 3)
  {
    assert Decimal(2) == "2" && Suffix(2) == "_2";
    RecursWhen(base, 2);
    assert Title(base, 1) == Title(base, 2) == base;
    if Title(base, 3) == Title(base, 2) { SuffixShows(base, 3, 2); }
    forall j | 1 <= j < 3 ensures Title(base, j) in {base} {
      assert j == 1 || j == 2;
    }
  }

  /** The first 31 characters of the base end in the `j`-th suffix. */
  predicate EndsInSuffix(base: string, j: nat) {
    j >= 2 && |Suffix(j)| <= 30 && |base| >= 31 && base[31 - |Suffix(j)|..31] == Suffix(j)
  }

  lemma RecursIff(base: string, j: nat)
    requires IsBase(base) && j >= 2
    ensures Title(base, j) == Title(base, 1) <==> EndsInSuffix(base, j)
  {
    if |Suffix(j)| <= 30 { RecursWhen(base, j); } else { TitleFits(base, j); TitleFits(base, 1); }
  }

  /** With the suffixed titles up to the recurring one in use, one more title is tried than the bound allows. */
  lemma RecurrenceCosts(base: string, j: nat)
    requires j >= 2 && Title(base, j) == Title(base, 1)
    ensures |SuffixTitles(base, j - 1)| == j - 1 && FirstFree(base, SuffixTitles(base, j - 1), j + 1)
  {
    hide Title;
    SuffixTitlesCount(base, j - 1);
    SuffixTitlesNext(base, j - 1);
  }

  /**
   The bound of |used| + 1 tries holds for all used titles exactly when the base does not end in a suffix where
   it is cut.
   */
  lemma TriesBoundIff(base: string)
    requires IsBase(base)
    ensures (forall used, k: nat :: FirstFree(base, used, k) ==> k <= |used| + 1)
        <==> forall j: nat :: !EndsInSuffix(base, j)
  {
    hide Title, EndsInSuffix, FirstFree;
    if j: nat :| EndsInSuffix(base, j) {
      SuffixIsLater(base, j);
      RecursIff(base, j);
      RecurrenceCosts(base, j);
    } else {
      forall used, k: nat | FirstFree(base, used, k) ensures k <= |used| + 1 {
        TriesAreFew(base, used, k);
        forall j | 2 <= j < k ensures Title(base, j) != Title(base, 1) { RecursIff(base, j); }
      }
    }
  }

  lemma SuffixIsLater(base: string, j: nat)
    requires EndsInSuffix(base, j)
    ensures j >= 2
  {}

  // ----- the export -----

  /** The title is the first one of the base that is not in use. */
  ghost predicate IsFirstFree(base: string, used: set<string>, title: string) {
    exists k :: FirstFree(base, used, k) && title == Title(base, k)
  }

  /** `_excel_sheet_title` */
  method ExcelSheetTitle(value: string, used: set<string>) returns (title: string)
    ensures IsFirstFree(Base(value), used, title)
  {
    hide Base, Room, Suffix, Take;
    var base := Base(value);
    title := Title(base, 1);
    var suffix := 2;
    while title in used
      invariant suffix >= 2 && title == Title(base, suffix - 1)
      invariant forall k :: 1 <= k < suffix - 1 ==> Title(base, k) in used
      decreases |used| + 2 - suffix
    {
      Pigeonhole(base, suffix - 2, used);
      title := Title(base, suffix);
      suffix := suffix + 1;
    }
    assert FirstFree(base, used, suffix - 1);
  }

  datatype Snapshot = Snapshot(name: string, columns: nat, rows: nat)

  /** The rows that reach the workbook: a table without columns gives a sheet without its rows. */
  function RowTotal(snapshots: seq<Snapshot>): nat {
    if snapshots == [] then 0
    else
      var last := snapshots[|snapshots| - 1];
      RowTotal(snapshots[..|snapshots| - 1]) + if last.columns == 0 then 0 else last.rows
  }

  function Sum(numbers: seq<nat>): nat { if numbers == [] then 0 else numbers[0] + Sum(numbers[1..]) }

  lemma {:induction false} SumSnoc(numbers: seq<nat>, n: nat)
    ensures Sum(numbers + [n]) == Sum(numbers) + n
  {
    if numbers == [] {
    } else {
      SumSnoc(numbers[1..], n);
      assert (numbers + [n])[1..] == numbers[1..] + [n];
    }
  }

  /** The row total sums up the rows of the tables that have columns; a table without columns counts for nothing. */
  lemma {:induction false} RowTotalIsSum(snapshots: seq<Snapshot>) returns (rows: seq<nat>)
    ensures |rows| == |snapshots| && RowTotal(snapshots) == Sum(rows)
    ensures forall k :: 0 <= k < |rows| ==>
      (snapshots[k].columns > 0 ==> rows[k] == snapshots[k].rows) && (snapshots[k].columns == 0 ==> rows[k] == 0)
  {
    if snapshots == [] {
      rows := [];
    } else {
      var last := snapshots[|snapshots| - 1];
      var before := RowTotalIsSum(snapshots[..|snapshots| - 1]);
      rows := before + [if last.columns == 0 then 0 else last.rows];
      SumSnoc(before, rows[|before|]);
    }
  }

  ghost function Names(titles: seq<string>): set<string> { set t | t in titles }

  /** The title is the first free one after the titles before it. */
  ghost predicate TitleOf(name: string, before: seq<string>, title: string) {
    IsFirstFree(Base(name), Names(before), title)
  }

  ghost predicate Titled(names: seq<string>, titles: seq<string>) {
    |names| == |titles| && forall i :: 0 <= i < |titles| ==> TitleOf(names[i], titles[..i], titles[i])
  }

  lemma TitledNext(names: seq<string>, titles: seq<string>, name: string, title: string)
    requires Titled(names, titles) && TitleOf(name, titles, title)
    ensures Titled(names + [name], titles + [title])
    ensures Names(titles + [title]) == Names(titles) + {title}
  {
    hide TitleOf;
    forall i | 0 <= i <= |titles| ensures (titles + [title])[..i] == titles[..i] {}
  }

  /** The names that get a sheet: the table names, or `empty` when there is no table. */
  function Wanted(snapshots: seq<Snapshot>): seq<string> {
    if snapshots == [] then ["empty"] else TableNames(snapshots)
  }

  function TableNames(snapshots: seq<Snapshot>): seq<string> {
    if snapshots == [] then [] else TableNames(snapshots[..|snapshots| - 1]) + [snapshots[|snapshots| - 1].name]
  }

  /** The sheet names and the row total of a workbook. */
  method RenderSheets(snapshots: seq<Snapshot>) returns (sheetNames: seq<string>, totalRows: nat)
    ensures Titled(Wanted(snapshots), sheetNames)
    ensures totalRows == RowTotal(snapshots)
  {
    hide IsFirstFree, Base;
    sheetNames, totalRows := [], 0;
    var used: set<string>, title := {}, "";
    if snapshots == [] {
      title := ExcelSheetTitle("empty", used);
      assert Names([]) == {};
      assert TitleOf("empty", [], title);
      TitledNext([], [], "empty", title);
      sheetNames := sheetNames + [title];
    } else {
      hide TitleOf, Names, Titled;
      NoTitles();
      assert snapshots[..0] == [];
      for n := 0 to |snapshots|
        invariant Titled(TableNames(snapshots[..n]), sheetNames) && used == Names(sheetNames)
        invariant totalRows == RowTotal(snapshots[..n])
      {
        assert snapshots[..n + 1][..n] == snapshots[..n];
        title := ExcelSheetTitle(snapshots[n].name, used);
        used := used + {title};
        FreeIsTitle(snapshots[n].name, sheetNames, title);
        TitledNext(TableNames(snapshots[..n]), sheetNames, snapshots[n].name, title);
        sheetNames := sheetNames + [title];
        if snapshots[n].columns != 0 { totalRows := totalRows + snapshots[n].rows; }
      }
      assert snapshots[..|snapshots|] == snapshots;
    }
  }

  lemma NoTitles()
    ensures Titled([], []) && Names([]) == {}
  {}

  lemma FreeIsTitle(name: string, before: seq<string>, title: string)
    requires IsFirstFree(Base(name), Names(before), title)
    ensures TitleOf(name, before, title)
  {}

  lemma {:induction false} DecimalGrows(j: nat, k: nat)
    requires j <= k
    ensures |Decimal(j)| <= |Decimal(k)|
  {
    if j >= 10 { DecimalGrows(j / 10, k / 10); }
  }

  lemma {:induction false} FewNames(titles: seq<string>)
    ensures |Names(titles)| <= |titles|
  {
    if titles == [] {
    } else {
      var init, last := titles[..|titles| - 1], titles[|titles| - 1];
      FewNames(init);
      assert titles == init + [last];
      assert Names(titles) == Names(init) + {last};
    }
  }

  lemma SheetIsProper(name: string, before: seq<string>, title: string)
    requires TitleOf(name, before, title)
    ensures title !in before && title != "" && forall i :: 0 <= i < |title| ==> !IsForbidden(title[i])
    ensures |Decimal(|before| + 2)| <= 29 ==> |title| <= 31
  {
    hide Title, Base, IsForbidden, IsBase, BaseRecurs;
    var base := Base(name);
    var k :| FirstFree(base, Names(before), k) && title == Title(base, k);
    TriesAreFew(base, Names(before), k);
    FewNames(before);
    TitleFits(base, k);
    TitleIsPlain(base, k);
    DecimalGrows(k, |before| + 2);
  }

  /**
   Over a whole export the titles are non-empty, pairwise distinct and free of forbidden characters, and at
   most 31 characters long while the number of sheets plus one has at most 29 digits.
   */
  lemma SheetsAreProper(names: seq<string>, titles: seq<string>)
    requires Titled(names, titles)
    ensures forall i, j :: 0 <= i < j < |titles| ==> titles[i] != titles[j]
    ensures forall i ::
      0 <= i < |titles| ==> titles[i] != "" && forall j :: 0 <= j < |titles[i]| ==> !IsForbidden(titles[i][j])
    ensures |Decimal(|titles| + 1)| <= 29 ==> forall i :: 0 <= i < |titles| ==> |titles[i]| <= 31
  {
    hide TitleOf, IsForbidden;
    forall i | 0 <= i < |titles|
      ensures titles[i] !in titles[..i] && titles[i] != ""
          && (forall j :: 0 <= j < |titles[i]| ==> !IsForbidden(titles[i][j]))
      ensures |Decimal(|titles| + 1)| <= 29 ==> |titles[i]| <= 31
    {
      SheetIsProper(names[i], titles[..i], titles[i]);
      DecimalGrows(i + 2, |titles| + 1);
    }
    forall i, j | 0 <= i < j < |titles| ensures titles[i] != titles[j] {
      assert titles[..j][i] == titles[i];
    }
  }
}
