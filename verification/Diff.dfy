/**
 The word diff of the assignment scanner: the longest-common-subsequence table, the walk that groups
 equal, deleted and inserted runs, and the pass that merges neighbouring delete/insert runs.
 */
module Diff {
  import opened Common
  import opened Text

  datatype Operation = Equal | Delete | Insert | Replace

  datatype Chunk = Chunk(operation: Operation, original: string, completed: string)

  // ----- common subsequences, stated by position maps -----

  /** `at` places `c` in `s` from position `from` on, in order. */
  ghost predicate Embeds(c: seq<string>, s: seq<string>, at: seq<nat>, from: nat) {
    && |at| == |c|
    && (forall k :: 0 <= k < |c| ==> from <= at[k] < |s| && s[at[k]] == c[k])
    && (forall k, l :: 0 <= k < l < |c| ==> at[k] < at[l])
  }

  ghost predicate IsSubsequence(c: seq<string>, s: seq<string>) {
    exists at: seq<nat> :: Embeds(c, s, at, 0)
  }

  ghost predicate IsLongestCommon(c: seq<string>, a: seq<string>, b: seq<string>) {
    && IsSubsequence(c, a) && IsSubsequence(c, b)
    && forall d :: IsSubsequence(d, a) && IsSubsequence(d, b) ==> |d| <= |c|
  }

  // ----- the table -----

  /** What cell [i][j] of the table holds: the longest common subsequence length of the two suffixes. */
  function Lcs(a: seq<string>, b: seq<string>, i: nat, j: nat): nat
    requires i <= |a| && j <= |b|
    decreases |a| - i + |b| - j
  {
    if i == |a| || j == |b| then 0
    else if a[i] == b[j] then Lcs(a, b, i + 1, j + 1) + 1
    else Max(Lcs(a, b, i + 1, j), Lcs(a, b, i, j + 1))
  }

  /** No common subsequence of the two suffixes is longer than the table says. */
  lemma {:induction false} LcsBounds(a: seq<string>, b: seq<string>, i: nat, j: nat,
                                     c: seq<string>, f: seq<nat>, g: seq<nat>)
    requires i <= |a| && j <= |b|
    requires Embeds(c, a, f, i) && Embeds(c, b, g, j)
    ensures |c| <= Lcs(a, b, i, j)
    decreases |a| - i + |b| - j
  {
    if c == [] {
    } else {
      assert i <= f[0] < |a| && j <= g[0] < |b|;
      if a[i] == b[j] {
        LcsBounds(a, b, i + 1, j + 1, c[1..], f[1..], g[1..]);
      } else if f[0] > i {
        LcsBounds(a, b, i + 1, j, c, f, g);
      } else {
        assert b[g[0]] == a[i];
        LcsBounds(a, b, i, j + 1, c, f, g);
      }
    }
  }

  /** Row `p` of the table is filled from column `from` on. */
  ghost predicate RowFilled(a: seq<string>, b: seq<string>, dp: array2<nat>, p: nat, from: nat)
    requires dp.Length0 == |a| + 1 && dp.Length1 == |b| + 1 && p <= |a|
    reads dp
  {
    forall q :: from <= q <= |b| ==> dp[p, q] == Lcs(a, b, p, q)
  }

  method FillRow(a: seq<string>, b: seq<string>, dp: array2<nat>, i: nat)
    requires dp.Length0 == |a| + 1 && dp.Length1 == |b| + 1 && i < |a|
    requires RowFilled(a, b, dp, i + 1, 0) && dp[i, |b|] == 0
    modifies dp
    ensures RowFilled(a, b, dp, i, 0)
    ensures forall p, q :: 0 <= p <= |a| && p != i && 0 <= q <= |b| ==> dp[p, q] == old(dp[p, q])
  {
    var j := |b| - 1;
    while j >= 0
      invariant -1 <= j < |b|
      invariant RowFilled(a, b, dp, i, j + 1)
      invariant forall p, q :: 0 <= p <= |a| && p != i && 0 <= q <= |b| ==> dp[p, q] == old(dp[p, q])
    {
      assert dp[i + 1, j + 1] == Lcs(a, b, i + 1, j + 1) && dp[i + 1, j] == Lcs(a, b, i + 1, j);
      dp[i, j] := if a[i] == b[j] then dp[i + 1, j + 1] + 1 else Max(dp[i + 1, j], dp[i, j + 1]);
      j := j - 1;
    }
  }

  method FillTable(a: seq<string>, b: seq<string>) returns (dp: array2<nat>)
    ensures fresh(dp) && dp.Length0 == |a| + 1 && dp.Length1 == |b| + 1
    ensures forall p :: 0 <= p <= |a| ==> RowFilled(a, b, dp, p, 0)
  {
    dp := new nat[|a| + 1, |b| + 1]((_, _) => 0);
    var i := |a| - 1;
    while i >= 0
      invariant -1 <= i < |a|
      invariant forall p :: 0 <= p <= i ==> dp[p, |b|] == 0
      invariant forall p :: i < p <= |a| ==> RowFilled(a, b, dp, p, 0)
    {
      label before:
      FillRow(a, b, dp, i);
      forall p | i < p <= |a| ensures RowFilled(a, b, dp, p, 0) {
        assert old@before(RowFilled(a, b, dp, p, 0));
      }
      i := i - 1;
    }
  }

  // ----- what a chunk list says -----

  /** The words of all original sides, in order. */
  function OriginalWords(chunks: seq<Chunk>): seq<string> {
    if chunks == [] then [] else OriginalWords(chunks[..|chunks| - 1]) + Words(chunks[|chunks| - 1].original)
  }

  function CompletedWords(chunks: seq<Chunk>): seq<string> {
    if chunks == [] then [] else CompletedWords(chunks[..|chunks| - 1]) + Words(chunks[|chunks| - 1].completed)
  }

  /** The words of the 'equal' chunks, in order. */
  function EqualWords(chunks: seq<Chunk>): seq<string> {
    if chunks == [] then []
    else
      var last := chunks[|chunks| - 1];
      EqualWords(chunks[..|chunks| - 1]) + if last.operation == Equal then Words(last.original) else []
  }

  /** Where the words of the 'equal' chunks stand in the original text, */
  function OriginalAt(chunks: seq<Chunk>): seq<nat> {
    if chunks == [] then []
    else
      var init, last := chunks[..|chunks| - 1], chunks[|chunks| - 1];
      OriginalAt(init)
      + if last.operation == Equal then From(|OriginalWords(init)|, |Words(last.original)|) else []
  }

  /** and where in the completed one. */
  function CompletedAt(chunks: seq<Chunk>): seq<nat> {
    if chunks == [] then []
    else
      var init, last := chunks[..|chunks| - 1], chunks[|chunks| - 1];
      CompletedAt(init)
      + if last.operation == Equal then From(|CompletedWords(init)|, |Words(last.original)|) else []
  }

  /** `n` consecutive numbers. */
  function From(start: nat, n: nat): seq<nat> { seq(n, k requires 0 <= k < n => start + k) }

  /** A side is a single-spaced text without outer blanks. */
  ghost predicate CleanText(s: string) { s == Join(Words(s)) }

  /** Each operation fills exactly the sides it names. */
  ghost predicate WellFormed(c: Chunk) {
    && CleanText(c.original) && CleanText(c.completed)
    && (c.original != [] <==> c.operation != Insert)
    && (c.completed != [] <==> c.operation != Delete)
    && (c.operation == Equal ==> c.original == c.completed)
  }

  ghost predicate AllWellFormed(chunks: seq<Chunk>) {
    forall k :: 0 <= k < |chunks| ==> WellFormed(chunks[k])
  }

  /** A delete and an insert, in either order: what the merge pass joins. */
  predicate Joinable(p: Operation, q: Operation) {
    (p == Delete && q == Insert) || (p == Insert && q == Delete)
  }

  /**
   A lone delete or insert is followed only by an equal run, and an equal run only by a change: no
   neighbours are left that could be joined, and pairs are joined from the left.
   */
  ghost predicate NormalForm(chunks: seq<Chunk>) {
    forall k :: 0 < k < |chunks| ==>
      && (chunks[k - 1].operation == Delete || chunks[k - 1].operation == Insert ==> chunks[k].operation == Equal)
      && (chunks[k - 1].operation == Equal ==> chunks[k].operation != Equal)
  }

  /** Grouped runs before merging: neighbours differ and nothing is a 'replace' yet. */
  ghost predicate Grouped(chunks: seq<Chunk>) {
    && (forall k :: 0 <= k < |chunks| ==> chunks[k].operation != Replace)
    && (forall k :: 0 < k < |chunks| ==> chunks[k - 1].operation != chunks[k].operation)
  }

  // ----- the walk -----

  /** The operation the walk is in at table position (i, j). */
  ghost function NextOp(a: seq<string>, b: seq<string>, i: nat, j: nat): Operation
    requires i <= |a| && j <= |b| && (i < |a| || j < |b|)
  {
    if i < |a| && j < |b| && a[i] == b[j] then Equal
    else if j == |b| || (i < |a| && Lcs(a, b, i + 1, j) >= Lcs(a, b, i, j + 1)) then Delete
    else Insert
  }

  /** From (i0, j0) the walk takes `n` single steps of the same operation. */
  ghost predicate Steady(a: seq<string>, b: seq<string>, i0: nat, j0: nat, op: Operation, n: nat)
    requires i0 <= |a| && j0 <= |b|
    requires op == Equal || op == Delete ==> i0 + n <= |a|
    requires op == Equal || op == Insert ==> j0 + n <= |b|
  {
    match op
    case Equal => a[i0..i0 + n] == b[j0..j0 + n]
    case Delete => forall p :: i0 <= p < i0 + n ==> NextOp(a, b, p, j0) == op
    case Insert => forall q :: j0 <= q < j0 + n ==> NextOp(a, b, i0, q) == op
    case Replace => false
  }

  /** Run by run, the chunks spell out the token-by-token walk from (0, 0) to (i, j). */
  ghost predicate SpellsWalk(a: seq<string>, b: seq<string>, chunks: seq<Chunk>, i: nat, j: nat)
    requires i <= |a| && j <= |b|
  {
    if chunks == [] then i == 0 && j == 0
    else
      var last := chunks[|chunks| - 1];
      var n, m := |Words(last.original)|, |Words(last.completed)|;
      && n <= i && m <= j && (last.operation == Equal ==> n == m)
      && Steady(a, b, i - n, j - m, last.operation, if last.operation == Insert then m else n)
      && SpellsWalk(a, b, chunks[..|chunks| - 1], i - n, j - m)
  }

  /** The words taken so far, and how many equal ones are still to come. */
  ghost predicate Progress(a: seq<string>, b: seq<string>, i: nat, j: nat, chunks: seq<Chunk>) {
    && i <= |a| && j <= |b|
    && OriginalWords(chunks) == a[..i]
    && CompletedWords(chunks) == b[..j]
    && |EqualWords(chunks)| + Lcs(a, b, i, j) == Lcs(a, b, 0, 0)
  }

  /** The runs so far are grouped, and the next one will be of another operation. */
  ghost predicate Shape(a: seq<string>, b: seq<string>, i: nat, j: nat, chunks: seq<Chunk>)
    requires i <= |a| && j <= |b|
  {
    && Grouped(chunks)
    && (chunks != [] && (i < |a| || j < |b|) ==> chunks[|chunks| - 1].operation != NextOp(a, b, i, j))
  }

  lemma AppendChunk(chunks: seq<Chunk>, c: Chunk)
    ensures OriginalWords(chunks + [c]) == OriginalWords(chunks) + Words(c.original)
    ensures CompletedWords(chunks + [c]) == CompletedWords(chunks) + Words(c.completed)
    ensures EqualWords(chunks + [c]) == EqualWords(chunks) + if c.operation == Equal then Words(c.original) else []
    ensures OriginalAt(chunks + [c]) == OriginalAt(chunks)
              + if c.operation == Equal then From(|OriginalWords(chunks)|, |Words(c.original)|) else []
    ensures CompletedAt(chunks + [c]) == CompletedAt(chunks)
              + if c.operation == Equal then From(|CompletedWords(chunks)|, |Words(c.original)|) else []
  {
    hide Words, From;
    assert (chunks + [c])[..|chunks|] == chunks;
  }

  /** `c` is the whole run that the walk makes from (i0, j0), ending at (i, j). */
  ghost predicate IsRun(a: seq<string>, b: seq<string>, i0: nat, j0: nat, i: nat, j: nat, c: Chunk)
    requires i0 <= |a| && j0 <= |b| && (i0 < |a| || j0 < |b|)
  {
    && i0 <= i <= |a| && j0 <= j <= |b| && i0 + j0 < i + j
    && c.operation == NextOp(a, b, i0, j0)
    && c.original == Join(a[i0..i]) && c.completed == Join(b[j0..j])
    && (c.operation == Equal ==> a[i0..i] == b[j0..j])
    && (c.operation == Delete ==> j == j0)
    && (c.operation == Insert ==> i == i0)
    && (if c.operation == Equal then i - i0 else 0) + Lcs(a, b, i, j) == Lcs(a, b, i0, j0)
    && (i < |a| || j < |b| ==> NextOp(a, b, i, j) != c.operation)
    && (c.operation == Equal ==> i - i0 == j - j0)
  }

  lemma RunWellFormed(a: seq<string>, b: seq<string>, i0: nat, j0: nat, i: nat, j: nat, c: Chunk)
    requires AllTokens(a) && AllTokens(b)
    requires i0 <= |a| && j0 <= |b| && (i0 < |a| || j0 < |b|)
    requires IsRun(a, b, i0, j0, i, j, c)
    ensures WellFormed(c) && c.operation != Replace
    ensures Words(c.original) == a[i0..i] && Words(c.completed) == b[j0..j]
  {
    WordsOfJoin(a[i0..i]);
    WordsOfJoin(b[j0..j]);
    if i0 < i { JoinEnds(a[i0..i]); }
    if j0 < j { JoinEnds(b[j0..j]); }
    if c.operation == Equal { assert |a[i0..i]| == |b[j0..j]|; }
  }

  /** Closing one run keeps the progress invariant. */
  lemma PushRun(a: seq<string>, b: seq<string>, i0: nat, j0: nat, i: nat, j: nat, chunks: seq<Chunk>, c: Chunk)
    requires AllTokens(a) && AllTokens(b)
    requires Progress(a, b, i0, j0, chunks) && (i0 < |a| || j0 < |b|)
    requires IsRun(a, b, i0, j0, i, j, c)
    ensures Progress(a, b, i, j, chunks + [c])
  {
    RunWellFormed(a, b, i0, j0, i, j, c);
    AppendChunk(chunks, c);
    assert a[..i] == a[..i0] + a[i0..i];
    assert b[..j] == b[..j0] + b[j0..j];
  }

  lemma PushShape(a: seq<string>, b: seq<string>, i0: nat, j0: nat, i: nat, j: nat, chunks: seq<Chunk>, c: Chunk)
    requires i0 <= |a| && j0 <= |b| && (i0 < |a| || j0 < |b|)
    requires Shape(a, b, i0, j0, chunks)
    requires IsRun(a, b, i0, j0, i, j, c)
    ensures Shape(a, b, i, j, chunks + [c])
  {}

  lemma PushWellFormed(chunks: seq<Chunk>, chunk: Chunk)
    requires AllWellFormed(chunks) && WellFormed(chunk)
    ensures AllWellFormed(chunks + [chunk])
    ensures chunks != [] ==> AllWellFormed(chunks[|chunks| - 1 := chunk])
  {}

  lemma SpellsSnoc(a: seq<string>, b: seq<string>, i: nat, j: nat, chunks: seq<Chunk>, c: Chunk)
    requires i <= |a| && j <= |b| && |Words(c.original)| <= i && |Words(c.completed)| <= j
    requires c.operation == Equal ==> |Words(c.original)| == |Words(c.completed)|
    requires Steady(a, b, i - |Words(c.original)|, j - |Words(c.completed)|, c.operation,
                    if c.operation == Insert then |Words(c.completed)| else |Words(c.original)|)
    requires SpellsWalk(a, b, chunks, i - |Words(c.original)|, j - |Words(c.completed)|)
    ensures SpellsWalk(a, b, chunks + [c], i, j)
  {
    hide Words, Steady, Lcs, NextOp;
    var all := chunks + [c];
    assert all[..|all| - 1] == chunks && all[|all| - 1] == c;
  }

  lemma PushSpelling(a: seq<string>, b: seq<string>, i0: nat, j0: nat, i: nat, j: nat, chunks: seq<Chunk>, c: Chunk)
    requires AllTokens(a) && AllTokens(b)
    requires i0 <= |a| && j0 <= |b| && (i0 < |a| || j0 < |b|)
    requires IsRun(a, b, i0, j0, i, j, c)
    requires Steady(a, b, i0, j0, c.operation, if c.operation == Insert then j - j0 else i - i0)
    requires SpellsWalk(a, b, chunks, i0, j0)
    ensures SpellsWalk(a, b, chunks + [c], i, j)
  {
    RunWellFormed(a, b, i0, j0, i, j, c);
    assert |a[i0..i]| == i - i0 && |b[j0..j]| == j - j0;
    assert c.operation == Equal ==> i - i0 == j - j0;
    hide *;
    SpellsSnoc(a, b, i, j, chunks, c);
  }

  ghost predicate TableFilled(a: seq<string>, b: seq<string>, dp: array2<nat>)
    reads dp
  {
    && dp.Length0 == |a| + 1 && dp.Length1 == |b| + 1
    && forall p :: 0 <= p <= |a| ==> RowFilled(a, b, dp, p, 0)
  }

  /** The run of equal tokens from (i0, j0), as far as it goes. */
  lemma SameSlices(a: seq<string>, b: seq<string>, i0: nat, i: nat, j0: nat)
    requires i0 <= i <= |a| && j0 + (i - i0) <= |b| && forall k :: i0 <= k < i ==> a[k] == b[j0 + (k - i0)]
    ensures a[i0..i] == b[j0..j0 + (i - i0)]
  {}

  method EqualRun(a: seq<string>, b: seq<string>, i0: nat, j0: nat) returns (i: nat, j: nat)
    requires i0 < |a| && j0 < |b| && a[i0] == b[j0]
    ensures i0 < i <= |a| && j0 < j <= |b| && a[i0..i] == b[j0..j]
    ensures i - i0 + Lcs(a, b, i, j) == Lcs(a, b, i0, j0)
    ensures i < |a| || j < |b| ==> NextOp(a, b, i, j) != Equal
    ensures i - i0 == j - j0 && Steady(a, b, i0, j0, Equal, i - i0)
  {
    i, j := i0, j0;
    while i < |a| && j < |b| && a[i] == b[j]
      invariant i0 <= i <= |a| && j == j0 + (i - i0) <= |b|
      invariant forall k :: i0 <= k < i ==> a[k] == b[j0 + (k - i0)]
      invariant i - i0 + Lcs(a, b, i, j) == Lcs(a, b, i0, j0)
    {
      i, j := i + 1, j + 1;
    }
    SameSlices(a, b, i0, i, j0);
  }

  /** The run of deleted tokens from i0, once the walk has chosen to delete there. */
  method DeleteRun(a: seq<string>, b: seq<string>, dp: array2<nat>, i0: nat, j: nat) returns (i: nat)
    requires TableFilled(a, b, dp)
    requires i0 < |a| && j <= |b| && NextOp(a, b, i0, j) == Delete
    ensures i0 < i <= |a|
    ensures Lcs(a, b, i, j) == Lcs(a, b, i0, j)
    ensures i < |a| || j < |b| ==> NextOp(a, b, i, j) != Delete
    ensures Steady(a, b, i0, j, Delete, i - i0)
  {
    i := i0 + 1;
    while i < |a| && (j >= |b| || dp[i + 1, j] >= dp[i, j + 1])
      invariant i0 < i <= |a|
      invariant Lcs(a, b, i, j) == Lcs(a, b, i0, j)
      invariant Steady(a, b, i0, j, Delete, i - i0)
    {
      if j < |b| && a[i] == b[j] { break; }
      assert RowFilled(a, b, dp, i + 1, 0) && RowFilled(a, b, dp, i, 0);
      i := i + 1;
    }
    assert RowFilled(a, b, dp, i, 0) && (i < |a| ==> RowFilled(a, b, dp, i + 1, 0));
  }

  /** The run of inserted tokens from j0, once the walk has chosen to insert there. */
  method InsertRun(a: seq<string>, b: seq<string>, dp: array2<nat>, i: nat, j0: nat) returns (j: nat)
    requires TableFilled(a, b, dp)
    requires i <= |a| && j0 < |b| && NextOp(a, b, i, j0) == Insert
    ensures j0 < j <= |b|
    ensures Lcs(a, b, i, j) == Lcs(a, b, i, j0)
    ensures i < |a| || j < |b| ==> NextOp(a, b, i, j) != Insert
    ensures Steady(a, b, i, j0, Insert, j - j0)
  {
    j := j0 + 1;
    assert RowFilled(a, b, dp, i, 0) && (i < |a| ==> RowFilled(a, b, dp, i + 1, 0));
    while j < |b| && (i >= |a| || dp[i, j + 1] > dp[i + 1, j])
      invariant j0 < j <= |b|
      invariant Lcs(a, b, i, j) == Lcs(a, b, i, j0)
      invariant Steady(a, b, i, j0, Insert, j - j0)
    {
      if i < |a| && a[i] == b[j] { break; }
      j := j + 1;
    }
  }

  method WalkTable(a: seq<string>, b: seq<string>, dp: array2<nat>) returns (chunks: seq<Chunk>)
    requires AllTokens(a) && AllTokens(b)
    requires TableFilled(a, b, dp)
    ensures AllWellFormed(chunks) && Grouped(chunks)
    ensures OriginalWords(chunks) == a && CompletedWords(chunks) == b
    ensures |EqualWords(chunks)| == Lcs(a, b, 0, 0)
    ensures SpellsWalk(a, b, chunks, |a|, |b|)
  {
    chunks := [];
    var i, j := 0, 0;
    while i < |a| || j < |b|
      invariant Progress(a, b, i, j, chunks) && Shape(a, b, i, j, chunks) && AllWellFormed(chunks)
      invariant SpellsWalk(a, b, chunks, i, j)
      decreases |a| - i + |b| - j
    {
      var c, i', j' := NextRun(a, b, dp, i, j);
      RunWellFormed(a, b, i, j, i', j', c);
      PushRun(a, b, i, j, i', j', chunks, c);
      PushShape(a, b, i, j, i', j', chunks, c);
      PushWellFormed(chunks, c);
      PushSpelling(a, b, i, j, i', j', chunks, c);
      chunks := chunks + [c];
      i, j := i', j';
    }
    assert a[..|a|] == a && b[..|b|] == b;
  }

  /** One turn of the walk's outer loop. */
  method NextRun(a: seq<string>, b: seq<string>, dp: array2<nat>, i: nat, j: nat)
    returns (c: Chunk, i': nat, j': nat)
    requires TableFilled(a, b, dp)
    requires i <= |a| && j <= |b| && (i < |a| || j < |b|)
    ensures IsRun(a, b, i, j, i', j', c)
    ensures Steady(a, b, i, j, c.operation, if c.operation == Insert then j' - j else i' - i)
  {
    i', j' := i, j;
    if i < |a| && j < |b| && a[i] == b[j] {
      i', j' := EqualRun(a, b, i, j);
      c := Chunk(Equal, Join(a[i..i']), Join(b[j..j']));
    } else {
      assert RowFilled(a, b, dp, i, 0) && (i < |a| ==> RowFilled(a, b, dp, i + 1, 0));
      var nextDelete: int := if i < |a| then dp[i + 1, j] else -1;
      var nextInsert: int := if j < |b| then dp[i, j + 1] else -1;
      if j >= |b| || (i < |a| && nextDelete >= nextInsert) {
        i' := DeleteRun(a, b, dp, i, j);
        c := Chunk(Delete, Join(a[i..i']), "");
      } else {
        j' := InsertRun(a, b, dp, i, j);
        c := Chunk(Insert, "", Join(b[j..j']));
      }
    }
  }

  // ----- the merge -----

  /** `[x, y].filter(Boolean).join(' ').trim()` */
  function JoinSides(x: string, y: string): string {
    Trim(if x == [] then y else if y == [] then x else x + " " + y)
  }

  /** Two chunk lists with the same words on each side and the same equal words at the same places. */
  ghost predicate SameWords(xs: seq<Chunk>, ys: seq<Chunk>) {
    && OriginalWords(xs) == OriginalWords(ys)
    && CompletedWords(xs) == CompletedWords(ys)
    && EqualWords(xs) == EqualWords(ys)
    && OriginalAt(xs) == OriginalAt(ys) && CompletedAt(xs) == CompletedAt(ys)
  }

  /** The last merged chunk is the last one seen, or a pair that ends in it. */
  ghost predicate Follows(seen: seq<Chunk>, merged: seq<Chunk>) {
    && (seen == [] <==> merged == [])
    && (seen != [] ==> merged[|merged| - 1] == seen[|seen| - 1] || merged[|merged| - 1].operation == Replace)
  }

  /** `both` holds the words of `prev` and then those of `chunk`, and is no 'equal' chunk. */
  ghost predicate HoldsBoth(both: Chunk, prev: Chunk, chunk: Chunk) {
    && Words(both.original) == Words(prev.original) + Words(chunk.original)
    && Words(both.completed) == Words(prev.completed) + Words(chunk.completed)
    && both.operation == Replace
  }

  method JoinPair(prev: Chunk, chunk: Chunk) returns (both: Chunk)
    requires WellFormed(prev) && WellFormed(chunk) && Joinable(prev.operation, chunk.operation)
    ensures WellFormed(both) && HoldsBoth(both, prev, chunk)
  {
    TrimJoin(Words(prev.original));
    TrimJoin(Words(chunk.original));
    TrimJoin(Words(prev.completed));
    TrimJoin(Words(chunk.completed));
    both := Chunk(Replace, JoinSides(prev.original, chunk.original), JoinSides(prev.completed, chunk.completed));
  }

  lemma ReplaceLast(seen: seq<Chunk>, init: seq<Chunk>, prev: Chunk, chunk: Chunk, both: Chunk)
    requires SameWords(seen, init + [prev])
    requires prev.operation != Equal && chunk.operation != Equal
    requires HoldsBoth(both, prev, chunk)
    ensures SameWords(seen + [chunk], init + [both])
  {
    AppendChunk(init, prev);
    AppendChunk(init, both);
    AppendChunk(seen, chunk);
    hide OriginalWords, CompletedWords, EqualWords, OriginalAt, CompletedAt, Words;
    Regroup(OriginalWords(init), Words(prev.original), Words(chunk.original));
    Regroup(CompletedWords(init), Words(prev.completed), Words(chunk.completed));
  }

  lemma PushLast(seen: seq<Chunk>, merged: seq<Chunk>, chunk: Chunk)
    requires SameWords(seen, merged)
    ensures SameWords(seen + [chunk], merged + [chunk])
  {
    AppendChunk(seen, chunk);
    AppendChunk(merged, chunk);
    hide OriginalWords, CompletedWords, EqualWords, OriginalAt, CompletedAt, Words;
  }

  lemma PushNormal(seen: seq<Chunk>, merged: seq<Chunk>, chunk: Chunk)
    requires NormalForm(merged) && Follows(seen, merged) && Grouped(seen + [chunk])
    requires merged != [] ==> !Joinable(merged[|merged| - 1].operation, chunk.operation)
    ensures NormalForm(merged + [chunk]) && Follows(seen + [chunk], merged + [chunk])
  {
    var all := seen + [chunk];
    assert all[|seen|] == chunk;
    if seen != [] {
      assert all[|seen| - 1].operation != all[|seen|].operation;
    }
  }

  lemma ReplaceNormal(seen: seq<Chunk>, merged: seq<Chunk>, chunk: Chunk, both: Chunk)
    requires merged != [] && NormalForm(merged) && both.operation == Replace
    requires merged[|merged| - 1].operation != Equal
    ensures NormalForm(merged[|merged| - 1 := both]) && Follows(seen + [chunk], merged[|merged| - 1 := both])
  {}

  /** `merged` is `runs` with some neighbouring delete/insert pairs joined, and every other run as it was. */
  ghost predicate MergeOf(runs: seq<Chunk>, merged: seq<Chunk>)
    decreases |merged|
  {
    if merged == [] then runs == []
    else
      var init, last, n := merged[..|merged| - 1], merged[|merged| - 1], |runs|;
      if last.operation == Replace then
        && n >= 2 && Joinable(runs[n - 2].operation, runs[n - 1].operation)
        && HoldsBoth(last, runs[n - 2], runs[n - 1]) && MergeOf(runs[..n - 2], init)
      else n >= 1 && runs[n - 1] == last && MergeOf(runs[..n - 1], init)
  }

  lemma PushMerge(seen: seq<Chunk>, merged: seq<Chunk>, chunk: Chunk)
    requires MergeOf(seen, merged) && chunk.operation != Replace
    ensures MergeOf(seen + [chunk], merged + [chunk])
  {}

  lemma JoinMerge(seen: seq<Chunk>, init: seq<Chunk>, prev: Chunk, chunk: Chunk, both: Chunk)
    requires MergeOf(seen, init + [prev]) && Joinable(prev.operation, chunk.operation) && HoldsBoth(both, prev, chunk)
    ensures MergeOf(seen + [chunk], init + [both])
  {
    assert (init + [prev])[..|init|] == init;
    assert (init + [both])[..|init|] == init;
    assert (seen + [chunk])[..|seen| - 1] == seen[..|seen| - 1];
  }

  /** What the merge has made of the runs seen so far. */
  ghost predicate Merged(seen: seq<Chunk>, merged: seq<Chunk>) {
    && AllWellFormed(merged) && NormalForm(merged) && Follows(seen, merged)
    && SameWords(seen, merged) && MergeOf(seen, merged)
  }

  lemma MergedPush(seen: seq<Chunk>, merged: seq<Chunk>, chunk: Chunk)
    requires Merged(seen, merged) && WellFormed(chunk) && Grouped(seen + [chunk])
    requires merged != [] ==> !Joinable(merged[|merged| - 1].operation, chunk.operation)
    ensures Merged(seen + [chunk], merged + [chunk])
  {
    assert chunk.operation != Replace by { assert (seen + [chunk])[|seen|] == chunk; }
    hide MergeOf, SameWords, AllWellFormed, WellFormed, Grouped, NormalForm, Follows;
    PushLast(seen, merged, chunk);
    PushMerge(seen, merged, chunk);
    PushNormal(seen, merged, chunk);
    PushWellFormed(merged, chunk);
  }

  lemma MergedJoin(seen: seq<Chunk>, merged: seq<Chunk>, prev: Chunk, chunk: Chunk, both: Chunk)
    requires Merged(seen, merged) && merged != [] && merged[|merged| - 1] == prev
        && Joinable(prev.operation, chunk.operation)
    requires WellFormed(both) && HoldsBoth(both, prev, chunk)
    ensures Merged(seen + [chunk], merged[|merged| - 1 := both])
  {
    hide MergeOf, SameWords, AllWellFormed, WellFormed, NormalForm, Follows;
    var init := merged[..|merged| - 1];
    ReplaceNormal(seen, merged, chunk, both);
    PushWellFormed(merged, both);
    hide HoldsBoth;
    assert merged == init + [prev] && merged[|merged| - 1 := both] == init + [both];
    ReplaceLast(seen, init, prev, chunk, both);
    JoinMerge(seen, init, prev, chunk, both);
  }

  /** One turn of the merge loop. */
  method MergeChunk(ghost seen: seq<Chunk>, merged: seq<Chunk>, chunk: Chunk) returns (next: seq<Chunk>)
    requires Merged(seen, merged) && WellFormed(chunk) && Grouped(seen + [chunk])
    ensures Merged(seen + [chunk], next)
  {
    if merged != [] && Joinable(merged[|merged| - 1].operation, chunk.operation) {
      var prev := merged[|merged| - 1];
      assert WellFormed(prev);
      hide Merged, WellFormed, HoldsBoth, Joinable;
      var both := JoinPair(prev, chunk);
      MergedJoin(seen, merged, prev, chunk, both);
      next := merged[|merged| - 1 := both];
    } else {
      MergedPush(seen, merged, chunk);
      next := merged + [chunk];
    }
  }

  lemma MergedNothing(chunks: seq<Chunk>)
    ensures Merged(chunks[..0], [])
  {
    assert chunks[..0] == [];
  }

  lemma MergeReady(chunks: seq<Chunk>, k: nat)
    requires AllWellFormed(chunks) && Grouped(chunks) && k < |chunks|
    ensures chunks[..k] + [chunks[k]] == chunks[..k + 1] && Grouped(chunks[..k + 1]) && WellFormed(chunks[k])
  {}

  lemma MergedAll(chunks: seq<Chunk>, merged: seq<Chunk>)
    requires Merged(chunks[..|chunks|], merged)
    ensures AllWellFormed(merged) && NormalForm(merged) && SameWords(chunks, merged) && MergeOf(chunks, merged)
  {
    hide AllWellFormed, NormalForm, SameWords, MergeOf;
    assert chunks[..|chunks|] == chunks;
  }

  method MergeReplaceChunks(chunks: seq<Chunk>) returns (merged: seq<Chunk>)
    requires AllWellFormed(chunks) && Grouped(chunks)
    ensures AllWellFormed(merged) && NormalForm(merged)
    ensures SameWords(chunks, merged) && MergeOf(chunks, merged)
  {
    hide *;
    merged := [];
    MergedNothing(chunks);
    for k := 0 to |chunks|
      invariant Merged(chunks[..k], merged)
    {
      MergeReady(chunks, k);
      merged := MergeChunk(chunks[..k], merged, chunks[k]);
    }
    MergedAll(chunks, merged);
  }

  // ----- optimality -----

  /** Appending the same words to both sides of an embedding keeps one. */
  lemma ExtendEmbedding(c: seq<string>, s: seq<string>, at: seq<nat>, ws: seq<string>)
    requires Embeds(c, s, at, 0)
    ensures Embeds(c + ws, s + ws, at + From(|s|, |ws|), 0)
  {}

  lemma KeepEmbedding(c: seq<string>, s: seq<string>, at: seq<nat>, ws: seq<string>)
    requires Embeds(c, s, at, 0)
    ensures Embeds(c, s + ws, at, 0)
  {}

  lemma PushEmbedding(chunks: seq<Chunk>, c: Chunk)
    requires WellFormed(c)
    requires Embeds(EqualWords(chunks), OriginalWords(chunks), OriginalAt(chunks), 0)
    requires Embeds(EqualWords(chunks), CompletedWords(chunks), CompletedAt(chunks), 0)
    ensures var all := chunks + [c];
      && Embeds(EqualWords(all), OriginalWords(all), OriginalAt(all), 0)
      && Embeds(EqualWords(all), CompletedWords(all), CompletedAt(all), 0)
  {
    AppendChunk(chunks, c);
    hide Embeds, From, Words, EqualWords, OriginalWords, CompletedWords, OriginalAt, CompletedAt;
    var ws := Words(c.original);
    if c.operation == Equal {
      ExtendEmbedding(EqualWords(chunks), OriginalWords(chunks), OriginalAt(chunks), ws);
      ExtendEmbedding(EqualWords(chunks), CompletedWords(chunks), CompletedAt(chunks), ws);
    } else {
      KeepEmbedding(EqualWords(chunks), OriginalWords(chunks), OriginalAt(chunks), ws);
      KeepEmbedding(EqualWords(chunks), CompletedWords(chunks), CompletedAt(chunks), Words(c.completed));
      assert EqualWords(chunks) + [] == EqualWords(chunks);
      assert OriginalAt(chunks) + [] == OriginalAt(chunks) && CompletedAt(chunks) + [] == CompletedAt(chunks);
    }
  }

  /** The words of the equal chunks are a subsequence of both texts, at the positions of the chunks. */
  lemma {:induction false} EqualIsCommon(chunks: seq<Chunk>)
    requires AllWellFormed(chunks)
    ensures Embeds(EqualWords(chunks), OriginalWords(chunks), OriginalAt(chunks), 0)
    ensures Embeds(EqualWords(chunks), CompletedWords(chunks), CompletedAt(chunks), 0)
  {
    if chunks == [] {
    } else {
      var init, last := chunks[..|chunks| - 1], chunks[|chunks| - 1];
      assert AllWellFormed(init) && WellFormed(last) && chunks == init + [last];
      hide *;
      EqualIsCommon(init);
      PushEmbedding(init, last);
    }
  }

  /** A chunk list over `a` and `b` whose equal words number Lcs(a, b, 0, 0) holds a longest common subsequence. */
  lemma EqualIsLongest(a: seq<string>, b: seq<string>, chunks: seq<Chunk>)
    requires AllWellFormed(chunks)
    requires OriginalWords(chunks) == a && CompletedWords(chunks) == b
    requires |EqualWords(chunks)| == Lcs(a, b, 0, 0)
    ensures IsLongestCommon(EqualWords(chunks), a, b)
  {
    EqualIsCommon(chunks);
    forall d | IsSubsequence(d, a) && IsSubsequence(d, b) ensures |d| <= |EqualWords(chunks)| {
      var p: seq<nat> :| Embeds(d, a, p, 0);
      var q: seq<nat> :| Embeds(d, b, q, 0);
      LcsBounds(a, b, 0, 0, d, p, q);
    }
  }

  // ----- which longest common subsequence it is -----

  /** The walk's equal words from (i, j) on: their places in `a`, */
  ghost function WalkA(a: seq<string>, b: seq<string>, i: nat, j: nat): seq<nat>
    requires i <= |a| && j <= |b|
    decreases |a| - i + |b| - j
  {
    if i == |a| && j == |b| then []
    else
      var op := NextOp(a, b, i, j);
      if op == Equal then [i] + WalkA(a, b, i + 1, j + 1)
      else if op == Delete then WalkA(a, b, i + 1, j)
      else WalkA(a, b, i, j + 1)
  }

  /** and in `b`. */
  ghost function WalkB(a: seq<string>, b: seq<string>, i: nat, j: nat): seq<nat>
    requires i <= |a| && j <= |b|
    decreases |a| - i + |b| - j
  {
    if i == |a| && j == |b| then []
    else
      var op := NextOp(a, b, i, j);
      if op == Equal then [j] + WalkB(a, b, i + 1, j + 1)
      else if op == Delete then WalkB(a, b, i + 1, j)
      else WalkB(a, b, i, j + 1)
  }

  /** Equal words of the two suffixes from (i, j), pair by pair. */
  ghost predicate Pairs(a: seq<string>, b: seq<string>, i: nat, j: nat, p: seq<nat>, q: seq<nat>) {
    && |p| == |q|
    && (forall k :: 0 <= k < |p| ==> i <= p[k] < |a| && j <= q[k] < |b| && a[p[k]] == b[q[k]])
    && (forall k, l :: 0 <= k < l < |p| ==> p[k] < p[l] && q[k] < q[l])
  }

  lemma PairsBound(a: seq<string>, b: seq<string>, i: nat, j: nat, p: seq<nat>, q: seq<nat>)
    requires i <= |a| && j <= |b| && Pairs(a, b, i, j, p, q)
    ensures |p| <= Lcs(a, b, i, j)
  {
    LcsBounds(a, b, i, j, seq(|p|, k requires 0 <= k < |p| => a[p[k]]), p, q);
  }

  lemma LcsStep(a: seq<string>, b: seq<string>, i: nat, j: nat)
    requires i <= |a| && j <= |b| && (i < |a| || j < |b|)
    ensures var op := NextOp(a, b, i, j);
      && (op == Equal ==> i < |a| && j < |b| && a[i] == b[j] && Lcs(a, b, i, j) == Lcs(a, b, i + 1, j + 1) + 1)
      && (op == Delete ==> i < |a| && Lcs(a, b, i, j) == Lcs(a, b, i + 1, j))
      && (op == Insert ==> j < |b| && Lcs(a, b, i, j) == Lcs(a, b, i, j + 1))
  {}

  lemma {:induction false} WalkPairs(a: seq<string>, b: seq<string>, i: nat, j: nat)
    requires i <= |a| && j <= |b|
    ensures Pairs(a, b, i, j, WalkA(a, b, i, j), WalkB(a, b, i, j)) && |WalkA(a, b, i, j)| == Lcs(a, b, i, j)
    decreases |a| - i + |b| - j
  {
    if i == |a| && j == |b| {
    } else {
      hide Pairs;
      WalkStep(a, b, i, j);
      LcsStep(a, b, i, j);
      var op := NextOp(a, b, i, j);
      hide WalkA, WalkB, NextOp, Lcs;
      if op == Equal {
        WalkPairs(a, b, i + 1, j + 1);
        ConsPairs(a, b, i, j, WalkA(a, b, i + 1, j + 1), WalkB(a, b, i + 1, j + 1));
      } else if op == Delete {
        WalkPairs(a, b, i + 1, j);
        FromPairs(a, b, i + 1, j, i, j, WalkA(a, b, i + 1, j), WalkB(a, b, i + 1, j));
      } else {
        WalkPairs(a, b, i, j + 1);
        FromPairs(a, b, i, j + 1, i, j, WalkA(a, b, i, j + 1), WalkB(a, b, i, j + 1));
      }
    }
  }

  lemma WalkStep(a: seq<string>, b: seq<string>, i: nat, j: nat)
    requires i <= |a| && j <= |b| && (i < |a| || j < |b|)
    ensures var op := NextOp(a, b, i, j);
      && (op == Equal ==> i < |a| && j < |b| && WalkA(a, b, i, j) == [i] + WalkA(a, b, i + 1, j + 1)
                          && WalkB(a, b, i, j) == [j] + WalkB(a, b, i + 1, j + 1))
      && (op == Delete ==>
            i < |a| && WalkA(a, b, i, j) == WalkA(a, b, i + 1, j) && WalkB(a, b, i, j) == WalkB(a, b, i + 1, j))
      && (op == Insert ==>
            j < |b| && WalkA(a, b, i, j) == WalkA(a, b, i, j + 1) && WalkB(a, b, i, j) == WalkB(a, b, i, j + 1))
      && op != Replace
  {
    hide Lcs;
  }

  lemma ConsPairs(a: seq<string>, b: seq<string>, i: nat, j: nat, p: seq<nat>, q: seq<nat>)
    requires i < |a| && j < |b| && a[i] == b[j] && Pairs(a, b, i + 1, j + 1, p, q)
    ensures Pairs(a, b, i, j, [i] + p, [j] + q)
  {}

  /** `g` is lexicographically no later than `q`. */
  ghost predicate NoLater(g: seq<nat>, q: seq<nat>)
    requires |g| == |q|
    decreases |g|
  {
    g == [] || g[0] < q[0] || (g[0] == q[0] && NoLater(g[1..], q[1..]))
  }

  lemma {:induction false} EarlierAt(g: seq<nat>, q: seq<nat>, k: nat)
    requires |g| == |q| && k <= |g| && g[..k] == q[..k] && (k < |g| ==> g[k] < q[k])
    ensures NoLater(g, q)
  {
    if k == 0 {
    } else {
      assert g[0] == g[..k][0] == q[..k][0] == q[0];
      assert g[1..][..k - 1] == g[..k][1..] && q[1..][..k - 1] == q[..k][1..];
      EarlierAt(g[1..], q[1..], k - 1);
    }
  }

  /** The first `k` pairs of one chain, and the pairs of another from the `l`-th on, which come later. */
  lemma Splice(a: seq<string>, b: seq<string>, i: nat, j: nat, p: seq<nat>, q: seq<nat>, k: nat,
               i': nat, j': nat, f: seq<nat>, g: seq<nat>, l: nat)
    requires Pairs(a, b, i, j, p, q) && Pairs(a, b, i', j', f, g)
    requires 0 < k <= |p| && l < |f| && p[k - 1] < f[l] && q[k - 1] < g[l]
    ensures Pairs(a, b, i, j, p[..k] + f[l..], q[..k] + g[l..])
  {
    var x, y := p[..k] + f[l..], q[..k] + g[l..];
    forall n | 0 <= n < |x| ensures i <= x[n] < |a| && j <= y[n] < |b| && a[x[n]] == b[y[n]] {
      if n >= k { assert x[n] == f[n - k + l] && y[n] == g[n - k + l] && p[k - 1] < f[n - k + l]; }
    }
    forall m, n | 0 <= m < n < |x| ensures x[m] < x[n] && y[m] < y[n] {
      if m < k <= n { assert x[n] == f[n - k + l] && y[n] == g[n - k + l] && p[m] <= p[k - 1] && q[m] <= q[k - 1]; }
    }
  }

  /**
   A chain (p, q) that uses row `i` against the walk from the next row on: as long as their places in `b` are the
   same, the rows of (p, q) stay behind, or else its rest can be put behind the walk's beginning; and where the
   places differ, the walk is earlier, or a longer chain could be put together.
   */
  lemma {:induction false} Exchange(a: seq<string>, b: seq<string>, i: nat, j: nat, p: seq<nat>, q: seq<nat>, k: nat)
    requires i < |a| && j <= |b| && Lcs(a, b, i + 1, j) == Lcs(a, b, i, j) == |p|
    requires Pairs(a, b, i, j, p, q) && k < |p|
    requires |WalkA(a, b, i + 1, j)| == |WalkB(a, b, i + 1, j)| == |p|
    requires WalkB(a, b, i + 1, j)[..k] == q[..k] && p[k] < WalkA(a, b, i + 1, j)[k]
    ensures NoLater(WalkB(a, b, i + 1, j), q)
    decreases |a| - i + |b| - j, 0, |p| - k
  {
    WalkPairs(a, b, i + 1, j);
    hide *;
    var f, g := WalkA(a, b, i + 1, j), WalkB(a, b, i + 1, j);
    if g[k] > q[k] {
      TooLong(a, b, i, j, p, q, f, g, k);
    } else if g[k] < q[k] {
      EarlierAt(g, q, k);
    } else {
      assert g[..k + 1] == g[..k] + [g[k]] && q[..k + 1] == q[..k] + [q[k]];
      if k + 1 == |p| {
        assert g[..k + 1] == g && q[..k + 1] == q;
        EarlierAt(g, q, |g|);
      } else if p[k + 1] > f[k] {
        var led := f[..k + 1] + p[k + 1..];
        Led(a, b, i, j, p, q, f, g, k);
        WalkIsEarliest(a, b, i + 1, j, led, q);
      } else {
        Increasing(a, b, i + 1, j, f, g, k);
        Exchange(a, b, i, j, p, q, k + 1);
      }
    }
  }

  /** Were the walk's place later, the two chains together would be too long. */
  lemma TooLong(a: seq<string>, b: seq<string>, i: nat, j: nat, p: seq<nat>, q: seq<nat>, f: seq<nat>, g: seq<nat>,
                k: nat)
    requires i < |a| && j <= |b| && |p| == |f| == Lcs(a, b, i, j)
    requires Pairs(a, b, i, j, p, q) && Pairs(a, b, i + 1, j, f, g)
    requires k < |p| == |q| == |g| && p[k] < f[k]
    ensures g[k] <= q[k]
  {
    hide *;
    if q[k] < g[k] {
      Splice(a, b, i, j, p, q, k + 1, i + 1, j, f, g, k);
      PairsBound(a, b, i, j, p[..k + 1] + f[k..], q[..k + 1] + g[k..]);
    }
  }

  /** The beginning of the walk and then the rest of (p, q). */
  lemma Led(a: seq<string>, b: seq<string>, i: nat, j: nat, p: seq<nat>, q: seq<nat>, f: seq<nat>, g: seq<nat>, k: nat)
    requires Pairs(a, b, i, j, p, q) && Pairs(a, b, i + 1, j, f, g)
    requires k + 1 < |p| == |q| == |f| == |g| && f[k] < p[k + 1] && g[..k + 1] == q[..k + 1]
    ensures Pairs(a, b, i + 1, j, f[..k + 1] + p[k + 1..], q) && |f[..k + 1] + p[k + 1..]| == |p|
  {
    hide *;
    Increasing(a, b, i, j, p, q, k);
    assert g[k] == g[..k + 1][k] == q[..k + 1][k] == q[k];
    Splice(a, b, i + 1, j, f, g, k + 1, i, j, p, q, k + 1);
    assert q == g[..k + 1] + q[k + 1..];
  }

  lemma Increasing(a: seq<string>, b: seq<string>, i: nat, j: nat, p: seq<nat>, q: seq<nat>, k: nat)
    requires Pairs(a, b, i, j, p, q) && k + 1 < |p|
    ensures |p| == |q| && p[k] < p[k + 1] && q[k] < q[k + 1]
  {}

  lemma TailPairs(a: seq<string>, b: seq<string>, i: nat, j: nat, p: seq<nat>, q: seq<nat>)
    requires Pairs(a, b, i, j, p, q) && p != []
    ensures q != [] && i <= p[0] < |a| && j <= q[0] < |b| && a[p[0]] == b[q[0]]
    ensures Pairs(a, b, p[0] + 1, q[0] + 1, p[1..], q[1..])
  {}

  lemma FromPairs(a: seq<string>, b: seq<string>, i: nat, j: nat, i': nat, j': nat, p: seq<nat>, q: seq<nat>)
    requires Pairs(a, b, i, j, p, q) && ((p != [] ==> i' <= p[0] && j' <= q[0]) || (i' <= i && j' <= j))
    ensures Pairs(a, b, i', j', p, q)
  {}

  /** No longest common subsequence has earlier places in `b` than the walk. */
  lemma {:induction false} WalkIsEarliest(a: seq<string>, b: seq<string>, i: nat, j: nat, p: seq<nat>, q: seq<nat>)
    requires i <= |a| && j <= |b| && Pairs(a, b, i, j, p, q) && |p| == Lcs(a, b, i, j)
    ensures |WalkB(a, b, i, j)| == |WalkA(a, b, i, j)| == |q| && NoLater(WalkB(a, b, i, j), q)
    decreases |a| - i + |b| - j, 1
  {
    WalkPairs(a, b, i, j);
    if p == [] {
    } else {
      TailPairs(a, b, i, j, p, q);
      hide Pairs;
      if a[i] == b[j] {
        if q[0] == j {
          FromPairs(a, b, p[0] + 1, q[0] + 1, i + 1, j + 1, p[1..], q[1..]);
          WalkIsEarliest(a, b, i + 1, j + 1, p[1..], q[1..]);
        }
      } else if NextOp(a, b, i, j) == Delete {
        EarliestByDelete(a, b, i, j, p, q);
      } else if q[0] > j {
        FromPairs(a, b, i, j, i, j + 1, p, q);
        WalkIsEarliest(a, b, i, j + 1, p, q);
      } else {
        FromPairs(a, b, i, j, i + 1, j, p, q);
        PairsBound(a, b, i + 1, j, p, q);
        assert false;
      }
    }
  }

  lemma {:induction false} EarliestByDelete(a: seq<string>, b: seq<string>, i: nat, j: nat, p: seq<nat>, q: seq<nat>)
    requires i < |a| && j < |b| && Pairs(a, b, i, j, p, q) && |p| == Lcs(a, b, i, j) > 0
    requires a[i] != b[j] && NextOp(a, b, i, j) == Delete
    ensures |WalkB(a, b, i + 1, j)| == |q| && NoLater(WalkB(a, b, i + 1, j), q)
    decreases |a| - i + |b| - j, 0, |p| + 1
  {
    WalkPairs(a, b, i + 1, j);
    if p[0] > i {
      FromPairs(a, b, i, j, i + 1, j, p, q);
      WalkIsEarliest(a, b, i + 1, j, p, q);
    } else {
      Exchange(a, b, i, j, p, q, 0);
    }
  }

  /**
   Of two longest common subsequences with places (f, g) and (p, q), the first is chosen: at their first difference
   it has the earlier word of `b`; or the same word, matched with the earlier word of `a` when it directly follows
   the pair before it in `b`, and with the later one when words of `b` are skipped.
   */
  ghost predicate Chosen(j: nat, f: seq<nat>, g: seq<nat>, p: seq<nat>, q: seq<nat>)
    requires |f| == |g| == |p| == |q|
    decreases |g|
  {
    if g == [] then true
    else if g[0] != q[0] then g[0] < q[0]
    else if f[0] != p[0] then (if g[0] == j then f[0] < p[0] else p[0] < f[0])
    else Chosen(g[0] + 1, f[1..], g[1..], p[1..], q[1..])
  }

  lemma ChosenAtFirst(j: nat, f: seq<nat>, g: seq<nat>, p: seq<nat>, q: seq<nat>)
    requires |f| == |g| == |p| == |q| > 0
    ensures g[0] < q[0] ==> Chosen(j, f, g, p, q)
    ensures g[0] == q[0] && f[0] == p[0] && Chosen(g[0] + 1, f[1..], g[1..], p[1..], q[1..]) ==>
      Chosen(j, f, g, p, q)
    ensures g[0] == q[0] == j && f[0] < p[0] ==> Chosen(j, f, g, p, q)
    ensures g[0] == q[0] > j && f[0] > p[0] ==> Chosen(j, f, g, p, q)
    ensures f[0] == p[0] && Chosen(j + 1, f, g, p, q) ==> Chosen(j, f, g, p, q)
  {}

  lemma {:induction false} WalkIsChosen(a: seq<string>, b: seq<string>, i: nat, j: nat, p: seq<nat>, q: seq<nat>)
    requires i <= |a| && j <= |b| && Pairs(a, b, i, j, p, q) && |p| == Lcs(a, b, i, j)
    ensures |WalkB(a, b, i, j)| == |WalkA(a, b, i, j)| == |q| == |p|
    ensures Chosen(j, WalkA(a, b, i, j), WalkB(a, b, i, j), p, q)
    decreases |a| - i + |b| - j
  {
    var f, g := WalkA(a, b, i, j), WalkB(a, b, i, j);
    WalkPairs(a, b, i, j);
    if p == [] {
    } else {
      WalkIsEarliest(a, b, i, j, p, q);
      assert g[0] <= q[0];
      TailPairs(a, b, i, j, p, q);
      TailPairs(a, b, i, j, f, g);
      LcsStep(a, b, i, j);
      WalkStep(a, b, i, j);
      ChosenAtFirst(j, f, g, p, q);
      var op := NextOp(a, b, i, j);
      hide Pairs, Lcs, WalkA, WalkB, NextOp, NoLater, Chosen;
      if op == Equal {
        if q[0] == j && p[0] == i {
          FromPairs(a, b, p[0] + 1, q[0] + 1, i + 1, j + 1, p[1..], q[1..]);
          WalkIsChosen(a, b, i + 1, j + 1, p[1..], q[1..]);
        }
      } else if op == Delete {
        WalkPairs(a, b, i + 1, j);
        if p[0] > i {
          FromPairs(a, b, i, j, i + 1, j, p, q);
          WalkIsChosen(a, b, i + 1, j, p, q);
        } else {
          TailPairs(a, b, i + 1, j, f, g);
        }
      } else {
        UsesRow(a, b, i, j, p, q);
        UsesRow(a, b, i, j, f, g);
        FromPairs(a, b, i, j, i, j + 1, p, q);
        WalkIsChosen(a, b, i, j + 1, p, q);
      }
    }
  }

  /** Where the walk inserts, every longest common subsequence of the suffixes uses row `i`, further on in `b`. */
  lemma UsesRow(a: seq<string>, b: seq<string>, i: nat, j: nat, p: seq<nat>, q: seq<nat>)
    requires i < |a| && j < |b| && Pairs(a, b, i, j, p, q) && p != []
    requires |p| > Lcs(a, b, i + 1, j) && a[i] != b[j]
    ensures p[0] == i && q[0] > j
  {
    hide Lcs;
    if p[0] > i {
      FromPairs(a, b, i, j, i + 1, j, p, q);
      PairsBound(a, b, i + 1, j, p, q);
    }
  }

  // ----- the walk and the chunks -----

  lemma {:induction false} EqualWalk(a: seq<string>, b: seq<string>, i: nat, j: nat, n: nat)
    requires i + n <= |a| && j + n <= |b| && Steady(a, b, i, j, Equal, n)
    ensures WalkA(a, b, i, j) == From(i, n) + WalkA(a, b, i + n, j + n)
    ensures WalkB(a, b, i, j) == From(j, n) + WalkB(a, b, i + n, j + n)
    decreases n
  {
    hide WalkA, WalkB, NextOp, Steady;
    if n == 0 {
    } else {
      SteadyStep(a, b, i, j, Equal, n);
      WalkStep(a, b, i, j);
      hide From;
      EqualWalk(a, b, i + 1, j + 1, n - 1);
      FromStep(i, n, WalkA(a, b, i + n, j + n));
      FromStep(j, n, WalkB(a, b, i + n, j + n));
    }
  }

  lemma {:induction false} ChangeWalk(a: seq<string>, b: seq<string>, i: nat, j: nat, op: Operation, n: nat)
    requires (op == Delete && i + n <= |a| && j <= |b|) || (op == Insert && i <= |a| && j + n <= |b|)
    requires Steady(a, b, i, j, op, n)
    ensures var x, y := if op == Delete then i + n else i, if op == Delete then j else j + n;
      WalkA(a, b, i, j) == WalkA(a, b, x, y) && WalkB(a, b, i, j) == WalkB(a, b, x, y)
    decreases n
  {
    hide WalkA, WalkB, NextOp, Steady;
    if n == 0 {
    } else {
      SteadyStep(a, b, i, j, op, n);
      WalkStep(a, b, i, j);
      if op == Delete { ChangeWalk(a, b, i + 1, j, op, n - 1); } else { ChangeWalk(a, b, i, j + 1, op, n - 1); }
    }
  }

  lemma FromStep(start: nat, n: nat, rest: seq<nat>)
    requires n > 0
    ensures From(start, n) + rest == [start] + (From(start + 1, n - 1) + rest)
  {
    assert From(start, n) == [start] + From(start + 1, n - 1);
  }

  lemma SteadyStep(a: seq<string>, b: seq<string>, i: nat, j: nat, op: Operation, n: nat)
    requires i <= |a| && j <= |b| && n > 0
    requires op == Equal || op == Delete ==> i + n <= |a|
    requires op == Equal || op == Insert ==> j + n <= |b|
    requires Steady(a, b, i, j, op, n)
    ensures (i < |a| || j < |b|) && NextOp(a, b, i, j) == op && op != Replace
    ensures op == Equal ==> Steady(a, b, i + 1, j + 1, op, n - 1)
    ensures op == Delete ==> Steady(a, b, i + 1, j, op, n - 1)
    ensures op == Insert ==> Steady(a, b, i, j + 1, op, n - 1)
  {
    hide Lcs;
    if op == Equal {
      assert a[i] == a[i..i + n][0] == b[j..j + n][0] == b[j];
      assert a[i + 1..i + n] == a[i..i + n][1..] && b[j + 1..j + n] == b[j..j + n][1..];
    }
  }

  lemma NoWords(c: Chunk)
    requires WellFormed(c)
    ensures c.operation == Delete ==> |Words(c.completed)| == 0 < |Words(c.original)|
    ensures c.operation == Insert ==> |Words(c.original)| == 0 < |Words(c.completed)|
  {}

  lemma SteadyOp(a: seq<string>, b: seq<string>, i: nat, j: nat, op: Operation, n: nat)
    requires i <= |a| && j <= |b|
    requires op == Equal || op == Delete ==> i + n <= |a|
    requires op == Equal || op == Insert ==> j + n <= |b|
    requires Steady(a, b, i, j, op, n)
    ensures op != Replace
  {}

  lemma {:induction false} ChunksAreWalk(a: seq<string>, b: seq<string>, chunks: seq<Chunk>, i: nat, j: nat)
    requires i <= |a| && j <= |b| && SpellsWalk(a, b, chunks, i, j) && AllWellFormed(chunks)
    ensures |OriginalWords(chunks)| == i && |CompletedWords(chunks)| == j
    ensures OriginalAt(chunks) + WalkA(a, b, i, j) == WalkA(a, b, 0, 0)
    ensures CompletedAt(chunks) + WalkB(a, b, i, j) == WalkB(a, b, 0, 0)
  {
    hide WellFormed, Words, Lcs, NextOp, WalkA, WalkB, From, Steady;
    if chunks == [] {
    } else {
      var init, last := chunks[..|chunks| - 1], chunks[|chunks| - 1];
      var n, m := |Words(last.original)|, |Words(last.completed)|;
      ChunksAreWalk(a, b, init, i - n, j - m);
      assert chunks == init + [last] && WellFormed(last);
      assert Steady(a, b, i - n, j - m, last.operation, if last.operation == Insert then m else n);
      assert last.operation == Equal ==> n == m;
      SteadyOp(a, b, i - n, j - m, last.operation, if last.operation == Insert then m else n);
      hide SpellsWalk;
      AppendChunk(init, last);
      NoWords(last);
      hide *;
      LastIsWalk(a, b, i, j, last.operation, n, m, OriginalAt(init), CompletedAt(init));
    }
  }

  lemma LastIsWalk(a: seq<string>, b: seq<string>, i: nat, j: nat, op: Operation, n: nat, m: nat, before: seq<nat>,
                   before': seq<nat>)
    requires n <= i <= |a| && m <= j <= |b| && op != Replace
    requires (op == Delete ==> m == 0) && (op == Insert ==> n == 0) && (op == Equal ==> n == m)
    requires Steady(a, b, i - n, j - m, op, if op == Insert then m else n)
    ensures before + (if op == Equal then From(i - n, n) else []) + WalkA(a, b, i, j)
         == before + WalkA(a, b, i - n, j - m)
    ensures before' + (if op == Equal then From(j - m, n) else []) + WalkB(a, b, i, j)
         == before' + WalkB(a, b, i - n, j - m)
  {
    hide *;
    if op == Equal {
      EqualWalk(a, b, i - n, j - m, n);
      Regroup(before, From(i - n, n), WalkA(a, b, i, j));
      Regroup(before', From(j - m, n), WalkB(a, b, i, j));
    } else {
      ChangeWalk(a, b, i - n, j - m, op, if op == Insert then m else n);
      assert before + [] == before && before' + [] == before';
    }
  }

  // ----- the order within a gap -----

  /** Before the next equal word the walk first deletes and then inserts. */
  ghost predicate DeletesFirst(runs: seq<Chunk>) {
    forall k :: 0 < k < |runs| ==> !(runs[k - 1].operation == Insert && runs[k].operation == Delete)
  }

  lemma {:induction false} LcsFalls(a: seq<string>, b: seq<string>, i: nat, j: nat)
    requires i <= |a| && j < |b|
    ensures Lcs(a, b, i, j + 1) <= Lcs(a, b, i, j)
  {
    WalkPairs(a, b, i, j + 1);
    var f, g := WalkA(a, b, i, j + 1), WalkB(a, b, i, j + 1);
    FromPairs(a, b, i, j + 1, i, j, f, g);
    PairsBound(a, b, i, j, f, g);
  }

  lemma NoDeleteAfterInsert(a: seq<string>, b: seq<string>, i: nat, j: nat)
    requires i <= |a| && 0 < j <= |b| && NextOp(a, b, i, j - 1) == Insert && (i < |a| || j < |b|)
    ensures NextOp(a, b, i, j) != Delete
  {
    if i < |a| && j < |b| { LcsFalls(a, b, i + 1, j - 1); }
  }

  lemma {:induction false} WalkDeletesFirst(a: seq<string>, b: seq<string>, runs: seq<Chunk>, i: nat, j: nat)
    requires i <= |a| && j <= |b| && SpellsWalk(a, b, runs, i, j) && AllWellFormed(runs)
    ensures DeletesFirst(runs)
  {
    hide WellFormed, Words, Lcs, NextOp;
    if |runs| <= 1 {
    } else {
      var init, last := runs[..|runs| - 1], runs[|runs| - 1];
      var n, m := |Words(last.original)|, |Words(last.completed)|;
      WalkDeletesFirst(a, b, init, i - n, j - m);
      var prev := init[|init| - 1];
      assert runs[|runs| - 2] == prev;
      NoWords(last);
      NoWords(prev);
      if prev.operation == Insert && last.operation == Delete {
        assert NextOp(a, b, i - n, j - 1) == Insert;
        NoDeleteAfterInsert(a, b, i - n, j);
        assert false;
      }
    }
  }

  /** Equal chunks and changes take turns: between two equal chunks there is exactly one change. */
  ghost predicate TakesTurns(chunks: seq<Chunk>) {
    forall k :: 0 < k < |chunks| ==> (chunks[k - 1].operation == Equal <==> chunks[k].operation != Equal)
  }

  /** What the last merged chunk says of the last run. */
  lemma LastRun(runs: seq<Chunk>, merged: seq<Chunk>)
    requires MergeOf(runs, merged) && merged != [] && DeletesFirst(runs)
    ensures runs != []
    ensures merged[|merged| - 1].operation == Replace ==>
      |runs| >= 2 && runs[|runs| - 2].operation == Delete && runs[|runs| - 1].operation == Insert
    ensures merged[|merged| - 1].operation != Replace ==> runs[|runs| - 1].operation == merged[|merged| - 1].operation
  {}

  lemma PrefixesToo(runs: seq<Chunk>, n: nat)
    requires n <= |runs| && Grouped(runs) && DeletesFirst(runs)
    ensures Grouped(runs[..n]) && DeletesFirst(runs[..n])
    ensures 0 < n < |runs| ==> runs[n - 1].operation != runs[n].operation
                               && !(runs[n - 1].operation == Insert && runs[n].operation == Delete)
  {}

  /** The last two merged chunks take turns. */
  lemma LastTurns(runs: seq<Chunk>, rest: seq<Chunk>, merged: seq<Chunk>)
    requires |merged| >= 2 && MergeOf(runs, merged) && Grouped(runs) && DeletesFirst(runs) && NormalForm(merged)
    requires rest == runs[..if merged[|merged| - 1].operation == Replace then |runs| - 2 else |runs| - 1]
    requires MergeOf(rest, merged[..|merged| - 1])
    ensures merged[|merged| - 2].operation == Equal <==> merged[|merged| - 1].operation != Equal
  {
    var init := merged[..|merged| - 1];
    LastRun(runs, merged);
    PrefixesToo(runs, |rest|);
    LastRun(rest, init);
    assert init[|init| - 1] == merged[|merged| - 2] && rest[|rest| - 1] == runs[|rest| - 1];
    hide MergeOf, Grouped, DeletesFirst;
  }

  lemma TurnsNext(merged: seq<Chunk>)
    requires |merged| >= 2 && TakesTurns(merged[..|merged| - 1])
    requires merged[|merged| - 2].operation == Equal <==> merged[|merged| - 1].operation != Equal
    ensures TakesTurns(merged)
  {
    var init := merged[..|merged| - 1];
    forall k | 0 < k < |merged| ensures merged[k - 1].operation == Equal <==> merged[k].operation != Equal {
      if k < |init| { assert init[k - 1] == merged[k - 1] && init[k] == merged[k]; }
    }
  }

  lemma {:induction false} MergeTakesTurns(runs: seq<Chunk>, merged: seq<Chunk>)
    requires MergeOf(runs, merged) && Grouped(runs) && DeletesFirst(runs) && NormalForm(merged)
    ensures TakesTurns(merged)
  {
    if |merged| <= 1 {
    } else {
      var init, last, n := merged[..|merged| - 1], merged[|merged| - 1], |runs|;
      var rest := if last.operation == Replace then runs[..n - 2] else runs[..n - 1];
      assert MergeOf(rest, init) && NormalForm(init);
      hide MergeOf;
      PrefixesToo(runs, |rest|);
      LastTurns(runs, rest, merged);
      hide NormalForm, Grouped, DeletesFirst;
      MergeTakesTurns(rest, init);
      TurnsNext(merged);
    }
  }

  /**
   Of all longest common subsequences the chunks show the one with the earliest places in the completed text, and
   where those are the same, the chosen one.
   */
  ghost predicate ShowsChosen(chunks: seq<Chunk>, a: seq<string>, b: seq<string>) {
    && Embeds(EqualWords(chunks), a, OriginalAt(chunks), 0) && Embeds(EqualWords(chunks), b, CompletedAt(chunks), 0)
    && forall d, p, q :: |d| == |EqualWords(chunks)| && Embeds(d, a, p, 0) && Embeds(d, b, q, 0) ==>
         NoLater(CompletedAt(chunks), q) && Chosen(0, OriginalAt(chunks), CompletedAt(chunks), p, q)
  }

  lemma WalkShowsChosen(a: seq<string>, b: seq<string>, runs: seq<Chunk>, chunks: seq<Chunk>)
    requires SpellsWalk(a, b, runs, |a|, |b|) && AllWellFormed(runs) && SameWords(runs, chunks)
    requires AllWellFormed(chunks) && OriginalWords(chunks) == a && CompletedWords(chunks) == b
    requires |EqualWords(chunks)| == Lcs(a, b, 0, 0)
    ensures ShowsChosen(chunks, a, b)
  {
    EqualIsCommon(chunks);
    ChunksAreWalk(a, b, runs, |a|, |b|);
    NoWalkLeft(a, b);
    SameLists(runs, chunks);
    hide *;
    assert OriginalAt(runs) + [] == OriginalAt(runs) && CompletedAt(runs) + [] == CompletedAt(runs);
    ChosenOfAll(a, b, chunks);
  }

  lemma ChosenOfAll(a: seq<string>, b: seq<string>, chunks: seq<Chunk>)
    requires Embeds(EqualWords(chunks), a, OriginalAt(chunks), 0)
    requires Embeds(EqualWords(chunks), b, CompletedAt(chunks), 0)
    requires OriginalAt(chunks) == WalkA(a, b, 0, 0) && CompletedAt(chunks) == WalkB(a, b, 0, 0)
    requires |EqualWords(chunks)| == Lcs(a, b, 0, 0)
    ensures ShowsChosen(chunks, a, b)
  {
    hide Lcs, WalkA, WalkB, EqualWords, OriginalAt, CompletedAt, NoLater, Chosen, Pairs;
    forall d, p, q | |d| == |EqualWords(chunks)| && Embeds(d, a, p, 0) && Embeds(d, b, q, 0)
      ensures NoLater(CompletedAt(chunks), q) && Chosen(0, OriginalAt(chunks), CompletedAt(chunks), p, q)
    {
      EmbedsPairs(a, b, d, p, q);
      hide Embeds;
      WalkIsEarliest(a, b, 0, 0, p, q);
      WalkIsChosen(a, b, 0, 0, p, q);
    }
  }

  lemma EmbedsPairs(a: seq<string>, b: seq<string>, d: seq<string>, p: seq<nat>, q: seq<nat>)
    requires Embeds(d, a, p, 0) && Embeds(d, b, q, 0)
    ensures Pairs(a, b, 0, 0, p, q) && |p| == |q| == |d|
  {}

  lemma NoWalkLeft(a: seq<string>, b: seq<string>)
    ensures WalkA(a, b, |a|, |b|) == [] && WalkB(a, b, |a|, |b|) == []
  {}

  /**
   The diff gives both texts back, keeps the chosen longest common subsequence as its equal words, and has exactly
   one change between two equal chunks.
   */
  method BuildDiffChunks(original: seq<string>, completed: seq<string>)
    returns (chunks: seq<Chunk>, ghost runs: seq<Chunk>)
    requires AllTokens(original) && AllTokens(completed)
    ensures OriginalWords(chunks) == original
    ensures CompletedWords(chunks) == completed
    ensures IsLongestCommon(EqualWords(chunks), original, completed)
    ensures |EqualWords(chunks)| == Lcs(original, completed, 0, 0)
    ensures ShowsChosen(chunks, original, completed)
    ensures AllWellFormed(chunks) && NormalForm(chunks) && TakesTurns(chunks)
    ensures Grouped(runs) && SpellsWalk(original, completed, runs, |original|, |completed|) && MergeOf(runs, chunks)
  {
    var dp := FillTable(original, completed);
    hide *;
    var walked := WalkTable(original, completed, dp);
    runs := walked;
    chunks := MergeReplaceChunks(walked);
    SameLists(walked, chunks);
    EqualIsLongest(original, completed, chunks);
    WalkShowsChosen(original, completed, walked, chunks);
    WalkDeletesFirst(original, completed, walked, |original|, |completed|);
    MergeTakesTurns(walked, chunks);
  }

  lemma SameLists(runs: seq<Chunk>, chunks: seq<Chunk>)
    requires SameWords(runs, chunks)
    ensures OriginalWords(runs) == OriginalWords(chunks) && CompletedWords(runs) == CompletedWords(chunks)
        && EqualWords(runs) == EqualWords(chunks)
        && OriginalAt(runs) == OriginalAt(chunks) && CompletedAt(runs) == CompletedAt(chunks)
  {}
}
