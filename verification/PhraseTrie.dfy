/**
 The phrase trie: nodes with token-indexed children, grown in place. Abstractly it is a map from phrases
 to category sets; `at` names every node by the token path that leads to it.
 */
module PhraseTrie {
  import opened Common
  import opened Text

  type Phrase = seq<string>

  datatype Match = Match(start: nat, end: nat, categories: set<string>, normalized: string)

  /** A trie node. Category tuples are sorted and free of repeats in the source, so they are sets here. */
  class TrieNode {
    var children: map<string, TrieNode>
    var categories: Option<set<string>>

    constructor ()
      ensures children == map[] && categories == None
    {
      children := map[];
      categories := None;
    }
  }

  // ----- the phrase map a trie stands for -----

  /** Phrases of two or more tokens, as `add_phrase` keeps them. */
  function Kept(phrases: map<Phrase, set<string>>): map<Phrase, set<string>> {
    map p | p in phrases && |p| >= 2 :: phrases[p]
  }

  /** `p` is stored with at least one category: only these phrases can match. */
  ghost predicate Matchable(phrases: map<Phrase, set<string>>, p: Phrase) {
    p in phrases && phrases[p] != {}
  }

  /** `m` is the longest matchable phrase that begins at its start, with that phrase's own categories. */
  ghost predicate IsLongestMatch(phrases: map<Phrase, set<string>>, tokens: seq<string>, m: Match) {
    && m.start <= m.end < |tokens|
    && Matchable(phrases, tokens[m.start..m.end + 1])
    && m.categories == phrases[tokens[m.start..m.end + 1]]
    && m.normalized == Join(tokens[m.start..m.end + 1])
    && forall next :: m.end + 1 < next <= |tokens| ==> !Matchable(phrases, tokens[m.start..next])
  }

  /** The matches with starts before `upto`: one for each start where a matchable phrase begins, in order. */
  ghost predicate AreLongestMatches(phrases: map<Phrase, set<string>>, tokens: seq<string>, upto: nat, ms: seq<Match>) {
    && (forall k :: 0 <= k < |ms| ==> IsLongestMatch(phrases, tokens, ms[k]) && ms[k].start < upto)
    && (forall k, l :: 0 <= k < l < |ms| ==> ms[k].start < ms[l].start)
    && (forall start, next :: 0 <= start < upto && start < next <= |tokens| && Matchable(phrases, tokens[start..next])
          ==> exists k :: 0 <= k < |ms| && ms[k].start == start)
  }

  function Child(p: Phrase, t: string): Phrase { p + [t] }

  lemma ChildInjective(p: Phrase, t: string, q: Phrase, u: string)
    ensures Child(p, t) == Child(q, u) ==> p == q && t == u
    ensures Child(p, t) != [] && Child(p, t) != p && Child(p, t)[..|Child(p, t)| - 1] == p
  {
    assert Child(p, t)[..|p|] == p && Child(q, u)[..|q|] == q;
    assert Child(p, t)[|p|] == t && Child(q, u)[|q|] == u;
  }

  // ----- the shape of a trie, as values -----

  /** `at` names the nodes by path: one path each, closed under prefixes. */
  ghost predicate Named(root: TrieNode, at: map<Phrase, TrieNode>) {
    && [] in at && at[[]] == root
    && (forall p, q :: p in at && q in at && p != q ==> at[p] != at[q])
    && (forall p :: p in at && p != [] ==> p[..|p| - 1] in at)
  }

  /** `kids` gives the children of each named node: the nodes one token further. */
  ghost predicate Threaded(at: map<Phrase, TrieNode>, kids: map<Phrase, map<string, TrieNode>>) {
    && at.Keys == kids.Keys
    && forall p, t {:trigger Child(p, t)} :: p in at ==>
         && (t in kids[p] <==> Child(p, t) in at)
         && (t in kids[p] ==> kids[p][t] == at[Child(p, t)])
  }

  ghost predicate Linked(root: TrieNode, at: map<Phrase, TrieNode>, kids: map<Phrase, map<string, TrieNode>>) {
    Named(root, at) && Threaded(at, kids)
  }

  /** Hanging a new leaf below `prefix` keeps the children in step. */
  lemma ThreadLeaf(root: TrieNode, at: map<Phrase, TrieNode>, kids: map<Phrase, map<string, TrieNode>>,
                   prefix: Phrase, token: string, leaf: TrieNode)
    requires Linked(root, at, kids)
    requires prefix in at && token !in kids[prefix]
    ensures Threaded(at[Child(prefix, token) := leaf],
                     kids[prefix := kids[prefix][token := leaf]][Child(prefix, token) := map[]])
  {
    var path := Child(prefix, token);
    var at', kids' := at[path := leaf], kids[prefix := kids[prefix][token := leaf]][path := map[]];
    ChildInjective(prefix, token, prefix, token);
    forall p, t | p in at'
      ensures (t in kids'[p] <==> Child(p, t) in at') && (t in kids'[p] ==> kids'[p][t] == at'[Child(p, t)])
    {
      ChildInjective(p, t, prefix, token);
      if p == path { NoGrandchild(root, at, path, t); }
    }
  }

  lemma NameLeaf(root: TrieNode, at: map<Phrase, TrieNode>, path: Phrase, leaf: TrieNode)
    requires Named(root, at) && leaf !in at.Values
    requires path != [] && path[..|path| - 1] in at && path !in at
    ensures Named(root, at[path := leaf])
  {}

  /** Hanging a new leaf below `prefix` keeps the shape. */
  lemma LinkLeaf(root: TrieNode, at: map<Phrase, TrieNode>, kids: map<Phrase, map<string, TrieNode>>,
                 prefix: Phrase, token: string, leaf: TrieNode)
    requires Linked(root, at, kids)
    requires prefix in at && token !in kids[prefix] && leaf !in at.Values
    ensures Linked(root, at[Child(prefix, token) := leaf],
                   kids[prefix := kids[prefix][token := leaf]][Child(prefix, token) := map[]])
  {
    ThreadLeaf(root, at, kids, prefix, token, leaf);
    hide Named;
    ChildInjective(prefix, token, prefix, token);
    NameLeaf(root, at, Child(prefix, token), leaf);
  }

  lemma RootAlone(root: TrieNode)
    ensures Linked(root, map[[] := root], map[[] := map[]])
  {
    forall p: Phrase, t: string ensures Child(p, t) != [] { ChildInjective(p, t, p, t); }
  }

  /** Below a missing path there is nothing. */
  lemma NoGrandchild(root: TrieNode, at: map<Phrase, TrieNode>, path: Phrase, t: string)
    requires Named(root, at) && path !in at
    ensures Child(path, t) !in at && Child(path, t) != path
  {
    assert Child(path, t)[..|path|] == path;
  }

  /** `bestEnd` ends the longest matchable phrase among `tokens[start..next]`, next <= end, if there is one. */
  ghost predicate IsBest(phrases: map<Phrase, set<string>>, tokens: seq<string>, start: nat, end: nat,
                         bestEnd: int, bestCategories: Option<set<string>>)
    requires start <= end <= |tokens|
  {
    && (bestCategories.Some? ==>
          && start <= bestEnd < end && Matchable(phrases, tokens[start..bestEnd + 1])
          && bestCategories.value == phrases[tokens[start..bestEnd + 1]])
    && forall next :: start < next <= end && (bestCategories.Some? ==> bestEnd + 1 < next)
         ==> !Matchable(phrases, tokens[start..next])
  }

  lemma NoBest(phrases: map<Phrase, set<string>>, tokens: seq<string>, start: nat)
    requires start <= |tokens|
    ensures IsBest(phrases, tokens, start, start, -1, None)
  {}

  lemma NewBest(phrases: map<Phrase, set<string>>, tokens: seq<string>, start: nat, end: nat, categories: set<string>)
    requires start <= end < |tokens| && Matchable(phrases, tokens[start..end + 1])
    requires categories == phrases[tokens[start..end + 1]]
    ensures IsBest(phrases, tokens, start, end + 1, end, Some(categories))
  {}

  lemma BestStays(phrases: map<Phrase, set<string>>, tokens: seq<string>, start: nat, end: nat, to: nat,
                  bestEnd: int, bestCategories: Option<set<string>>)
    requires start <= end <= to <= |tokens| && IsBest(phrases, tokens, start, end, bestEnd, bestCategories)
    requires forall next :: end < next <= to ==> !Matchable(phrases, tokens[start..next])
    ensures IsBest(phrases, tokens, start, to, bestEnd, bestCategories)
  {}

  lemma BestIsLongest(phrases: map<Phrase, set<string>>, tokens: seq<string>, start: nat, bestEnd: int,
                      categories: set<string>)
    requires start <= |tokens| && IsBest(phrases, tokens, start, |tokens|, bestEnd, Some(categories))
    ensures start <= bestEnd < |tokens|
    ensures IsLongestMatch(phrases, tokens, Match(start, bestEnd, categories, Join(tokens[start..bestEnd + 1])))
  {}

  lemma NoBestNone(phrases: map<Phrase, set<string>>, tokens: seq<string>, start: nat, bestEnd: int)
    requires start <= |tokens| && IsBest(phrases, tokens, start, |tokens|, bestEnd, None)
    ensures forall next :: start < next <= |tokens| ==> !Matchable(phrases, tokens[start..next])
  {}

  lemma NoMatches(phrases: map<Phrase, set<string>>, tokens: seq<string>)
    ensures AreLongestMatches(phrases, tokens, 0, [])
  {}

  lemma ChildSlice(tokens: seq<string>, start: nat, end: nat)
    requires start <= end < |tokens|
    ensures tokens[start..end + 1] == Child(tokens[start..end], tokens[end])
  {}

  lemma SkipStart(phrases: map<Phrase, set<string>>, tokens: seq<string>, start: nat, ms: seq<Match>)
    requires AreLongestMatches(phrases, tokens, start, ms)
    requires forall next :: start < next <= |tokens| ==> !Matchable(phrases, tokens[start..next])
    ensures AreLongestMatches(phrases, tokens, start + 1, ms)
  {}

  lemma PushMatch(phrases: map<Phrase, set<string>>, tokens: seq<string>, start: nat, ms: seq<Match>, m: Match)
    requires AreLongestMatches(phrases, tokens, start, ms)
    requires m.start == start && IsLongestMatch(phrases, tokens, m)
    ensures AreLongestMatches(phrases, tokens, start + 1, ms + [m])
  {
    hide IsLongestMatch;
    var more := ms + [m];
    forall s, next | 0 <= s < start + 1 && s < next <= |tokens| && Matchable(phrases, tokens[s..next])
      ensures exists k :: 0 <= k < |more| && more[k].start == s
    {
      if s < start {
        var k :| 0 <= k < |ms| && ms[k].start == s;
        assert more[k].start == s;
      } else {
        assert more[|ms|].start == s;
      }
    }
  }

  // ----- the frontier of the enumeration -----

  function Paths(stack: seq<(Phrase, TrieNode)>): seq<Phrase> {
    seq(|stack|, k requires 0 <= k < |stack| => stack[k].0)
  }

  ghost predicate IsPrefix(p: Phrase, q: Phrase) { |p| <= |q| && q[..|p|] == p }

  /** `paths` are the keys one token below `prefix`, once each. */
  ghost predicate AreChildren(keys: set<Phrase>, prefix: Phrase, paths: seq<Phrase>) {
    && (forall k :: 0 <= k < |paths| ==> |paths[k]| == |prefix| + 1 && IsPrefix(prefix, paths[k]) && paths[k] in keys)
    && (forall k, l :: 0 <= k < l < |paths| ==> paths[k] != paths[l])
    && (forall t {:trigger Child(prefix, t)} :: Child(prefix, t) in keys ==> Child(prefix, t) in paths)
  }

  /** Children listed token by token. */
  lemma ListedChildren(keys: set<Phrase>, prefix: Phrase, tokens: seq<string>, paths: seq<Phrase>)
    requires |tokens| == |paths|
    requires forall k :: 0 <= k < |tokens| ==> paths[k] == Child(prefix, tokens[k])
    requires forall t :: t in tokens <==> Child(prefix, t) in keys
    requires forall k, l :: 0 <= k < l < |tokens| ==> tokens[k] != tokens[l]
    ensures AreChildren(keys, prefix, paths)
  {}

  lemma PathsConcat(xs: seq<(Phrase, TrieNode)>, ys: seq<(Phrase, TrieNode)>)
    ensures Paths(xs + ys) == Paths(xs) + Paths(ys)
  {}

  lemma PathsStart(root: TrieNode)
    ensures Paths([([], root)]) == [[]]
  {}

  lemma PathsAt(stack: seq<(Phrase, TrieNode)>)
    ensures |Paths(stack)| == |stack| && forall k :: 0 <= k < |stack| ==> Paths(stack)[k] == stack[k].0
  {}

  lemma PathsPop(stack: seq<(Phrase, TrieNode)>)
    requires stack != []
    ensures Paths(stack) == Paths(stack[..|stack| - 1]) + [stack[|stack| - 1].0]
  {}

  /** Every key is visited or lies at or below a path on the stack. */
  ghost predicate Reaches(keys: set<Phrase>, visited: set<Phrase>, stack: seq<Phrase>) {
    && visited <= keys
    && (forall k :: 0 <= k < |stack| ==> stack[k] in keys)
    && (forall p :: p in keys && p !in visited ==> exists k :: 0 <= k < |stack| && IsPrefix(stack[k], p))
  }

  /** No two stacked paths share keys, and no visited key lies at or below a stacked path. */
  ghost predicate Apart(visited: set<Phrase>, stack: seq<Phrase>) {
    && (forall k, l :: 0 <= k < |stack| && 0 <= l < |stack| && k != l ==> !IsPrefix(stack[k], stack[l]))
    && (forall p, k :: p in visited && 0 <= k < |stack| ==> !IsPrefix(stack[k], p))
  }

  ghost predicate Frontier(keys: set<Phrase>, visited: set<Phrase>, stack: seq<Phrase>) {
    Reaches(keys, visited, stack) && Apart(visited, stack)
  }

  ghost predicate ClosedUnderPrefixes(keys: set<Phrase>) {
    forall p :: p in keys && p != [] ==> p[..|p| - 1] in keys
  }

  lemma {:induction false} PrefixInKeys(keys: set<Phrase>, p: Phrase, n: nat)
    requires ClosedUnderPrefixes(keys) && p in keys && n <= |p|
    ensures p[..n] in keys
    decreases |p|
  {
    if n < |p| {
      PrefixInKeys(keys, p[..|p| - 1], n);
      assert p[..|p| - 1][..n] == p[..n];
    } else {
      assert p[..n] == p;
    }
  }

  lemma MissingPrefix(keys: set<Phrase>, p: Phrase, n: nat)
    requires ClosedUnderPrefixes(keys) && n <= |p| && p[..n] !in keys
    ensures p !in keys
  {
    if p in keys { PrefixInKeys(keys, p, n); }
  }

  /** Where a path ends, every longer path from the same start is missing. */
  lemma MissingSlices(keys: set<Phrase>, tokens: seq<string>, start: nat, end: nat)
    requires ClosedUnderPrefixes(keys) && start <= end <= |tokens| && tokens[start..end] !in keys
    ensures forall next :: end <= next <= |tokens| ==> tokens[start..next] !in keys
  {
    hide ClosedUnderPrefixes;
    forall next | end <= next <= |tokens| ensures tokens[start..next] !in keys {
      assert tokens[start..next][..end - start] == tokens[start..end];
      MissingPrefix(keys, tokens[start..next], end - start);
    }
  }

  /** A key strictly below the top lies at or below one of its children. */
  lemma ChildAbove(keys: set<Phrase>, top: Phrase, kids: seq<Phrase>, p: Phrase)
    requires ClosedUnderPrefixes(keys) && AreChildren(keys, top, kids)
    requires p in keys && p != top && IsPrefix(top, p)
    ensures exists m :: 0 <= m < |kids| && IsPrefix(kids[m], p)
  {
    PrefixStep(top, p);
    PrefixInKeys(keys, p, |top| + 1);
    hide ClosedUnderPrefixes, IsPrefix, Child;
    var m :| 0 <= m < |kids| && kids[m] == Child(top, p[|top|]);
  }

  lemma PrefixStep(top: Phrase, p: Phrase)
    requires p != top && IsPrefix(top, p)
    ensures |top| < |p| && Child(top, p[|top|]) == p[..|top| + 1] && IsPrefix(Child(top, p[|top|]), p)
  {
    assert p[..|p|] == p;
  }

  lemma ExpandReaches(keys: set<Phrase>, visited: set<Phrase>, below: seq<Phrase>, top: Phrase, kids: seq<Phrase>)
    requires ClosedUnderPrefixes(keys)
    requires Reaches(keys, visited, below + [top]) && AreChildren(keys, top, kids)
    ensures Reaches(keys, visited + {top}, below + kids) && top in keys
  {
    hide IsPrefix, ClosedUnderPrefixes;
    var old', new' := below + [top], below + kids;
    assert old'[|below|] == top && forall k :: 0 <= k < |below| ==> new'[k] == old'[k];
    assert forall k :: |below| <= k < |new'| ==> new'[k] == kids[k - |below|];
    forall p | p in keys && p !in visited && p != top ensures exists k :: 0 <= k < |new'| && IsPrefix(new'[k], p) {
      var k :| 0 <= k < |old'| && IsPrefix(old'[k], p);
      if k < |below| {
        assert new'[k] == old'[k];
      } else {
        ChildAbove(keys, top, kids, p);
        var m :| 0 <= m < |kids| && IsPrefix(kids[m], p);
        assert new'[|below| + m] == kids[m];
      }
    }
  }

  /** A child of the top is comparable to nothing that the top was not comparable to. */
  lemma ChildApart(top: Phrase, kid: Phrase, other: Phrase)
    requires IsPrefix(top, kid) && |kid| == |top| + 1
    requires !IsPrefix(top, other)
    ensures !IsPrefix(kid, other)
    ensures !IsPrefix(other, top) ==> !IsPrefix(other, kid)
  {}

  lemma ExpandApart(visited: set<Phrase>, below: seq<Phrase>, top: Phrase, kids: seq<Phrase>)
    requires Apart(visited, below + [top])
    requires forall k :: 0 <= k < |kids| ==> |kids[k]| == |top| + 1 && IsPrefix(top, kids[k])
    requires forall k, l :: 0 <= k < l < |kids| ==> kids[k] != kids[l]
    ensures Apart(visited + {top}, below + kids) && top !in visited
  {
    var old', new' := below + [top], below + kids;
    assert old'[|below|] == top && IsPrefix(top, top);
    assert forall k :: 0 <= k < |below| ==> new'[k] == below[k] == old'[k];
    assert forall k :: |below| <= k < |new'| ==> new'[k] == kids[k - |below|];
    forall k | |below| <= k < |new'|
      ensures forall l :: 0 <= l < |below| ==> !IsPrefix(new'[k], new'[l]) && !IsPrefix(new'[l], new'[k])
      ensures forall p :: p in visited ==> !IsPrefix(new'[k], p)
    {
      forall l | 0 <= l < |below| ensures !IsPrefix(new'[k], new'[l]) && !IsPrefix(new'[l], new'[k]) {
        ChildApart(top, new'[k], old'[l]);
      }
      forall p | p in visited ensures !IsPrefix(new'[k], p) {
        ChildApart(top, new'[k], p);
      }
    }
    forall k, l | 0 <= k < |new'| && 0 <= l < |new'| && k != l ensures !IsPrefix(new'[k], new'[l]) {
      if |below| <= k && |below| <= l { SameLength(new'[k], new'[l]); }
    }
  }

  lemma SameLength(p: Phrase, q: Phrase)
    requires |p| == |q| && p != q
    ensures !IsPrefix(p, q)
  {
    assert q[..|p|] == q;
  }

  /** Replacing the top of the stack by its children visits exactly the top. */
  lemma Expand(keys: set<Phrase>, visited: set<Phrase>, below: seq<Phrase>, top: Phrase, kids: seq<Phrase>)
    requires ClosedUnderPrefixes(keys)
    requires Frontier(keys, visited, below + [top]) && AreChildren(keys, top, kids)
    ensures Frontier(keys, visited + {top}, below + kids) && top in keys && top !in visited
  {
    ExpandReaches(keys, visited, below, top, kids);
    ExpandApart(visited, below, top, kids);
  }

  lemma StartFrontier(keys: set<Phrase>)
    requires [] in keys
    ensures Frontier(keys, {}, [[]])
  {
    forall p: Phrase ensures IsPrefix([], p) {}
    assert forall p: Phrase :: p in keys ==> IsPrefix([[]][0], p);
  }

  /** When the stack is empty, everything has been visited. */
  lemma EndFrontier(keys: set<Phrase>, visited: set<Phrase>)
    requires Frontier(keys, visited, [])
    ensures visited == keys
  {}

  lemma KeptEnds(phrases: map<Phrase, set<string>>)
    ensures Kept(phrases - phrases.Keys) == map[] && Kept(phrases - {}) == Kept(phrases)
  {
    assert phrases - {} == phrases;
  }

  lemma KeptStep(phrases: map<Phrase, set<string>>, rest: set<Phrase>, p: Phrase)
    requires p in rest && p in phrases
    ensures Kept(phrases - (rest - {p}))
         == if |p| >= 2 then Kept(phrases - rest)[p := phrases[p]] else Kept(phrases - rest)
  {}

  class PhraseTrieMatcher {
    const root: TrieNode
    var maxPhraseLen: nat
    ghost var at: map<Phrase, TrieNode>

    ghost function Kids(): map<Phrase, map<string, TrieNode>>
      reads this, at.Values
    {
      map p | p in at :: at[p].children
    }

    /** The phrase map the trie stands for. */
    ghost function Phrases(): map<Phrase, set<string>>
      reads this, at.Values
    {
      map p | p in at && at[p].categories.Some? :: at[p].categories.value
    }

    ghost predicate Valid()
      reads this, at.Values
    {
      && Linked(root, at, Kids())
      && forall p :: p in Phrases() ==> 2 <= |p| <= maxPhraseLen
    }

    constructor ()
      ensures Valid() && Phrases() == map[] && maxPhraseLen == 1
      ensures fresh(at.Values)
    {
      root := new TrieNode();
      maxPhraseLen := 1;
      new;
      hide Linked;
      at := map[[] := root];
      RootAlone(root);
      assert Kids() == map[[] := map[]];
    }

    /** `node.children.setdefault(token, _TrieNode())` */
    method Descend(ghost prefix: Phrase, node: TrieNode, token: string) returns (next: TrieNode)
      requires Valid() && prefix in at && at[prefix] == node
      modifies this`at, node`children
      ensures Valid() && Phrases() == old(Phrases())
      ensures Child(prefix, token) in at && at[Child(prefix, token)] == next
      ensures fresh(at.Values - old(at.Values))
    {
      hide Linked;
      if token in node.children {
        ChildOf(prefix, node, token);
        next := node.children[token];
      } else {
        next := AddLeaf(prefix, node, token);
      }
    }

    method AddLeaf(ghost prefix: Phrase, node: TrieNode, token: string) returns (leaf: TrieNode)
      requires Valid() && prefix in at && at[prefix] == node && token !in node.children
      modifies this`at, node`children
      ensures Valid() && Phrases() == old(Phrases())
      ensures Child(prefix, token) in at && at[Child(prefix, token)] == leaf
      ensures fresh(at.Values - old(at.Values))
    {
      hide Linked, Child;
      leaf := new TrieNode();
      LinkLeaf(root, at, Kids(), prefix, token, leaf);
      NewPath(prefix, node, token);
      OnlyPath(prefix, node);
      SetChild(prefix, node, token, leaf);
      hide Kids, Phrases;
      NameNode(Child(prefix, token), leaf);
    }

    method SetChild(ghost prefix: Phrase, node: TrieNode, token: string, leaf: TrieNode)
      requires prefix in at && at[prefix] == node && forall p :: p in at && p != prefix ==> at[p] != node
      modifies node`children
      ensures Kids() == old(Kids())[prefix := old(node.children)[token := leaf]] && Phrases() == old(Phrases())
      ensures prefix in old(Kids()) && old(Kids())[prefix] == old(node.children)
    {
      node.children := node.children[token := leaf];
    }

    ghost method NameNode(path: Phrase, leaf: TrieNode)
      requires path !in at && leaf.children == map[] && leaf.categories == None
      modifies this`at
      ensures at == old(at)[path := leaf]
      ensures Kids() == old(Kids())[path := map[]] && Phrases() == old(Phrases())
    {
      at := at[path := leaf];
    }

    lemma ChildOf(prefix: Phrase, node: TrieNode, token: string)
      requires Valid() && prefix in at && at[prefix] == node && token in node.children
      ensures Child(prefix, token) in at && at[Child(prefix, token)] == node.children[token]
    {
      assert Kids()[prefix] == node.children;
    }

    lemma NewPath(prefix: Phrase, node: TrieNode, token: string)
      requires Valid() && prefix in at && at[prefix] == node && token !in node.children
      ensures Child(prefix, token) !in at && Child(prefix, token) != prefix
    {}

    lemma OnlyPath(path: Phrase, node: TrieNode)
      requires Valid() && path in at && at[path] == node
      ensures forall p :: p in at && p != path ==> at[p] != node
    {}

    lemma PathsAreClosed()
      requires Valid()
      ensures ClosedUnderPrefixes(at.Keys)
    {}

    lemma RootPath()
      requires Valid()
      ensures [] in at && at[[]] == root
    {}

    /** Adding a phrase of two or more tokens stores exactly its categories; shorter ones are ignored. */
    method AddPhrase(tokens: Phrase, categories: set<string>)
      requires Valid()
      modifies this, at.Values
      ensures Valid() && fresh(at.Values - old(at.Values))
      ensures Phrases() == if |tokens| < 2 then old(Phrases()) else old(Phrases())[tokens := categories]
      ensures maxPhraseLen == if |tokens| < 2 || |tokens| <= old(maxPhraseLen) then old(maxPhraseLen) else |tokens|
    {
      hide Linked;
      if |tokens| < 2 { return; }
      var node := Grow(tokens);
      label grown:
      maxPhraseLen := if maxPhraseLen >= |tokens| then maxPhraseLen else |tokens|;
      assert Kids() == old@grown(Kids()) && Phrases() == old@grown(Phrases());
      SetCategories(tokens, node, categories);
    }

    /** The loop of `add_phrase`: makes the path of `tokens` and returns its last node. */
    method Grow(tokens: Phrase) returns (node: TrieNode)
      requires Valid()
      modifies this`at, at.Values
      ensures Valid() && fresh(at.Values - old(at.Values))
      ensures tokens in at && at[tokens] == node && Phrases() == old(Phrases())
    {
      hide Linked;
      node := root;
      RootPath();
      for k := 0 to |tokens|
        invariant Valid() && fresh(at.Values - old(at.Values))
        invariant tokens[..k] in at && at[tokens[..k]] == node
        invariant Phrases() == old(Phrases())
      {
        assert tokens[..k + 1] == Child(tokens[..k], tokens[k]);
        node := Descend(tokens[..k], node, tokens[k]);
      }
      assert tokens[..|tokens|] == tokens;
    }

    /** `node.categories = ...` */
    method SetCategories(ghost path: Phrase, node: TrieNode, categories: set<string>)
      requires Valid() && path in at && at[path] == node
      requires 2 <= |path| <= maxPhraseLen
      modifies node`categories
      ensures Valid() && Phrases() == old(Phrases())[path := categories]
    {
      hide Linked;
      OnlyPath(path, node);
      node.categories := Some(categories);
      assert Kids() == old(Kids());
      assert Phrases() == old(Phrases())[path := categories];
    }

    // ----- matching -----

    /** The walk from one start: the last end whose path holds categories, with them. */
    method MatchAt(tokens: seq<string>, start: nat) returns (bestEnd: int, bestCategories: Option<set<string>>)
      requires Valid() && start <= |tokens|
      ensures IsBest(Phrases(), tokens, start, |tokens|, bestEnd, bestCategories)
    {
      hide *;
      var node := root;
      bestEnd, bestCategories := -1, None;
      var end := start;
      RootPath();
      assert tokens[start..start] == [];
      NoBest(Phrases(), tokens, start);
      while end < |tokens|
        invariant start <= end <= |tokens|
        invariant tokens[start..end] in at && at[tokens[start..end]] == node
        invariant IsBest(Phrases(), tokens, start, end, bestEnd, bestCategories)
      {
        var token := tokens[end];
        ChildSlice(tokens, start, end);
        if token !in node.children {
          NewPath(tokens[start..end], node, token);
          PathsAreClosed();
          MissingSlices(at.Keys, tokens, start, end + 1);
          StoredAreNamed();
          BestStays(Phrases(), tokens, start, end, |tokens|, bestEnd, bestCategories);
          return;
        }
        ChildOf(tokens[start..end], node, token);
        node := node.children[token];
        CategoriesOf(tokens[start..end + 1], node);
        if node.categories.Some? && node.categories.value != {} {
          bestEnd, bestCategories := end, node.categories;
          NewBest(Phrases(), tokens, start, end, bestCategories.value);
        } else {
          BestStays(Phrases(), tokens, start, end, end + 1, bestEnd, bestCategories);
        }
        end := end + 1;
      }
    }

    lemma CategoriesOf(path: Phrase, node: TrieNode)
      requires path in at && at[path] == node
      ensures Matchable(Phrases(), path) <==> node.categories.Some? && node.categories.value != {}
      ensures node.categories.Some? ==> path in Phrases() && Phrases()[path] == node.categories.value
    {}

    lemma StoredAreNamed()
      ensures forall p :: Matchable(Phrases(), p) ==> p in at
    {}

    /** Exactly one match for each start where a matchable phrase begins: the longest one there. */
    method LongestMatches(tokens: seq<string>) returns (matches: seq<Match>)
      requires Valid()
      ensures AreLongestMatches(Phrases(), tokens, |tokens|, matches)
    {
      hide *;
      matches := [];
      NoMatches(Phrases(), tokens);
      for start := 0 to |tokens|
        invariant AreLongestMatches(Phrases(), tokens, start, matches)
      {
        var bestEnd, bestCategories := MatchAt(tokens, start);
        if bestCategories == None {
          NoBestNone(Phrases(), tokens, start, bestEnd);
          SkipStart(Phrases(), tokens, start, matches);
          continue;
        }
        BestIsLongest(Phrases(), tokens, start, bestEnd, bestCategories.value);
        var m := Match(start, bestEnd, bestCategories.value, Join(tokens[start..bestEnd + 1]));
        PushMatch(Phrases(), tokens, start, matches, m);
        matches := matches + [m];
      }
    }

    // ----- enumeration -----

    /** The children of a node with their paths, in some order. */
    method ChildEntries(prefix: Phrase, node: TrieNode) returns (entries: seq<(Phrase, TrieNode)>)
      requires Valid() && prefix in at && at[prefix] == node
      ensures forall k :: 0 <= k < |entries| ==> entries[k].0 in at && at[entries[k].0] == entries[k].1
      ensures AreChildren(at.Keys, prefix, Paths(entries))
    {
      hide *;
      entries := [];
      ghost var tokens: seq<string> := [];
      var rest := node.children.Keys;
      while rest != {}
        invariant rest <= node.children.Keys && |tokens| == |entries|
        invariant forall k :: 0 <= k < |tokens| ==> tokens[k] !in rest && entries[k].0 == Child(prefix, tokens[k])
        invariant forall t :: t in node.children <==> t in rest || t in tokens
        invariant forall k, l :: 0 <= k < l < |tokens| ==> tokens[k] != tokens[l]
        invariant forall k :: 0 <= k < |entries| ==> entries[k].0 in at && at[entries[k].0] == entries[k].1
        decreases |rest|
      {
        var token :| token in rest;
        ChildOf(prefix, node, token);
        entries := entries + [(Child(prefix, token), node.children[token])];
        tokens := tokens + [token];
        rest := rest - {token};
      }
      ThreadedAt(prefix, node);
      PathsAt(entries);
      ListedChildren(at.Keys, prefix, tokens, Paths(entries));
    }

    lemma ThreadedAt(prefix: Phrase, node: TrieNode)
      requires Valid() && prefix in at && at[prefix] == node
      ensures forall t :: t in node.children <==> Child(prefix, t) in at
    {
      assert Kids()[prefix] == node.children;
    }

    /** Every stored phrase with categories, once each, with its own categories. */
    method IterPhrases() returns (found: seq<(Phrase, set<string>)>)
      requires Valid()
      ensures forall k, l :: 0 <= k < l < |found| ==> found[k].0 != found[l].0
      ensures forall p, c :: (p, c) in found <==> Matchable(Phrases(), p) && c == Phrases()[p]
    {
      hide *;
      found := [];
      var stack: seq<(Phrase, TrieNode)> := [([], root)];
      ghost var visited: set<Phrase> := {};
      RootPath();
      ghost var paths: seq<Phrase> := [[]];
      StartFrontier(at.Keys);
      NoneFound();
      PathsStart(root);
      while stack != []
        invariant Paths(stack) == paths
        invariant forall k :: 0 <= k < |stack| ==> stack[k].0 in at && at[stack[k].0] == stack[k].1
        invariant Frontier(at.Keys, visited, paths)
        invariant Found(visited, found)
        decreases at.Keys - visited
      {
        PathsPop(stack);
        var (prefix, node) := stack[|stack| - 1];
        stack := stack[..|stack| - 1];
        ghost var below := Paths(stack);
        var entries := ChildEntries(prefix, node);
        PathsAreClosed();
        Expand(at.Keys, visited, below, prefix, Paths(entries));
        PathsConcat(stack, entries);
        found := Yield(visited, prefix, node, found);
        stack := stack + entries;
        paths := below + Paths(entries);
        visited := visited + {prefix};
      }
      PathsAt(stack);
      assert paths == [];
      EndFrontier(at.Keys, visited);
      AllFound(visited, found);
    }

    lemma NoneFound()
      ensures Found({}, [])
    {}

    lemma AllFound(visited: set<Phrase>, found: seq<(Phrase, set<string>)>)
      requires Found(visited, found) && visited == at.Keys
      ensures forall k, l :: 0 <= k < l < |found| ==> found[k].0 != found[l].0
      ensures forall p, c :: (p, c) in found <==> Matchable(Phrases(), p) && c == Phrases()[p]
    {}

    /** What has been yielded once the paths in `visited` are done. */
    ghost predicate Found(visited: set<Phrase>, found: seq<(Phrase, set<string>)>)
      reads this, at.Values
    {
      && (forall k, l :: 0 <= k < l < |found| ==> found[k].0 != found[l].0)
      && (forall p, c :: (p, c) in found <==> p in visited && Matchable(Phrases(), p) && c == Phrases()[p])
    }

    /** `if node.categories and len(prefix) >= 2: yield prefix, node.categories` */
    method Yield(ghost visited: set<Phrase>, prefix: Phrase, node: TrieNode, found: seq<(Phrase, set<string>)>)
      returns (found': seq<(Phrase, set<string>)>)
      requires Valid() && prefix in at && at[prefix] == node && prefix !in visited
      requires Found(visited, found)
      ensures Found(visited + {prefix}, found')
    {
      hide Linked;
      found' := found;
      assert Matchable(Phrases(), prefix) <==> node.categories.Some? && node.categories.value != {};
      if node.categories.Some? && node.categories.value != {} && |prefix| >= 2 {
        forall k | 0 <= k < |found| ensures found[k].0 != prefix {
          assert (found[k].0, found[k].1) in found;
        }
        found' := found + [(prefix, node.categories.value)];
      }
    }
  }

  method FromPhrases(phrases: map<Phrase, set<string>>) returns (matcher: PhraseTrieMatcher)
    ensures fresh(matcher) && fresh(matcher.at.Values)
    ensures matcher.Valid() && matcher.Phrases() == Kept(phrases)
  {
    hide *;
    matcher := new PhraseTrieMatcher();
    var rest := phrases.Keys;
    KeptEnds(phrases);
    while rest != {}
      invariant fresh(matcher) && fresh(matcher.at.Values) && matcher.Valid()
      invariant rest <= phrases.Keys
      invariant matcher.Phrases() == Kept(phrases - rest)
      decreases |rest|
    {
      var p :| p in rest;
      KeptStep(phrases, rest, p);
      matcher.AddPhrase(p, phrases[p]);
      rest := rest - {p};
    }
  }
}
