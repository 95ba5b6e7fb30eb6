/** Summing metered usage over a run and all its descendants, level by level. */
module RunTree {
  import opened Wrappers

  datatype Usage = Usage(run: nat, tokens: nat)

  /** The `n`-th ancestor of a run. */
  function Up(parents: map<nat, Option<nat>>, r: nat, n: nat): Option<nat>
    decreases n
  {
    if n == 0 then Some(r)
    else if r in parents && parents[r].Some? then Up(parents, parents[r].value, n - 1)
    else None
  }

  /** No run is its own proper ancestor `n` levels up. */
  ghost predicate OffCycle(parents: map<nat, Option<nat>>, root: nat) {
    forall n: nat :: n > 0 ==> Up(parents, root, n) != Some(root)
  }

  function Universe(parents: map<nat, Option<nat>>, root: nat): set<nat> {
    parents.Keys + {root}
  }

  /** The runs `n` levels below the root. */
  function Level(parents: map<nat, Option<nat>>, root: nat, n: nat): set<nat> {
    set r | r in Universe(parents, root) && Up(parents, r, n) == Some(root)
  }

  /** The root and everything below it. */
  ghost function Descendants(parents: map<nat, Option<nat>>, root: nat): set<nat> {
    set r | r in Universe(parents, root) && exists n: nat :: Up(parents, r, n) == Some(root)
  }

  function Children(parents: map<nat, Option<nat>>, frontier: set<nat>): set<nat> {
    set r | r in parents && parents[r].Some? && parents[r].value in frontier
  }

  function Total(usage: seq<Usage>, runs: set<nat>): nat {
    if usage == [] then 0
    else Total(usage[..|usage| - 1], runs) + if usage[|usage| - 1].run in runs then usage[|usage| - 1].tokens else 0
  }

  function Elements(s: seq<nat>): set<nat> {
    set x | x in s
  }

  ghost predicate Distinct(s: seq<nat>) {
    forall i, j :: 0 <= i < j < |s| ==> s[i] != s[j]
  }

  lemma ElementsAppend(a: seq<nat>, b: seq<nat>)
    ensures Elements(a + b) == Elements(a) + Elements(b)
  {
    assert forall x :: x in a + b <==> x in a || x in b;
  }

  // ------------------------------------------------------------ ancestry

  lemma {:induction false} UpCompose(parents: map<nat, Option<nat>>, r: nat, a: nat, b: nat)
    ensures Up(parents, r, a + b)
         == if Up(parents, r, a).Some? then Up(parents, Up(parents, r, a).value, b) else None
    decreases a
  {
    if a > 0 && r in parents && parents[r].Some? {
      UpCompose(parents, parents[r].value, a - 1, b);
    }
  }

  /** On a tree the levels are disjoint. */
  lemma LevelsDisjoint(parents: map<nat, Option<nat>>, root: nat, r: nat, i: nat, j: nat)
    requires OffCycle(parents, root) && i < j
    ensures !(Up(parents, r, i) == Some(root) && Up(parents, r, j) == Some(root))
  {
    UpCompose(parents, r, i, j - i);
  }

  lemma ChildrenOfLevel(parents: map<nat, Option<nat>>, root: nat, n: nat)
    ensures Children(parents, Level(parents, root, n)) == Level(parents, root, n + 1)
  {
    forall r | r in Children(parents, Level(parents, root, n))
      ensures Up(parents, r, n + 1) == Some(root)
    {
      assert Up(parents, parents[r].value, n) == Some(root);
    }
    forall r | r in Level(parents, root, n + 1)
      ensures r in Children(parents, Level(parents, root, n))
    {
      var p := parents[r].value;
      assert Up(parents, p, n) == Some(root);
      if n > 0 {
        assert p in parents;
      }
    }
  }

  /** The loop's frontier after `n` iterations. */
  function Frontier(parents: map<nat, Option<nat>>, root: nat, n: nat): set<nat> {
    if n == 0 then {root} else Children(parents, Frontier(parents, root, n - 1))
  }

  /** It is the `n`-th level, on any parent relation. */
  lemma {:induction false} FrontierIsLevel(parents: map<nat, Option<nat>>, root: nat, n: nat)
    ensures Frontier(parents, root, n) == Level(parents, root, n)
  {
    if n == 0 {
      assert Level(parents, root, 0) == {root};
    } else {
      FrontierIsLevel(parents, root, n - 1);
      ChildrenOfLevel(parents, root, n - 1);
    }
  }

  /** A level below an empty one is empty. */
  lemma {:induction false} EmptyBelow(parents: map<nat, Option<nat>>, root: nat, n: nat, m: nat)
    requires Level(parents, root, n) == {} && n <= m
    ensures Level(parents, root, m) == {}
    decreases m
  {
    if n < m {
      EmptyBelow(parents, root, n, m - 1);
      ChildrenOfLevel(parents, root, m - 1);
    }
  }

  // ------------------------------------------------------------ the loop

  /** A query result: the rows of a set in some order, each once. */
  method Listing(s: set<nat>) returns (l: seq<nat>)
    ensures Elements(l) == s && Distinct(l)
  {
    l := [];
    var rest := s;
    while rest != {}
      invariant rest <= s && Elements(l) == s - rest && Distinct(l)
    {
      var x :| x in rest;
      assert x !in Elements(l);
      ElementsAppend(l, [x]);
      l := l + [x];
      rest := rest - {x};
    }
  }

  /** `runs` holds exactly the levels up to `depth`, each run once. */
  ghost predicate Collected(parents: map<nat, Option<nat>>, root: nat, runs: seq<nat>, depth: nat) {
    && Distinct(runs)
    && Elements(runs) <= Universe(parents, root)
    && forall r :: r in Elements(runs) <==> exists n: nat :: n <= depth && r in Level(parents, root, n)
  }

  lemma CollectedRoot(parents: map<nat, Option<nat>>, root: nat)
    ensures Elements([root]) == Level(parents, root, 0)
    ensures Collected(parents, root, [root], 0)
  {
    assert Level(parents, root, 0) == {root};
  }

  lemma DistinctAppend(a: seq<nat>, b: seq<nat>)
    requires Distinct(a) && Distinct(b) && Elements(a) !! Elements(b)
    ensures Distinct(a + b)
  {
    var all := a + b;
    forall i, j | 0 <= i < j < |all|
      ensures all[i] != all[j]
    {
      if i < |a| <= j {
        assert all[i] == a[i] && a[i] in Elements(a);
        assert all[j] == b[j - |a|] && b[j - |a|] in Elements(b);
      }
    }
  }

  lemma CollectNext(parents: map<nat, Option<nat>>, root: nat, runs: seq<nat>, depth: nat, children: seq<nat>)
    requires OffCycle(parents, root) && Collected(parents, root, runs, depth)
    requires Distinct(children) && Elements(children) == Level(parents, root, depth + 1)
    ensures Collected(parents, root, runs + children, depth + 1)
    ensures children != [] ==>
              |Universe(parents, root) - Elements(runs + children)| < |Universe(parents, root) - Elements(runs)|
    ensures children == [] ==> runs + children == runs
  {
    ElementsAppend(runs, children);
    assert Elements(runs) !! Elements(children) by {
      NextLevelIsNew(parents, root, Elements(runs), depth);
    }
    DistinctAppend(runs, children);
    var all := runs + children;
    forall r
      ensures r in Elements(all) <==> exists n: nat :: n <= depth + 1 && r in Level(parents, root, n)
    {
      if n: nat :| n <= depth + 1 && r in Level(parents, root, n) {
        assert n <= depth || n == depth + 1;
      }
      if r in Elements(children) {
        assert r in Level(parents, root, depth + 1);
      }
    }
    if children != [] {
      assert children[0] in Elements(children);
      Shrinks(Universe(parents, root), Elements(runs), Elements(all), children[0]);
    }
  }

  lemma CollectedAll(parents: map<nat, Option<nat>>, root: nat, runs: seq<nat>, depth: nat)
    requires Collected(parents, root, runs, depth) && Level(parents, root, depth) == {}
    ensures Elements(runs) == Descendants(parents, root)
  {
    forall r | r in Universe(parents, root)
      ensures r in Elements(runs) <==> exists n: nat :: Up(parents, r, n) == Some(root)
    {
      if r in Elements(runs) {
        var n: nat :| n <= depth && r in Level(parents, root, n);
        assert Up(parents, r, n) == Some(root);
      }
      if n: nat :| Up(parents, r, n) == Some(root) {
        assert r in Level(parents, root, n);
        if n > depth {
          EmptyBelow(parents, root, depth, n);
        }
      }
    }
  }

  /** Collect the run and its descendants by frontier expansion.  A run that is on no cycle
      is enough for the loop to end. */
  method CollectRuns(parents: map<nat, Option<nat>>, root: nat) returns (runs: seq<nat>)
    requires OffCycle(parents, root)
    ensures Distinct(runs) && Elements(runs) == Descendants(parents, root)
  {
    var frontier := [root];
    runs := [root];
    ghost var depth: nat := 0;
    CollectedRoot(parents, root);
    while frontier != []
      invariant Elements(frontier) == Frontier(parents, root, depth)
      invariant Collected(parents, root, runs, depth)
      decreases |Universe(parents, root) - Elements(runs)|, |frontier|
    {
      var children := Listing(Children(parents, Elements(frontier)));
      FrontierIsLevel(parents, root, depth + 1);
      CollectNext(parents, root, runs, depth, children);
      frontier := children;
      runs := runs + children;
      depth := depth + 1;
    }
    assert Elements(frontier) == {};
    FrontierIsLevel(parents, root, depth);
    CollectedAll(parents, root, runs, depth);
  }

  /** The metered tokens of the run and everything below it. */
  method RunTokenTotal(parents: map<nat, Option<nat>>, usage: seq<Usage>, root: nat) returns (total: nat)
    requires OffCycle(parents, root)
    ensures total == Total(usage, Descendants(parents, root))
  {
    var runs := CollectRuns(parents, root);
    total := 0;
    for i := 0 to |usage|
      invariant total == Total(usage[..i], Elements(runs))
    {
      assert usage[..i + 1][..i] == usage[..i];
      if usage[i].run in runs {
        total := total + usage[i].tokens;
      }
    }
    assert usage[..|usage|] == usage;
  }

  lemma Shrinks(all: set<nat>, before: set<nat>, after: set<nat>, x: nat)
    requires before <= after && x in after && x !in before && x in all
    ensures |all - after| < |all - before|
  {
    assert all - after <= (all - before) - {x};
    SubsetSize(all - after, (all - before) - {x});
  }

  lemma {:induction false} SubsetSize(a: set<nat>, b: set<nat>)
    requires a <= b
    ensures |a| <= |b|
  {
    if a != {} {
      var x :| x in a;
      SubsetSize(a - {x}, b - {x});
    }
  }

  lemma NextLevelIsNew(parents: map<nat, Option<nat>>, root: nat, runs: set<nat>, depth: nat)
    requires OffCycle(parents, root)
    requires forall r :: r in runs <==> exists n: nat :: n <= depth && r in Level(parents, root, n)
    ensures Level(parents, root, depth + 1) !! runs
  {
    forall r | r in Level(parents, root, depth + 1)
      ensures r !in runs
    {
      forall n: nat | n <= depth
        ensures r !in Level(parents, root, n)
      {
        LevelsDisjoint(parents, root, r, n, depth + 1);
      }
    }
  }

  // -------------------------------------------- when does the loop end?

  /** Terminal capture asks only for top-level runs, which are on no cycle. */
  lemma TopLevelIsOffCycle(parents: map<nat, Option<nat>>, root: nat)
    requires root in parents ==> parents[root].None?
    ensures OffCycle(parents, root)
  {
  }

  lemma {:induction false} AroundTheCycle(parents: map<nat, Option<nat>>, root: nat, n: nat, times: nat)
    requires Up(parents, root, n) == Some(root)
    ensures Up(parents, root, n * times) == Some(root)
  {
    if times > 0 {
      AroundTheCycle(parents, root, n, times - 1);
      UpCompose(parents, root, n * (times - 1), n);
      assert n * times == n * (times - 1) + n;
    }
  }

  /** On a cycle no level is ever empty, so the frontier never runs out. */
  lemma CycleNeverEnds(parents: map<nat, Option<nat>>, root: nat, depth: nat)
    requires !OffCycle(parents, root)
    ensures Frontier(parents, root, depth) != {}
  {
    var n: nat :| n > 0 && Up(parents, root, n) == Some(root);
    AroundTheCycle(parents, root, n, depth);
    assert n * depth >= depth;
    UpCompose(parents, root, n * depth - depth, depth);
    var r := Up(parents, root, n * depth - depth).value;
    assert depth > 0 ==> r in parents;
    assert r in Level(parents, root, depth);
    FrontierIsLevel(parents, root, depth);
  }

  /** The frontier empties after some iteration, and so ends the loop, exactly for a run that
      is not its own ancestor. */
  lemma EndsExactlyOffCycle(parents: map<nat, Option<nat>>, root: nat)
    ensures OffCycle(parents, root) <==> exists n: nat :: Frontier(parents, root, n) == {}
  {
    if OffCycle(parents, root) {
      var depth := SomeEmptyLevel(parents, root, 0, Universe(parents, root));
      FrontierIsLevel(parents, root, depth);
    } else {
      forall n: nat
        ensures Frontier(parents, root, n) != {}
      {
        CycleNeverEnds(parents, root, n);
      }
    }
  }

  /** Each non-empty level uses up a run, so some level is empty. */
  lemma {:induction false} SomeEmptyLevel(parents: map<nat, Option<nat>>, root: nat, from: nat, left: set<nat>)
    returns (depth: nat)
    requires OffCycle(parents, root)
    requires forall n: nat :: n >= from ==> Level(parents, root, n) <= left
    ensures Level(parents, root, depth) == {}
    decreases left
  {
    if Level(parents, root, from) == {} {
      depth := from;
    } else {
      var r :| r in Level(parents, root, from);
      assert r in left;
      forall n: nat | n >= from + 1
        ensures Level(parents, root, n) <= left - {r}
      {
        LevelsDisjoint(parents, root, r, from, n);
      }
      depth := SomeEmptyLevel(parents, root, from + 1, left - {r});
    }
  }

  // ------------------------------------------------- the total is recursive

  lemma {:induction false} TotalUnion(usage: seq<Usage>, a: set<nat>, b: set<nat>)
    requires a * b == {}
    ensures Total(usage, a + b) == Total(usage, a) + Total(usage, b)
  {
    if usage != [] {
      TotalUnion(usage[..|usage| - 1], a, b);
      var r := usage[|usage| - 1].run;
      assert r in a && r in b ==> r in a * b;
    }
  }

  /** The total adds up the tokens of the usage rows of these runs. */
  lemma {:induction false} TotalIsSum(a: seq<Usage>, b: seq<Usage>, one: Usage, runs: set<nat>)
    ensures Total(a + b, runs) == Total(a, runs) + Total(b, runs)
    ensures Total([one], runs) == if one.run in runs then one.tokens else 0
  {
    assert [one][..0] == [];
    if b == [] {
      assert a + b == a;
    } else {
      assert (a + b)[..|a + b| - 1] == a + b[..|b| - 1];
      TotalIsSum(a, b[..|b| - 1], one, runs);
    }
  }

  predicate IsChild(parents: map<nat, Option<nat>>, c: nat, root: nat) {
    c in parents && parents[c] == Some(root)
  }

  /** The union of the subtrees of the first `n` children. */
  ghost function Subtrees(parents: map<nat, Option<nat>>, children: seq<nat>, n: nat): set<nat>
    requires n <= |children|
  {
    if n == 0 then {} else Subtrees(parents, children, n - 1) + Descendants(parents, children[n - 1])
  }

  ghost function SumOfTotals(parents: map<nat, Option<nat>>, usage: seq<Usage>, children: seq<nat>, n: nat): nat
    requires n <= |children|
  {
    if n == 0 then 0
    else SumOfTotals(parents, usage, children, n - 1) + Total(usage, Descendants(parents, children[n - 1]))
  }

  lemma {:induction false} InSubtrees(parents: map<nat, Option<nat>>, children: seq<nat>, n: nat, r: nat)
    requires n <= |children|
    ensures r in Subtrees(parents, children, n) <==> exists k :: 0 <= k < n && r in Descendants(parents, children[k])
  {
    if n > 0 {
      InSubtrees(parents, children, n - 1, r);
    }
  }

  /** Different children of one run have disjoint subtrees, none of which holds the run. */
  lemma SiblingsDisjoint(parents: map<nat, Option<nat>>, root: nat, c: nat, d: nat, r: nat)
    requires OffCycle(parents, root) && IsChild(parents, c, root) && IsChild(parents, d, root)
    ensures c != d ==> !(r in Descendants(parents, c) && r in Descendants(parents, d))
    ensures root !in Descendants(parents, c)
  {
    forall n: nat
      ensures Up(parents, root, n) != Some(c)
    {
      if Up(parents, root, n) == Some(c) {
        NextAncestor(parents, root, n, c, root);
      }
    }
    if c != d && r in Descendants(parents, c) && r in Descendants(parents, d) {
      var i: nat :| Up(parents, r, i) == Some(c);
      var j: nat :| Up(parents, r, j) == Some(d);
      if i < j {
        NoCousin(parents, root, c, d, r, i, j);
      } else if j < i {
        NoCousin(parents, root, d, c, r, j, i);
      }
    }
  }

  lemma NextAncestor(parents: map<nat, Option<nat>>, r: nat, n: nat, d: nat, root: nat)
    requires Up(parents, r, n) == Some(d) && IsChild(parents, d, root)
    ensures Up(parents, r, n + 1) == Some(root)
  {
    UpCompose(parents, r, n, 1);
    assert Up(parents, d, 1) == Up(parents, root, 0);
  }

  /** A child of the root has no other child of the root above it. */
  lemma NotAbove(parents: map<nat, Option<nat>>, root: nat, c: nat, d: nat, k: nat)
    requires OffCycle(parents, root) && IsChild(parents, c, root) && IsChild(parents, d, root)
    ensures Up(parents, c, k + 1) != Some(d)
  {
    assert Up(parents, c, k + 1) == Up(parents, root, k);
    if Up(parents, root, k) == Some(d) {
      NextAncestor(parents, root, k, d, root);
    }
  }

  lemma NoCousin(parents: map<nat, Option<nat>>, root: nat, c: nat, d: nat, r: nat, i: nat, j: nat)
    requires OffCycle(parents, root) && IsChild(parents, c, root) && IsChild(parents, d, root)
    requires i < j && Up(parents, r, i) == Some(c)
    ensures Up(parents, r, j) != Some(d)
  {
    NotAbove(parents, root, c, d, j - i - 1);
    UpCompose(parents, r, i, j - i);
  }

  lemma DescendantsUnfold(parents: map<nat, Option<nat>>, root: nat, children: seq<nat>)
    requires Elements(children) == Children(parents, {root})
    ensures Descendants(parents, root) == {root} + Subtrees(parents, children, |children|)
  {
    forall r
      ensures r in Descendants(parents, root) <==> r == root || r in Subtrees(parents, children, |children|)
    {
      InSubtrees(parents, children, |children|, r);
      if r in Descendants(parents, root) && r != root {
        var n: nat :| Up(parents, r, n) == Some(root);
        UpCompose(parents, r, n - 1, 1);
        var c := Up(parents, r, n - 1).value;
        assert c in Elements(children);
        var k :| 0 <= k < |children| && children[k] == c;
        assert r in Descendants(parents, children[k]);
      }
      if k :| 0 <= k < |children| && r in Descendants(parents, children[k]) {
        assert children[k] in Elements(children);
        var n: nat :| Up(parents, r, n) == Some(children[k]);
        UpCompose(parents, r, n, 1);
        assert Up(parents, children[k], 1) == Some(root);
        assert Up(parents, r, n + 1) == Some(root);
      }
      assert Up(parents, root, 0) == Some(root);
    }
  }

  lemma {:induction false} SubtreesAddUp(parents: map<nat, Option<nat>>, usage: seq<Usage>, root: nat,
                                         children: seq<nat>, n: nat)
    requires OffCycle(parents, root) && n <= |children| && Distinct(children)
    requires forall k :: 0 <= k < |children| ==> IsChild(parents, children[k], root)
    ensures Total(usage, Subtrees(parents, children, n)) == SumOfTotals(parents, usage, children, n)
    ensures root !in Subtrees(parents, children, n)
  {
    if n == 0 {
      var none: set<nat> := {};
      TotalUnion(usage, none, none);
      assert none + none == none;
    } else {
      SubtreesAddUp(parents, usage, root, children, n - 1);
      var m, last := n - 1, children[n - 1];
      forall r | r in Subtrees(parents, children, m)
        ensures r !in Descendants(parents, last)
      {
        InSubtrees(parents, children, m, r);
        var k :| 0 <= k < m && r in Descendants(parents, children[k]);
        SiblingsDisjoint(parents, root, children[k], last, r);
      }
      SiblingsDisjoint(parents, root, children[n - 1], children[n - 1], root);
      TotalUnion(usage, Subtrees(parents, children, n - 1), Descendants(parents, children[n - 1]));
    }
  }

  /** A run's total is its own usage plus the totals of its children. */
  lemma TotalIsRecursive(parents: map<nat, Option<nat>>, usage: seq<Usage>, root: nat, children: seq<nat>)
    requires OffCycle(parents, root)
    requires Distinct(children) && Elements(children) == Children(parents, {root})
    ensures Total(usage, Descendants(parents, root))
         == Total(usage, {root}) + SumOfTotals(parents, usage, children, |children|)
  {
    forall k | 0 <= k < |children|
      ensures IsChild(parents, children[k], root)
    {
      assert children[k] in Elements(children);
    }
    DescendantsUnfold(parents, root, children);
    SubtreesAddUp(parents, usage, root, children, |children|);
    TotalUnion(usage, {root}, Subtrees(parents, children, |children|));
  }
}
