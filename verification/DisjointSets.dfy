// Union by size with path halving, over indices 0..n.
module DisjointSetForest {
  import opened Integers

  // How many of the first k indices belong to class r.
  function ClassSize(root: seq<nat>, r: nat, k: nat): (c: nat)
    requires k <= |root|
    ensures c <= k
  {
    if k == 0 then 0 else ClassSize(root, r, k - 1) + (if root[k - 1] == r then 1 else 0)
  }

  // root[i] is the root of i's class and depth[i] bounds the distance to it.
  // A class of size s has depth at most log2(s).
  ghost predicate Forest(parents: seq<nat>, sizes: seq<nat>, root: seq<nat>, depth: seq<nat>) {
    && |parents| == |sizes| == |root| == |depth|
    && (forall i :: 0 <= i < |root| ==> InForest(parents, root, depth, i))
    && (forall i :: 0 <= i < |root| ==> root[i] < |root| && Power2(depth[i]) <= sizes[root[i]])
    && (forall r :: 0 <= r < |root| && root[r] == r ==> sizes[r] == ClassSize(root, r, |root|))
  }

  ghost predicate InForest(parents: seq<nat>, root: seq<nat>, depth: seq<nat>, i: nat)
    requires |parents| == |root| == |depth| && i < |root|
    ensures InForest(parents, root, depth, i) ==> root[i] < |root|
  {
    && parents[i] < |root| && root[i] < |root|
    && root[parents[i]] == root[i]
    && (parents[i] == i <==> root[i] == i)
    && root[root[i]] == root[i] && depth[root[i]] == 0
    && (parents[i] != i ==> depth[parents[i]] < depth[i])
  }

  // The partition after the classes of a and b are merged, seen through roots.
  ghost predicate Merges(before: seq<nat>, after: seq<nat>, a: nat, b: nat)
    requires |before| == |after| && a < |before| && b < |before|
  {
    forall x, y :: 0 <= x < |before| && 0 <= y < |before| ==>
      (after[x] == after[y] <==> MergedPair(before, a, b, x, y))
  }

  ghost predicate MergedPair(root: seq<nat>, a: nat, b: nat, x: nat, y: nat)
    requires a < |root| && b < |root| && x < |root| && y < |root|
  {
    || root[x] == root[y]
    || (root[x] == root[a] && root[y] == root[b])
    || (root[x] == root[b] && root[y] == root[a])
  }

  class DisjointSets {
    var parents: array<nat>
    var sizes: array<nat>
    ghost var root: seq<nat>
    ghost var depth: seq<nat>

    ghost predicate Valid()
      reads this, parents, sizes
    {
      parents != sizes && Forest(parents[..], sizes[..], root, depth)
    }

    constructor (count: nat)
      ensures Valid() && fresh(parents) && fresh(sizes)
      ensures root == seq(count, i => i)
    {
      parents := new nat[count](i => i);
      sizes := new nat[count](_ => 1);
      root := seq(count, i => i);
      depth := seq(count, _ => 0);
      new;
      forall r | 0 <= r < count
        ensures ClassSize(root, r, count) == 1
      {
        Singletons(root, r, count);
      }
    }

    // Halving keeps the partition and returns the class root; the number of
    // iterations is at most the binary logarithm of the class size.
    method Find(start: nat) returns (node: nat, ghost steps: nat)
      requires Valid() && start < |root|
      modifies parents
      ensures Valid() && root == old(root) && depth == old(depth) && parents == old(parents) && sizes == old(sizes)
      ensures node == root[start] < |root|
      ensures Power2(steps) <= ClassSize(root, root[start], |root|)
    {
      node := start;
      steps := 0;
      while parents[node] != node
        invariant Valid() && root == old(root) && depth == old(depth)
        invariant node < |root| && root[node] == root[start]
        invariant steps + depth[node] <= depth[start]
        decreases depth[node]
      {
        assert InForest(parents[..], root, depth, node);
        assert InForest(parents[..], root, depth, parents[node]);
        Halved(parents[..], sizes[..], root, depth, node);
        ghost var before := parents[..];
        parents[node] := parents[parents[node]];
        assert parents[..] == before[node := before[before[node]]];
        node := parents[node];
        steps := steps + 1;
      }
      assert InForest(parents[..], root, depth, node);
      assert InForest(parents[..], root, depth, start);
      Power2Monotone(steps, depth[start]);
    }

    method Join(a: nat, b: nat)
      requires Valid() && a < |root| && b < |root|
      modifies this, parents, sizes
      ensures Valid() && parents == old(parents) && sizes == old(sizes) && |root| == |old(root)|
      ensures Merges(old(root), root, a, b)
    {
      hide Forest, Merges, JoinedRoot, JoinedDepth;
      ForestRoot(parents[..], sizes[..], root, depth, a);
      ForestRoot(parents[..], sizes[..], root, depth, b);
      var first, second;
      ghost var steps;
      first, steps := Find(a);
      second, steps := Find(b);
      if first == second {
        MergesNothing(root, a, b);
        return;
      }
      if sizes[first] < sizes[second] {
        first, second := second, first;
      }
      MergesRoots(root, a, b, first, second);
      Joined(parents[..], sizes[..], root, depth, first, second);
      ghost var p, s := parents[..], sizes[..];
      parents[second] := first;
      sizes[first] := sizes[first] + sizes[second];
      assert parents[..] == p[second := first] && sizes[..] == s[first := s[first] + s[second]];
      root, depth := JoinedRoot(root, first, second), JoinedDepth(root, depth, second);
    }
  }

  lemma ForestRoot(parents: seq<nat>, sizes: seq<nat>, root: seq<nat>, depth: seq<nat>, i: nat)
    requires Forest(parents, sizes, root, depth) && i < |root|
    ensures |parents| == |sizes| == |root| == |depth| && root[i] < |root| && root[root[i]] == root[i]
  {
    assert InForest(parents, root, depth, i);
  }

  lemma MergesNothing(root: seq<nat>, a: nat, b: nat)
    requires a < |root| && b < |root| && root[a] == root[b]
    ensures Merges(root, root, a, b)
  {
  }

  lemma MergesRoots(root: seq<nat>, a: nat, b: nat, first: nat, second: nat)
    requires a < |root| && b < |root| && first < |root| && second < |root|
    requires root[first] == first && root[second] == second
    requires (root[a] == first && root[b] == second) || (root[a] == second && root[b] == first)
    ensures forall after: seq<nat> :: |after| == |root| && Merges(root, after, first, second) ==> Merges(root, after, a, b)
  {
  }

  lemma {:induction false} Singletons(root: seq<nat>, r: nat, k: nat)
    requires k <= |root| && forall i :: 0 <= i < |root| ==> root[i] == i
    ensures ClassSize(root, r, k) == if r < k then 1 else 0
  {
    if k > 0 {
      Singletons(root, r, k - 1);
    }
  }

  lemma Halved(parents: seq<nat>, sizes: seq<nat>, root: seq<nat>, depth: seq<nat>, node: nat)
    requires Forest(parents, sizes, root, depth) && node < |root| && parents[node] != node
    ensures parents[node] < |root| && parents[parents[node]] < |root|
    ensures Forest(parents[node := parents[parents[node]]], sizes, root, depth)
    ensures depth[parents[parents[node]]] < depth[node]
  {
    assert InForest(parents, root, depth, node) && InForest(parents, root, depth, parents[node]);
    var after := parents[node := parents[parents[node]]];
    forall i | 0 <= i < |root|
      ensures InForest(after, root, depth, i)
    {
      assert InForest(parents, root, depth, i);
      assert InForest(parents, root, depth, parents[parents[node]]);
    }
  }

  function JoinedRoot(root: seq<nat>, first: nat, second: nat): (r: seq<nat>)
    ensures |r| == |root|
  {
    seq(|root|, i requires 0 <= i < |root| => if root[i] == second then first else root[i])
  }

  function JoinedDepth(root: seq<nat>, depth: seq<nat>, second: nat): (r: seq<nat>)
    requires |root| == |depth|
    ensures |r| == |root|
  {
    seq(|root|, i requires 0 <= i < |root| => if root[i] == second then depth[i] + 1 else depth[i])
  }

  lemma {:induction false} JoinedClass(root: seq<nat>, first: nat, second: nat, r: nat, k: nat)
    requires k <= |root| && first != second
    ensures ClassSize(JoinedRoot(root, first, second), r, k)
         == (if r == first then ClassSize(root, first, k) + ClassSize(root, second, k)
             else if r == second then 0 else ClassSize(root, r, k))
  {
    if k > 0 {
      JoinedClass(root, first, second, r, k - 1);
    }
  }

  lemma JoinedElement(parents: seq<nat>, sizes: seq<nat>, root: seq<nat>, depth: seq<nat>, first: nat, second: nat,
                      i: nat)
    requires Forest(parents, sizes, root, depth) && first < |root| && second < |root| && i < |root|
    requires first != second && root[first] == first && root[second] == second && sizes[second] <= sizes[first]
    ensures InForest(parents[second := first], JoinedRoot(root, first, second), JoinedDepth(root, depth, second), i)
    ensures Power2(JoinedDepth(root, depth, second)[i])
         <= sizes[first := sizes[first] + sizes[second]][JoinedRoot(root, first, second)[i]]
  {
    hide ClassSize;
    assert InForest(parents, root, depth, first) && InForest(parents, root, depth, second);
    assert InForest(parents, root, depth, i);
    assert InForest(parents, root, depth, parents[i]);
    assert InForest(parents, root, depth, root[i]);
  }

  // Attaching the smaller root keeps the logarithmic depth bound.
  lemma Joined(parents: seq<nat>, sizes: seq<nat>, root: seq<nat>, depth: seq<nat>, first: nat, second: nat)
    requires Forest(parents, sizes, root, depth) && first < |root| && second < |root|
    requires first != second && root[first] == first && root[second] == second && sizes[second] <= sizes[first]
    ensures Forest(parents[second := first], sizes[first := sizes[first] + sizes[second]],
                   JoinedRoot(root, first, second), JoinedDepth(root, depth, second))
    ensures Merges(root, JoinedRoot(root, first, second), first, second)
  {
    var p, s := parents[second := first], sizes[first := sizes[first] + sizes[second]];
    var r, d := JoinedRoot(root, first, second), JoinedDepth(root, depth, second);
    hide ClassSize, InForest, Power2, Merges;
    forall i | 0 <= i < |root|
      ensures InForest(p, r, d, i)
      ensures Power2(d[i]) <= s[r[i]]
    {
      JoinedElement(parents, sizes, root, depth, first, second, i);
    }
    forall c | 0 <= c < |root| && r[c] == c
      ensures s[c] == ClassSize(r, c, |r|)
    {
      JoinedClass(root, first, second, c, |root|);
    }
    JoinedMerges(root, first, second);
  }

  lemma JoinedMerges(root: seq<nat>, first: nat, second: nat)
    requires first < |root| && second < |root| && first != second && root[first] == first && root[second] == second
    ensures Merges(root, JoinedRoot(root, first, second), first, second)
  {
  }
}
