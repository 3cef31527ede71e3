// Connected components of elements that touch common keys, and how one pass
// over all touches with a union-find computes them.
module Components {
  import opened DisjointSetForest

  // (element, key)
  type Touches = set<(nat, nat)>

  ghost predicate Adjacent(t: Touches, i: nat, j: nat) {
    exists key :: (i, key) in t && (j, key) in t
  }

  ghost predicate Chain(t: Touches, c: seq<nat>) {
    c != [] && forall x :: 0 <= x < |c| - 1 ==> Adjacent(t, c[x], c[x + 1])
  }

  ghost predicate ChainFrom(t: Touches, c: seq<nat>, i: nat, j: nat) {
    Chain(t, c) && c[0] == i && c[|c| - 1] == j
  }

  // The reflexive transitive closure of adjacency.
  ghost predicate Connected(t: Touches, i: nat, j: nat) {
    exists c :: ChainFrom(t, c, i, j)
  }

  lemma ConnectedReflexive(t: Touches, i: nat)
    ensures Connected(t, i, i)
  {
    assert ChainFrom(t, [i], i, i);
  }

  lemma ConnectedTransitive(t: Touches, i: nat, j: nat, k: nat)
    requires Connected(t, i, j) && Connected(t, j, k)
    ensures Connected(t, i, k)
  {
    var c :| ChainFrom(t, c, i, j);
    var d :| ChainFrom(t, d, j, k);
    var e := c + d[1..];
    forall x | 0 <= x < |e| - 1
      ensures Adjacent(t, e[x], e[x + 1])
    {
      if x >= |c| - 1 {
        assert Adjacent(t, d[x - |c| + 1], d[x - |c| + 2]);
      }
    }
    assert ChainFrom(t, e, i, k);
  }

  lemma {:induction false} ConnectedSymmetric(t: Touches, i: nat, j: nat)
    requires Connected(t, i, j)
    ensures Connected(t, j, i)
  {
    var c :| ChainFrom(t, c, i, j);
    var r := seq(|c|, x requires 0 <= x < |c| => c[|c| - 1 - x]);
    forall x | 0 <= x < |r| - 1
      ensures Adjacent(t, r[x], r[x + 1])
    {
      assert Adjacent(t, c[|c| - 2 - x], c[|c| - 2 - x + 1]);
    }
    assert ChainFrom(t, r, j, i);
  }

  lemma AdjacentConnected(t: Touches, i: nat, j: nat)
    requires Adjacent(t, i, j)
    ensures Connected(t, i, j)
  {
    assert ChainFrom(t, [i, j], i, j);
  }

  lemma ConnectedMonotone(t: Touches, more: Touches, i: nat, j: nat)
    requires t <= more && Connected(t, i, j)
    ensures Connected(more, i, j)
  {
    var c :| ChainFrom(t, c, i, j);
    assert ChainFrom(more, c, i, j);
  }

  // A set that no adjacency leaves contains everything connected to its
  // members.
  lemma {:induction false} ClosedUnderChains(t: Touches, s: set<nat>, c: seq<nat>)
    requires Chain(t, c) && c[0] in s
    requires forall i, j :: i in s && Adjacent(t, i, j) ==> j in s
    ensures c[|c| - 1] in s
  {
    if |c| > 1 {
      assert Adjacent(t, c[0], c[1]);
      ChainTail(t, c);
      ClosedUnderChains(t, s, c[1..]);
    }
  }

  // Roots name exactly the components.
  ghost predicate Represents(root: seq<nat>, t: Touches) {
    forall i, j :: 0 <= i < |root| && 0 <= j < |root| ==> (root[i] == root[j] <==> Connected(t, i, j))
  }

  // Adjacency inside one class, for every pair, makes chains stay in it.
  lemma {:induction false} ChainKeepsRoot(t: Touches, root: seq<nat>, c: seq<nat>)
    requires Chain(t, c) && c[0] < |root|
    requires forall i: nat, j: nat :: Adjacent(t, i, j) && i < |root| ==> j < |root| && root[i] == root[j]
    ensures c[|c| - 1] < |root| && root[c[0]] == root[c[|c| - 1]]
  {
    if |c| > 1 {
      assert Adjacent(t, c[0], c[1]);
      ChainTail(t, c);
      ChainKeepsRoot(t, root, c[1..]);
    }
  }

  ghost predicate ElementsBelow(t: Touches, n: nat) {
    forall touch :: touch in t ==> touch.0 < n
  }

  lemma RepresentsFromAdjacency(root: seq<nat>, t: Touches)
    requires ElementsBelow(t, |root|)
    requires forall i: nat, j: nat :: Adjacent(t, i, j) && i < |root| && j < |root| ==> root[i] == root[j]
    requires forall i, j :: 0 <= i < |root| && 0 <= j < |root| && root[i] == root[j] ==> Connected(t, i, j)
    ensures Represents(root, t)
  {
    forall i, j | 0 <= i < |root| && 0 <= j < |root| && Connected(t, i, j)
      ensures root[i] == root[j]
    {
      var c :| ChainFrom(t, c, i, j);
      forall x: nat, y: nat | Adjacent(t, x, y) && x < |root|
        ensures y < |root| && root[x] == root[y]
      {
        var key :| (x, key) in t && (y, key) in t;
      }
      ChainKeepsRoot(t, root, c);
    }
  }

  lemma EmptyRepresents(root: seq<nat>)
    requires forall i :: 0 <= i < |root| ==> root[i] == i
    ensures Represents(root, {})
  {
    forall i, j | 0 <= i < |root| && 0 <= j < |root| && root[i] == root[j]
      ensures Connected({}, i, j)
    {
      ConnectedReflexive({}, i);
    }
    RepresentsFromAdjacency(root, {});
  }

  // A key seen for the first time connects nothing.
  lemma TouchNewKey(root: seq<nat>, t: Touches, i: nat, key: nat)
    requires Represents(root, t) && ElementsBelow(t, |root|) && i < |root|
    requires forall j :: (j, key) !in t
    ensures Represents(root, t + {(i, key)})
  {
    var more := t + {(i, key)};
    forall x: nat, y: nat | Adjacent(more, x, y) && x < |root| && y < |root|
      ensures root[x] == root[y]
    {
      var k :| (x, k) in more && (y, k) in more;
      if k != key {
        assert Adjacent(t, x, y);
        AdjacentConnected(t, x, y);
      }
    }
    forall x, y | 0 <= x < |root| && 0 <= y < |root| && root[x] == root[y]
      ensures Connected(more, x, y)
    {
      ConnectedMonotone(t, more, x, y);
    }
    RepresentsFromAdjacency(root, more);
  }

  // A known key merges the class of its first element with the new one.
  lemma TouchKnownKey(root: seq<nat>, after: seq<nat>, t: Touches, i: nat, first: nat, key: nat)
    requires Represents(root, t) && ElementsBelow(t, |root|) && i < |root| && first < |root|
    requires (first, key) in t && |after| == |root|
    requires Merges(root, after, i, first)
    ensures Represents(after, t + {(i, key)})
  {
    var more := t + {(i, key)};
    forall x: nat, y: nat | Adjacent(more, x, y) && x < |root| && y < |root|
      ensures after[x] == after[y]
    {
      var k :| (x, k) in more && (y, k) in more;
      KnownKeyPair(root, t, i, first, key, x, k);
      KnownKeyPair(root, t, i, first, key, y, k);
      if k != key {
        assert Adjacent(t, x, y);
        AdjacentConnected(t, x, y);
      }
      assert MergedPair(root, i, first, x, y);
    }
    assert Adjacent(more, i, first);
    AdjacentConnected(more, i, first);
    ConnectedSymmetric(more, i, first);
    forall x, y | 0 <= x < |root| && 0 <= y < |root| && after[x] == after[y]
      ensures Connected(more, x, y)
    {
      assert MergedPair(root, i, first, x, y);
      if root[x] == root[y] {
        ConnectedMonotone(t, more, x, y);
      } else if root[x] == root[i] {
        Bridge(t, more, x, i, first, y);
      } else {
        Bridge(t, more, x, first, i, y);
      }
    }
    RepresentsFromAdjacency(after, more);
  }

  lemma KnownKeyPair(root: seq<nat>, t: Touches, i: nat, first: nat, key: nat, x: nat, k: nat)
    requires Represents(root, t) && i < |root| && first < |root| && x < |root| && (first, key) in t
    requires (x, k) in t + {(i, key)}
    ensures k == key ==> root[x] == root[first] || x == i
  {
    if k == key && x != i {
      assert Adjacent(t, x, first);
      AdjacentConnected(t, x, first);
    }
  }

  lemma Bridge(t: Touches, more: Touches, x: nat, a: nat, b: nat, y: nat)
    requires t <= more && Connected(t, x, a) && Connected(more, a, b) && Connected(t, b, y)
    ensures Connected(more, x, y)
  {
    ConnectedMonotone(t, more, x, a);
    ConnectedMonotone(t, more, b, y);
    ConnectedTransitive(more, x, a, b);
    ConnectedTransitive(more, x, b, y);
  }

  // The same incidences under other names have the same components.
  lemma RenamedConnected(t: Touches, ids: seq<nat>, renamed: Touches, i: nat, j: nat)
    requires i < |ids| && j < |ids| && forall x, y :: 0 <= x < y < |ids| ==> ids[x] != ids[y]
    requires ElementsBelow(t, |ids|) && forall touch :: touch in renamed ==> touch.0 in ids
    requires forall x: nat, key :: x < |ids| ==> ((x, key) in t <==> (ids[x], key) in renamed)
    ensures Connected(t, i, j) <==> Connected(renamed, ids[i], ids[j])
  {
    if Connected(t, i, j) {
      var c :| ChainFrom(t, c, i, j);
      RenamedChain(t, ids, renamed, c);
    }
    if Connected(renamed, ids[i], ids[j]) {
      var c :| ChainFrom(renamed, c, ids[i], ids[j]);
      UnrenamedChain(t, ids, renamed, c, i);
    }
  }

  lemma {:induction false} RenamedChain(t: Touches, ids: seq<nat>, renamed: Touches, c: seq<nat>)
    requires Chain(t, c) && c[0] < |ids| && ElementsBelow(t, |ids|)
    requires forall x: nat, key :: x < |ids| ==> ((x, key) in t <==> (ids[x], key) in renamed)
    ensures c[|c| - 1] < |ids| && Connected(renamed, ids[c[0]], ids[c[|c| - 1]])
  {
    if |c| == 1 {
      ConnectedReflexive(renamed, ids[c[0]]);
    } else {
      ChainTail(t, c);
      assert Adjacent(t, c[0], c[1]);
      var key :| (c[0], key) in t && (c[1], key) in t;
      RenamedChain(t, ids, renamed, c[1..]);
      assert Adjacent(renamed, ids[c[0]], ids[c[1]]);
      AdjacentConnected(renamed, ids[c[0]], ids[c[1]]);
      ConnectedTransitive(renamed, ids[c[0]], ids[c[1]], ids[c[|c| - 1]]);
    }
  }

  lemma {:induction false} UnrenamedChain(t: Touches, ids: seq<nat>, renamed: Touches, c: seq<nat>, i: nat)
    requires Chain(renamed, c) && i < |ids| && c[0] == ids[i]
    requires forall touch :: touch in renamed ==> touch.0 in ids
    requires forall x: nat, key :: x < |ids| ==> ((x, key) in t <==> (ids[x], key) in renamed)
    ensures exists j: nat :: j < |ids| && ids[j] == c[|c| - 1] && Connected(t, i, j)
  {
    if |c| == 1 {
      ConnectedReflexive(t, i);
    } else {
      ChainTail(renamed, c);
      assert Adjacent(renamed, c[0], c[1]);
      var key :| (c[0], key) in renamed && (c[1], key) in renamed;
      assert (c[1], key).0 in ids;
      var x: nat :| x < |ids| && ids[x] == c[1];
      UnrenamedChain(t, ids, renamed, c[1..], x);
      var j: nat :| j < |ids| && ids[j] == c[|c| - 1] && Connected(t, x, j);
      assert Adjacent(t, i, x);
      AdjacentConnected(t, i, x);
      ConnectedTransitive(t, i, x, j);
    }
  }

  lemma ChainTail(t: Touches, c: seq<nat>)
    requires Chain(t, c) && |c| > 1
    ensures Chain(t, c[1..])
  {
    forall x | 0 <= x < |c[1..]| - 1
      ensures Adjacent(t, c[1..][x], c[1..][x + 1])
    {
      assert Adjacent(t, c[x + 1], c[x + 2]);
    }
  }
}
