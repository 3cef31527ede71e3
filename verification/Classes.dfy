// Numbering the classes of a union-find in order of their first element.
module Classes {
  import opened BoundaryGraph

  // groupOf maps a root to its class number, |root| meaning none yet; owners is
  // the inverse; the first `count` elements are classified.
  ghost predicate Classified(root: seq<nat>, groupOf: seq<nat>, owners: seq<nat>, count: nat) {
    && count <= |root| == |groupOf| && |owners| <= count
    && (forall k :: 0 <= k < |owners| ==> owners[k] < |root| && groupOf[owners[k]] == k)
    && (forall r :: 0 <= r < |root| ==>
          groupOf[r] == |root| || (groupOf[r] < |owners| && owners[groupOf[r]] == r))
    && (forall i :: 0 <= i < count ==> root[i] < |root| && groupOf[root[i]] < |owners|)
    && (forall k :: 0 <= k < |owners| ==> exists i :: 0 <= i < count && root[i] == owners[k])
  }

  // The IDs of the first `count` elements with root r, in order.
  function MemberIds(ids: seq<nat>, root: seq<nat>, r: nat, count: nat): seq<nat>
    requires count <= |ids| == |root|
  {
    if count == 0 then []
    else MemberIds(ids, root, r, count - 1) + (if root[count - 1] == r then [ids[count - 1]] else [])
  }

  lemma {:induction false} MemberIdsElements(ids: seq<nat>, root: seq<nat>, r: nat, count: nat)
    requires count <= |ids| == |root| && Distinct(ids)
    ensures forall id :: id in MemberIds(ids, root, r, count) <==>
      exists i :: 0 <= i < count && root[i] == r && ids[i] == id
    ensures Distinct(MemberIds(ids, root, r, count))
  {
    if count > 0 {
      MemberIdsElements(ids, root, r, count - 1);
      var shorter := MemberIds(ids, root, r, count - 1);
      assert ids[count - 1] !in shorter;
      forall id
        ensures id in MemberIds(ids, root, r, count) <==>
          exists i :: 0 <= i < count && root[i] == r && ids[i] == id
      {
        if root[count - 1] == r && ids[count - 1] == id {
          assert id in MemberIds(ids, root, r, count);
        }
        if i :| 0 <= i < count - 1 && root[i] == r && ids[i] == id {
          assert id in shorter;
        }
      }
    }
  }

  lemma {:induction false} NoMembers(ids: seq<nat>, root: seq<nat>, r: nat, count: nat)
    requires count <= |ids| == |root| && forall i :: 0 <= i < count ==> root[i] != r
    ensures MemberIds(ids, root, r, count) == []
  {
    if count > 0 {
      NoMembers(ids, root, r, count - 1);
    }
  }

  // Element i opens a new class.
  lemma ClassifyNew(ids: seq<nat>, root: seq<nat>, groupOf: seq<nat>, owners: seq<nat>, i: nat)
    requires Classified(root, groupOf, owners, i) && i < |root| == |ids|
    requires root[i] < |root| && groupOf[root[i]] == |root|
    ensures Classified(root, groupOf[root[i] := |owners|], owners + [root[i]], i + 1)
    ensures MemberIds(ids, root, root[i], i + 1) == [ids[i]]
    ensures forall k :: 0 <= k < |owners| ==>
      MemberIds(ids, root, owners[k], i + 1) == MemberIds(ids, root, owners[k], i)
  {
    OpenClass(root, groupOf, owners, i);
    NoMembers(ids, root, root[i], i);
  }

  lemma OpenClass(root: seq<nat>, groupOf: seq<nat>, owners: seq<nat>, i: nat)
    requires Classified(root, groupOf, owners, i) && i < |root|
    requires root[i] < |root| && groupOf[root[i]] == |root|
    ensures Classified(root, groupOf[root[i] := |owners|], owners + [root[i]], i + 1)
    ensures forall j :: 0 <= j < i ==> root[j] != root[i]
    ensures forall k :: 0 <= k < |owners| ==> owners[k] != root[i]
  {
    var after := owners + [root[i]];
    forall k | 0 <= k < |after|
      ensures exists j :: 0 <= j < i + 1 && root[j] == after[k]
    {
      if k < |owners| {
        var j :| 0 <= j < i && root[j] == owners[k];
      } else {
        assert root[i] == after[k];
      }
    }
  }

  // Element i joins a class.
  lemma ClassifyKnown(ids: seq<nat>, root: seq<nat>, groupOf: seq<nat>, owners: seq<nat>, i: nat)
    requires Classified(root, groupOf, owners, i) && i < |root| == |ids|
    requires root[i] < |root| && groupOf[root[i]] != |root|
    ensures groupOf[root[i]] < |owners| && Classified(root, groupOf, owners, i + 1)
    ensures forall k :: 0 <= k < |owners| ==>
      MemberIds(ids, root, owners[k], i + 1)
      == MemberIds(ids, root, owners[k], i) + (if k == groupOf[root[i]] then [ids[i]] else [])
  {
  }
}
