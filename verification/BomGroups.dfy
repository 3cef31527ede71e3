// What the groups of a list of instances are: one per key, with the first
// instance and the number of instances that have it.
module BomGroups {
  import opened Results
  import opened BomTree

  function CountKey(w: World, comps: seq<Component>, key: AggregationKey): nat {
    if comps == [] then 0
    else CountKey(w, comps[..|comps| - 1], key) + (if KeyOf(w, comps[|comps| - 1]) == key then 1 else 0)
  }

  function FirstWith(w: World, comps: seq<Component>, key: AggregationKey): (r: Option<Component>)
    ensures r.Some? ==> r.value in comps && KeyOf(w, r.value) == key
    ensures r.None? ==> forall i :: 0 <= i < |comps| ==> KeyOf(w, comps[i]) != key
  {
    if comps == [] then None
    else
      var before := FirstWith(w, comps[..|comps| - 1], key);
      if before.Some? then before
      else if KeyOf(w, comps[|comps| - 1]) == key then Some(comps[|comps| - 1])
      else None
  }

  lemma {:induction false} AddedNew(w: World, groups: seq<Group>, comp: Component)
    requires forall i :: 0 <= i < |groups| ==> groups[i].key != KeyOf(w, comp)
    ensures AddToGroups(w, groups, comp) == groups + [Group(KeyOf(w, comp), comp, 1)]
  {
    hide KeyOf;
    if groups != [] {
      AddedNew(w, groups[1..], comp);
      assert groups == [groups[0]] + groups[1..];
    }
  }

  lemma {:induction false} AddedAgain(w: World, groups: seq<Group>, comp: Component, k: nat)
    requires k < |groups| && groups[k].key == KeyOf(w, comp)
    requires forall i :: 0 <= i < k ==> groups[i].key != KeyOf(w, comp)
    ensures AddToGroups(w, groups, comp) == groups[k := groups[k].(count := groups[k].count + 1)]
  {
    hide KeyOf;
    if k > 0 {
      AddedAgain(w, groups[1..], comp, k - 1);
    }
  }

  ghost predicate KeysUnique(groups: seq<Group>) {
    forall i, j :: 0 <= i < j < |groups| ==> groups[i].key != groups[j].key
  }

  ghost predicate GroupIs(w: World, comps: seq<Component>, g: Group) {
    g.count == CountKey(w, comps, g.key) && FirstWith(w, comps, g.key) == Some(g.first)
  }

  ghost predicate HasKey(groups: seq<Group>, key: AggregationKey) {
    exists k :: 0 <= k < |groups| && groups[k].key == key
  }

  ghost predicate AreGroups(w: World, comps: seq<Component>, groups: seq<Group>) {
    && KeysUnique(groups)
    && (forall k :: 0 <= k < |groups| ==> GroupIs(w, comps, groups[k]))
    && (forall i :: 0 <= i < |comps| ==> HasKey(groups, KeyOf(w, comps[i])))
  }

  lemma NoKey(w: World, comps: seq<Component>, key: AggregationKey)
    requires FirstWith(w, comps, key).None?
    ensures CountKey(w, comps, key) == 0
  {
  }

  lemma OneMore(w: World, comps: seq<Component>, comp: Component, key: AggregationKey)
    ensures CountKey(w, comps + [comp], key) == CountKey(w, comps, key) + (if KeyOf(w, comp) == key then 1 else 0)
    ensures FirstWith(w, comps + [comp], key) ==
      (if FirstWith(w, comps, key).Some? then FirstWith(w, comps, key)
       else if KeyOf(w, comp) == key then Some(comp) else None)
  {
    hide KeyOf;
    assert (comps + [comp])[..|comps|] == comps;
  }

  lemma GroupKept(w: World, comps: seq<Component>, comp: Component, g: Group)
    requires GroupIs(w, comps, g)
    ensures GroupIs(w, comps + [comp], if g.key == KeyOf(w, comp) then g.(count := g.count + 1) else g)
  {
    hide KeyOf, CountKey, FirstWith;
    OneMore(w, comps, comp, g.key);
  }

  lemma KeysCovered(w: World, comps: seq<Component>, comp: Component, groups: seq<Group>, after: seq<Group>)
    requires forall i :: 0 <= i < |comps| ==> HasKey(groups, KeyOf(w, comps[i]))
    requires |groups| <= |after| && forall k :: 0 <= k < |groups| ==> after[k].key == groups[k].key
    requires HasKey(after, KeyOf(w, comp))
    ensures forall i :: 0 <= i < |comps + [comp]| ==> HasKey(after, KeyOf(w, (comps + [comp])[i]))
  {
    hide KeyOf;
    forall i | 0 <= i < |comps|
      ensures HasKey(after, KeyOf(w, comps[i]))
    {
      var m :| 0 <= m < |groups| && groups[m].key == KeyOf(w, comps[i]);
      assert after[m].key == KeyOf(w, comps[i]);
    }
  }

  lemma ExtendedKnown(w: World, comps: seq<Component>, comp: Component, groups: seq<Group>, k: nat)
    requires AreGroups(w, comps, groups) && k < |groups| && groups[k].key == KeyOf(w, comp)
    ensures AreGroups(w, comps + [comp], AddToGroups(w, groups, comp))
  {
    hide KeyOf, AddToGroups, GroupIs, HasKey;
    AddedAgain(w, groups, comp, k);
    var after := groups[k := groups[k].(count := groups[k].count + 1)];
    forall m | 0 <= m < |after|
      ensures GroupIs(w, comps + [comp], after[m])
    {
      GroupKept(w, comps, comp, groups[m]);
    }
    KeyAt(after, k);
    KeysCovered(w, comps, comp, groups, after);
  }

  lemma KeyAt(groups: seq<Group>, k: nat)
    requires k < |groups|
    ensures HasKey(groups, groups[k].key)
  {
  }

  lemma ExtendedNew(w: World, comps: seq<Component>, comp: Component, groups: seq<Group>)
    requires AreGroups(w, comps, groups) && !HasKey(groups, KeyOf(w, comp))
    ensures AreGroups(w, comps + [comp], AddToGroups(w, groups, comp))
  {
    hide KeyOf, AddToGroups, CountKey, FirstWith;
    var key := KeyOf(w, comp);
    AddedNew(w, groups, comp);
    var after := groups + [Group(key, comp, 1)];
    NoFirst(w, comps, groups, key);
    NoKey(w, comps, key);
    OneMore(w, comps, comp, key);
    forall m | 0 <= m < |groups|
      ensures GroupIs(w, comps + [comp], groups[m])
    {
      GroupKept(w, comps, comp, groups[m]);
    }
    KeyAt(after, |groups|);
    KeysCovered(w, comps, comp, groups, after);
  }

  lemma NoFirst(w: World, comps: seq<Component>, groups: seq<Group>, key: AggregationKey)
    requires AreGroups(w, comps, groups) && !HasKey(groups, key)
    ensures FirstWith(w, comps, key).None?
  {
    hide KeyOf, CountKey;
  }

  // The groups are exactly the keys, with first instance and number.
  lemma {:induction false} GroupsAre(w: World, comps: seq<Component>)
    ensures AreGroups(w, comps, Groups(w, comps))
  {
    hide AddToGroups, GroupIs, KeyOf;
    if comps != [] {
      var n := |comps| - 1;
      GroupsAre(w, comps[..n]);
      var groups := Groups(w, comps[..n]);
      if k :| 0 <= k < |groups| && groups[k].key == KeyOf(w, comps[n]) {
        ExtendedKnown(w, comps[..n], comps[n], groups, k);
      } else {
        ExtendedNew(w, comps[..n], comps[n], groups);
      }
      assert comps[..n] + [comps[n]] == comps;
    }
  }

  lemma GroupOf(w: World, comps: seq<Component>, i: nat) returns (k: nat)
    requires i < |comps|
    ensures k < |Groups(w, comps)| && Groups(w, comps)[k].key == KeyOf(w, comps[i])
  {
    hide KeyOf, GroupIs;
    GroupsAre(w, comps);
    var m :| 0 <= m < |Groups(w, comps)| && Groups(w, comps)[m].key == KeyOf(w, comps[i]);
    k := m;
  }

  lemma EmptyTogether(w: World, comps: seq<Component>)
    ensures |Groups(w, comps)| == 0 <==> |comps| == 0
    ensures |Singles(w, comps)| == |comps|
  {
    if comps != [] {
      var k := GroupOf(w, comps, 0);
    }
  }
}
