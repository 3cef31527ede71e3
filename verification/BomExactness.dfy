// When grouping conserves the leaves: exactly which lists of instances, and
// which documents, count alike with and without it.
module BomExactness {
  import opened BomTree
  import opened BomReach
  import opened BomGroups
  import opened BomConservation

  // ---------------------------------------------------------------- keys apart

  lemma ApartHarmless(w: World, c: Settings, comps: seq<Component>, depth: nat, active: set<string>)
    requires Sensible(w) && ListApart(w, comps)
    ensures ListHarmless(w, c, comps, depth, active)
  {
    hide KeyOf, Resolved, Alike;
    forall i, j | 0 <= i < |comps| && 0 <= j < |comps| && KeyOf(w, comps[i]) == KeyOf(w, comps[j])
      ensures Alike(w, c, comps[i], comps[j], depth, active)
    {
      SameKeyAlike(w, c, comps[i], comps[j], depth, active);
    }
  }

  ghost predicate Clash(w: World, comps: seq<Component>, i: nat, j: nat) {
    && i < |comps| && j < |comps|
    && KeyOf(w, comps[i]) == KeyOf(w, comps[j])
    && Resolved(w, comps[i]) != "" && Resolved(w, comps[j]) == ""
  }

  lemma ApartOrClash(w: World, comps: seq<Component>)
    ensures ListApart(w, comps) <==> forall i, j :: !Clash(w, comps, i, j)
  {
    hide KeyOf, Resolved;
    if forall i, j :: !Clash(w, comps, i, j) {
      forall i: nat, j: nat | i < |comps| && j < |comps| && KeyOf(w, comps[i]) == KeyOf(w, comps[j])
        ensures Resolved(w, comps[i]) == "" <==> Resolved(w, comps[j]) == ""
      {
        assert !Clash(w, comps, i, j) && !Clash(w, comps, j, i);
      }
    }
  }

  // Unresolved instances with a key.
  function CountOpen(w: World, comps: seq<Component>, key: AggregationKey): nat {
    if comps == [] then 0
    else
      CountOpen(w, comps[..|comps| - 1], key) + (if IsOpen(w, comps[|comps| - 1], key) then 1 else 0)
  }

  predicate IsOpen(w: World, comp: Component, key: AggregationKey) {
    KeyOf(w, comp) == key && Resolved(w, comp) == ""
  }

  lemma {:induction false} OpenAmong(w: World, comps: seq<Component>, key: AggregationKey)
    ensures CountOpen(w, comps, key) <= CountKey(w, comps, key)
    ensures forall i :: 0 <= i < |comps| && IsOpen(w, comps[i], key) ==> CountOpen(w, comps, key) > 0
    ensures forall i :: 0 <= i < |comps| && KeyOf(w, comps[i]) == key && Resolved(w, comps[i]) != "" ==>
      CountOpen(w, comps, key) < CountKey(w, comps, key)
  {
    hide KeyOf, Resolved;
    if comps != [] {
      OpenAmong(w, comps[..|comps| - 1], key);
    }
  }

  lemma ClashCounts(w: World, comps: seq<Component>, i: nat, j: nat)
    requires Clash(w, comps, i, j)
    ensures 0 < CountOpen(w, comps, KeyOf(w, comps[j])) < CountKey(w, comps, KeyOf(w, comps[j]))
  {
    hide KeyOf, Resolved, CountOpen, CountKey;
    OpenAmong(w, comps, KeyOf(w, comps[j]));
    assert IsOpen(w, comps[j], KeyOf(w, comps[j]));
  }

  // ---------------------------------------------------------------- the lost leaf

  // The component contains the leaf of unresolved instances with a key just
  // when it is one.
  ghost predicate OpenOnly(w: World, c: Settings, comp: Component, key: AggregationKey, depth: nat, active: set<string>)
    requires Sensible(w)
  {
    Leaves(w, c, comp, depth, active, true, OpenLabel(key)) == if IsOpen(w, comp, key) then 1 else 0
  }

  lemma FreshOpenOnly(w: World, c: Settings, comps: seq<Component>, depth: nat, active: set<string>, i: nat, j: nat)
    requires Sensible(w) && ListFresh(w, c, comps, depth, active)
    requires i < |comps| && j < |comps| && Resolved(w, comps[j]) == ""
    ensures OpenOnly(w, c, comps[i], KeyOf(w, comps[j]), depth, active)
  {
    hide Leaves, Resolved, KeyOf, LabelOf, Placeholder;
    OpenLeaf(w, c, comps[j], depth, active, true, OpenLabel(KeyOf(w, comps[j])));
    if Resolved(w, comps[i]) == "" {
      OpenLeaf(w, c, comps[i], depth, active, true, OpenLabel(KeyOf(w, comps[j])));
    }
  }

  lemma {:induction false} SinglesOpen(w: World, c: Settings, comps: seq<Component>, key: AggregationKey, depth: nat,
                                       active: set<string>)
    requires Sensible(w)
    requires forall i :: 0 <= i < |comps| ==> OpenOnly(w, c, comps[i], key, depth, active)
    ensures CountGroups(w, c, Singles(w, comps), depth, active, true, OpenLabel(key)) == CountOpen(w, comps, key)
  {
    hide Leaves, KeyOf, Resolved, Weighted, IsOpen, OpenLabel;
    if comps != [] {
      var n := |comps| - 1;
      SinglesOpen(w, c, comps[..n], key, depth, active);
      assert Singles(w, comps)[..n] == Singles(w, comps[..n]);
      WeightedStep(1, Leaves(w, c, comps[n], depth, active, true, OpenLabel(key)));
      assert OpenOnly(w, c, comps[n], key, depth, active);
    }
  }

  // At most the group with the key contains the leaf.
  lemma {:induction false} GroupsOpen(w: World, c: Settings, groups: seq<Group>, key: AggregationKey, depth: nat,
                                      active: set<string>)
    requires Sensible(w) && KeysUnique(groups)
    requires forall k :: 0 <= k < |groups| ==>
      OpenOnly(w, c, groups[k].first, key, depth, active) && groups[k].key == KeyOf(w, groups[k].first)
    ensures var count := CountGroups(w, c, groups, depth, active, true, OpenLabel(key));
      count == 0 || exists k :: 0 <= k < |groups| && groups[k].key == key && groups[k].count == count
    ensures !HasKey(groups, key) ==> CountGroups(w, c, groups, depth, active, true, OpenLabel(key)) == 0
  {
    hide Leaves, KeyOf, Resolved, Weighted, OpenLabel;
    if groups != [] {
      var n := |groups| - 1;
      GroupsOpen(w, c, groups[..n], key, depth, active);
      var g := groups[n];
      assert OpenOnly(w, c, g.first, key, depth, active);
      WeightedUnit(g.count);
      if g.key == key {
        assert !HasKey(groups[..n], key);
      } else {
        assert Leaves(w, c, g.first, depth, active, true, OpenLabel(key)) == 0;
      }
    }
  }

  lemma WeightedUnit(quantity: nat)
    ensures Weighted(quantity, 1) == quantity && Weighted(quantity, 0) == 0
  {
  }

  lemma GroupFirst(w: World, comps: seq<Component>, g: Group) returns (i: nat)
    requires GroupIs(w, comps, g)
    ensures i < |comps| && comps[i] == g.first && g.key == KeyOf(w, g.first)
  {
    hide KeyOf, CountKey;
    var m :| 0 <= m < |comps| && comps[m] == g.first;
    i := m;
  }

  lemma ClashShows(w: World, c: Settings, comps: seq<Component>, depth: nat, active: set<string>, i: nat, j: nat)
    requires Sensible(w) && ListFresh(w, c, comps, depth, active) && Clash(w, comps, i, j)
    ensures var leaf := OpenLabel(KeyOf(w, comps[j]));
      CountGroups(w, c, Groups(w, comps), depth, active, true, leaf) !=
      CountGroups(w, c, Singles(w, comps), depth, active, true, leaf)
  {
    hide KeyOf, Resolved, Groups, Singles, CountOpen, CountKey, CountGroups, OpenOnly, ListFresh, FirstWith, OpenLabel;
    var key, groups := KeyOf(w, comps[j]), Groups(w, comps);
    forall m | 0 <= m < |comps|
      ensures OpenOnly(w, c, comps[m], key, depth, active)
    {
      FreshOpenOnly(w, c, comps, depth, active, m, j);
    }
    SinglesOpen(w, c, comps, key, depth, active);
    GroupsAre(w, comps);
    forall k | 0 <= k < |groups|
      ensures OpenOnly(w, c, groups[k].first, key, depth, active) && groups[k].key == KeyOf(w, groups[k].first)
    {
      var m := GroupFirst(w, comps, groups[k]);
    }
    GroupsOpen(w, c, groups, key, depth, active);
    ClashCounts(w, comps, i, j);
  }

  // While no resolved instance contains the leaf of an unresolved one, grouping
  // conserves the leaves of a list exactly when equal keys are equally resolved.
  lemma FreshExact(w: World, c: Settings, comps: seq<Component>, depth: nat, active: set<string>)
    requires Sensible(w) && ListFresh(w, c, comps, depth, active)
    ensures (forall leaf :: CountGroups(w, c, Groups(w, comps), depth, active, true, leaf) ==
                            CountGroups(w, c, Singles(w, comps), depth, active, true, leaf))
       <==> ListApart(w, comps)
  {
    hide KeyOf, Resolved, Groups, Singles, CountGroups, ListFresh, ListHarmless, Clash, ListApart;
    ApartOrClash(w, comps);
    if ListApart(w, comps) {
      ApartHarmless(w, c, comps, depth, active);
      forall leaf: Label
        ensures CountGroups(w, c, Groups(w, comps), depth, active, true, leaf) ==
                CountGroups(w, c, Singles(w, comps), depth, active, true, leaf)
      {
        GroupedCount(w, c, comps, depth, active, leaf);
      }
    } else {
      var i: nat, j: nat :| Clash(w, comps, i, j);
      ClashShows(w, c, comps, depth, active, i, j);
    }
  }

  // ---------------------------------------------------------------- one group

  ghost predicate SameExpanded(w: World, c: Settings, comps: seq<Component>, depth: nat, active: set<string>)
    requires Sensible(w)
  {
    forall i, leaf :: 0 <= i < |comps| ==>
      Leaves(w, c, comps[i], depth, active, true, leaf) == Leaves(w, c, comps[i], depth, active, false, leaf)
  }

  // Instances with a key that are resolved contain `a` of a leaf, the others `b`.
  ghost predicate TwoKinds(w: World, c: Settings, comps: seq<Component>, key: AggregationKey, depth: nat,
                           active: set<string>, leaf: Label, a: nat, b: nat)
    requires Sensible(w)
  {
    forall i :: 0 <= i < |comps| && KeyOf(w, comps[i]) == key ==>
      Leaves(w, c, comps[i], depth, active, false, leaf) == if Resolved(w, comps[i]) == "" then b else a
  }

  lemma {:induction false} MembersTwo(w: World, c: Settings, comps: seq<Component>, key: AggregationKey, depth: nat,
                                      active: set<string>, leaf: Label, a: nat, b: nat)
    requires Sensible(w) && TwoKinds(w, c, comps, key, depth, active, leaf, a, b)
    ensures CountOpen(w, comps, key) <= CountKey(w, comps, key)
    ensures MembersCount(w, c, comps, key, depth, active, leaf) ==
            Weighted(CountKey(w, comps, key) - CountOpen(w, comps, key), a) + Weighted(CountOpen(w, comps, key), b)
  {
    hide Leaves, KeyOf, Resolved, Weighted;
    WeightedStep(0, a);
    WeightedStep(0, b);
    if comps != [] {
      var n := |comps| - 1;
      MembersTwo(w, c, comps[..n], key, depth, active, leaf, a, b);
      WeightedStep(CountKey(w, comps[..n], key) - CountOpen(w, comps[..n], key), a);
      WeightedStep(CountOpen(w, comps[..n], key), b);
    }
  }

  lemma AlikeKinds(w: World, c: Settings, comps: seq<Component>, depth: nat, active: set<string>, i: nat, j: nat,
                   leaf: Label)
    requires Sensible(w) && SameExpanded(w, c, comps, depth, active) && Clash(w, comps, i, j)
    ensures TwoKinds(w, c, comps, KeyOf(w, comps[j]), depth, active, leaf,
                     Leaves(w, c, comps[i], depth, active, true, leaf),
                     Leaves(w, c, comps[j], depth, active, true, leaf))
  {
    hide Leaves, KeyOf, Resolved;
    forall m | 0 <= m < |comps| && KeyOf(w, comps[m]) == KeyOf(w, comps[j])
      ensures Leaves(w, c, comps[m], depth, active, false, leaf) ==
        if Resolved(w, comps[m]) == "" then Leaves(w, c, comps[j], depth, active, true, leaf)
        else Leaves(w, c, comps[i], depth, active, true, leaf)
    {
      var k := if Resolved(w, comps[m]) == "" then j else i;
      SameKeyAlike(w, c, comps[m], comps[k], depth, active);
      assert Leaves(w, c, comps[m], depth, active, true, leaf) == Leaves(w, c, comps[k], depth, active, true, leaf);
      assert Leaves(w, c, comps[m], depth, active, true, leaf) == Leaves(w, c, comps[m], depth, active, false, leaf);
    }
  }

  lemma Balance(n: nat, k: nat, a: nat, b: nat, first: nat)
    requires 0 < k < n && (first == a || first == b)
    requires Weighted(n, first) == Weighted(n - k, a) + Weighted(k, b)
    ensures a == b
  {
    var d := n - k;
    assert n * first == d * first + k * first;
    if first == a {
      assert k * a == k * b;
      Cancel(k, a, b);
    } else {
      assert d * a == d * b;
      Cancel(d, a, b);
    }
  }

  lemma Cancel(k: nat, a: nat, b: nat)
    requires k > 0 && k * a == k * b
    ensures a == b
  {
    if a < b {
      TimesLess(k, a, b);
    } else if b < a {
      TimesLess(k, b, a);
    }
  }

  lemma TimesLess(k: nat, a: nat, b: nat)
    requires k > 0 && a < b
    ensures k * a < k * b
  {
  }

  lemma ClashAlike(w: World, c: Settings, comps: seq<Component>, depth: nat, active: set<string>, i: nat, j: nat)
    requires Sensible(w) && SameExpanded(w, c, comps, depth, active) && Clash(w, comps, i, j)
    requires ListChildwise(w, c, comps, depth, active)
    ensures Alike(w, c, comps[i], comps[j], depth, active)
  {
    hide Leaves, KeyOf, Resolved, Groups, CountOpen, CountKey, MembersCount, Weighted, SameExpanded, FirstWith;
    var key := KeyOf(w, comps[j]);
    var k := GroupOf(w, comps, j);
    var g := Groups(w, comps)[k];
    GroupsAre(w, comps);
    assert GroupIs(w, comps, g);
    var f := GroupFirst(w, comps, g);
    ClashCounts(w, comps, i, j);
    forall leaf: Label
      ensures Leaves(w, c, comps[i], depth, active, true, leaf) == Leaves(w, c, comps[j], depth, active, true, leaf)
    {
      var a, b := Leaves(w, c, comps[i], depth, active, true, leaf), Leaves(w, c, comps[j], depth, active, true, leaf);
      AlikeKinds(w, c, comps, depth, active, i, j, leaf);
      MembersTwo(w, c, comps, key, depth, active, leaf, a, b);
      assert GroupCounts(w, c, comps, g, depth, active, leaf);
      FirstKind(w, c, comps, depth, active, leaf, f, key, a, b);
      Balance(CountKey(w, comps, key), CountOpen(w, comps, key), a, b,
              Leaves(w, c, g.first, depth, active, true, leaf));
    }
  }

  lemma FirstKind(w: World, c: Settings, comps: seq<Component>, depth: nat, active: set<string>, leaf: Label, f: nat,
                  key: AggregationKey, a: nat, b: nat)
    requires Sensible(w) && SameExpanded(w, c, comps, depth, active) && f < |comps| && KeyOf(w, comps[f]) == key
    requires TwoKinds(w, c, comps, key, depth, active, leaf, a, b)
    ensures Leaves(w, c, comps[f], depth, active, true, leaf) in {a, b}
  {
    hide Leaves, KeyOf, Resolved;
  }

  lemma {:induction false} MembersAlike(w: World, c: Settings, comps: seq<Component>, key: AggregationKey, depth: nat,
                                        active: set<string>, leaf: Label, count: nat)
    requires Sensible(w)
    requires forall i :: 0 <= i < |comps| && KeyOf(w, comps[i]) == key ==>
      Leaves(w, c, comps[i], depth, active, false, leaf) == count
    ensures MembersCount(w, c, comps, key, depth, active, leaf) == Weighted(CountKey(w, comps, key), count)
  {
    hide Leaves, KeyOf, Weighted;
    WeightedStep(0, count);
    if comps != [] {
      var n := |comps| - 1;
      MembersAlike(w, c, comps[..n], key, depth, active, leaf, count);
      WeightedStep(CountKey(w, comps[..n], key), count);
    }
  }

  lemma HarmlessGroup(w: World, c: Settings, comps: seq<Component>, depth: nat, active: set<string>, g: Group,
                      leaf: Label)
    requires Sensible(w) && SameExpanded(w, c, comps, depth, active)
    requires ListHarmless(w, c, comps, depth, active) && g in Groups(w, comps)
    ensures GroupCounts(w, c, comps, g, depth, active, leaf)
  {
    hide Leaves, KeyOf, Resolved, Groups, CountKey, MembersCount, Weighted, FirstWith;
    GroupsAre(w, comps);
    assert GroupIs(w, comps, g);
    var f := GroupFirst(w, comps, g);
    var count := Leaves(w, c, g.first, depth, active, true, leaf);
    forall i | 0 <= i < |comps| && KeyOf(w, comps[i]) == g.key
      ensures Leaves(w, c, comps[i], depth, active, false, leaf) == count
    {
      assert Alike(w, c, comps[i], comps[f], depth, active);
      assert Leaves(w, c, comps[i], depth, active, true, leaf) == Leaves(w, c, comps[i], depth, active, false, leaf);
    }
    MembersAlike(w, c, comps, g.key, depth, active, leaf, count);
  }

  // Every child stands for its instances exactly when instances with one key
  // contain the same leaves.
  lemma HarmlessExact(w: World, c: Settings, comps: seq<Component>, depth: nat, active: set<string>)
    requires Sensible(w) && SameExpanded(w, c, comps, depth, active)
    ensures ListHarmless(w, c, comps, depth, active) <==> ListChildwise(w, c, comps, depth, active)
  {
    hide KeyOf, Resolved, Groups, Alike, GroupCounts, SameExpanded;
    if ListHarmless(w, c, comps, depth, active) {
      forall g, leaf | g in Groups(w, comps)
        ensures GroupCounts(w, c, comps, g, depth, active, leaf)
      {
        HarmlessGroup(w, c, comps, depth, active, g, leaf);
      }
    }
    if ListChildwise(w, c, comps, depth, active) {
      forall i, j | 0 <= i < |comps| && 0 <= j < |comps| && KeyOf(w, comps[i]) == KeyOf(w, comps[j])
        ensures Alike(w, c, comps[i], comps[j], depth, active)
      {
        PairAlike(w, c, comps, depth, active, i, j);
      }
    }
  }

  lemma PairAlike(w: World, c: Settings, comps: seq<Component>, depth: nat, active: set<string>, i: nat, j: nat)
    requires Sensible(w) && SameExpanded(w, c, comps, depth, active) && ListChildwise(w, c, comps, depth, active)
    requires i < |comps| && j < |comps| && KeyOf(w, comps[i]) == KeyOf(w, comps[j])
    ensures Alike(w, c, comps[i], comps[j], depth, active)
  {
    hide KeyOf, Resolved, ListChildwise, SameExpanded, Leaves;
    if Resolved(w, comps[i]) == "" <==> Resolved(w, comps[j]) == "" {
      SameKeyAlike(w, c, comps[i], comps[j], depth, active);
    } else if Resolved(w, comps[j]) == "" {
      ClashAlike(w, c, comps, depth, active, i, j);
    } else {
      ClashAlike(w, c, comps, depth, active, j, i);
    }
  }

  // ---------------------------------------------------------------- everything reached

  lemma {:induction false} ListSameExpanded(w: World, c: Settings, comps: seq<Component>, depth: nat,
                                            active: set<string>)
    requires Sensible(w) && ComponentsHold(Harmless, w, c, comps, depth, active)
    ensures SameExpanded(w, c, comps, depth, active)
  {
    hide Leaves, ComponentHolds, ComponentsHold;
    forall i, leaf | 0 <= i < |comps|
      ensures Leaves(w, c, comps[i], depth, active, true, leaf) == Leaves(w, c, comps[i], depth, active, false, leaf)
    {
      HoldsAt(Harmless, w, c, comps, depth, active, i);
      ComponentConserves(w, c, comps[i], depth, active, leaf);
    }
  }

  // With the same leaves below, an assembly is conserved when its list is.
  lemma LocalConserved(w: World, c: Settings, path: string, doc: Document, wanted: string, depth: nat,
                       active: set<string>)
    requires Sensible(w)
    requires ComponentsHold(Harmless, w, c, Instances(c, doc, wanted, depth), depth + 1, active)
    requires ListFresh(w, c, Instances(c, doc, wanted, depth), depth + 1, active)
    ensures Conserves(w, c, path, doc, wanted, depth, active) <==> ListApart(w, Instances(c, doc, wanted, depth))
  {
    hide BuildAssembly, Instances, ComponentsHold, ListFresh, ListApart, Count, Groups, Singles, CountGroups;
    var comps := Instances(c, doc, wanted, depth);
    if comps == [] {
      AssemblyBare(w, c, path, doc, wanted, depth, active);
      NothingApart(w);
    } else {
      var below := depth + 1;
      FreshExact(w, c, comps, below, active);
      if Conserves(w, c, path, doc, wanted, depth, active) {
        forall leaf: Label
          ensures CountGroups(w, c, Groups(w, comps), below, active, true, leaf) ==
                  CountGroups(w, c, Singles(w, comps), below, active, true, leaf)
        {
          LocalCount(w, c, path, doc, wanted, depth, active, leaf);
        }
      }
      if ListApart(w, comps) {
        forall leaf: Label
          ensures Count(BuildAssembly(w, c, path, doc, wanted, depth, active, true).item, leaf)
               == Count(BuildAssembly(w, c, path, doc, wanted, depth, active, false).item, leaf)
        {
          LocalCount(w, c, path, doc, wanted, depth, active, leaf);
          assert CountGroups(w, c, Groups(w, comps), below, active, true, leaf) ==
                 CountGroups(w, c, Singles(w, comps), below, active, true, leaf);
        }
      }
    }
  }

  lemma LocalCount(w: World, c: Settings, path: string, doc: Document, wanted: string, depth: nat, active: set<string>,
                   leaf: Label)
    requires Sensible(w) && Instances(c, doc, wanted, depth) != []
    requires ComponentsHold(Harmless, w, c, Instances(c, doc, wanted, depth), depth + 1, active)
    ensures var comps := Instances(c, doc, wanted, depth);
      && Count(BuildAssembly(w, c, path, doc, wanted, depth, active, true).item, leaf)
         == CountGroups(w, c, Groups(w, comps), depth + 1, active, true, leaf)
      && Count(BuildAssembly(w, c, path, doc, wanted, depth, active, false).item, leaf)
         == CountGroups(w, c, Singles(w, comps), depth + 1, active, true, leaf)
  {
    hide BuildAssembly, Instances, ComponentsHold, Count, Groups, Singles, CountGroups;
    AssemblyCount(w, c, path, doc, wanted, depth, active, true, leaf);
    AssemblyCount(w, c, path, doc, wanted, depth, active, false, leaf);
    SinglesConserve(w, c, Instances(c, doc, wanted, depth), depth + 1, active, leaf);
  }

  lemma NothingApart(w: World)
    ensures ListApart(w, [])
  {
  }

  lemma {:induction false} AssemblyExact(w: World, c: Settings, path: string, doc: Document, wanted: string,
                                         depth: nat, active: set<string>)
    requires Sensible(w)
    ensures AssemblyHolds(Childwise, w, c, path, doc, wanted, depth, active) <==>
            AssemblyHolds(Harmless, w, c, path, doc, wanted, depth, active)
    ensures AssemblyHolds(Apart, w, c, path, doc, wanted, depth, active) ==>
            AssemblyHolds(Harmless, w, c, path, doc, wanted, depth, active)
    ensures AssemblyHolds(Fresh, w, c, path, doc, wanted, depth, active) ==>
      (AssemblyHolds(Conserved, w, c, path, doc, wanted, depth, active) <==>
       AssemblyHolds(Apart, w, c, path, doc, wanted, depth, active))
    decreases |w.files - active|, 2, 0
  {
    hide Instances, ComponentsHold, ListApart, ListFresh, ListHarmless, ListChildwise, Conserves;
    var comps := Instances(c, doc, wanted, depth);
    ComponentsExact(w, c, comps, depth + 1, active);
    if ListApart(w, comps) {
      ApartHarmless(w, c, comps, depth + 1, active);
    }
    if ComponentsHold(Harmless, w, c, comps, depth + 1, active) {
      ListSameExpanded(w, c, comps, depth + 1, active);
      HarmlessExact(w, c, comps, depth + 1, active);
      if ListFresh(w, c, comps, depth + 1, active) {
        LocalConserved(w, c, path, doc, wanted, depth, active);
      }
    }
  }

  lemma {:induction false} ComponentsExact(w: World, c: Settings, comps: seq<Component>, depth: nat,
                                           active: set<string>)
    requires Sensible(w)
    ensures ComponentsHold(Childwise, w, c, comps, depth, active) <==>
            ComponentsHold(Harmless, w, c, comps, depth, active)
    ensures ComponentsHold(Apart, w, c, comps, depth, active) ==> ComponentsHold(Harmless, w, c, comps, depth, active)
    ensures ComponentsHold(Fresh, w, c, comps, depth, active) ==>
      (ComponentsHold(Conserved, w, c, comps, depth, active) <==> ComponentsHold(Apart, w, c, comps, depth, active))
    decreases |w.files - active|, 1, |comps|
  {
    hide ComponentHolds;
    if comps != [] {
      ComponentsExact(w, c, comps[..|comps| - 1], depth, active);
      ComponentExact(w, c, comps[|comps| - 1], depth, active);
    }
  }

  lemma {:induction false} ComponentExact(w: World, c: Settings, comp: Component, depth: nat, active: set<string>)
    requires Sensible(w)
    ensures ComponentHolds(Childwise, w, c, comp, depth, active) <==>
            ComponentHolds(Harmless, w, c, comp, depth, active)
    ensures ComponentHolds(Apart, w, c, comp, depth, active) ==> ComponentHolds(Harmless, w, c, comp, depth, active)
    ensures ComponentHolds(Fresh, w, c, comp, depth, active) ==>
      (ComponentHolds(Conserved, w, c, comp, depth, active) <==> ComponentHolds(Apart, w, c, comp, depth, active))
    decreases |w.files - active|, 1, 0
  {
    hide PathHolds, Resolved;
    if Resolved(w, comp) != "" {
      PathExact(w, c, Resolved(w, comp), comp.configuration, depth, active);
    }
  }

  lemma {:induction false} PathExact(w: World, c: Settings, resolved: string, wanted: string, depth: nat,
                                     active: set<string>)
    requires Sensible(w)
    ensures PathHolds(Childwise, w, c, resolved, wanted, depth, active) <==>
            PathHolds(Harmless, w, c, resolved, wanted, depth, active)
    ensures PathHolds(Apart, w, c, resolved, wanted, depth, active) ==>
            PathHolds(Harmless, w, c, resolved, wanted, depth, active)
    ensures PathHolds(Fresh, w, c, resolved, wanted, depth, active) ==>
      (PathHolds(Conserved, w, c, resolved, wanted, depth, active) <==>
       PathHolds(Apart, w, c, resolved, wanted, depth, active))
    decreases |w.files - active|, 0, 0
  {
    hide DocumentHolds;
    var path := w.canonical(resolved);
    if path !in active && w.open(path).Some? {
      FewerFiles(w, path, active);
      DocumentExact(w, c, path, w.open(path).value, wanted, depth, active + {path});
    }
  }

  // In every assembly reached, grouping replaces instances by a child that
  // contains the same leaves exactly when instances with one key contain the
  // same leaves; equal keys being equally resolved is enough for it, and
  // necessary where no file contains the leaf of an unresolved instance.
  lemma {:induction false} DocumentExact(w: World, c: Settings, path: string, doc: Document, wanted: string,
                                         depth: nat, active: set<string>)
    requires Sensible(w)
    ensures DocumentHolds(Childwise, w, c, path, doc, wanted, depth, active) <==>
            DocumentHolds(Harmless, w, c, path, doc, wanted, depth, active)
    ensures DocumentHolds(Apart, w, c, path, doc, wanted, depth, active) ==>
            DocumentHolds(Harmless, w, c, path, doc, wanted, depth, active)
    ensures DocumentHolds(Fresh, w, c, path, doc, wanted, depth, active) ==>
      (DocumentHolds(Conserved, w, c, path, doc, wanted, depth, active) <==>
       DocumentHolds(Apart, w, c, path, doc, wanted, depth, active))
    decreases |w.files - active|, 3, 0
  {
    hide AssemblyHolds, ViewsHold, References;
    match doc.kind
    case AssemblyDocument => AssemblyExact(w, c, path, doc, wanted, depth, active);
    case PartDocument =>
    case DrawingDocument => ViewsExact(w, c, References(doc.sheets, []), active);
  }

  lemma {:induction false} ViewsExact(w: World, c: Settings, views: seq<View>, active: set<string>)
    requires Sensible(w)
    ensures ViewsHold(Childwise, w, c, views, active) <==> ViewsHold(Harmless, w, c, views, active)
    ensures ViewsHold(Apart, w, c, views, active) ==> ViewsHold(Harmless, w, c, views, active)
    ensures ViewsHold(Fresh, w, c, views, active) ==>
      (ViewsHold(Conserved, w, c, views, active) <==> ViewsHold(Apart, w, c, views, active))
    decreases |w.files - active|, 1, |views|
  {
    hide ViewHolds;
    if views != [] {
      ViewsExact(w, c, views[..|views| - 1], active);
      ViewExact(w, c, views[|views| - 1], active);
    }
  }

  lemma {:induction false} ViewExact(w: World, c: Settings, v: View, active: set<string>)
    requires Sensible(w)
    ensures ViewHolds(Childwise, w, c, v, active) <==> ViewHolds(Harmless, w, c, v, active)
    ensures ViewHolds(Apart, w, c, v, active) ==> ViewHolds(Harmless, w, c, v, active)
    ensures ViewHolds(Fresh, w, c, v, active) ==>
      (ViewHolds(Conserved, w, c, v, active) <==> ViewHolds(Apart, w, c, v, active))
    decreases |w.files - active|, 1, 0
  {
    hide PathHolds;
    if w.resolve(v.document).Some? {
      PathExact(w, c, w.resolve(v.document).value, v.configuration, 1, active);
    }
  }
}
