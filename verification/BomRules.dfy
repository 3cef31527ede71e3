// Profile rules rewrite a bill of materials bottom-up: excluded items vanish,
// phantom items give way to their children, purchased groups lose theirs.
module BomRules {
  import opened Results

  datatype Value = Text(text: string) | Other(id: int)

  // The "children" member: an array of items, or whatever else is there.
  datatype Children = NoArray(member: Option<Value>) | Items(items: seq<Item>)

  // `properties` is present when the member is an object; `data` stands for all
  // other members, or for the whole value when it is no object.
  datatype Item = Item(data: int, properties: Option<map<string, Value>>, children: Children)

  datatype Rule = NotAnObject | Rule(kind: string, property: string, value: string)

  const NON_BOM := "non_bom"
  const PHANTOM := "phantom"
  const KAUFGRUPPE := "kaufgruppe"

  // ---------------------------------------------------------------- matching

  predicate Matches(rule: Rule, item: Item) {
    && rule.Rule?
    && rule.property != ""
    && item.properties.Some?
    && rule.property in item.properties.value
    && item.properties.value[rule.property] == Text(rule.value)
  }

  predicate Marked(rules: seq<Rule>, kind: string, item: Item) {
    exists i :: 0 <= i < |rules| && Matches(rules[i], item) && rules[i].kind == kind
  }

  function Below(item: Item): seq<Item> {
    if item.children.Items? then item.children.items else []
  }

  // ---------------------------------------------------------------- the rewriting

  // What a rewritten child contributes to its parent.
  function Place(item: Item, rules: seq<Rule>): seq<Item> {
    if Marked(rules, NON_BOM, item) then []
    else if Marked(rules, PHANTOM, item) then Below(item)
    else if Marked(rules, KAUFGRUPPE, item) then [item.(children := Items([]))]
    else [item]
  }

  function Apply(item: Item, rules: seq<Rule>): (r: Item)
    ensures r.data == item.data && r.properties == item.properties
    decreases item, 0
  {
    if item.children.NoArray? then item
    else item.(children := Items(ApplyAll(item.children.items, rules)))
  }

  function ApplyAll(items: seq<Item>, rules: seq<Rule>): seq<Item>
    decreases items, 1
  {
    if items == [] then []
    else ApplyAll(items[..|items| - 1], rules) + Place(Apply(items[|items| - 1], rules), rules)
  }

  method ApplyBomRules(item: Item, rules: seq<Rule>) returns (result: Item)
    ensures result == Apply(item, rules)
    decreases item
  {
    hide Matches, Marked;
    result := item;
    if item.children.NoArray? {
      return;
    }
    var children := item.children.items;
    var rewritten: seq<Item> := [];
    var i := 0;
    while i < |children|
      invariant 0 <= i <= |children|
      invariant rewritten == ApplyAll(children[..i], rules)
    {
      var child := ApplyBomRules(children[i], rules);
      assert children[..i + 1][..i] == children[..i];
      var nonBom, phantom, kaufgruppe := Flags(child, rules);
      if nonBom {
        // dropped with everything below it
      } else if phantom {
        var promoted := if child.children.Items? then child.children.items else [];
        rewritten := rewritten + promoted;
      } else if kaufgruppe {
        rewritten := rewritten + [child.(children := Items([]))];
      } else {
        rewritten := rewritten + [child];
      }
      i := i + 1;
    }
    assert children[..|children|] == children;
    result := result.(children := Items(rewritten));
  }

  method Flags(item: Item, rules: seq<Rule>) returns (nonBom: bool, phantom: bool, kaufgruppe: bool)
    ensures nonBom == Marked(rules, NON_BOM, item)
    ensures phantom == Marked(rules, PHANTOM, item)
    ensures kaufgruppe == Marked(rules, KAUFGRUPPE, item)
  {
    nonBom, phantom, kaufgruppe := false, false, false;
    var i := 0;
    while i < |rules|
      invariant 0 <= i <= |rules|
      invariant nonBom == Marked(rules[..i], NON_BOM, item)
      invariant phantom == Marked(rules[..i], PHANTOM, item)
      invariant kaufgruppe == Marked(rules[..i], KAUFGRUPPE, item)
    {
      var rule := rules[i];
      MarkedStep(rules, i, NON_BOM, item);
      MarkedStep(rules, i, PHANTOM, item);
      MarkedStep(rules, i, KAUFGRUPPE, item);
      i := i + 1;
      if rule.NotAnObject? || rule.property == "" {
        continue;
      }
      if Matches(rule, item) {
        if rule.kind == NON_BOM { nonBom := true; }
        if rule.kind == PHANTOM { phantom := true; }
        if rule.kind == KAUFGRUPPE { kaufgruppe := true; }
      }
    }
    assert rules[..|rules|] == rules;
  }

  lemma MarkedStep(rules: seq<Rule>, i: nat, kind: string, item: Item)
    requires i < |rules|
    ensures Marked(rules[..i + 1], kind, item) <==>
      Marked(rules[..i], kind, item) || (Matches(rules[i], item) && rules[i].kind == kind)
  {
    forall j | 0 <= j < i && Matches(rules[j], item) && rules[j].kind == kind
      ensures Marked(rules[..i], kind, item) && Marked(rules[..i + 1], kind, item)
    {
      assert rules[..i][j] == rules[..i + 1][j] == rules[j];
    }
    assert rules[..i + 1][i] == rules[i];
  }

  // ---------------------------------------------------------------- normal form

  // Below the root nothing is excluded or phantom, and purchased groups are bare.
  ghost predicate Normal(item: Item, rules: seq<Rule>)
    decreases item, 0
  {
    item.children.Items? ==> AllNormal(item.children.items, rules)
  }

  ghost predicate AllNormal(items: seq<Item>, rules: seq<Rule>)
    decreases items, 1
  {
    forall i :: 0 <= i < |items| ==>
      && !Marked(rules, NON_BOM, items[i])
      && !Marked(rules, PHANTOM, items[i])
      && (Marked(rules, KAUFGRUPPE, items[i]) ==> items[i].children == Items([]))
      && Normal(items[i], rules)
  }

  lemma {:induction false} ApplyIsNormal(item: Item, rules: seq<Rule>)
    ensures Normal(Apply(item, rules), rules)
    decreases item, 0
  {
    hide Marked;
    if item.children.Items? {
      ApplyAllNormal(item.children.items, rules);
    }
  }

  lemma {:induction false} ApplyAllNormal(items: seq<Item>, rules: seq<Rule>)
    ensures AllNormal(ApplyAll(items, rules), rules)
    decreases items, 1
  {
    hide Marked, Apply;
    if items != [] {
      var n := |items| - 1;
      ApplyAllNormal(items[..n], rules);
      ApplyIsNormal(items[n], rules);
      PlaceNormal(Apply(items[n], rules), rules);
    }
  }

  lemma PlaceNormal(item: Item, rules: seq<Rule>)
    requires Normal(item, rules)
    ensures AllNormal(Place(item, rules), rules)
  {
    hide Matches;
    var bare := item.(children := Items([]));
    SameMarks(item, bare, rules);
    assert Below(bare) == [];
    assert Normal(bare, rules);
  }

  lemma SameMarks(a: Item, b: Item, rules: seq<Rule>)
    requires a.properties == b.properties
    ensures forall kind :: Marked(rules, kind, a) == Marked(rules, kind, b)
  {
    forall rule ensures Matches(rule, a) == Matches(rule, b) {
    }
  }

  // A normal item is left as it is: with ApplyIsNormal, the normal items are
  // exactly the fixed points.
  lemma {:induction false} NormalIsFixed(item: Item, rules: seq<Rule>)
    requires Normal(item, rules)
    ensures Apply(item, rules) == item
    decreases item, 0
  {
    hide Marked;
    if item.children.Items? {
      AllNormalFixed(item.children.items, rules);
    }
  }

  lemma {:induction false} AllNormalFixed(items: seq<Item>, rules: seq<Rule>)
    requires AllNormal(items, rules)
    ensures ApplyAll(items, rules) == items
    decreases items, 1
  {
    hide Marked, Apply;
    if items != [] {
      var n := |items| - 1;
      AllNormalFixed(items[..n], rules);
      NormalIsFixed(items[n], rules);
      assert Place(items[n], rules) == [items[n]];
    }
  }

  lemma FixedIffNormal(item: Item, rules: seq<Rule>)
    ensures Apply(item, rules) == item <==> Normal(item, rules)
    ensures Apply(Apply(item, rules), rules) == Apply(item, rules)
  {
    ApplyIsNormal(item, rules);
    NormalIsFixed(Apply(item, rules), rules);
    if Normal(item, rules) {
      NormalIsFixed(item, rules);
    }
  }

  // ---------------------------------------------------------------- the outline

  // One line of an indented list: the depth and what the item itself says.
  datatype Row = Row(depth: nat, data: int, properties: Option<map<string, Value>>)

  function Outline(item: Item, depth: nat): seq<Row>
    decreases item, 0
  {
    [Row(depth, item.data, item.properties)] +
    (if item.children.Items? then OutlineAll(item.children.items, depth + 1) else [])
  }

  function OutlineAll(items: seq<Item>, depth: nat): seq<Row>
    decreases items, 1
  {
    if items == [] then []
    else OutlineAll(items[..|items| - 1], depth) + Outline(items[|items| - 1], depth)
  }

  // Reading the original tree top-down: an excluded item hides everything below
  // it, a phantom one lifts what is below it by one level, a purchased group
  // ends its branch.
  function Reading(item: Item, rules: seq<Rule>, depth: nat): seq<Row>
    decreases item, 1
  {
    if Marked(rules, NON_BOM, item) then []
    else if Marked(rules, PHANTOM, item) then ReadingBelow(item, rules, depth)
    else
      [Row(depth, item.data, item.properties)] +
      (if Marked(rules, KAUFGRUPPE, item) then [] else ReadingBelow(item, rules, depth + 1))
  }

  function ReadingBelow(item: Item, rules: seq<Rule>, depth: nat): seq<Row>
    decreases item, 0
  {
    if item.children.Items? then ReadingAll(item.children.items, rules, depth) else []
  }

  function ReadingAll(items: seq<Item>, rules: seq<Rule>, depth: nat): seq<Row>
    decreases items, 1
  {
    if items == [] then []
    else ReadingAll(items[..|items| - 1], rules, depth) + Reading(items[|items| - 1], rules, depth)
  }

  lemma {:induction false} OutlineConcat(a: seq<Item>, b: seq<Item>, depth: nat)
    ensures OutlineAll(a + b, depth) == OutlineAll(a, depth) + OutlineAll(b, depth)
  {
    hide Outline;
    if b == [] {
      assert a + b == a;
    } else {
      var n := |b| - 1;
      OutlineConcat(a, b[..n], depth);
      assert (a + b)[..|a| + n] == a + b[..n];
    }
  }

  // The outline of the rewritten tree is the top-down reading of the original.
  lemma {:induction false} OutlineOfApply(item: Item, rules: seq<Rule>, depth: nat)
    ensures Outline(Apply(item, rules), depth) ==
      [Row(depth, item.data, item.properties)] + ReadingBelow(item, rules, depth + 1)
    decreases item, 0
  {
    hide Marked;
    if item.children.Items? {
      OutlineOfApplyAll(item.children.items, rules, depth + 1);
    }
  }

  lemma {:induction false} OutlineOfApplyAll(items: seq<Item>, rules: seq<Rule>, depth: nat)
    ensures OutlineAll(ApplyAll(items, rules), depth) == ReadingAll(items, rules, depth)
    decreases items, 1
  {
    hide Marked, Apply, Outline, Reading, Place;
    if items != [] {
      var n := |items| - 1;
      OutlineOfApplyAll(items[..n], rules, depth);
      OutlineOfPlace(items[n], rules, depth);
      OutlineConcat(ApplyAll(items[..n], rules), Place(Apply(items[n], rules), rules), depth);
    }
  }

  lemma {:induction false} OutlineOfPlace(item: Item, rules: seq<Rule>, depth: nat)
    ensures OutlineAll(Place(Apply(item, rules), rules), depth) == Reading(item, rules, depth)
    decreases item, 1
  {
    hide Marked;
    var rewritten := Apply(item, rules);
    SameMarks(item, rewritten, rules);
    OutlineOfApply(item, rules, depth);
    if Marked(rules, NON_BOM, item) {
    } else if Marked(rules, PHANTOM, item) {
      if item.children.Items? {
        OutlineOfApplyAll(item.children.items, rules, depth);
      }
    } else if Marked(rules, KAUFGRUPPE, item) {
      OutlineOne(rewritten.(children := Items([])), depth);
    } else {
      OutlineOne(rewritten, depth);
    }
  }

  lemma OutlineOne(item: Item, depth: nat)
    ensures OutlineAll([item], depth) == Outline(item, depth)
  {
    assert [item][..0] == [];
    assert OutlineAll([], depth) == [];
  }

  // ---------------------------------------------------------------- order

  // What an item says of itself.
  datatype Face = Face(data: int, properties: Option<map<string, Value>>)

  function Preorder(item: Item): seq<Face>
    decreases item, 0
  {
    [Face(item.data, item.properties)] +
    (if item.children.Items? then PreorderAll(item.children.items) else [])
  }

  function PreorderAll(items: seq<Item>): seq<Face>
    decreases items, 1
  {
    if items == [] then [] else PreorderAll(items[..|items| - 1]) + Preorder(items[|items| - 1])
  }

  ghost predicate Subsequence<T(!new)>(a: seq<T>, b: seq<T>) {
    if a == [] then true
    else if b == [] then false
    else
      || (a[|a| - 1] == b[|b| - 1] && Subsequence(a[..|a| - 1], b[..|b| - 1]))
      || Subsequence(a, b[..|b| - 1])
  }

  lemma {:induction false} SubsequenceConcat<T(!new)>(a: seq<T>, b: seq<T>, c: seq<T>, d: seq<T>)
    requires Subsequence(a, b) && Subsequence(c, d)
    ensures Subsequence(a + c, b + d)
    decreases |d|
  {
    if d == [] {
      assert a + c == a && b + d == b;
    } else {
      var n := |d| - 1;
      assert (b + d)[..|b| + n] == b + d[..n];
      assert (b + d)[|b| + n] == d[n];
      if Subsequence(c, d[..n]) {
        SubsequenceConcat(a, b, c, d[..n]);
      } else {
        SubsequenceConcat(a, b, c[..|c| - 1], d[..n]);
        assert (a + c)[..|a| + |c| - 1] == a + c[..|c| - 1];
      }
    }
  }

  lemma NothingInNothing()
    ensures Subsequence<Face>([], [])
  {
  }

  lemma OneInOne(one: seq<Face>)
    requires |one| == 1
    ensures Subsequence([], one) && Subsequence(one, one)
  {
    assert one[..0] == [];
  }

  function Faces(rows: seq<Row>): seq<Face> {
    seq(|rows|, i requires 0 <= i < |rows| => Face(rows[i].data, rows[i].properties))
  }

  lemma {:induction false} FacesOfOutline(item: Item, depth: nat)
    ensures Faces(Outline(item, depth)) == Preorder(item)
    decreases item, 0
  {
    if item.children.Items? {
      FacesOfOutlineAll(item.children.items, depth + 1);
    }
  }

  lemma {:induction false} FacesOfOutlineAll(items: seq<Item>, depth: nat)
    ensures Faces(OutlineAll(items, depth)) == PreorderAll(items)
    decreases items, 1
  {
    hide Outline, Preorder;
    if items != [] {
      FacesOfOutlineAll(items[..|items| - 1], depth);
      FacesOfOutline(items[|items| - 1], depth);
    }
  }

  lemma {:induction false} ReadingIsSubsequence(item: Item, rules: seq<Rule>, depth: nat)
    ensures Subsequence(Faces(Reading(item, rules, depth)), Preorder(item))
    decreases item, 1
  {
    hide Marked;
    var face := [Face(item.data, item.properties)];
    ReadingBelowIsSubsequence(item, rules, depth);
    ReadingBelowIsSubsequence(item, rules, depth + 1);
    OneInOne(face);
    var below := if item.children.Items? then PreorderAll(item.children.items) else [];
    assert Preorder(item) == face + below;
    if Marked(rules, NON_BOM, item) {
      assert Faces([]) == [];
    } else if Marked(rules, PHANTOM, item) {
      SubsequenceConcat([], face, Faces(ReadingBelow(item, rules, depth)), below);
      assert [] + Faces(ReadingBelow(item, rules, depth)) == Faces(ReadingBelow(item, rules, depth));
    } else {
      var rest := if Marked(rules, KAUFGRUPPE, item) then [] else ReadingBelow(item, rules, depth + 1);
      assert Faces(Reading(item, rules, depth)) == face + Faces(rest);
      assert Subsequence(Faces(rest), below) by { assert Faces([]) == []; }
      SubsequenceConcat(face, face, Faces(rest), below);
    }
  }

  lemma {:induction false} ReadingBelowIsSubsequence(item: Item, rules: seq<Rule>, depth: nat)
    ensures Subsequence(Faces(ReadingBelow(item, rules, depth)),
                        if item.children.Items? then PreorderAll(item.children.items) else [])
    decreases item, 0
  {
    if item.children.Items? {
      ReadingAllIsSubsequence(item.children.items, rules, depth);
    }
  }

  lemma {:induction false} ReadingAllIsSubsequence(items: seq<Item>, rules: seq<Rule>, depth: nat)
    ensures Subsequence(Faces(ReadingAll(items, rules, depth)), PreorderAll(items))
    decreases items, 1
  {
    hide Reading, Preorder, Subsequence;
    if items == [] {
      NothingInNothing();
      assert Faces(ReadingAll(items, rules, depth)) == [];
    } else {
      var n := |items| - 1;
      ReadingAllIsSubsequence(items[..n], rules, depth);
      ReadingIsSubsequence(items[n], rules, depth);
      SubsequenceConcat(Faces(ReadingAll(items[..n], rules, depth)), PreorderAll(items[..n]),
                        Faces(Reading(items[n], rules, depth)), Preorder(items[n]));
      assert Faces(ReadingAll(items, rules, depth)) ==
        Faces(ReadingAll(items[..n], rules, depth)) + Faces(Reading(items[n], rules, depth));
    }
  }

  // The rewritten tree keeps the order of what it keeps.
  lemma ApplyKeepsOrder(item: Item, rules: seq<Rule>)
    ensures Subsequence(Preorder(Apply(item, rules)), Preorder(item))
  {
    hide Apply, Reading, ReadingBelow, Subsequence, PreorderAll;
    OutlineOfApply(item, rules, 0);
    FacesOfOutline(Apply(item, rules), 0);
    ReadingBelowIsSubsequence(item, rules, 1);
    var face := [Face(item.data, item.properties)];
    OneInOne(face);
    var rest := ReadingBelow(item, rules, 1);
    assert Faces([Row(0, item.data, item.properties)] + rest) == face + Faces(rest);
    SubsequenceConcat(face, face, Faces(rest), if item.children.Items? then PreorderAll(item.children.items) else []);
  }

  // ---------------------------------------------------------------- what a single child turns into

  // The property is there, and is this text.
  predicate Says(item: Item, property: string, text: string) {
    item.properties.Some? && property in item.properties.value && item.properties.value[property] == Text(text)
  }

  // Some rule of the kind names a property and the text the item has there.
  ghost predicate NamedBy(rules: seq<Rule>, kind: string, item: Item) {
    exists i, property, text :: 0 <= i < |rules| && rules[i] == Rule(kind, property, text) && property != ""
      && Says(item, property, text)
  }

  lemma NamedIsMarked(rules: seq<Rule>, kind: string, item: Item)
    ensures NamedBy(rules, kind, item) <==> Marked(rules, kind, item)
  {
    if NamedBy(rules, kind, item) {
      var i, property, text :| 0 <= i < |rules| && rules[i] == Rule(kind, property, text) && property != ""
        && Says(item, property, text);
      assert Matches(rules[i], item) && rules[i].kind == kind;
    }
    if Marked(rules, kind, item) {
      var i :| 0 <= i < |rules| && Matches(rules[i], item) && rules[i].kind == kind;
      assert rules[i] == Rule(kind, rules[i].property, rules[i].value)
        && Says(item, rules[i].property, rules[i].value);
    }
  }

  // No rule names any property of the item with the text it has: the property
  // is absent, no text, or another text.
  predicate Unnamed(rules: seq<Rule>, item: Item) {
    forall i :: 0 <= i < |rules| && rules[i].Rule? && rules[i].property != "" ==>
      !Says(item, rules[i].property, rules[i].value)
  }

  lemma {:induction false} ApplyAllConcat(a: seq<Item>, b: seq<Item>, rules: seq<Rule>)
    ensures ApplyAll(a + b, rules) == ApplyAll(a, rules) + ApplyAll(b, rules)
  {
    hide Apply, Place;
    if b == [] {
      assert a + b == a;
    } else {
      var n := |b| - 1;
      assert (a + b)[..|a| + n] == a + b[..n];
      ApplyAllConcat(a, b[..n], rules);
    }
  }

  lemma ApplyAround(a: seq<Item>, x: Item, b: seq<Item>, rules: seq<Rule>)
    ensures ApplyAll(a + [x] + b, rules) == ApplyAll(a, rules) + Place(Apply(x, rules), rules) + ApplyAll(b, rules)
  {
    hide Apply, Place;
    ApplyAllConcat(a + [x], b, rules);
    ApplyAllConcat(a, [x], rules);
    assert [x][..0] == [] && ApplyAll([], rules) == [];
  }

  // Every child of a list: dropped, replaced by its children, stripped of them
  // or kept, in this order of precedence, as the rules name it.
  lemma ChildRewritten(item: Item, a: seq<Item>, x: Item, b: seq<Item>, rules: seq<Rule>)
    requires item.children == Items(a + [x] + b)
    ensures var r := Apply(item, rules);
      var others := item.(children := Items(a + b));
      && (NamedBy(rules, "non_bom", x) ==> r == Apply(others, rules))
      && (!NamedBy(rules, "non_bom", x) && NamedBy(rules, "phantom", x) ==>
            r == Apply(item.(children := Items(a + Below(x) + b)), rules))
      && (!NamedBy(rules, "non_bom", x) && !NamedBy(rules, "phantom", x) && NamedBy(rules, "kaufgruppe", x) ==>
            r.children == Items(ApplyAll(a, rules) + [x.(children := Items([]))] + ApplyAll(b, rules)))
      && (Unnamed(rules, x) ==> r.children == Items(ApplyAll(a, rules) + [Apply(x, rules)] + ApplyAll(b, rules)))
  {
    hide Matches, Marked, NamedBy;
    ApplyAround(a, x, b, rules);
    ApplyAllConcat(a, b, rules);
    ApplyAllConcat(a + Below(x), b, rules);
    ApplyAllConcat(a, Below(x), rules);
    SameMarks(Apply(x, rules), x, rules);
    NamedIsMarked(rules, "non_bom", x);
    NamedIsMarked(rules, "phantom", x);
    NamedIsMarked(rules, "kaufgruppe", x);
    if Unnamed(rules, x) {
      UnnamedAnyKind(rules, "non_bom", x);
      UnnamedAnyKind(rules, "phantom", x);
      UnnamedAnyKind(rules, "kaufgruppe", x);
    }
    assert ApplyAll(a, rules) + [] == ApplyAll(a, rules);
  }

  lemma UnnamedAnyKind(rules: seq<Rule>, kind: string, item: Item)
    requires Unnamed(rules, item)
    ensures !NamedBy(rules, kind, item)
  {
  }

  // An item no rule names stays in the outline, in the order of the list and
  // with its own subtree rewritten.
  lemma UnnamedStays(item: Item, a: seq<Item>, x: Item, b: seq<Item>, rules: seq<Rule>, depth: nat)
    requires item.children == Items(a + [x] + b) && Unnamed(rules, x)
    ensures Outline(Apply(item, rules), depth)
         == [Row(depth, item.data, item.properties)] + OutlineAll(ApplyAll(a, rules), depth + 1)
            + Outline(Apply(x, rules), depth + 1) + OutlineAll(ApplyAll(b, rules), depth + 1)
  {
    hide Unnamed, ApplyAll, NamedBy;
    ChildRewritten(item, a, x, b, rules);
    var front, back := ApplyAll(a, rules), ApplyAll(b, rules);
    OutlineConcat(front + [Apply(x, rules)], back, depth + 1);
    OutlineConcat(front, [Apply(x, rules)], depth + 1);
    OutlineOne(Apply(x, rules), depth + 1);
  }
}
