/** The value that a field map in memory stands for: the tree that is read when its pointers
    are followed. What the operations do to the memory, read so, is what they do to values. */
module Readings {
  import opened Decimal
  import opened Forests
  import opened Sequences
  import opened Ownership
  import opened Lifetimes
  import opened Shapes
  import opened GroupLists
  import Fields
  import F = FieldMaps
  import MessageOrder

  const NOTHING := F.Tree(MessageOrder.Normal, [], [])

  function TreeOf(s: Shape): F.Tree {
    if s.Node?
    then F.Tree(s.order, s.fields, Collected(seq(|s.branches|, i requires 0 <= i < |s.branches| =>
                                                   Labelled(s.branches[i].tag, TreeOf(s.branches[i].shape)))))
    else NOTHING
  }

  /** The tree at x: nothing below x is deeper than the number of what is below it. */
  ghost function TreeAt(w: World, x: Addr): F.Tree {
    TreeOf(ShapeTo(w.objects, x, |Under(w.forest, x)| + 1))
  }

  ghost function Labels(w: World, gs: seq<Held>): (ls: seq<Labelled>)
    ensures |ls| == |gs| && forall i :: 0 <= i < |gs| ==> ls[i] == Labelled(gs[i].tag, TreeAt(w, gs[i].at))
  {
    seq(|gs|, i requires 0 <= i < |gs| => Labelled(gs[i].tag, TreeAt(w, gs[i].at)))
  }

  lemma Child(w: World, x: Addr, i: nat)
    requires Shaped(w) && x in w.objects && i < |w.objects[x].groups|
    ensures w.objects[x].groups[i].at in w.objects
    ensures |Under(w.forest, w.objects[x].groups[i].at)| < |Under(w.forest, x)|
  {
    var c := w.objects[x].groups[i].at;
    assert HeldBy(w.objects[x].groups, w.forest.parent, x);
    assert IsHeld(w.objects, w.forest.parent, c) && IsChild(w.forest, c);
    UnderChild(w.forest, c, x);
  }

  ghost predicate DeepAlike(objects: map<Addr, Object>, x: Addr, n: nat, m: nat) {
    ShapeTo(objects, x, n) == ShapeTo(objects, x, m)
  }

  /** The groups of a field map have a lower rank than it has. */
  ghost predicate Ranked(objects: map<Addr, Object>, rank: map<Addr, nat>) {
    objects.Keys == rank.Keys && forall x, i :: x in objects && 0 <= i < |objects[x].groups| ==>
      objects[x].groups[i].at in rank && rank[objects[x].groups[i].at] < rank[x]
  }

  ghost function Ranks(w: World): map<Addr, nat> {
    map x | x in w.objects :: |Under(w.forest, x)|
  }

  lemma RanksFall(w: World)
    requires Shaped(w)
    ensures Ranked(w.objects, Ranks(w))
  {
    forall x, i | x in w.objects && 0 <= i < |w.objects[x].groups|
      ensures w.objects[x].groups[i].at in w.objects
      ensures |Under(w.forest, w.objects[x].groups[i].at)| < |Under(w.forest, x)|
    {
      Child(w, x, i);
    }
  }

  /** From some depth on, no cut is left. */
  lemma {:induction false} DeepEnough(objects: map<Addr, Object>, rank: map<Addr, nat>, x: Addr, n: nat, m: nat)
    requires Ranked(objects, rank) && x in objects && n > rank[x] && m > rank[x]
    ensures DeepAlike(objects, x, n, m)
    decreases n
  {
    forall i | 0 <= i < |objects[x].groups|
      ensures DeepAlike(objects, objects[x].groups[i].at, n - 1, m - 1)
    {
      DeepEnough(objects, rank, objects[x].groups[i].at, n - 1, m - 1);
    }
    SameTwice(objects, x, n, m);
  }

  lemma SameTwice(objects: map<Addr, Object>, x: Addr, n: nat, m: nat)
    requires x in objects && n > 0 && m > 0
    requires forall i :: 0 <= i < |objects[x].groups| ==> DeepAlike(objects, objects[x].groups[i].at, n - 1, m - 1)
    ensures DeepAlike(objects, x, n, m)
  {
    var a, b := ShapeTo(objects, x, n).branches, ShapeTo(objects, x, m).branches;
    forall i | 0 <= i < |a|
      ensures a[i] == b[i]
    {
      assert DeepAlike(objects, objects[x].groups[i].at, n - 1, m - 1);
    }
    assert a == b;
  }

  lemma TreeAtDepth(w: World, x: Addr, n: nat)
    requires Shaped(w) && x in w.objects && n > |Under(w.forest, x)|
    ensures TreeAt(w, x) == TreeOf(ShapeTo(w.objects, x, n))
  {
    RanksFall(w);
    DeepEnough(w.objects, Ranks(w), x, |Under(w.forest, x)| + 1, n);
    assert DeepAlike(w.objects, x, |Under(w.forest, x)| + 1, n);
  }

  /** What holds the same reads the same. */
  lemma SameTree(w: World, x: Addr, r: World, y: Addr)
    requires Shaped(w) && Shaped(r) && x in w.objects && y in r.objects && SameShape(w.objects, x, r.objects, y)
    ensures TreeAt(w, x) == TreeAt(r, y)
  {
    var n := |Under(w.forest, x)| + |Under(r.forest, y)| + 1;
    TreeAtDepth(w, x, n);
    TreeAtDepth(r, y, n);
    assert ShapeTo(w.objects, x, n) == ShapeTo(r.objects, y, n);
  }

  /** The tree at x is made of x itself and of the trees at its groups. */
  lemma TreeUnfold(w: World, x: Addr)
    requires Shaped(w) && x in w.objects
    ensures var o := w.objects[x]; TreeAt(w, x) == F.Tree(o.order, o.fields, Collected(Labels(w, o.groups)))
  {
    var gs, n := w.objects[x].groups, |Under(w.forest, x)|;
    forall i | 0 <= i < |gs|
      ensures TreeOf(ShapeTo(w.objects, gs[i].at, n)) == TreeAt(w, gs[i].at)
    {
      Child(w, x, i);
      TreeAtDepth(w, gs[i].at, n);
    }
    NodeIs(w.objects, x, n, Labels(w, gs));
  }

  lemma NodeIs(objects: map<Addr, Object>, x: Addr, n: nat, ls: seq<Labelled>)
    requires x in objects && |ls| == |objects[x].groups|
    requires forall i :: 0 <= i < |ls| ==>
      ls[i] == Labelled(objects[x].groups[i].tag, TreeOf(ShapeTo(objects, objects[x].groups[i].at, n)))
    ensures TreeOf(ShapeTo(objects, x, n + 1)) == F.Tree(objects[x].order, objects[x].fields, Collected(ls))
  {
    var s := ShapeTo(objects, x, n + 1);
    assert seq(|s.branches|, i requires 0 <= i < |s.branches| =>
      Labelled(s.branches[i].tag, TreeOf(s.branches[i].shape))) == ls;
  }

  ghost function PartsAt(w: World, x: Addr): F.Parts {
    F.Parts(TreeAt(w, x).fields, TreeAt(w, x).groups)
  }

  // ----- trees that stay

  lemma GroupsStay(w: World, r: World, x: Addr, y: Addr)
    requires Inv(w) && Inv(r) && x in r.objects && OnlyAt(w, r, x) && y in Besides(r, x)
    ensures y in w.objects && TreeAt(r, y) == TreeAt(w, y)
  {
    ShapeBesides(r, w.objects, x, y);
    SameTree(r, y, w, y);
  }

  lemma OthersStayAt(w: World, r: World, x: Addr, y: Addr)
    requires Inv(w) && Inv(r) && x in w.objects && Same(w, r, {x}) && y in Besides(w, x)
    ensures y in r.objects && TreeAt(r, y) == TreeAt(w, y)
  {
    ShapeBesides(w, r.objects, x, y);
    SameTree(w, y, r, y);
  }

  /** Labels of groups that stay. */
  lemma LabelsStay(w: World, r: World, x: Addr)
    requires Inv(w) && Inv(r) && x in r.objects && OnlyAt(w, r, x)
    ensures Labels(r, r.objects[x].groups) == Labels(w, r.objects[x].groups)
  {
    var gs := r.objects[x].groups;
    GroupsBesides(r, x);
    forall i | 0 <= i < |gs|
      ensures TreeAt(r, gs[i].at) == TreeAt(w, gs[i].at)
    {
      GroupsStay(w, r, x, gs[i].at);
    }
    assert Labels(r, gs) == Labels(w, gs);
  }

  lemma LabelsBefore(w: World, r: World, x: Addr)
    requires Inv(w) && Inv(r) && x in w.objects && Same(w, r, {x})
    ensures Labels(r, w.objects[x].groups) == Labels(w, w.objects[x].groups)
  {
    var gs := w.objects[x].groups;
    GroupsBesides(w, x);
    forall i | 0 <= i < |gs|
      ensures TreeAt(r, gs[i].at) == TreeAt(w, gs[i].at)
    {
      OthersStayAt(w, r, x, gs[i].at);
    }
    assert Labels(r, gs) == Labels(w, gs);
  }

  // ----- positions in the list

  lemma LabelsAround(w: World, a: seq<Held>, g: Held, b: seq<Held>)
    ensures Labels(w, a + [g] + b) == Labels(w, a) + [Labelled(g.tag, TreeAt(w, g.at))] + Labels(w, b)
  {
  }

  lemma {:induction false} TreesCounted(w: World, gs: seq<Held>, tag: int)
    ensures |Trees(Labels(w, gs), tag)| == CountTag(gs, tag)
  {
    if gs != [] {
      TreesCounted(w, gs[1..], tag);
      assert gs == [] + [gs[0]] + gs[1..];
      LabelsAround(w, [], gs[0], gs[1..]);
      GroupLists.Around([], Labelled(gs[0].tag, TreeAt(w, gs[0].at)), Labels(w, gs[1..]), tag);
    }
  }

  lemma {:induction false} BehindItsTag(groups: seq<Held>, tag: int)
    ensures forall i :: PlaceFor(groups, tag) <= i < |groups| ==> groups[i].tag > tag
  {
    if groups != [] && groups[|groups| - 1].tag > tag {
      BehindItsTag(groups[..|groups| - 1], tag);
    }
  }

  /** The num-th of a tag has num - 1 of its tag before it. */
  lemma {:induction false} NthCounts(groups: seq<Held>, num: int, tag: int)
    ensures var k := Nth(groups, num, tag);
      && (k.Some? <==> 0 < num <= CountTag(groups, tag))
      && (k.Some? ==> k.value < |groups| && groups[k.value].tag == tag && CountTag(groups[..k.value], tag) == num - 1)
  {
    if groups != [] {
      var rest := if groups[0].tag == tag then num - 1 else num;
      NthCounts(groups[1..], rest, tag);
      var k := Nth(groups[1..], rest, tag);
      if k.Some? {
        assert groups[..k.value + 1][1..] == groups[1..][..k.value];
      }
    }
  }

  // ----- the operations

  /** What the call does to x is, to the value at x, the operation. */
  ghost predicate Reads(w: World, r: World, x: Addr, op: F.Op) {
    && x in w.objects && x in r.objects && r.objects[x].order == w.objects[x].order
    && PartsAt(r, x) == F.Apply(w.objects[x].order, PartsAt(w, x), op)
  }

  lemma PartsAre(w: World, x: Addr)
    requires Shaped(w) && x in w.objects
    ensures PartsAt(w, x) == F.Parts(w.objects[x].fields, Collected(Labels(w, w.objects[x].groups)))
  {
    TreeUnfold(w, x);
  }

  /** The list that the groups of x make, where it is known. */
  ghost predicate ListAt(w: World, x: Addr, ls: seq<Labelled>) {
    x in w.objects && PartsAt(w, x) == F.Parts(w.objects[x].fields, Collected(ls))
  }

  lemma ListsStay(w: World, r: World, x: Addr)
    requires Inv(w) && Inv(r) && x in w.objects && x in r.objects && OnlyAt(w, r, x)
    ensures ListAt(w, x, Labels(w, w.objects[x].groups)) && ListAt(r, x, Labels(w, r.objects[x].groups))
  {
    PartsAre(w, x);
    PartsAre(r, x);
    LabelsStay(w, r, x);
  }

  lemma ReadsIs(w: World, r: World, x: Addr, op: F.Op, p: F.Parts, q: F.Parts)
    requires x in w.objects && x in r.objects && r.objects[x].order == w.objects[x].order
    requires PartsAt(w, x) == p && PartsAt(r, x) == q && q == F.Apply(w.objects[x].order, p, op)
    ensures Reads(w, r, x, op)
  {
  }

  lemma SetReads(w: World, r: World, x: Addr, f: Fields.Field, overwrite: bool)
    requires Inv(w) && Inv(r) && x in w.objects && x in r.objects && OnlyAt(w, r, x)
    requires var o := w.objects[x]; r.objects[x] == o.(fields := F.SetIn(o.order, o.fields, f, overwrite))
    ensures Reads(w, r, x, F.Set(f, overwrite))
  {
    ListsStay(w, r, x);
    SetInList(w, r, x, f, overwrite, Labels(w, w.objects[x].groups));
  }

  lemma SetInList(w: World, r: World, x: Addr, f: Fields.Field, overwrite: bool, ls: seq<Labelled>)
    requires ListAt(w, x, ls) && ListAt(r, x, ls)
    requires var o := w.objects[x]; r.objects[x] == o.(fields := F.SetIn(o.order, o.fields, f, overwrite))
    ensures Reads(w, r, x, F.Set(f, overwrite))
  {
  }

  lemma AddReads(w: World, r: World, x: Addr, tag: int, g: Addr, setCount: bool)
    requires Inv(w) && Inv(r) && Same(w, r, {x}) && GroupAdded(w, r, x, tag, g, setCount)
    ensures Reads(w, r, x, F.Add(tag, TreeAt(r, g), setCount))
  {
    PartsAre(w, x);
    PartsAre(r, x);
    LabelsBefore(w, r, x);
    var a, b := AddedBetween(w, r, x, tag, g, setCount);
    AddLabelled(w, r, x, Held(tag, g), a, b, setCount);
  }

  /** The pointers before and behind the new one. */
  lemma AddedBetween(w: World, r: World, x: Addr, tag: int, g: Addr, setCount: bool)
    returns (a: seq<Held>, b: seq<Held>)
    requires GroupAdded(w, r, x, tag, g, setCount)
    ensures w.objects[x].groups == a + b && r.objects[x].groups == a + [Held(tag, g)] + b
    ensures forall h :: h in b ==> h.tag != tag
  {
    var gs := w.objects[x].groups;
    var k := PlaceFor(gs, tag);
    a, b := gs[..k], gs[k..];
    BehindItsTag(gs, tag);
    assert forall i :: 0 <= i < |b| ==> b[i] == gs[k + i];
  }

  lemma AddLabelled(w: World, r: World, x: Addr, g: Held, a: seq<Held>, b: seq<Held>, setCount: bool)
    requires ListAt(w, x, Labels(r, a + b)) && ListAt(r, x, Labels(r, a + [g] + b))
    requires r.objects[x].order == w.objects[x].order && forall h :: h in b ==> h.tag != g.tag
    requires r.objects[x].fields == FieldsWith(w.objects[x], g.tag, CountTag(a + [g] + b, g.tag), setCount)
    ensures Reads(w, r, x, F.Add(g.tag, TreeAt(r, g.at), setCount))
  {
    LabelsTwo(r, a, b);
    LabelsAround(r, a, g, b);
    TreesCounted(r, a + [g] + b, g.tag);
    AddInList(w, r, x, Labels(r, a), Labelled(g.tag, TreeAt(r, g.at)), Labels(r, b), setCount);
  }

  function FieldsWith(o: Object, tag: int, n: nat, setCount: bool): seq<Fields.Field> {
    if setCount then F.SetIn(o.order, o.fields, F.CountField(tag, n), true) else o.fields
  }

  lemma AddInList(w: World, r: World, x: Addr, a: seq<Labelled>, l: Labelled, b: seq<Labelled>, setCount: bool)
    requires ListAt(w, x, a + b) && ListAt(r, x, a + [l] + b) && r.objects[x].order == w.objects[x].order
    requires forall m :: m in b ==> m.tag != l.tag
    requires r.objects[x].fields == FieldsWith(w.objects[x], l.tag, |Trees(a + [l] + b, l.tag)|, setCount)
    ensures Reads(w, r, x, F.Add(l.tag, l.tree, setCount))
  {
    AddIs(w.objects[x].order, w.objects[x].fields, a, l, b, setCount);
    ReadsIs(w, r, x, F.Add(l.tag, l.tree, setCount), PartsAt(w, x), PartsAt(r, x));
  }

  /** The num-th group of a tag, with what is before and behind it. */
  lemma NthAround(w: World, x: Addr, num: int, tag: int) returns (a: seq<Held>, g: Held, b: seq<Held>)
    requires x in w.objects && Nth(w.objects[x].groups, num, tag).Some?
    ensures w.objects[x].groups == a + [g] + b && g.tag == tag && Nth(w.objects[x].groups, num, tag) == Some(|a|)
    ensures num == |Trees(Labels(w, a), tag)| + 1
  {
    var gs, k := w.objects[x].groups, Nth(w.objects[x].groups, num, tag).value;
    NthCounts(gs, num, tag);
    a, g, b := gs[..k], gs[k], gs[k + 1..];
    TreesCounted(w, a, tag);
  }

  lemma NoSuchGroup(w: World, x: Addr, num: int, tag: int)
    requires Inv(w) && x in w.objects && Nth(w.objects[x].groups, num, tag).None?
    ensures !PartsAt(w, x).HasGroup(num, tag)
  {
    PartsAre(w, x);
    NthCounts(w.objects[x].groups, num, tag);
    TreesCounted(w, w.objects[x].groups, tag);
    HasGroupIs(w.objects[x].fields, Labels(w, w.objects[x].groups), num, tag);
  }

  /** Neither g nor below it, nor x nor above it. */
  ghost function Aside(w: World, x: Addr, g: Addr): set<Addr>
    requires x in w.forest.anc
  {
    Besides(w, x) - Below(w.forest, g)
  }

  lemma StaysAside(w: World, x: Addr, g: Addr, y: Addr, i: nat)
    requires Inv(w) && x in w.objects && g in w.forest.parent && w.forest.parent[g] == x
    requires y in Aside(w, x, g) && i < |w.objects[y].groups| && w.objects[y].groups[i].at in Besides(w, x)
    ensures w.objects[y].groups[i].at in Aside(w, x, g)
  {
    GroupOf(w, y, i);
  }

  lemma AsideClosed(w: World, x: Addr, k: nat)
    requires Inv(w) && x in w.objects && k < |w.objects[x].groups|
    ensures Closed(w.objects, Aside(w, x, w.objects[x].groups[k].at))
  {
    var g := w.objects[x].groups[k].at;
    BesidesClosed(w, x);
    GroupOf(w, x, k);
    forall y, i | y in Aside(w, x, g) && 0 <= i < |w.objects[y].groups|
      ensures w.objects[y].groups[i].at in Aside(w, x, g)
    {
      StaysAside(w, x, g, y, i);
    }
  }

  lemma OtherAside(w: World, x: Addr, k: nat, i: nat)
    requires Inv(w) && x in w.objects && k < |w.objects[x].groups| && i < |w.objects[x].groups| && i != k
    ensures w.objects[x].groups[i].at in Aside(w, x, w.objects[x].groups[k].at)
  {
    GroupBesides(w, x, i);
    GroupOf(w, x, i);
    GroupOf(w, x, k);
    assert HeldBy(w.objects[x].groups, w.forest.parent, x);
  }

  lemma AsideStays(w: World, r: World, x: Addr, k: nat, i: nat)
    requires Inv(w) && Inv(r) && x in w.objects && k < |w.objects[x].groups| && i < |w.objects[x].groups| && i != k
    requires Same(w, r, Below(w.forest, w.objects[x].groups[k].at))
    ensures TreeAt(r, w.objects[x].groups[i].at) == TreeAt(w, w.objects[x].groups[i].at)
  {
    var g, c := w.objects[x].groups[k].at, w.objects[x].groups[i].at;
    AsideClosed(w, x, k);
    OtherAside(w, x, k, i);
    ShapesAside(w, r, Aside(w, x, g), c, Below(w.forest, g));
    SameTree(w, c, r, c);
  }

  lemma ShapesAside(w: World, r: World, within: set<Addr>, c: Addr, but: set<Addr>)
    requires Closed(w.objects, within) && within <= w.objects.Keys - but && c in within && Same(w, r, but)
    ensures c in w.objects && c in r.objects && SameShape(w.objects, c, r.objects, c)
  {
    ShapesStay(w.objects, r.objects, within, c);
  }

  lemma LabelsAside(w: World, r: World, x: Addr, a: seq<Held>, g: Held, b: seq<Held>)
    requires Inv(w) && Inv(r) && x in w.objects && w.objects[x].groups == a + [g] + b
    requires Same(w, r, Below(w.forest, g.at))
    ensures Labels(r, a) == Labels(w, a) && Labels(r, b) == Labels(w, b)
  {
    var gs := w.objects[x].groups;
    assert gs[|a|] == g;
    forall i | 0 <= i < |gs| && i != |a|
      ensures TreeAt(r, gs[i].at) == TreeAt(w, gs[i].at)
    {
      AsideStays(w, r, x, |a|, i);
    }
    LabelsOfParts(w, r, gs, a, g, b);
  }

  lemma LabelsOfParts(w: World, r: World, gs: seq<Held>, a: seq<Held>, g: Held, b: seq<Held>)
    requires gs == a + [g] + b
    requires forall i :: 0 <= i < |gs| && i != |a| ==> TreeAt(r, gs[i].at) == TreeAt(w, gs[i].at)
    ensures Labels(r, a) == Labels(w, a) && Labels(r, b) == Labels(w, b)
  {
    forall i | 0 <= i < |a|
      ensures Labels(r, a)[i] == Labels(w, a)[i]
    {
      assert gs[i] == a[i];
    }
    forall i | 0 <= i < |b|
      ensures Labels(r, b)[i] == Labels(w, b)[i]
    {
      assert gs[|a| + 1 + i] == b[i];
    }
  }

  lemma AboveStays(w: World, r: World, x: Addr, k: nat)
    requires Inv(w) && x in w.objects && k < |w.objects[x].groups| && Same(w, r, Below(w.forest, w.objects[x].groups[k].at))
    ensures x in r.objects && r.objects[x] == w.objects[x]
  {
    HeldStorage(w, x, k);
  }

  predicate HeldAt(w: World, x: Addr, k: nat, g: Addr) {
    x in w.objects && k < |w.objects[x].groups| && w.objects[x].groups[k].at == g
  }

  /** One of the groups of x has changed, or something below it. */
  lemma ReplaceReads(w: World, r: World, x: Addr, num: int, tag: int, g: Addr)
    requires Inv(w) && Inv(r) && x in w.objects && Nth(w.objects[x].groups, num, tag).Some?
    requires HeldAt(w, x, Nth(w.objects[x].groups, num, tag).value, g)
    requires Same(w, r, Below(w.forest, g))
    ensures Reads(w, r, x, F.Replace(num, tag, TreeAt(r, g)))
  {
    var a, h, b := NthAround(w, x, num, tag);
    AboveStays(w, r, x, |a|);
    LabelsAside(w, r, x, a, h, b);
    PartsAre(w, x);
    PartsAre(r, x);
    ReplaceInList(w, r, x, num, tag, a, h, b);
  }

  lemma ReplaceInList(w: World, r: World, x: Addr, num: int, tag: int, a: seq<Held>, h: Held, b: seq<Held>)
    requires ListAt(w, x, Labels(w, a + [h] + b)) && ListAt(r, x, Labels(r, a + [h] + b)) && r.objects[x] == w.objects[x]
    requires Labels(r, a) == Labels(w, a) && Labels(r, b) == Labels(w, b)
    requires h.tag == tag && num == |Trees(Labels(w, a), tag)| + 1
    ensures Reads(w, r, x, F.Replace(num, tag, TreeAt(r, h.at)))
  {
    LabelsAround(w, a, h, b);
    LabelsAround(r, a, h, b);
    ReplaceIs(w.objects[x].fields, Labels(w, a), Labelled(tag, TreeAt(w, h.at)), Labelled(tag, TreeAt(r, h.at)), Labels(w, b));
  }

  lemma RemoveReads(w: World, r: World, x: Addr, num: int, tag: int)
    requires Inv(w) && Inv(r) && x in w.objects && Nth(w.objects[x].groups, num, tag).Some?
    requires GroupRemoved(w, r, x, Nth(w.objects[x].groups, num, tag).value, tag)
    ensures Reads(w, r, x, F.RemoveOne(num, tag))
  {
    var a, g, b := NthAround(w, x, num, tag);
    RemovedIs(w, r, x, |a|, tag);
    WithoutIs(w.objects[x].groups, a, g, b);
    ListsStay(w, r, x);
    RemoveLabelled(w, r, x, num, tag, a, g, b);
  }

  lemma WithoutIs(gs: seq<Held>, a: seq<Held>, g: Held, b: seq<Held>)
    requires gs == a + [g] + b
    ensures RemoveAt(gs, |a|) == a + b
  {
  }

  /** The object, when the groups gs are left. */
  function ObjectLeft(o: Object, gs: seq<Held>, tag: int): Object {
    o.(groups := gs, fields := FieldsLeft(o, tag, CountTag(gs, tag)))
  }

  function FieldsLeft(o: Object, tag: int, n: nat): seq<Fields.Field> {
    if n == 0 then DropOne(o.fields, tag) else F.SetIn(o.order, o.fields, F.CountField(tag, n), true)
  }

  lemma RemoveLabelled(w: World, r: World, x: Addr, num: int, tag: int, a: seq<Held>, g: Held, b: seq<Held>)
    requires ListAt(w, x, Labels(w, a + [g] + b)) && ListAt(r, x, Labels(w, a + b))
    requires r.objects[x] == ObjectLeft(w.objects[x], a + b, tag)
    requires g.tag == tag && num == |Trees(Labels(w, a), tag)| + 1
    ensures Reads(w, r, x, F.RemoveOne(num, tag))
  {
    LabelsAround(w, a, g, b);
    LabelsTwo(w, a, b);
    TreesCounted(w, a + b, tag);
    RemoveInList(w, r, x, num, tag, Labels(w, a), Labelled(tag, TreeAt(w, g.at)), Labels(w, b));
  }

  lemma LabelsTwo(w: World, a: seq<Held>, b: seq<Held>)
    ensures Labels(w, a + b) == Labels(w, a) + Labels(w, b)
  {
  }

  lemma RemoveInList(w: World, r: World, x: Addr, num: int, tag: int, a: seq<Labelled>, l: Labelled, b: seq<Labelled>)
    requires ListAt(w, x, a + [l] + b) && ListAt(r, x, a + b)
    requires r.objects[x].order == w.objects[x].order
    requires r.objects[x].fields == FieldsLeft(w.objects[x], tag, |Trees(a + b, tag)|)
    requires l.tag == tag && num == |Trees(a, tag)| + 1
    ensures Reads(w, r, x, F.RemoveOne(num, tag))
  {
    RemoveIs(w.objects[x].order, w.objects[x].fields, a, l, b, num);
    ReadsIs(w, r, x, F.RemoveOne(num, tag), PartsAt(w, x), PartsAt(r, x));
  }

  lemma RemovedIs(w: World, r: World, x: Addr, k: nat, tag: int)
    requires x in w.objects && k < |w.objects[x].groups| && GroupRemoved(w, r, x, k, tag)
    ensures x in r.objects && OnlyAt(w, r, x)
    ensures r.objects[x] == ObjectLeft(w.objects[x], RemoveAt(w.objects[x].groups, k), tag)
  {
  }

  lemma {:induction false} OthersLeft(w: World, gs: seq<Held>, tag: int)
    ensures Changed(Labels(w, gs), Labels(w, OtherTags(gs, tag)), tag, [])
    ensures Trees(Labels(w, gs), tag) == [] <==> OtherTags(gs, tag) == gs
  {
    if gs != [] {
      var rest := OtherTags(gs[1..], tag);
      var l := Labelled(gs[0].tag, TreeAt(w, gs[0].at));
      OthersLeft(w, gs[1..], tag);
      OthersFewer(gs[1..], tag);
      LabelsFirst(w, gs[0], gs[1..]);
      LabelsFirst(w, gs[0], rest);
      assert gs == [gs[0]] + gs[1..];
      assert OtherTags(gs, tag) == if gs[0].tag == tag then rest else [gs[0]] + rest;
      ChangedFirst(l, Labels(w, gs[1..]), Labels(w, rest), tag);
    }
  }

  lemma LabelsFirst(w: World, g: Held, gs: seq<Held>)
    ensures Labels(w, [g] + gs) == [Labelled(g.tag, TreeAt(w, g.at))] + Labels(w, gs)
  {
  }

  lemma TreesFirst(l: Labelled, ls: seq<Labelled>, t: int)
    ensures Trees([l] + ls, t) == Single(l, t) + Trees(ls, t)
  {
    assert [l] + ls == [] + [l] + ls;
    GroupLists.Around([], l, ls, t);
  }

  lemma ChangedFirst(l: Labelled, ls: seq<Labelled>, rest: seq<Labelled>, tag: int)
    requires Changed(ls, rest, tag, [])
    ensures Changed([l] + ls, if l.tag == tag then rest else [l] + rest, tag, [])
    ensures Trees([l] + ls, tag) == [] <==> l.tag != tag && Trees(ls, tag) == []
  {
    var r := if l.tag == tag then rest else [l] + rest;
    forall t
      ensures Trees(r, t) == if t == tag then [] else Trees([l] + ls, t)
    {
      TreesFirst(l, ls, t);
      TreesFirst(l, rest, t);
    }
    TreesFirst(l, ls, tag);
  }

  lemma {:induction false} OthersFewer(gs: seq<Held>, tag: int)
    ensures |OtherTags(gs, tag)| <= |gs|
  {
    if gs != [] {
      OthersFewer(gs[1..], tag);
    }
  }

  lemma RemoveAllReads(w: World, r: World, x: Addr, tag: int)
    requires Inv(w) && Inv(r) && x in w.objects && x in r.objects && OnlyAt(w, r, x)
    requires r.objects[x] == GroupsRemoved(w.objects[x], tag)
    ensures Reads(w, r, x, F.RemoveAll(tag))
  {
    ListsStay(w, r, x);
    RemoveAllLabelled(w, r, x, tag);
  }

  lemma RemoveAllLabelled(w: World, r: World, x: Addr, tag: int)
    requires x in w.objects && x in r.objects && r.objects[x] == GroupsRemoved(w.objects[x], tag)
    requires ListAt(w, x, Labels(w, w.objects[x].groups)) && ListAt(r, x, Labels(w, r.objects[x].groups))
    ensures Reads(w, r, x, F.RemoveAll(tag))
  {
    var gs := w.objects[x].groups;
    OthersLeft(w, gs, tag);
    RemoveAllInList(w, r, x, tag, Labels(w, gs), Labels(w, OtherTags(gs, tag)));
  }

  lemma RemovalsAre(w: World, r: World, x: Addr, tag: int, fields: seq<Fields.Field>, es: seq<F.Entry>,
                    left: seq<Fields.Field>, rest: seq<F.Entry>)
    requires x in w.objects && x in r.objects && r.objects[x].order == w.objects[x].order
    requires PartsAt(w, x) == F.Parts(fields, es) && PartsAt(r, x) == F.Parts(left, rest)
    requires F.Parts(fields, es).RemoveGroups(tag) == F.Parts(left, rest)
    ensures Reads(w, r, x, F.RemoveAll(tag))
  {
  }

  lemma RemoveAllInList(w: World, r: World, x: Addr, tag: int, ls: seq<Labelled>, rest: seq<Labelled>)
    requires Changed(ls, rest, tag, []) && ListAt(w, x, ls) && x in r.objects
    requires r.objects[x].order == w.objects[x].order
    requires if Trees(ls, tag) == [] then r.objects[x].fields == w.objects[x].fields && ListAt(r, x, ls)
             else r.objects[x].fields == DropOne(w.objects[x].fields, tag) && ListAt(r, x, rest)
    ensures Reads(w, r, x, F.RemoveAll(tag))
  {
    var fields := w.objects[x].fields;
    RemoveAllIs(fields, ls, rest, tag);
    if Trees(ls, tag) == [] {
      RemovalsAre(w, r, x, tag, fields, Collected(ls), fields, Collected(ls));
    } else {
      RemovalsAre(w, r, x, tag, fields, Collected(ls), DropOne(fields, tag), Collected(rest));
    }
  }

  lemma RemoveFieldReads(w: World, r: World, x: Addr, tag: int)
    requires Inv(w) && Inv(r) && x in w.objects && x in r.objects && OnlyAt(w, r, x)
    requires r.objects[x] == FieldRemoved(w.objects[x], tag)
    ensures Reads(w, r, x, F.Remove(tag))
  {
    ListsStay(w, r, x);
    RemoveFieldLabelled(w, r, x, tag);
  }

  lemma RemoveFieldLabelled(w: World, r: World, x: Addr, tag: int)
    requires x in w.objects && x in r.objects && r.objects[x] == FieldRemoved(w.objects[x], tag)
    requires ListAt(w, x, Labels(w, w.objects[x].groups)) && ListAt(r, x, Labels(w, r.objects[x].groups))
    ensures Reads(w, r, x, F.Remove(tag))
  {
    var gs := w.objects[x].groups;
    OthersLeft(w, gs, tag);
    if F.First(w.objects[x].fields, tag) == |w.objects[x].fields| {
      NoFieldReads(w, r, x, tag);
    } else {
      RemoveFieldInList(w, r, x, tag, Labels(w, gs), Labels(w, OtherTags(gs, tag)));
    }
  }

  lemma NoFieldReads(w: World, r: World, x: Addr, tag: int)
    requires x in w.objects && x in r.objects && r.objects[x] == w.objects[x] && PartsAt(r, x) == PartsAt(w, x)
    requires PartsAt(w, x).fields == w.objects[x].fields && F.First(w.objects[x].fields, tag) == |w.objects[x].fields|
    ensures Reads(w, r, x, F.Remove(tag))
  {
  }

  lemma RemovalIs(w: World, r: World, x: Addr, tag: int, fields: seq<Fields.Field>, es: seq<F.Entry>,
                  left: seq<Fields.Field>, rest: seq<F.Entry>)
    requires x in w.objects && x in r.objects && r.objects[x].order == w.objects[x].order
    requires PartsAt(w, x) == F.Parts(fields, es) && PartsAt(r, x) == F.Parts(left, rest)
    requires F.Parts(fields, es).RemoveField(tag) == F.Parts(left, rest)
    ensures Reads(w, r, x, F.Remove(tag))
  {
  }

  lemma RemoveFieldInList(w: World, r: World, x: Addr, tag: int, ls: seq<Labelled>, rest: seq<Labelled>)
    requires Changed(ls, rest, tag, []) && ListAt(w, x, ls) && x in r.objects
    requires r.objects[x].order == w.objects[x].order && F.First(w.objects[x].fields, tag) < |w.objects[x].fields|
    requires var fields := DropOne(w.objects[x].fields, tag);
      if Trees(ls, tag) == [] then r.objects[x].fields == fields && ListAt(r, x, ls)
      else r.objects[x].fields == DropOne(fields, tag) && ListAt(r, x, rest)
    ensures Reads(w, r, x, F.Remove(tag))
  {
    var left := DropOne(w.objects[x].fields, tag);
    RemoveFieldIs(w.objects[x].fields, ls, rest, tag);
    if Trees(ls, tag) == [] {
      RemovalIs(w, r, x, tag, w.objects[x].fields, Collected(ls), left, Collected(ls));
    } else {
      RemovalIs(w, r, x, tag, w.objects[x].fields, Collected(ls), DropOne(left, tag), Collected(rest));
    }
  }

  // ----- what is handed over

  lemma GroupUnder(w: World, y: Addr, z: Addr, i: nat)
    requires Shaped(w) && z in Below(w.forest, y) && z in w.objects && i < |w.objects[z].groups|
    ensures w.objects[z].groups[i].at in Under(w.forest, y)
  {
    var c := w.objects[z].groups[i].at;
    assert HeldBy(w.objects[z].groups, w.forest.parent, z);
    assert c in w.forest.parent && IsChild(w.forest, c);
  }

  lemma UnderClosed(w: World, y: Addr)
    requires Shaped(w) && y in w.objects
    ensures Closed(w.objects, Under(w.forest, y))
    ensures forall i :: 0 <= i < |w.objects[y].groups| ==> w.objects[y].groups[i].at in Under(w.forest, y)
  {
    forall z, i | z in Below(w.forest, y) && z in w.objects && 0 <= i < |w.objects[z].groups|
      ensures w.objects[z].groups[i].at in Under(w.forest, y)
    {
      GroupUnder(w, y, z, i);
    }
  }

  /** x gets what y had; what y had below it stays where it is. */
  lemma HandedReads(w: World, r: World, x: Addr, y: Addr)
    requires Inv(w) && Inv(r) && y in w.objects && x in r.objects && r.objects[x] == w.objects[y]
    requires forall z :: z in Under(w.forest, y) ==> z in w.objects && z in r.objects && r.objects[z] == w.objects[z]
    ensures TreeAt(r, x) == TreeAt(w, y)
  {
    UnderClosed(w, y);
    forall n: nat
      ensures ShapeTo(w.objects, y, n) == ShapeTo(r.objects, x, n)
    {
      SameNode(w.objects, y, r.objects, x, Under(w.forest, y), n);
    }
    SameTree(w, y, r, x);
  }

  lemma BareReads(w: World, x: Addr)
    requires Inv(w) && x in w.objects && Bare(w.objects[x])
    ensures PartsAt(w, x) == F.Parts([], [])
  {
    PartsAre(w, x);
  }

  /** A swap exchanges the trees. */
  lemma TradedReads(w: World, r: World, x: Addr, y: Addr)
    requires Inv(w) && Inv(r) && CanSwap(w, x, y) && Traded(w, r, x, y)
    ensures TreeAt(r, x) == TreeAt(w, y) && TreeAt(r, y) == TreeAt(w, x)
  {
    UnderStays(w, r, x, y);
    UnderStays(w, r, y, x);
    HandedReads(w, r, x, y);
    HandedReads(w, r, y, x);
  }

  /** What is below y is neither x nor y, nor below x. */
  lemma UnderOther(f: Forest, x: Addr, y: Addr, z: Addr)
    requires Rooted(f) && x in f.nodes && y in f.nodes && Unrelated(f, x, y) && z in Under(f, y)
    ensures z in f.nodes && z != x && z != y && z !in Below(f, x)
  {
    assert IsNode(f, y);
    NotBelowBoth(f, x, y, z);
  }

  lemma UnderStays(w: World, r: World, x: Addr, y: Addr)
    requires Shaped(w) && CanSwap(w, x, y) && Same(w, r, Below(w.forest, x) + {y})
    ensures forall z :: z in Under(w.forest, y) ==> z in w.objects && z in r.objects && r.objects[z] == w.objects[z]
  {
    forall z | z in Under(w.forest, y)
      ensures z in w.objects && z in r.objects && r.objects[z] == w.objects[z]
    {
      UnderOther(w.forest, x, y, z);
    }
  }

  /** A move gives the tree away. */
  lemma MovedReads(w: World, r: World, x: Addr, y: Addr)
    requires Inv(w) && Inv(r) && CanSwap(w, x, y) && MovedTo(w, r, x, y)
    ensures TreeAt(r, x) == TreeAt(w, y) && PartsAt(r, y) == F.Parts([], [])
  {
    UnderStays(w, r, x, y);
    HandedReads(w, r, x, y);
    BareReads(r, y);
  }

  // ----- what the calls are, read as operations

  /** A group that was cloned reads as its source did. */
  lemma CloneReads(w: World, r: World, x: Addr, tag: int, src: Addr, setCount: bool)
    requires Inv(w) && Inv(r) && src in w.objects && Same(w, r, {x})
    requires exists g :: CloneAdded(w, r, x, tag, src, g, setCount)
    ensures Reads(w, r, x, F.Add(tag, TreeAt(w, src), setCount))
  {
    var g :| CloneAdded(w, r, x, tag, src, g, setCount);
    SameTree(w, src, r, g);
    AddReads(w, r, x, tag, g, setCount);
  }

  lemma TakenReads(w: World, r: World, x: Addr, tag: int, g: Addr, setCount: bool)
    requires Inv(w) && Inv(r) && CanLink(w, x, g) && Same(w, r, {x}) && GroupAdded(w, r, x, tag, g, setCount)
    ensures Reads(w, r, x, F.Add(tag, TreeAt(w, g), setCount))
  {
    NotAbove(w.forest, x, g);
    OthersStayAt(w, r, x, g);
    AddReads(w, r, x, tag, g, setCount);
  }

  lemma NotAbove(f: Forest, x: Addr, g: Addr)
    requires Rooted(f) && x in f.nodes && x !in Below(f, g)
    ensures g !in Up(f, x)
  {
  }

  lemma AssignReads(w: World, r: World, x: Addr, num: int, tag: int, src: Addr, g: Addr)
    requires Inv(w) && Inv(r) && x in w.objects && src in w.objects && Nth(w.objects[x].groups, num, tag).Some?
    requires HeldAt(w, x, Nth(w.objects[x].groups, num, tag).value, g)
    requires Same(w, r, Below(w.forest, g)) && g in r.objects && SameShape(w.objects, src, r.objects, g)
    ensures Reads(w, r, x, F.Replace(num, tag, TreeAt(w, src)))
  {
    SameTree(w, src, r, g);
    ReplaceReads(w, r, x, num, tag, g);
  }

  /** Calls for a group that is not there. */
  lemma NothingReads(w: World, x: Addr, num: int, tag: int, t: F.Tree)
    requires Inv(w) && x in w.objects && Nth(w.objects[x].groups, num, tag).None?
    ensures Reads(w, w, x, F.Replace(num, tag, t)) && Reads(w, w, x, F.RemoveOne(num, tag))
  {
    NoSuchGroup(w, x, num, tag);
    ReadsNothing(w, x, num, tag, t);
  }

  lemma ReadsNothing(w: World, x: Addr, num: int, tag: int, t: F.Tree)
    requires x in w.objects && !PartsAt(w, x).HasGroup(num, tag)
    ensures Reads(w, w, x, F.Replace(num, tag, t)) && Reads(w, w, x, F.RemoveOne(num, tag))
  {
  }

  lemma ReplacedReads(w: World, r: World, x: Addr, num: int, tag: int, src: Addr)
    requires Inv(w) && Inv(r) && x in w.objects && src in w.objects
    requires GroupReplaced(w, r, x, Nth(w.objects[x].groups, num, tag), src)
    ensures Reads(w, r, x, F.Replace(num, tag, TreeAt(w, src)))
  {
    var k := Nth(w.objects[x].groups, num, tag);
    if k.Some? {
      AssignReads(w, r, x, num, tag, src, w.objects[x].groups[k.value].at);
    } else {
      NothingReads(w, x, num, tag, TreeAt(w, src));
    }
  }

  lemma RemovedReads(w: World, r: World, x: Addr, num: int, tag: int)
    requires Inv(w) && Inv(r) && x in w.objects
    requires var k := Nth(w.objects[x].groups, num, tag); if k.None? then r == w else GroupRemoved(w, r, x, k.value, tag)
    ensures Reads(w, r, x, F.RemoveOne(num, tag))
  {
    if Nth(w.objects[x].groups, num, tag).Some? {
      RemoveReads(w, r, x, num, tag);
    } else {
      NothingReads(w, x, num, tag, NOTHING);
    }
  }
}
