/** What a field map holds, all the way down: its fields, and the shapes of its groups. The
    value that pointers stand for, and how it depends on the memory. */
module Shapes {
  import opened Decimal
  import opened Forests
  import opened Ownership
  import opened Lifetimes
  import Fields
  import MessageOrder

  datatype Branch = Branch(tag: int, shape: Shape)

  /** The shape of a field map down to some depth. */
  datatype Shape = Cut | Nothing | Node(order: MessageOrder.Order, fields: seq<Fields.Field>, branches: seq<Branch>)

  ghost function ShapeTo(objects: map<Addr, Object>, x: Addr, n: nat): Shape
    decreases n
  {
    if n == 0 then Cut
    else if x !in objects then Nothing
    else
      var o := objects[x];
      Node(o.order, o.fields, seq(|o.groups|, i requires 0 <= i < |o.groups| =>
        Branch(o.groups[i].tag, ShapeTo(objects, o.groups[i].at, n - 1))))
  }

  /** Two field maps, perhaps in two states of the memory, hold the same. */
  ghost predicate SameShape(objects: map<Addr, Object>, x: Addr, r: map<Addr, Object>, y: Addr) {
    forall n: nat :: ShapeTo(objects, x, n) == ShapeTo(r, y, n)
  }

  predicate SameContent(o: Object, u: Object) {
    o.order == u.order && o.fields == u.fields && o.groups == u.groups
  }

  /** The groups of the field maps in the set are in the set. */
  ghost predicate Closed(objects: map<Addr, Object>, within: set<Addr>) {
    forall y, i :: y in within && y in objects && 0 <= i < |objects[y].groups| ==> objects[y].groups[i].at in within
  }

  /** A change outside a closed set changes no shape in it. */
  lemma {:induction false} ShapeStays(objects: map<Addr, Object>, r: map<Addr, Object>, within: set<Addr>, x: Addr, n: nat)
    requires Closed(objects, within) && x in within
    requires forall y :: y in within ==> y in objects && y in r && SameContent(objects[y], r[y])
    ensures ShapeTo(objects, x, n) == ShapeTo(r, x, n)
    decreases n
  {
    if n > 0 {
      var gs := objects[x].groups;
      forall i | 0 <= i < |gs|
        ensures ShapeTo(objects, gs[i].at, n - 1) == ShapeTo(r, gs[i].at, n - 1)
      {
        ShapeStays(objects, r, within, gs[i].at, n - 1);
      }
    }
  }

  lemma ShapesStay(objects: map<Addr, Object>, r: map<Addr, Object>, within: set<Addr>, x: Addr)
    requires Closed(objects, within) && x in within
    requires forall y :: y in within ==> y in objects && y in r && SameContent(objects[y], r[y])
    ensures SameShape(objects, x, r, x)
  {
    forall n: nat
      ensures ShapeTo(objects, x, n) == ShapeTo(r, x, n)
    {
      ShapeStays(objects, r, within, x, n);
    }
  }

  lemma SameShapeTwice(a: map<Addr, Object>, x: Addr, b: map<Addr, Object>, y: Addr, c: map<Addr, Object>, z: Addr)
    requires SameShape(a, x, b, y) && SameShape(b, y, c, z)
    ensures SameShape(a, x, c, z)
  {
  }

  /** All live field maps are a closed set. */
  lemma AllClosed(w: World)
    requires Inv(w)
    ensures Closed(w.objects, w.objects.Keys)
  {
    forall y, i | y in w.objects && 0 <= i < |w.objects[y].groups|
      ensures w.objects[y].groups[i].at in w.objects
    {
      GroupOf(w, y, i);
    }
  }

  /** The field maps that are neither x nor above it. */
  ghost function Besides(w: World, x: Addr): set<Addr>
    requires x in w.forest.anc
  {
    w.objects.Keys - Up(w.forest, x)
  }

  lemma BesidesClosed(w: World, x: Addr)
    requires Inv(w) && x in w.objects
    ensures Closed(w.objects, Besides(w, x))
  {
    forall y, i | y in Besides(w, x) && 0 <= i < |w.objects[y].groups|
      ensures w.objects[y].groups[i].at in Besides(w, x)
    {
      var c := w.objects[y].groups[i].at;
      GroupOf(w, y, i);
      if c in w.forest.anc[x] {
        Transitive(w.forest, x, c);
      }
    }
  }

  /** What is left when a subtree that nothing holds is removed. */
  ghost function Rest(w: World, t: Addr): set<Addr> {
    w.objects.Keys - Below(w.forest, t)
  }

  lemma RestClosed(w: World, t: Addr)
    requires Inv(w) && t in w.objects && t !in w.forest.parent
    ensures Closed(w.objects, Rest(w, t))
  {
    forall y, i | y in Rest(w, t) && y in w.objects && 0 <= i < |w.objects[y].groups|
      ensures w.objects[y].groups[i].at in Rest(w, t)
    {
      ChildInRest(w, t, y, i);
    }
  }

  lemma ChildInRest(w: World, t: Addr, y: Addr, i: nat)
    requires Inv(w) && t in w.objects && t !in w.forest.parent
    requires y in w.objects && y !in Below(w.forest, t) && i < |w.objects[y].groups|
    ensures w.objects[y].groups[i].at in w.objects && w.objects[y].groups[i].at !in Below(w.forest, t)
  {
    GroupOf(w, y, i);
  }

  /** Growth changes no shape. */
  lemma ShapeGrown(w: World, r: World, a: Option<nat>, x: Addr)
    requires Inv(w) && Grown(w, r, a) && x in w.objects
    ensures SameShape(w.objects, x, r.objects, x)
  {
    AllClosed(w);
    ShapesStay(w.objects, r.objects, w.objects.Keys, x);
  }

  /** Nor does an arena. */
  lemma ShapeWithArena(w: World, h: Addr, x: Addr)
    requires Inv(w) && x in w.objects && h in w.objects
    ensures SameShape(w.objects, x, WithArena(w, h).objects, x)
  {
    AllClosed(w);
    ArenaContent(w, h);
    ShapesStay(w.objects, WithArena(w, h).objects, w.objects.Keys, x);
  }

  lemma ArenaContent(w: World, h: Addr)
    requires h in w.objects
    ensures forall y :: y in w.objects ==>
      y in WithArena(w, h).objects && SameContent(w.objects[y], WithArena(w, h).objects[y])
  {
  }

  /** A change of x changes no shape of what does not hold it. */
  lemma ShapeBesides(w: World, r: map<Addr, Object>, x: Addr, y: Addr)
    requires Inv(w) && x in w.objects && y in Besides(w, x)
    requires forall z :: z in w.objects && z != x ==> z in r && r[z] == w.objects[z]
    ensures SameShape(w.objects, y, r, y)
  {
    BesidesClosed(w, x);
    GroupsBesides(w, x);
    ShapesStay(w.objects, r, Besides(w, x), y);
  }

  lemma GroupBesides(w: World, x: Addr, i: nat)
    requires Inv(w) && x in w.objects && i < |w.objects[x].groups|
    ensures w.objects[x].groups[i].at in Besides(w, x)
  {
    GroupOf(w, x, i);
    HeldStorage(w, x, i);
    BelowNotAbove(w.forest, x, w.objects[x].groups[i].at);
  }

  // ----- a copy in the making

  /** The first k groups are copied. */
  ghost predicate CopiedTo(w: World, src: Addr, r: World, x: Addr, k: nat) {
    && src in w.objects && x in r.objects && k == |r.objects[x].groups| <= |w.objects[src].groups|
    && r.objects[x].order == w.objects[src].order && r.objects[x].fields == w.objects[src].fields
    && forall i :: 0 <= i < k ==> BranchCopied(w, w.objects[src].groups[i], r, r.objects[x].groups[i])
  }

  ghost predicate BranchCopied(w: World, h: Held, r: World, g: Held) {
    g.tag == h.tag && SameShape(w.objects, h.at, r.objects, g.at)
  }

  lemma CopyDone(w: World, src: Addr, r: World, x: Addr, k: nat)
    requires CopiedTo(w, src, r, x, k) && k == |w.objects[src].groups|
    ensures SameShape(w.objects, src, r.objects, x)
  {
    forall n: nat
      ensures ShapeTo(w.objects, src, n) == ShapeTo(r.objects, x, n)
    {
      if n > 0 {
        var s, t := ShapeTo(w.objects, src, n).branches, ShapeTo(r.objects, x, n).branches;
        forall i | 0 <= i < k
          ensures s[i] == t[i]
        {
          var h, g := w.objects[src].groups[i], r.objects[x].groups[i];
          assert BranchCopied(w, h, r, g);
          assert ShapeTo(w.objects, h.at, n - 1) == ShapeTo(r.objects, g.at, n - 1);
        }
        assert s == t;
      }
    }
  }

  /** Growth that leaves x as it is, but for its arena, keeps what is copied. */
  lemma CopiedStill(w: World, src: Addr, v: World, r: World, x: Addr, k: nat)
    requires Inv(v) && CopiedTo(w, src, v, x, k)
    requires forall y :: y in v.objects ==> y in r.objects && SameContent(v.objects[y], r.objects[y])
    ensures CopiedTo(w, src, r, x, k)
  {
    AllClosed(v);
    forall i | 0 <= i < k
      ensures BranchCopied(w, w.objects[src].groups[i], r, r.objects[x].groups[i])
    {
      assert BranchCopied(w, w.objects[src].groups[i], v, v.objects[x].groups[i]);
      ShapesStay(v.objects, r.objects, v.objects.Keys, v.objects[x].groups[i].at);
    }
  }

  /** One more group is copied and linked to x. */
  lemma CopiedMore(w: World, src: Addr, v: World, r: World, x: Addr, k: nat, g: Held)
    requires Inv(v) && CopiedTo(w, src, v, x, k) && k < |w.objects[src].groups|
    requires CanLink(v, x, g.at) && r == LinkedTo(v, x, k, g)
    requires BranchCopied(w, w.objects[src].groups[k], v, g)
    ensures CopiedTo(w, src, r, x, k + 1)
  {
    BesidesClosed(v, x);
    GroupsBesides(v, x);
    LinkedAtEnd(v, x, k, g);
    BranchesMore(w, src, v, r, x, k, g, Besides(v, x));
  }

  lemma LinkedAtEnd(v: World, x: Addr, k: nat, g: Held)
    requires v.forest.anc.Keys == v.forest.nodes && x in v.forest.nodes && x in v.objects && k == |v.objects[x].groups|
    ensures LinkedTo(v, x, k, g).objects == v.objects[x := v.objects[x].(groups := v.objects[x].groups + [g])]
  {
    assert WithHeld(v.objects[x].groups, k, g) == v.objects[x].groups + [g];
  }

  lemma GroupsBesides(w: World, x: Addr)
    requires Inv(w) && x in w.objects
    ensures forall i :: 0 <= i < |w.objects[x].groups| ==> w.objects[x].groups[i].at in Besides(w, x)
    ensures x !in Besides(w, x) && forall y :: y in Besides(w, x) ==> y in w.objects
  {
    forall i | 0 <= i < |w.objects[x].groups|
      ensures w.objects[x].groups[i].at in Besides(w, x)
    {
      GroupBesides(w, x, i);
    }
  }

  lemma BranchesMore(w: World, src: Addr, v: World, r: World, x: Addr, k: nat, g: Held, within: set<Addr>)
    requires CopiedTo(w, src, v, x, k) && k < |w.objects[src].groups| && BranchCopied(w, w.objects[src].groups[k], v, g)
    requires r.objects == v.objects[x := v.objects[x].(groups := v.objects[x].groups + [g])]
    requires Closed(v.objects, within) && x !in within && forall y :: y in within ==> y in v.objects
    requires g.at in within && forall i :: 0 <= i < k ==> v.objects[x].groups[i].at in within
    ensures CopiedTo(w, src, r, x, k + 1)
  {
    forall i | 0 <= i < k + 1
      ensures BranchCopied(w, w.objects[src].groups[i], r, r.objects[x].groups[i])
    {
      var c := if i < k then v.objects[x].groups[i] else g;
      assert BranchCopied(w, w.objects[src].groups[i], v, c);
      ShapesStay(v.objects, r.objects, within, c.at);
    }
  }

  lemma CopiedWithArena(w: World, src: Addr, v: World, r: World, x: Addr, k: nat)
    requires Inv(v) && CopiedTo(w, src, v, x, k)
    requires r == if v.objects[x].arena.Some? then v else ArenaMade(v, x)
    ensures CopiedTo(w, src, r, x, k)
  {
    CopiedStill(w, src, v, r, x, k);
  }

  // ----- after the operations

  /** A clone of the source, as it was, is added. */
  ghost predicate CloneAdded(w: World, r: World, h: Addr, tag: int, src: Addr, g: Addr, setCount: bool) {
    GroupAdded(w, r, h, tag, g, setCount) && g !in w.objects && SameShape(w.objects, src, r.objects, g)
  }

  /** The group that was found holds what the source held; nothing happens if there is none. */
  ghost predicate GroupReplaced(w: World, r: World, x: Addr, k: Option<nat>, src: Addr) {
    if k.None? then r == w
    else
      && x in w.objects && k.value < |w.objects[x].groups|
      && var g := w.objects[x].groups[k.value].at;
      g in r.objects && Same(w, r, Below(w.forest, g)) && SameShape(w.objects, src, r.objects, g)
  }

  /** What x takes over from t, which nothing holds, it holds as t did. */
  lemma ShapeSwapped(w: World, r: World, x: Addr, t: Addr)
    requires Inv(w) && CanSwap(w, x, t) && t !in w.forest.parent && r == Swapped(w, x, t)
    ensures SameShape(w.objects, t, r.objects, x)
  {
    BothClosed(w, x, t);
    forall i | 0 <= i < |w.objects[t].groups|
      ensures w.objects[t].groups[i].at in Besides(w, x) - {t}
    {
      ChildBesides(w, x, t, i);
    }
    forall n: nat
      ensures ShapeTo(w.objects, t, n) == ShapeTo(r.objects, x, n)
    {
      SameNode(w.objects, t, r.objects, x, Besides(w, x) - {t}, n);
    }
  }

  lemma BothClosed(w: World, x: Addr, t: Addr)
    requires Inv(w) && CanSwap(w, x, t) && t !in w.forest.parent
    ensures Closed(w.objects, Besides(w, x) - {t})
  {
    BesidesClosed(w, x);
    forall y, i | y in Besides(w, x) - {t} && y in w.objects && 0 <= i < |w.objects[y].groups|
      ensures w.objects[y].groups[i].at in Besides(w, x) - {t}
    {
      GroupOf(w, y, i);
    }
  }

  /** One field map with the content of another, whose groups are in a closed set. */
  lemma SameNode(a: map<Addr, Object>, t: Addr, b: map<Addr, Object>, x: Addr, within: set<Addr>, n: nat)
    requires Closed(a, within) && t in a && x in b && SameContent(a[t], b[x])
    requires forall y :: y in within ==> y in a && y in b && SameContent(a[y], b[y])
    requires forall i :: 0 <= i < |a[t].groups| ==> a[t].groups[i].at in within
    ensures ShapeTo(a, t, n) == ShapeTo(b, x, n)
  {
    if n > 0 {
      forall i | 0 <= i < |a[t].groups|
        ensures ShapeTo(a, a[t].groups[i].at, n - 1) == ShapeTo(b, a[t].groups[i].at, n - 1)
      {
        ShapeStays(a, b, within, a[t].groups[i].at, n - 1);
      }
    }
  }

  lemma ChildBesides(w: World, x: Addr, t: Addr, i: nat)
    requires Inv(w) && CanSwap(w, x, t) && t !in w.forest.parent && i < |w.objects[t].groups|
    ensures w.objects[t].groups[i].at in Besides(w, x) - {t}
  {
    var c := w.objects[t].groups[i].at;
    GroupOf(w, t, i);
    if c in w.forest.anc[x] {
      Transitive(w.forest, x, c);
    }
  }

  lemma ShapeOfRest(w: World, r: World, t: Addr, x: Addr)
    requires Inv(w) && t in w.objects && t !in w.forest.parent && Destroyed(w, r, t)
    requires x in w.objects && x !in Below(w.forest, t)
    ensures SameShape(w.objects, x, r.objects, x)
  {
    RestClosed(w, t);
    ShapeWithin(w.objects, r.objects, Rest(w, t), x, Below(w.forest, t));
  }

  lemma ShapeWithin(objects: map<Addr, Object>, r: map<Addr, Object>, within: set<Addr>, x: Addr, gone: set<Addr>)
    requires Closed(objects, within) && x in within && within == objects.Keys - gone && r == objects - gone
    ensures SameShape(objects, x, r, x)
  {
    ShapesStay(objects, r, within, x);
  }

  /** What is copied so far, and the clone that comes next. */
  lemma CloneCopied(w: World, src: Addr, v: World, r: World, x: Addr, k: nat, h: Held, g: Addr)
    requires Inv(w) && Inv(v) && Copying(w, v, x) && CopiedTo(w, src, v, x, k)
    requires k < |w.objects[src].groups| && h == w.objects[src].groups[k]
    requires CopyOf(v, r, g, v.objects[x].arena) && SameShape(v.objects, h.at, r.objects, g)
    ensures CopiedTo(w, src, r, x, k) && BranchCopied(w, h, r, Held(h.tag, g))
  {
    CopiedStill(w, src, v, r, x, k);
    GroupOf(w, src, k);
    ShapeGrown(w, v, None, h.at);
    SameShapeTwice(w.objects, h.at, v.objects, h.at, r.objects, g);
  }

  /** The group that was added has the shape of its source. */
  lemma ShapeOfAdded(w: World, src: Addr, u: World, r: World, h: Addr, tag: int, g: Addr, setCount: bool)
    requires SameShape(w.objects, src, u.objects, g)
    requires Inv(u) && CanLink(u, h, g) && r == TakenOver(u, h, tag, g, setCount)
    ensures SameShape(w.objects, src, r.objects, g)
  {
    ShapeBesides(u, r.objects, h, g);
    SameShapeTwice(w.objects, src, u.objects, g, r.objects, g);
  }

  /** What was assigned to has the shape of what it was assigned from. */
  lemma ShapeAssigned(w: World, src: Addr, v: World, u: World, r: World, x: Addr, t: Addr)
    requires Rooted(w.forest) && x in w.objects && CopyOf(w, v, t, None) && SameShape(w.objects, src, v.objects, t)
    requires Inv(v) && CanSwap(v, x, t) && u == Swapped(v, x, t) && Inv(u) && Destroyed(u, r, t)
    ensures SameShape(w.objects, src, r.objects, x)
  {
    ShapeSwapped(v, u, x, t);
    assert IsNode(w.forest, x);
    NotTaken(w, v, x, t, x);
    ShapeOfRest(u, r, t, x);
    SameShapeTwice(w.objects, src, v.objects, t, u.objects, x);
    SameShapeTwice(w.objects, src, u.objects, x, r.objects, x);
  }
}
