/** What the operations on field maps leave in memory, and why. */
module Lifetimes {
  import opened Decimal
  import opened Forests
  import opened Sequences
  import opened Ownership
  import Fields
  import FieldMaps

  /** No group without a parent is in an arena that the subtree owns. */
  ghost predicate Clearable(w: World, x: Addr) {
    forall c, y :: c in w.objects && c.Slot? && c !in w.forest.parent && y in Below(w.forest, x) && y in w.objects ==>
      w.objects[y].arena != Some(c.arena)
  }

  ghost predicate SameArenas(w: World, r: World, a: nat) {
    a in w.arenas && a in r.arenas && r.arenas[a] == w.arenas[a]
  }

  /** The arenas of the field maps that are left, other than x, are as they were. */
  ghost predicate ArenasKept(w: World, r: World, x: Addr) {
    forall y :: y in r.objects && y != x && r.objects[y].arena.Some? ==> SameArenas(w, r, r.objects[y].arena.value)
  }

  /** Blocks are freed with the field maps that were in them. */
  ghost predicate BlocksGone(w: World, r: World, gone: set<Addr>) {
    forall id :: id in r.blocks <==> id in w.blocks && Block(id) !in gone
  }

  /** What destroying x leaves: the rest, as it was. The storage of x is still reserved. */
  ghost predicate Destroyed(w: World, r: World, x: Addr) {
    && r.objects == w.objects - Below(w.forest, x) && r.forest == Without(w.forest, Below(w.forest, x))
    && r.next == w.next && ArenasKept(w, r, x) && BlocksGone(w, r, Under(w.forest, x))
  }

  /** What clearing x leaves: the rest, as it was, and x without groups. */
  ghost predicate Cleared(w: World, r: World, x: Addr) {
    && x in w.objects && r.objects == (w.objects - Under(w.forest, x))[x := w.objects[x].(fields := [], groups := [])]
    && r.forest == Without(w.forest, Under(w.forest, x))
    && r.next == w.next && ArenasKept(w, r, x) && BlocksGone(w, r, Under(w.forest, x))
    && (w.objects[x].arena.Some? ==> ArenaEmpty(r, w.objects[x].arena.value))
  }

  ghost predicate ArenaEmpty(w: World, a: nat) {
    SlotsFree(w.objects, a) && a in w.arenas && w.arenas[a].count == 0 && w.arenas[a].overflow == 0
  }

  /** What is left when x gives up one of its groups: the rest, as it was. */
  ghost predicate HeldGone(w: World, r: World, x: Addr, k: nat) {
    && x in w.objects && k < |w.objects[x].groups|
    && var o, gone := w.objects[x], Below(w.forest, w.objects[x].groups[k].at);
    && r.objects == (w.objects - gone)[x := o.(groups := RemoveAt(o.groups, k))]
    && r.forest == Without(w.forest, gone) && x !in gone
    && r.next == w.next && ArenasKept(w, r, x) && BlocksGone(w, r, gone)
  }

  lemma FewerObjects(m: map<Addr, Object>, gone: set<Addr>, x: Addr)
    requires x in m && x in gone
    ensures |m - gone| < |m|
  {
    assert (m - gone).Keys == m.Keys - gone;
    Smaller(m.Keys - gone, m.Keys, x);
  }

  function Deallocated(w: World, arena: Option<nat>, g: Addr): World
    requires arena.Some? ==> arena.value in w.arenas
    requires g.Block? || (g.Slot? && arena == Some(g.arena))
  {
    if g.Slot? then w else if arena.None? then Freed(w, g.id) else OverflowLess(Freed(w, g.id), arena.value)
  }

  // ----- why destruction does what it does

  /** Where a held group is stored. */
  lemma HeldStorage(w: World, x: Addr, k: nat)
    requires Inv(w) && x in w.objects && k < |w.objects[x].groups|
    ensures
      var g := w.objects[x].groups[k].at;
      && g in w.objects && g in w.forest.parent && g in w.forest.nodes && x !in Below(w.forest, g)
      && (g.Block? ==> g.id in w.blocks)
      && (g.Slot? ==> w.objects[x].arena == Some(g.arena)) && !g.Variable?
  {
    var g := w.objects[x].groups[k].at;
    GroupOf(w, x, k);
    AboveNotBelow(w.forest, g, x);
    SlotOf(w, g);
    BlockOf(w, g);
  }

  lemma SlotOf(w: World, g: Addr)
    requires Sheltered(w) && g in w.objects
    ensures g.Slot? ==> InItsSlot(w.objects, w.arenas, w.forest.parent, g)
  {
  }

  lemma BlockOf(w: World, g: Addr)
    requires Sheltered(w) && g in w.objects
    ensures g.Block? ==> g.id in w.blocks
  {
  }

  lemma UnlinkedIs(w: World, x: Addr, k: nat)
    requires Inv(w) && x in w.objects && k < |w.objects[x].groups| && Clearable(w, x)
    ensures
      var g := w.objects[x].groups[k].at;
      && g in w.forest.nodes && g in Unlinked(w, x, k).objects && g !in Unlinked(w, x, k).forest.parent
      && Below(Unlinked(w, x, k).forest, g) == Below(w.forest, g)
      && Under(Unlinked(w, x, k).forest, g) == Under(w.forest, g)
      && |Under(w.forest, g)| < |Under(w.forest, x)|
      && Clearable(Unlinked(w, x, k), g)
  {
    var g := w.objects[x].groups[k].at;
    HeldStorage(w, x, k);
    GroupOf(w, x, k);
    UnderChild(w.forest, g, x);
    UnderDetached(w.forest, g);
    UnlinkClearable(w, x, k);
  }

  lemma UnderChild(f: Forest, g: Addr, x: Addr)
    requires Rooted(f) && g in f.nodes && x in f.anc[g]
    ensures Under(f, g) < Under(f, x) && |Under(f, g)| < |Under(f, x)|
  {
    forall y | y in Under(f, g)
      ensures y in Under(f, x)
    {
      Transitive(f, y, g);
    }
    assert IsNode(f, g);
    assert g in Under(f, x) && g !in Under(f, g);
    Smaller(Under(f, g), Under(f, x), g);
  }

  lemma Smaller(s: set<Addr>, t: set<Addr>, g: Addr)
    requires s <= t && g in t && g !in s
    ensures |s| < |t|
  {
    NoLarger(s, t - {g});
  }

  lemma {:induction false} NoLarger(s: set<Addr>, t: set<Addr>)
    requires s <= t
    ensures |s| <= |t|
  {
    if s != {} {
      var g :| g in s;
      NoLarger(s - {g}, t - {g});
    }
  }

  lemma UnderDetached(f: Forest, g: Addr)
    requires Rooted(f) && g in f.parent
    ensures Under(Detached(f, g), g) == Under(f, g)
    ensures Below(Detached(f, g), g) == Below(f, g)
  {
    assert IsNode(f, g);
    BelowDetached(f, g);
    SubtreeDetached(f, g);
    assert IsNode(Detached(f, g), g);
  }

  /** The group that is let go owns no arena that a group without a parent is in. */
  lemma UnlinkClearable(w: World, x: Addr, k: nat)
    requires Inv(w) && x in w.objects && k < |w.objects[x].groups| && Clearable(w, x)
    requires w.objects[x].groups[k].at in w.forest.nodes
    ensures Clearable(Unlinked(w, x, k), w.objects[x].groups[k].at)
  {
    var g := w.objects[x].groups[k].at;
    var r := Unlinked(w, x, k);
    UnderHeld(w, x, k);
    UnderDetached(w.forest, g);
    forall c, y | c in r.objects && c.Slot? && c !in r.forest.parent && y in Below(r.forest, g) && y in r.objects
      ensures r.objects[y].arena != Some(c.arena)
    {
      NotInItsArena(w, x, g, c, y);
    }
  }

  lemma UnderHeld(w: World, x: Addr, k: nat)
    requires Inv(w) && x in w.objects && k < |w.objects[x].groups|
    ensures var g := w.objects[x].groups[k].at;
      g in w.forest.parent && Below(w.forest, g) <= Under(w.forest, x) && x !in Below(w.forest, g)
      && (g.Slot? ==> w.objects[x].arena == Some(g.arena))
  {
    HeldStorage(w, x, k);
    GroupOf(w, x, k);
    UnderChild(w.forest, w.objects[x].groups[k].at, x);
  }

  lemma NotInItsArena(w: World, x: Addr, g: Addr, c: Addr, y: Addr)
    requires Sheltered(w) && x in w.objects && c in w.objects && y in w.objects && Clearable(w, x)
    requires c.Slot? && (c == g || c !in w.forest.parent)
    requires y in Below(w.forest, x) && y != x && (g.Slot? ==> w.objects[x].arena == Some(g.arena))
    ensures w.objects[y].arena != Some(c.arena)
  {
    DifferentArenas(w, x, y);
  }

  lemma DifferentArenas(w: World, x: Addr, y: Addr)
    requires Sheltered(w) && x in w.objects && y in w.objects && x != y
    ensures w.objects[x].arena.Some? ==> w.objects[y].arena != w.objects[x].arena
  {
    assert SameArena(w.objects[x], w.objects[y]) ==> x == y;
  }

  /** Clearing x, when the field maps of one set are gone. */
  ghost predicate Clearing(w: World, r: World, x: Addr, gone: set<Addr>) {
    && x in w.objects && gone <= Under(w.forest, x)
    && x in r.objects && r.objects == (w.objects - gone)[x := r.objects[x]]
    && r.objects[x] == w.objects[x].(fields := [], groups := r.objects[x].groups)
    && r.forest == Without(w.forest, gone)
    && r.next == w.next && ArenasKept(w, r, x) && BlocksGone(w, r, gone) && Clearable(r, x)
  }

  lemma NothingGone(w: World, x: Addr)
    requires Sheltered(w) && x in w.objects && Clearable(w, x)
    ensures Clearing(w, WithFields(w, x, []), x, {})
  {
    var r := WithFields(w, x, []);
    WithoutNothing(w.forest);
    ObjectsSame(w.objects, x, r.objects[x]);
    SameArenasStill(w, r, x);
  }

  lemma WithoutNothing(f: Forest)
    ensures Without(f, {}) == f
  {
    assert f.parent - {} == f.parent && f.anc - {} == f.anc;
  }

  lemma ObjectsSame(objects: map<Addr, Object>, x: Addr, o: Object)
    ensures objects[x := o] == (objects - {})[x := o]
  {
  }

  lemma SameArenasStill(w: World, r: World, x: Addr)
    requires Sheltered(w) && r.arenas == w.arenas
    requires forall y :: y in r.objects && y != x ==> y in w.objects && r.objects[y] == w.objects[y]
    ensures ArenasKept(w, r, x)
  {
  }

  lemma UnderFewer(f: Forest, gone: set<Addr>, x: Addr)
    ensures |Under(Without(f, gone), x)| <= |Under(f, x)|
  {
    NoLarger(Under(Without(f, gone), x), Under(f, x));
  }

  lemma MoreGone(w: World, v: World, r: World, x: Addr, gone: set<Addr>, more: set<Addr>)
    requires Inv(v) && Clearing(w, v, x, gone) && HeldGone(v, r, x, 0)
    requires more == Below(v.forest, v.objects[x].groups[0].at)
    ensures Clearing(w, r, x, gone + more)
  {
    GroupOf(v, x, 0);
    MoreUnder(w.forest, v.forest, x, v.objects[x].groups[0].at, gone);
    RemovedTwice(w, v, r, x, gone, more);
    ClearableLess(v, r, x, more);
    ArenasKeptTwice(w, v, r, x);
  }

  lemma RemovedTwice(w: World, v: World, r: World, x: Addr, gone: set<Addr>, more: set<Addr>)
    requires x in v.objects && x in r.objects
    requires v.objects == (w.objects - gone)[x := v.objects[x]] && r.objects == (v.objects - more)[x := r.objects[x]]
    requires v.forest == Without(w.forest, gone) && r.forest == Without(v.forest, more)
    ensures r.objects == (w.objects - (gone + more))[x := r.objects[x]]
    ensures r.forest == Without(w.forest, gone + more)
  {
    WithoutTwice(w.forest, gone, more);
  }

  lemma WithoutTwice(f: Forest, gone: set<Addr>, more: set<Addr>)
    ensures Without(Without(f, gone), more) == Without(f, gone + more)
  {
    assert f.parent - gone - more == f.parent - (gone + more);
    assert f.anc - gone - more == f.anc - (gone + more);
  }

  lemma MoreUnder(f: Forest, v: Forest, x: Addr, g: Addr, gone: set<Addr>)
    requires Rooted(v) && v == Without(f, gone) && g in v.nodes && x in v.anc[g]
    ensures Below(v, g) <= Under(f, x)
  {
    forall y | y in Below(v, g)
      ensures y in Under(f, x)
    {
      if y != g {
        Transitive(v, y, g);
      }
    }
  }

  lemma ClearableLess(v: World, r: World, x: Addr, more: set<Addr>)
    requires Clearable(v, x) && x in v.objects && x in r.objects && r.objects[x].arena == v.objects[x].arena
    requires r.objects == (v.objects - more)[x := r.objects[x]] && r.forest == Without(v.forest, more) && x !in more
    ensures Clearable(r, x)
  {
  }

  lemma ArenasKeptTwice(w: World, v: World, r: World, x: Addr)
    requires ArenasKept(w, v, x) && ArenasKept(v, r, x)
    requires forall y :: y in r.objects && y != x ==> y in v.objects && r.objects[y] == v.objects[y]
    ensures ArenasKept(w, r, x)
  {
    forall y | y in r.objects && y != x && r.objects[y].arena.Some?
      ensures SameArenas(w, r, r.objects[y].arena.value)
    {
      assert SameArenas(w, v, v.objects[y].arena.value) && SameArenas(v, r, r.objects[y].arena.value);
    }
  }

  /** With no groups left, everything below x is gone, and its arena is free. */
  lemma NoGroupsLeft(w: World, r: World, x: Addr, gone: set<Addr>)
    requires Inv(r) && Clearing(w, r, x, gone) && r.objects[x].groups == []
    requires w.forest.anc.Keys == w.forest.nodes
    ensures gone == Under(w.forest, x)
    ensures r.objects[x].arena.Some? ==> r.objects[x].arena.value in r.arenas && SlotsFree(r.objects, r.objects[x].arena.value)
  {
    EmptyBelow(r, x);
    assert IsNode(r.forest, x);
    AllGone(w.forest, r.forest, x, gone);
    if r.objects[x].arena.Some? {
      OwnSlotsFree(r, x, r.objects[x].arena.value);
    }
  }

  lemma AllGone(f: Forest, r: Forest, x: Addr, gone: set<Addr>)
    requires r == Without(f, gone) && gone <= Under(f, x) && Under(r, x) <= {x} && x !in gone
    requires x in r.anc && x !in r.anc[x]
    ensures gone == Under(f, x)
  {
    forall y | y in Under(f, x)
      ensures y in gone
    {
      assert y !in gone ==> y in Under(r, x);
    }
  }

  lemma OwnSlotsFree(w: World, x: Addr, a: nat)
    requires Inv(w) && x in w.objects && w.objects[x].groups == [] && w.objects[x].arena == Some(a) && Clearable(w, x)
    ensures a in w.arenas && SlotsFree(w.objects, a)
  {
    forall c | c in w.objects && c.Slot?
      ensures c.arena != a
    {
      SlotOf(w, c);
      if c in w.forest.parent {
        assert IsHeld(w.objects, w.forest.parent, c);
        DifferentArenas(w, x, w.forest.parent[c]);
      }
    }
  }

  lemma ClearedIs(w: World, v: World, r: World, x: Addr, gone: set<Addr>)
    requires Inv(v) && Inv(r) && Clearing(w, v, x, gone) && v.objects[x].groups == []
    requires w.forest.anc.Keys == w.forest.nodes
    requires v.objects[x].arena.Some? ==> v.objects[x].arena.value in v.arenas
    requires r == if v.objects[x].arena.Some? then ArenaReset(v, v.objects[x].arena.value) else v
    ensures Cleared(w, r, x)
  {
    NoGroupsLeft(w, v, x, gone);
    assert r.objects[x] == w.objects[x].(fields := [], groups := []);
    forall y | y in r.objects && y != x && r.objects[y].arena.Some?
      ensures SameArenas(w, r, r.objects[y].arena.value)
    {
      assert SameArenas(w, v, v.objects[y].arena.value);
      DifferentArenas(v, x, y);
    }
  }

  /** The arenas of the others, when x's own is dropped or counted differently. */
  lemma OthersKept(w: World, v: World, r: World, x: Addr)
    requires ArenasKept(w, v, x) && Sheltered(v) && x in v.objects
    requires forall y :: y in r.objects && y != x ==> y in v.objects && r.objects[y] == v.objects[y]
    requires forall a :: a in v.arenas && v.objects[x].arena != Some(a) ==> a in r.arenas && r.arenas[a] == v.arenas[a]
    ensures ArenasKept(w, r, x)
  {
    forall y | y in r.objects && y != x && r.objects[y].arena.Some?
      ensures SameArenas(w, r, r.objects[y].arena.value)
    {
      assert SameArenas(w, v, v.objects[y].arena.value);
      DifferentArenas(v, x, y);
    }
  }

  lemma ObjectsWithout(objects: map<Addr, Object>, gone: set<Addr>, x: Addr, o: Object, u: Object)
    ensures (objects - gone)[x := o][x := u] - {x} == objects - (gone + {x})
    ensures (objects - gone)[x := o] - {x} == objects - (gone + {x})
  {
  }

  lemma DestroyedIs(w: World, v: World, u: World, r: World, x: Addr)
    requires Rooted(w.forest) && w.forest.nodes == w.objects.Keys && Cleared(w, v, x) && x !in w.forest.parent
    requires Sheltered(v)
    requires u == (if v.objects[x].arena.Some? then ArenaDropped(v, x, v.objects[x].arena.value) else v)
    requires r == Buried(u, x)
    ensures Destroyed(w, r, x)
  {
    DestroyedObjects(w, v, u, r, x);
    WithoutTwice(w.forest, Under(w.forest, x), {x});
    DestroyedOthers(w, v, u, r, x);
  }

  lemma DestroyedOthers(w: World, v: World, u: World, r: World, x: Addr)
    requires Cleared(w, v, x) && Sheltered(v)
    requires u == (if v.objects[x].arena.Some? then ArenaDropped(v, x, v.objects[x].arena.value) else v)
    requires r == Buried(u, x)
    ensures ArenasKept(w, r, x) && BlocksGone(w, r, Under(w.forest, x))
  {
    OthersKept(w, v, r, x);
  }

  lemma DestroyedObjects(w: World, v: World, u: World, r: World, x: Addr)
    requires Cleared(w, v, x)
    requires u == (if v.objects[x].arena.Some? then ArenaDropped(v, x, v.objects[x].arena.value) else v)
    requires r == Buried(u, x)
    ensures r.objects == w.objects - Below(w.forest, x)
  {
    ObjectsWithout(w.objects, Under(w.forest, x), x, v.objects[x], u.objects[x]);
  }

  /** The group is dead, its storage is still reserved, and x has the arena that it had. */
  lemma ReadyToDeallocate(w: World, v: World, u: World, x: Addr, k: nat, g: Addr)
    requires Inv(w) && x in w.objects && k < |w.objects[x].groups| && g == w.objects[x].groups[k].at && g in w.forest.nodes
    requires v == Unlinked(w, x, k) && Destroyed(v, u, g) && Inv(u) && Below(v.forest, g) == Below(w.forest, g)
    requires Under(v.forest, g) == Under(w.forest, g)
    ensures x in u.objects && g !in u.objects && (u.objects[x].arena.Some? ==> u.objects[x].arena.value in u.arenas)
    ensures (g.Block? && g.id in u.blocks) || (g.Slot? && u.objects[x].arena == Some(g.arena))
  {
    HeldStorage(w, x, k);
    NotUnderItself(w.forest, g);
  }

  lemma NotUnderItself(f: Forest, g: Addr)
    requires Rooted(f) && g in f.nodes
    ensures g !in Under(f, g)
  {
    assert IsNode(f, g);
  }

  lemma HeldGoneIs(w: World, v: World, u: World, r: World, x: Addr, k: nat, g: Addr)
    requires Inv(w) && x in w.objects && k < |w.objects[x].groups| && g == w.objects[x].groups[k].at && g in w.forest.nodes
    requires v == Unlinked(w, x, k) && Destroyed(v, u, g) && Sheltered(u)
    requires x in u.objects && (u.objects[x].arena.Some? ==> u.objects[x].arena.value in u.arenas)
    requires (g.Block? || (g.Slot? && u.objects[x].arena == Some(g.arena))) && r == Deallocated(u, u.objects[x].arena, g)
    ensures HeldGone(w, r, x, k)
  {
    HeldStorage(w, x, k);
    GroupOf(w, x, k);
    UnderDetached(w.forest, g);
    WithoutDetached(w.forest, g);
    OthersStill(w, v, u, x, g);
    HeldGoneParts(w, v, u, r, x, k, g);
  }

  lemma HeldGoneParts(w: World, v: World, u: World, r: World, x: Addr, k: nat, g: Addr)
    requires x in w.objects && k < |w.objects[x].groups| && g == w.objects[x].groups[k].at
    requires v.objects == w.objects[x := w.objects[x].(groups := RemoveAt(w.objects[x].groups, k))]
    requires v.blocks == w.blocks && v.next == w.next && Below(v.forest, g) == Below(w.forest, g)
    requires Under(v.forest, g) == Under(w.forest, g) && Without(v.forest, Below(w.forest, g)) == Without(w.forest, Below(w.forest, g))
    requires Destroyed(v, u, g) && Sheltered(u) && ArenasKept(w, u, x) && x !in Below(w.forest, g)
    requires x in u.objects && (u.objects[x].arena.Some? ==> u.objects[x].arena.value in u.arenas)
    requires (g.Block? || (g.Slot? && u.objects[x].arena == Some(g.arena))) && r == Deallocated(u, u.objects[x].arena, g)
    ensures HeldGone(w, r, x, k)
  {
    OthersKept(w, u, r, x);
    BlocksToo(w, u, r, g);
    ObjectsUpdated(w.objects, x, v.objects[x], Below(w.forest, g));
  }

  lemma ObjectsUpdated(objects: map<Addr, Object>, x: Addr, o: Object, gone: set<Addr>)
    requires x !in gone
    ensures objects[x := o] - gone == (objects - gone)[x := o]
  {
  }

  lemma OthersStill(w: World, v: World, u: World, x: Addr, g: Addr)
    requires ArenasKept(v, u, g) && v.arenas == w.arenas && g !in u.objects
    ensures ArenasKept(w, u, x)
  {
    forall y | y in u.objects && y != x && u.objects[y].arena.Some?
      ensures SameArenas(w, u, u.objects[y].arena.value)
    {
      assert SameArenas(v, u, u.objects[y].arena.value);
    }
  }

  lemma BlocksToo(w: World, u: World, r: World, g: Addr)
    requires BlocksGone(w, u, Under(w.forest, g)) && (g.Block? || g.Slot?)
    requires r.blocks == if g.Block? then u.blocks - {g.id} else u.blocks
    ensures BlocksGone(w, r, Below(w.forest, g))
  {
  }

  /** What is detached and then removed is as if it had been removed. */
  lemma WithoutDetached(f: Forest, g: Addr)
    requires Rooted(f) && g in f.parent
    ensures Without(Detached(f, g), Below(f, g)) == Without(f, Below(f, g))
  {
    var d, gone := Detached(f, g), Below(f, g);
    assert d.parent - gone == f.parent - gone;
    SameElsewhere(d.anc, f.anc, gone);
  }

  lemma SameElsewhere(m: map<Addr, set<Addr>>, n: map<Addr, set<Addr>>, gone: set<Addr>)
    requires m.Keys == n.Keys && forall y :: y in n && y !in gone ==> m[y] == n[y]
    ensures m - gone == n - gone
  {
  }

  // ----- why copying does what it does

  /** The forest has grown: old nodes have the ancestors and the parents that they had. */
  ghost predicate ForestGrown(f: Forest, r: Forest) {
    && f.nodes == f.anc.Keys && r.nodes == r.anc.Keys && f.nodes <= r.nodes
    && (forall y :: y in f.nodes ==> r.anc[y] == f.anc[y])
    && (forall y :: y in f.nodes ==> (y in r.parent <==> y in f.parent))
    && forall y :: y in r.nodes && y !in f.nodes ==> r.anc[y] !! f.nodes
  }

  /** The memory has grown: every field map is as it was, and so is every arena but one. Each
      new block has a field map in it. */
  ghost predicate Grown(w: World, r: World, a: Option<nat>) {
    && w.forest.nodes == w.objects.Keys && r.forest.nodes == r.objects.Keys && ForestGrown(w.forest, r.forest)
    && (forall y :: y in w.objects ==> r.objects[y] == w.objects[y])
    && (forall b :: b in w.arenas && a != Some(b) ==> SameArenas(w, r, b))
    && (forall id :: id in w.blocks ==> id in r.blocks)
    && (forall id :: id in r.blocks ==> id in w.blocks || Block(id) in r.objects)
    && w.next <= r.next
  }

  /** What is new is x and below x, and nothing holds x yet. */
  ghost predicate CopyOf(w: World, r: World, x: Addr, a: Option<nat>) {
    && Grown(w, r, a) && x in r.objects && x !in w.objects && x !in r.forest.parent
    && forall y :: y in r.objects && y !in w.objects ==> y == x || x in r.forest.anc[y]
  }

  /** While x is made, its arena, if it has one yet, is new too. */
  ghost predicate Copying(w: World, r: World, x: Addr) {
    && CopyOf(w, r, x, None)
    && (r.objects[x].arena.Some? ==> r.objects[x].arena.value !in w.arenas && r.objects[x].arena.value in r.arenas)
  }

  lemma BuiltCopy(w: World, x: Addr, o: Object)
    requires Inv(w) && CanBuild(w, x) && OwnsNothing(o)
    ensures Copying(w, Built(w, x, o), x)
  {
    NotHeldYet(w, x);
    NodeGrown(w.forest, x);
    BuiltMemory(w, x, o);
  }

  lemma NodeGrown(f: Forest, x: Addr)
    requires f.nodes == f.anc.Keys && x !in f.nodes
    ensures ForestGrown(f, WithNode(f, x))
  {
  }

  lemma BuiltMemory(w: World, x: Addr, o: Object)
    requires w.forest.nodes == w.objects.Keys && x !in w.objects && x !in w.forest.parent && OwnsNothing(o)
    requires ForestGrown(w.forest, Built(w, x, o).forest)
    ensures Copying(w, Built(w, x, o), x)
  {
  }

  lemma NotHeldYet(w: World, x: Addr)
    requires Shaped(w) && x !in w.objects
    ensures x !in w.forest.parent
  {
  }

  lemma ArenaForCopy(w: World, v: World, r: World, x: Addr)
    requires Copying(w, v, x) && ArenasSized(w.arenas, w.next) && x in v.objects
    requires r == if v.objects[x].arena.Some? then v else ArenaMade(v, x)
    ensures Copying(w, r, x)
  {
    if v.objects[x].arena == None {
      assert v.next !in w.arenas;
      forall b | b in w.arenas
        ensures SameArenas(w, r, b)
      {
        assert SameArenas(w, v, b);
      }
    }
  }

  lemma AllocatedCopy(w: World, v: World, r: World, g: Addr, a: nat)
    requires a in w.arenas && g == Allocated(w, a).0 && v == Allocated(w, a).1 && CopyOf(v, r, g, None)
    ensures CopyOf(w, r, g, Some(a))
    ensures !g.Variable? && (g.Slot? ==> g.arena == a)
  {
    forall b | b in w.arenas && b != a
      ensures SameArenas(w, r, b)
    {
      assert SameArenas(v, r, b);
    }
  }

  lemma SameUnder(w: World, r: World, c: Addr)
    requires Grown(w, r, None) && c in w.objects
    ensures Under(r.forest, c) == Under(w.forest, c)
  {
  }

  lemma CloneMade(w: World, v: World, r: World, x: Addr, g: Addr)
    requires Copying(w, v, x) && Rooted(v.forest) && CopyOf(v, r, g, v.objects[x].arena)
    requires !g.Variable? && (g.Slot? ==> v.objects[x].arena == Some(g.arena))
    ensures CanLink(r, x, g)
  {
    assert IsNode(v.forest, x);
  }

  /** Old field maps are not below the clone, and new ones are. */
  lemma CloneAbove(v: World, u: World, x: Addr, g: Addr, y: Addr)
    requires Rooted(v.forest) && x in v.objects && CopyOf(v, u, g, v.objects[x].arena) && y in u.objects
    ensures y in u.forest.nodes && x in u.forest.nodes
    ensures AncAttached(u.forest, x, g, y) == u.forest.anc[y] + (if y in v.objects then {} else Up(v.forest, x))
  {
    if y in v.objects {
      assert IsNode(v.forest, y);
    }
  }

  lemma CloneForest(w: World, v: World, u: World, x: Addr, g: Addr)
    requires Copying(w, v, x) && Rooted(v.forest) && CopyOf(v, u, g, v.objects[x].arena)
    ensures ForestGrown(w.forest, Attached(u.forest, x, g))
  {
    var r := Attached(u.forest, x, g);
    forall y | y in r.nodes
      ensures if y in w.forest.nodes then r.anc[y] == w.forest.anc[y] else r.anc[y] !! w.forest.nodes
    {
      CloneForestAt(w, v, u, x, g, y);
    }
  }

  lemma CloneForestAt(w: World, v: World, u: World, x: Addr, g: Addr, y: Addr)
    requires Copying(w, v, x) && Rooted(v.forest) && CopyOf(v, u, g, v.objects[x].arena) && y in u.forest.nodes
    ensures var up := AncAttached(u.forest, x, g, y);
      if y in w.forest.nodes then up == w.forest.anc[y] else up !! w.forest.nodes
  {
    CloneAbove(v, u, x, g, y);
  }

  lemma CloneBelow(w: World, v: World, u: World, x: Addr, g: Addr, y: Addr)
    requires Copying(w, v, x) && Rooted(v.forest) && CopyOf(v, u, g, v.objects[x].arena)
    requires y in u.objects && y !in w.objects
    ensures y in u.forest.nodes && (y == x || x in AncAttached(u.forest, x, g, y))
  {
    CloneAbove(v, u, x, g, y);
  }

  lemma CloneLinked(w: World, v: World, u: World, r: World, x: Addr, k: nat, g: Held)
    requires Copying(w, v, x) && Rooted(v.forest) && CopyOf(v, u, g.at, v.objects[x].arena) && CanLink(u, x, g.at)
    requires v.objects[x].arena.Some? && v.objects[x].arena.value in u.arenas
    requires k <= |u.objects[x].groups| && r == LinkedTo(u, x, k, g)
    ensures Copying(w, r, x)
  {
    CloneForest(w, v, u, x, g.at);
    CloneMemory(w, v, u, r, x, k, g);
    forall y | y in r.objects && y !in w.objects
      ensures y == x || x in r.forest.anc[y]
    {
      CloneBelow(w, v, u, x, g.at, y);
    }
  }

  lemma CloneMemory(w: World, v: World, u: World, r: World, x: Addr, k: nat, g: Held)
    requires Copying(w, v, x) && CopyOf(v, u, g.at, v.objects[x].arena) && CanLink(u, x, g.at)
    requires v.objects[x].arena.Some? && k <= |u.objects[x].groups| && r == LinkedTo(u, x, k, g)
    requires ForestGrown(w.forest, r.forest)
    ensures Grown(w, r, None)
  {
    forall b | b in w.arenas
      ensures SameArenas(w, r, b)
    {
      assert SameArenas(w, v, b);
      assert SameArenas(v, u, b);
    }
  }

  // ----- between the operations

  /** All field maps but those of one set are as they were. */
  ghost predicate Same(w: World, r: World, but: set<Addr>) {
    forall y :: y in w.objects && y !in but ==> y in r.objects && r.objects[y] == w.objects[y]
  }

  function CountTag(groups: seq<Held>, tag: int): nat {
    if groups == [] then 0 else (if groups[0].tag == tag then 1 else 0) + CountTag(groups[1..], tag)
  }

  /** The fields, once the count field of a tag is set. */
  function WithCount(o: Object, tag: int): seq<Fields.Field> {
    FieldMaps.SetIn(o.order, o.fields, FieldMaps.CountField(tag, CountTag(o.groups, tag)), true)
  }

  /** getArena */
  function WithArena(w: World, h: Addr): World
    requires h in w.objects
  {
    if w.objects[h].arena.Some? then w else ArenaMade(w, h)
  }

  /** addGroupPtr */
  function TakenOver(w: World, h: Addr, tag: int, g: Addr, setCount: bool): World
    requires w.forest.anc.Keys == w.forest.nodes && h in w.forest.nodes && h in w.objects
  {
    var r := LinkedTo(w, h, PlaceFor(w.objects[h].groups, tag), Held(tag, g));
    if setCount then WithFields(r, h, WithCount(r.objects[h], tag)) else r
  }

  /** The map has one group more, behind those of the same tag, and perhaps its count. */
  ghost predicate GroupAdded(w: World, r: World, h: Addr, tag: int, g: Addr, setCount: bool) {
    && h in w.objects && h in r.objects && g in r.objects
    && var o, u := w.objects[h], r.objects[h];
    && u.order == o.order && u.groups == WithHeld(o.groups, PlaceFor(o.groups, tag), Held(tag, g))
    && u.fields == if setCount then WithCount(o.(groups := u.groups), tag) else o.fields
  }

  /** The position of the num-th pointer under a tag. */
  function Nth(groups: seq<Held>, num: int, tag: int): Option<nat> {
    if groups == [] then None
    else if groups[0].tag == tag && num == 1 then Some(0)
    else Shifted(Nth(groups[1..], if groups[0].tag == tag then num - 1 else num, tag), 1)
  }

  function Shifted(k: Option<nat>, i: nat): Option<nat> {
    if k.Some? then Some(k.value + i) else None
  }

  lemma {:induction false} NthIs(groups: seq<Held>, num: int, tag: int)
    ensures var k := Nth(groups, num, tag); k.Some? ==> k.value < |groups| && groups[k.value].tag == tag
  {
    if groups != [] {
      NthIs(groups[1..], if groups[0].tag == tag then num - 1 else num, tag);
    }
  }

  function OtherTags(groups: seq<Held>, tag: int): seq<Held> {
    if groups == [] then [] else (if groups[0].tag == tag then [] else [groups[0]]) + OtherTags(groups[1..], tag)
  }

  lemma {:induction false} OtherTagsWithout(groups: seq<Held>, k: nat, tag: int)
    requires k < |groups| && groups[k].tag == tag
    ensures OtherTags(RemoveAt(groups, k), tag) == OtherTags(groups, tag)
  {
    if k == 0 {
      assert RemoveAt(groups, k) == groups[1..];
    } else {
      OtherTagsWithout(groups[1..], k - 1, tag);
      assert RemoveAt(groups, k)[1..] == RemoveAt(groups[1..], k - 1);
    }
  }

  /** A tag has no pointers exactly when the first is not found. */
  lemma {:induction false} FoundOrNone(groups: seq<Held>, tag: int)
    ensures Nth(groups, 1, tag) == None <==> OtherTags(groups, tag) == groups
    ensures Nth(groups, 1, tag).Some? ==> |OtherTags(groups, tag)| < |groups|
    ensures |OtherTags(groups, tag)| <= |groups|
  {
    if groups != [] {
      FoundOrNone(groups[1..], tag);
    }
  }

  /** removeField, when the tag has no groups. */
  function DropOne(fields: seq<Fields.Field>, tag: int): seq<Fields.Field> {
    RemoveAt(fields, FieldMaps.First(fields, tag))
  }

  function GroupsRemoved(o: Object, tag: int): Object {
    if OtherTags(o.groups, tag) == o.groups then o
    else o.(groups := OtherTags(o.groups, tag), fields := DropOne(o.fields, tag))
  }

  function FieldRemoved(o: Object, tag: int): Object {
    if FieldMaps.First(o.fields, tag) == |o.fields| then o
    else GroupsRemoved(o.(fields := DropOne(o.fields, tag)), tag)
  }

  lemma {:induction false} OtherTagsTwice(groups: seq<Held>, tag: int)
    ensures OtherTags(OtherTags(groups, tag), tag) == OtherTags(groups, tag)
  {
    if groups != [] {
      OtherTagsTwice(groups[1..], tag);
      if groups[0].tag == tag {
        assert OtherTags(groups, tag) == OtherTags(groups[1..], tag);
      } else {
        assert OtherTags(groups, tag)[1..] == OtherTags(groups[1..], tag);
      }
    }
  }

  /** Removing the groups first and then the field once more. */
  lemma GroupsThenField(o: Object, tag: int)
    requires OtherTags(o.groups, tag) != o.groups
    ensures FieldRemoved(o.(groups := OtherTags(o.groups, tag)), tag) == GroupsRemoved(o, tag)
  {
    OtherTagsTwice(o.groups, tag);
  }

  /** Nothing is new, and at most x has changed. */
  ghost predicate OnlyAt(w: World, r: World, x: Addr) {
    forall y :: y in r.objects && y != x ==> y in w.objects && r.objects[y] == w.objects[y]
  }

  /** Nothing has changed but x; of what was below it, some may be gone. */
  ghost predicate Trimmed(w: World, r: World, x: Addr) {
    && Same(w, r, Below(w.forest, x)) && OnlyAt(w, r, x)
    && forall y :: y in r.forest.anc ==> y in w.forest.anc && r.forest.anc[y] == w.forest.anc[y]
  }

  lemma TrimmedTwice(w: World, v: World, r: World, x: Addr)
    requires Trimmed(w, v, x) && Trimmed(v, r, x)
    ensures Trimmed(w, r, x)
  {
  }

  lemma TrimmedByFields(w: World, x: Addr, fields: seq<Fields.Field>)
    requires x in w.objects
    ensures Trimmed(w, WithFields(w, x, fields), x)
  {
  }

  lemma TrimmedByGroup(w: World, r: World, x: Addr, k: nat)
    requires Inv(w) && HeldGone(w, r, x, k)
    ensures Trimmed(w, r, x)
  {
    GroupOf(w, x, k);
    UnderChild(w.forest, w.objects[x].groups[k].at, x);
    TrimmedBy(w, r, x, w.objects[x].groups[k].at);
  }

  lemma TrimmedBy(w: World, r: World, x: Addr, g: Addr)
    requires Below(w.forest, g) <= Below(w.forest, x) && x in w.objects && x in r.objects
    requires r.objects == (w.objects - Below(w.forest, g))[x := r.objects[x]]
    requires r.forest == Without(w.forest, Below(w.forest, g))
    ensures Trimmed(w, r, x)
  {
  }

  lemma TrimmedByMore(w: World, v: World, r: World, x: Addr, k: nat)
    requires Inv(v) && Trimmed(w, v, x) && HeldGone(v, r, x, k)
    ensures Trimmed(w, r, x)
  {
    TrimmedByGroup(v, r, x, k);
    TrimmedTwice(w, v, r, x);
  }

  /** One group is gone, and the count field says so, or is gone too. */
  ghost predicate GroupRemoved(w: World, r: World, x: Addr, k: nat, tag: int) {
    exists v :: HeldGone(w, v, x, k) && x in v.objects && r == WithFields(v, x,
      if CountTag(v.objects[x].groups, tag) == 0 then DropOne(v.objects[x].fields, tag) else WithCount(v.objects[x], tag))
  }

  lemma NextKeeps(w: World)
    requires Inv(w)
    ensures Inv(w.(next := w.next + 1)) && CanBuild(w.(next := w.next + 1), Variable(w.next))
  {
    ShelterNext(w);
  }

  lemma ShelterNext(w: World)
    requires Sheltered(w)
    ensures Sheltered(w.(next := w.next + 1)) && Variable(w.next) !in w.objects
  {
  }

  lemma BlockKeeps(w: World)
    requires Inv(w)
    ensures Inv(BlockTaken(w))
    ensures CanBuild(BlockTaken(w), Block(w.next))
  {
    ShelterBlock(w);
  }

  lemma ShelterBlock(w: World)
    requires Sheltered(w)
    ensures Sheltered(BlockTaken(w)) && Block(w.next) !in w.objects
  {
  }

  /** New groups in slots are held: they are below the copy. */
  lemma CopyRests(w: World, v: World, r: World, x: Addr)
    requires AtRest(w) && v == w.(next := w.next + 1) && Rooted(r.forest) && x.Variable?
    requires CopyOf(v, r, x, None)
    ensures AtRest(r) && CopyOf(w, r, x, None) && Same(w, r, {})
  {
    assert Grown(w, r, None) by {
      forall b | b in w.arenas
        ensures SameArenas(w, r, b)
      {
        assert SameArenas(v, r, b);
      }
    }
    NewSlotsHeld(w, r, x);
  }

  lemma NewSlotsHeld(w: World, r: World, x: Addr)
    requires AtRest(w) && Rooted(r.forest) && w.forest.nodes == w.objects.Keys && r.forest.nodes == r.objects.Keys
    requires ForestGrown(w.forest, r.forest)
    requires forall y :: y in r.objects && y !in w.objects ==> y == x || x in r.forest.anc[y]
    ensures forall c :: c in r.objects && c.Slot? && c != x ==> c in r.forest.parent
  {
    forall c | c in r.objects && c.Slot? && c != x
      ensures c in r.forest.parent
    {
      if c !in w.objects {
        assert IsNode(r.forest, c);
      }
    }
  }

  lemma BlockRests(w: World, v: World, r: World, g: Addr)
    requires AtRest(w) && v == BlockTaken(w) && Rooted(r.forest)
    requires g == Block(w.next) && CopyOf(v, r, g, None)
    ensures AtRest(r) && CopyOf(w, r, g, None)
  {
    assert Grown(w, r, None) by {
      forall b | b in w.arenas
        ensures SameArenas(w, r, b)
      {
        assert SameArenas(v, r, b);
      }
    }
    NewSlotsHeld(w, r, g);
  }

  /** A field map that nothing holds is unrelated to every other that is not below it. */
  lemma RootUnrelated(w: World, x: Addr, t: Addr)
    requires Inv(w) && x in w.objects && t in w.objects && t !in w.forest.parent && x != t && t !in w.forest.anc[x]
    ensures CanSwap(w, x, t) && CanSwap(w, t, x)
  {
    assert IsNode(w.forest, t);
  }

  lemma RestSwapped(w: World, x: Addr, y: Addr)
    requires AtRest(w) && w.forest.anc.Keys == w.forest.nodes == w.objects.Keys && CanSwap(w, x, y)
    ensures AtRest(Swapped(w, x, y)) && Swapped(w, x, y).objects.Keys == w.objects.Keys
  {
  }

  lemma RestClearable(w: World, x: Addr)
    requires AtRest(w)
    ensures Clearable(w, x)
  {
  }

  lemma CloneCanLink(v: World, u: World, h: Addr, g: Addr)
    requires Rooted(v.forest) && h in v.objects && CopyOf(v, u, g, v.objects[h].arena)
    requires !g.Variable? && (g.Slot? ==> v.objects[h].arena == Some(g.arena))
    ensures CanLink(u, h, g)
  {
    assert IsNode(v.forest, h);
  }

  lemma CloneRests(w: World, v: World, u: World, r: World, h: Addr, tag: int, g: Addr, setCount: bool)
    requires AtRest(w) && h in w.objects && v == WithArena(w, h)
    requires CopyOf(v, u, g, v.objects[h].arena) && Rooted(u.forest) && CanLink(u, h, g)
    requires r == TakenOver(u, h, tag, g, setCount)
    ensures AtRest(r) && Same(w, r, {h}) && GroupAdded(w, r, h, tag, g, setCount) && g !in w.objects
  {
    CloneHeld(v, u, r, h, tag, g, setCount);
    CloneIsAdded(w, v, u, r, h, tag, g, setCount);
  }

  lemma CloneIsAdded(w: World, v: World, u: World, r: World, h: Addr, tag: int, g: Addr, setCount: bool)
    requires h in w.objects && v == WithArena(w, h)
    requires CopyOf(v, u, g, v.objects[h].arena) && CanLink(u, h, g) && u.forest.anc.Keys == u.forest.nodes
    requires r == TakenOver(u, h, tag, g, setCount)
    ensures Same(w, r, {h}) && GroupAdded(w, r, h, tag, g, setCount) && g !in w.objects
  {
  }

  lemma CloneHeld(v: World, u: World, r: World, h: Addr, tag: int, g: Addr, setCount: bool)
    requires AtRest(v) && h in v.objects && CopyOf(v, u, g, v.objects[h].arena)
    requires Rooted(u.forest) && CanLink(u, h, g) && r == TakenOver(u, h, tag, g, setCount)
    ensures AtRest(r)
  {
    NewSlotsHeld(v, u, g);
  }

  lemma ClearedRests(w: World, r: World, x: Addr)
    requires AtRest(w) && Cleared(w, r, x) && Rooted(w.forest) && x in w.forest.nodes
    ensures AtRest(r) && Same(w, r, Below(w.forest, x))
  {
    assert IsNode(w.forest, x);
  }

  /** A copy is unrelated to every older field map. */
  lemma NewUnrelated(w: World, r: World, y: Addr, x: Addr)
    requires Shaped(w) && Inv(r) && CopyOf(w, r, x, None) && y in w.objects
    ensures CanSwap(r, y, x) && CanSwap(r, x, y)
  {
    assert IsNode(w.forest, y);
    RootUnrelated(r, y, x);
  }

  predicate Bare(o: Object) {
    OwnsNothing(o) && o.fields == []
  }

  lemma MovedIs(w: World, v: World, r: World, x: Addr, y: Addr)
    requires CopyOf(w, v, x, None) && y in w.objects && Bare(v.objects[x])
    requires CanSwap(v, x, y) && v.forest.anc.Keys == v.forest.nodes && r == Swapped(v, x, y)
    ensures x !in w.objects && Same(w, r, {y}) && x in r.objects && y in r.objects
    ensures r.objects[x] == w.objects[y] && Bare(r.objects[y])
  {
  }

  /** x and y have what the other had; no other field map has changed. */
  ghost predicate Traded(w: World, r: World, x: Addr, y: Addr) {
    && x in w.objects && y in w.objects && r.objects.Keys == w.objects.Keys && Same(w, r, {x, y})
    && r.objects[x] == w.objects[y] && r.objects[y] == w.objects[x]
  }

  lemma TradedIs(w: World, r: World, x: Addr, y: Addr)
    requires CanSwap(w, x, y) && w.forest.anc.Keys == w.forest.nodes && r == Swapped(w, x, y)
    ensures Traded(w, r, x, y)
  {
  }

  /** x has what y had, y nothing; of the others only what was below x has changed. */
  ghost predicate MovedTo(w: World, r: World, x: Addr, y: Addr) {
    && x in r.objects && y in r.objects && y in w.objects && Same(w, r, Below(w.forest, x) + {y})
    && r.objects[x] == w.objects[y] && Bare(r.objects[y])
  }

  lemma HandedOver(w: World, v: World, r: World, x: Addr, y: Addr)
    requires Same(w, v, Below(w.forest, x)) && CanSwap(v, x, y) && v.forest.anc.Keys == v.forest.nodes
    requires r == Swapped(v, x, y) && y in w.objects && v.objects[y] == w.objects[y] && Bare(v.objects[x])
    ensures MovedTo(w, r, x, y)
  {
  }

  lemma DestroyedRests(w: World, r: World, x: Addr)
    requires AtRest(w) && Destroyed(w, r, x) && x.Variable?
    ensures AtRest(r)
  {
  }

  lemma HeldGoneRests(w: World, r: World, x: Addr, k: nat)
    requires AtRest(w) && HeldGone(w, r, x, k)
    ensures AtRest(r)
  {
  }

  /** Clearing x leaves an unrelated map where it was. */
  lemma UnrelatedStill(w: World, v: World, r: World, x: Addr, y: Addr)
    requires Rooted(w.forest) && w.forest.nodes == w.objects.Keys && CanSwap(w, x, y) && Cleared(w, v, x) && AtRest(v)
    requires r == (if v.objects[x].arena.Some? then ArenaDropped(v, x, v.objects[x].arena.value) else v)
    ensures CanSwap(r, x, y) && AtRest(r)
    ensures Bare(r.objects[x]) && r.objects[y] == w.objects[y]
    ensures Same(w, r, Below(w.forest, x))
  {
    assert IsNode(w.forest, x);
    UnrelatedCleared(w, v, x, y);
  }

  lemma UnrelatedCleared(w: World, v: World, x: Addr, y: Addr)
    requires CanSwap(w, x, y) && Cleared(w, v, x) && x !in w.forest.anc[x]
    ensures CanSwap(v, x, y) && v.objects[y] == w.objects[y] && Same(w, v, Below(w.forest, x))
  {
  }

  /** What was not below x is not below the temporary that takes over from x. */
  lemma NotTaken(w: World, v: World, x: Addr, t: Addr, y: Addr)
    requires Rooted(w.forest) && x in w.objects && CopyOf(w, v, t, None) && CanSwap(v, x, t)
    requires v.forest.anc.Keys == v.forest.nodes && y in w.objects && y !in Under(w.forest, x)
    ensures y in v.objects && y !in Below(Exchanged(v.forest, x, t), t)
  {
    assert IsNode(w.forest, y);
    assert t !in v.forest.anc[y] && x !in v.forest.anc[y];
    assert AncExchanged(v.forest, x, t, v.forest.anc[y]) == v.forest.anc[y];
  }

  lemma AssignedIs(w: World, v: World, u: World, r: World, x: Addr, t: Addr)
    requires Rooted(w.forest) && x in w.objects && CopyOf(w, v, t, None) && CanSwap(v, x, t)
    requires v.forest.anc.Keys == v.forest.nodes
    requires u == Swapped(v, x, t) && Destroyed(u, r, t)
    ensures x in r.objects && Same(w, r, Below(w.forest, x))
    ensures x in w.forest.parent <==> x in r.forest.parent
  {
    assert IsNode(w.forest, x);
    NotTaken(w, v, x, t, x);
    forall y | y in w.objects && y !in Below(w.forest, x)
      ensures y in r.objects && r.objects[y] == w.objects[y]
    {
      NotTaken(w, v, x, t, y);
    }
  }

  lemma RootStorage(w: World, x: Addr)
    requires Inv(w) && AtRest(w) && x in w.objects && x !in w.forest.parent
    ensures !x.Slot? && (x.Block? ==> x.id in w.blocks && x !in Under(w.forest, x))
  {
    BlockOf(w, x);
    assert IsNode(w.forest, x);
  }

  lemma DeletedRests(w: World, r: World, x: Addr)
    requires AtRest(w) && r.objects == w.objects - Below(w.forest, x) && r.forest.parent == w.forest.parent - Below(w.forest, x)
    requires forall id :: id in r.blocks ==> id in w.blocks && Block(id) !in Below(w.forest, x)
    ensures AtRest(r)
  {
  }

  // ----- what the invariant says

  /** No two pointers are to one group, so live groups are in different slots; and a group in
      a slot is in the arena of the map that holds it, and of no other map. */
  lemma HeldOnce(w: World, p: Addr, i: nat, q: Addr, j: nat)
    requires Inv(w) && p in w.objects && i < |w.objects[p].groups| && q in w.objects && j < |w.objects[q].groups|
    ensures var c, d := w.objects[p].groups[i].at, w.objects[q].groups[j].at;
      && c in w.objects && (c == d ==> p == q && i == j)
      && (c.Slot? && d.Slot? && c.arena == d.arena ==> p == q)
      && (c.Slot? ==> w.objects[p].arena == Some(c.arena) && c.arena in w.arenas && c.index < w.arenas[c.arena].count)
      && (c.Block? ==> c.id in w.blocks)
  {
    HeldStorage(w, p, i);
    HeldStorage(w, q, j);
    GroupOf(w, p, i);
    GroupOf(w, q, j);
    SlotOf(w, w.objects[p].groups[i].at);
    assert HeldBy(w.objects[p].groups, w.forest.parent, p);
    if p != q {
      DifferentArenas(w, p, q);
    }
  }

  /** When the last field map is gone, so is every arena and every block. */
  lemma NothingLeft(w: World)
    requires Inv(w) && AtRest(w) && w.objects == map[]
    ensures w.arenas == map[] && w.blocks == {}
  {
    if w.arenas != map[] {
      assert w.arenas.Keys != {};
      var a :| a in w.arenas;
      SomeOwner(w, a);
    }
  }

  lemma SomeOwner(w: World, a: nat)
    requires Sheltered(w) && a in w.arenas
    ensures w.objects != map[]
  {
    assert Owned(w.objects, a);
    var x :| x in w.objects && w.objects[x].arena == Some(a);
  }

  /** There is always a field map that nothing holds. */
  lemma HasRoot(f: Forest) returns (x: Addr)
    requires Rooted(f) && f.nodes != {}
    ensures x in f.nodes && x !in f.parent
  {
    x :| x in f.nodes;
    while x in f.parent
      invariant x in f.nodes
      decreases f.anc[x]
    {
      assert IsChild(f, x) && IsNode(f, x) && IsNode(f, f.parent[x]);
      x := f.parent[x];
    }
  }
}
