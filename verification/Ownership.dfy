/** Who owns a group, and who frees it: field maps in arenas, heap blocks and variables, with
    pointers to their groups, through every copy, move, swap, addition and removal. What must
    not happen in memory is the precondition of the step that would do it. */
module Ownership {
  import opened Decimal
  import opened Forests
  import opened Sequences
  import Fields
  import MessageOrder

  /** GroupArena::DEFAULT_CAPACITY */
  const CAPACITY: nat := 32

  /** A pointer to a group, under its tag. */
  datatype Held = Held(tag: int, at: Addr)

  /** A field map: its order and fields, pointers to its groups, by ascending tag, and its arena. */
  datatype Object = Object(order: MessageOrder.Order, fields: seq<Fields.Field>, groups: seq<Held>, arena: Option<nat>)

  datatype Arena = Arena(capacity: nat, count: nat, overflow: nat)

  /** Every beginning and every end: of field maps, by address, and of the use of heap blocks. */
  datatype Ledger = Ledger(made: multiset<Addr>, ended: multiset<Addr>, taken: multiset<nat>, freed: multiset<nat>)

  /** The live field maps, the live arenas, the heap blocks in use, and the next unused name;
      and, for the proofs, who holds whom and the ledger. */
  datatype World = World(objects: map<Addr, Object>, arenas: map<nat, Arena>, blocks: set<nat>, next: nat,
                         forest: Forest, ledger: Ledger)

  // ----- the invariant

  ghost predicate Holds(groups: seq<Held>, c: Addr) {
    exists i :: 0 <= i < |groups| && groups[i].at == c
  }

  ghost predicate HeldBy(groups: seq<Held>, parent: map<Addr, Addr>, p: Addr) {
    && (forall i :: 0 <= i < |groups| ==> groups[i].at in parent && parent[groups[i].at] == p)
    && forall i, j :: 0 <= i < j < |groups| ==> groups[i].at != groups[j].at
  }

  /** Every pointer is to a live group whose parent holds it, once; every group with a parent
      is held by it. */
  ghost predicate Linked(objects: map<Addr, Object>, parent: map<Addr, Addr>) {
    && (forall p {:trigger HeldBy(objects[p].groups, parent, p)} ::
         p in objects ==> HeldBy(objects[p].groups, parent, p))
    && forall c {:trigger IsHeld(objects, parent, c)} :: c in parent ==> IsHeld(objects, parent, c)
  }

  ghost predicate IsHeld(objects: map<Addr, Object>, parent: map<Addr, Addr>, c: Addr)
    requires c in parent
  {
    c in objects && parent[c] in objects && Holds(objects[parent[c]].groups, c) && !c.Variable?
  }

  /** A group in a slot: the slot is in use, and the arena is that of the group's parent. */
  ghost predicate InItsSlot(objects: map<Addr, Object>, arenas: map<nat, Arena>, parent: map<Addr, Addr>, c: Addr)
    requires c.Slot?
  {
    && c.arena in arenas && c.index < arenas[c.arena].count
    && (c in parent ==> parent[c] in objects && objects[parent[c]].arena == Some(c.arena))
  }

  ghost predicate Owned(objects: map<Addr, Object>, a: nat) {
    exists x :: x in objects && objects[x].arena == Some(a)
  }

  ghost predicate SlotsInUse(objects: map<Addr, Object>, arenas: map<nat, Arena>, parent: map<Addr, Addr>) {
    forall c {:trigger InItsSlot(objects, arenas, parent, c)} ::
      c in objects && c.Slot? ==> InItsSlot(objects, arenas, parent, c)
  }

  /** Every arena has exactly one owner. */
  ghost predicate ArenasOwned(objects: map<Addr, Object>, arenas: map<nat, Arena>) {
    && (forall x :: x in objects && objects[x].arena.Some? ==> objects[x].arena.value in arenas)
    && (forall x, y :: x in objects && y in objects && SameArena(objects[x], objects[y]) ==> x == y)
    && forall a {:trigger Owned(objects, a)} :: a in arenas ==> Owned(objects, a)
  }

  predicate SameArena(o: Object, u: Object) {
    o.arena.Some? && o.arena == u.arena
  }

  /** An arena has 32 slots, and goes to the heap only when all of them were given out. */
  ghost predicate ArenasSized(arenas: map<nat, Arena>, next: nat) {
    forall a :: a in arenas ==>
      a < next && arenas[a].count <= arenas[a].capacity == 32 && (arenas[a].overflow > 0 ==> arenas[a].count == 32)
  }

  /** A field map in a heap block: the block is in use. */
  ghost predicate Stored(objects: map<Addr, Object>, blocks: set<nat>, next: nat) {
    && (forall c :: c in objects && c.Block? ==> c.id in blocks)
    && (forall c :: c in objects && c.Variable? ==> c.id < next)
    && forall id :: id in blocks ==> id < next
  }

  /** Pointers and parents agree, and form a forest. */
  ghost predicate Shaped(w: World) {
    w.forest.nodes == w.objects.Keys && Rooted(w.forest) && Linked(w.objects, w.forest.parent)
  }

  /** Storage is in use where field maps are alive. */
  ghost predicate Sheltered(w: World) {
    && SlotsInUse(w.objects, w.arenas, w.forest.parent) && ArenasOwned(w.objects, w.arenas)
    && ArenasSized(w.arenas, w.next) && Stored(w.objects, w.blocks, w.next)
  }

  /** What was made and has not ended is alive, what was taken and not freed is in use, and
      no block is taken twice. */
  ghost predicate Booked(w: World) {
    && w.ledger.made == w.ledger.ended + multiset(w.objects.Keys)
    && w.ledger.taken == w.ledger.freed + multiset(w.blocks)
    && forall id :: id in w.ledger.taken ==> id < w.next && w.ledger.taken[id] == 1
  }

  ghost predicate Inv(w: World) {
    Shaped(w) && Sheltered(w) && Booked(w)
  }

  lemma BooksSame(w: World, r: World)
    requires Booked(w) && r.ledger == w.ledger && r.objects.Keys == w.objects.Keys
    requires r.blocks == w.blocks && r.next >= w.next
    ensures Booked(r)
  {
  }

  /** Between two operations: no slot or block is in use without a group that is live, and
      every group in a slot is held. */
  ghost predicate AtRest(w: World) {
    && (forall c :: c in w.objects && c.Slot? ==> c in w.forest.parent)
    && forall id :: id in w.blocks ==> Block(id) in w.objects
  }

  // ----- the steps

  /** A field map begins its life, at storage that is reserved and where none is alive. */
  ghost predicate CanBuild(w: World, x: Addr) {
    && x !in w.objects
    && match x
       case Slot(a, i) => a in w.arenas && i < w.arenas[a].count
       case Block(id) => id in w.blocks
       case Variable(id) => id < w.next
  }

  function Built(w: World, x: Addr, o: Object): World {
    w.(objects := w.objects[x := o], forest := WithNode(w.forest, x),
       ledger := w.ledger.(made := w.ledger.made + multiset{x}))
  }

  predicate OwnsNothing(o: Object) {
    o.groups == [] && o.arena == None
  }

  lemma BuildKeeps(w: World, x: Addr, o: Object)
    requires Inv(w) && CanBuild(w, x) && OwnsNothing(o)
    ensures Inv(Built(w, x, o))
  {
    BuildKeepsShape(w, x, o);
    BuildKeepsShelter(w, x, o);
    BuildIsBooked(w, x, o);
  }

  lemma BuildIsBooked(w: World, x: Addr, o: Object)
    requires Booked(w) && x !in w.objects
    ensures Booked(Built(w, x, o))
  {
    assert w.objects[x := o].Keys == w.objects.Keys + {x};
  }

  lemma BuildKeepsShape(w: World, x: Addr, o: Object)
    requires Shaped(w) && x !in w.objects && OwnsNothing(o)
    ensures Shaped(Built(w, x, o))
  {
    NodeAdded(w.forest, x);
    BuildKeepsLinked(w.objects, w.forest.parent, x, o);
  }

  lemma BuildKeepsShelter(w: World, x: Addr, o: Object)
    requires Linked(w.objects, w.forest.parent) && Sheltered(w) && CanBuild(w, x) && OwnsNothing(o)
    ensures Sheltered(Built(w, x, o))
  {
    BuildKeepsSlots(w.objects, w.arenas, w.forest.parent, x, o);
    SameOwners(w.objects, w.objects[x := o], w.arenas);
  }

  lemma BuildKeepsLinked(objects: map<Addr, Object>, parent: map<Addr, Addr>, x: Addr, o: Object)
    requires Linked(objects, parent) && x !in objects && OwnsNothing(o)
    ensures Linked(objects[x := o], parent)
  {
    forall c | c in parent
      ensures IsHeld(objects[x := o], parent, c)
    {
      assert IsHeld(objects, parent, c);
    }
  }

  lemma BuildKeepsSlots(objects: map<Addr, Object>, arenas: map<nat, Arena>, parent: map<Addr, Addr>, x: Addr, o: Object)
    requires Linked(objects, parent) && SlotsInUse(objects, arenas, parent) && x !in objects
    requires x.Slot? ==> x.arena in arenas && x.index < arenas[x.arena].count
    ensures SlotsInUse(objects[x := o], arenas, parent)
  {
    var r := objects[x := o];
    forall c | c in r && c.Slot?
      ensures InItsSlot(r, arenas, parent, c)
    {
      if c in objects {
        assert InItsSlot(objects, arenas, parent, c);
      } else {
        assert c in parent ==> IsHeld(objects, parent, c);
      }
    }
  }

  /** The arenas have the owners that they had. */
  lemma SameOwners(objects: map<Addr, Object>, r: map<Addr, Object>, arenas: map<nat, Arena>)
    requires ArenasOwned(objects, arenas)
    requires forall x :: x in objects ==> x in r && r[x].arena == objects[x].arena
    requires forall x :: x in r && x !in objects ==> r[x].arena == None
    ensures ArenasOwned(r, arenas)
  {
    forall a | a in arenas
      ensures Owned(r, a)
    {
      assert Owned(objects, a);
      var x :| x in objects && objects[x].arena == Some(a);
      assert x in r;
    }
  }

  /** A pointer to a group goes after those of the same tag. */
  function PlaceFor(groups: seq<Held>, tag: int): (k: nat)
    ensures k <= |groups|
  {
    if groups == [] || groups[|groups| - 1].tag <= tag then |groups| else PlaceFor(groups[..|groups| - 1], tag)
  }

  function WithHeld(groups: seq<Held>, k: nat, g: Held): seq<Held>
    requires k <= |groups|
  {
    groups[..k] + [g] + groups[k..]
  }

  /** A live group without a parent gets one, which is not below it, and which owns the arena
      if the group is in one. */
  predicate CanLink(w: World, h: Addr, g: Addr) {
    && h in w.objects && g in w.objects && g !in w.forest.parent && !g.Variable?
    && h !in Below(w.forest, g)
    && (g.Slot? ==> w.objects[h].arena == Some(g.arena))
  }

  function LinkedTo(w: World, h: Addr, k: nat, g: Held): World
    requires w.forest.anc.Keys == w.forest.nodes && h in w.forest.nodes && h in w.objects
    requires k <= |w.objects[h].groups|
  {
    var o := w.objects[h];
    w.(objects := w.objects[h := o.(groups := WithHeld(o.groups, k, g))],
       forest := Attached(w.forest, h, g.at))
  }

  lemma HeldWith(groups: seq<Held>, parent: map<Addr, Addr>, p: Addr, k: nat, g: Held)
    requires HeldBy(groups, parent, p) && k <= |groups| && g.at !in parent
    ensures HeldBy(WithHeld(groups, k, g), parent[g.at := p], p)
    ensures forall c :: Holds(WithHeld(groups, k, g), c) <==> c == g.at || Holds(groups, c)
  {
    var r := WithHeld(groups, k, g);
    assert r[k] == g;
    forall c | Holds(groups, c)
      ensures Holds(r, c)
    {
      var i :| 0 <= i < |groups| && groups[i].at == c;
      assert r[if i < k then i else i + 1].at == c;
    }
  }

  lemma LinkKeeps(w: World, h: Addr, k: nat, g: Held)
    requires Inv(w) && CanLink(w, h, g.at) && k <= |w.objects[h].groups|
    ensures Inv(LinkedTo(w, h, k, g))
  {
    LinkKeepsShape(w, h, k, g);
    LinkKeepsShelter(w, h, k, g);
    BooksSame(w, LinkedTo(w, h, k, g));
  }

  lemma LinkKeepsShape(w: World, h: Addr, k: nat, g: Held)
    requires Shaped(w) && CanLink(w, h, g.at) && k <= |w.objects[h].groups|
    ensures Shaped(LinkedTo(w, h, k, g))
  {
    SubtreeAttached(w.forest, h, g.at);
    LinkKeepsLinked(w.objects, w.forest.parent, h, g, k);
  }

  lemma LinkKeepsShelter(w: World, h: Addr, k: nat, g: Held)
    requires w.forest.anc.Keys == w.forest.nodes == w.objects.Keys && Sheltered(w) && CanLink(w, h, g.at)
    requires k <= |w.objects[h].groups|
    ensures Sheltered(LinkedTo(w, h, k, g))
  {
    var r := LinkedTo(w, h, k, g);
    LinkKeepsSlots(w.objects, w.arenas, w.forest.parent, h, g.at, r.objects[h]);
    SameOwners(w.objects, r.objects, w.arenas);
  }

  lemma LinkKeepsLinked(objects: map<Addr, Object>, parent: map<Addr, Addr>, h: Addr, g: Held, k: nat)
    requires Linked(objects, parent) && h in objects && g.at in objects && g.at !in parent && !g.at.Variable?
    requires k <= |objects[h].groups|
    ensures Linked(objects[h := objects[h].(groups := WithHeld(objects[h].groups, k, g))], parent[g.at := h])
  {
    var r, rp := objects[h := objects[h].(groups := WithHeld(objects[h].groups, k, g))], parent[g.at := h];
    HeldWith(objects[h].groups, parent, h, k, g);
    forall p | p in r
      ensures HeldBy(r[p].groups, rp, p)
    {
      assert HeldBy(objects[p].groups, parent, p);
    }
    forall c | c in rp
      ensures IsHeld(r, rp, c)
    {
      assert c != g.at ==> IsHeld(objects, parent, c);
    }
  }

  lemma LinkKeepsSlots(objects: map<Addr, Object>, arenas: map<nat, Arena>, parent: map<Addr, Addr>,
                       h: Addr, g: Addr, u: Object)
    requires SlotsInUse(objects, arenas, parent) && h in objects && u.arena == objects[h].arena
    requires g.Slot? ==> objects[h].arena == Some(g.arena)
    ensures SlotsInUse(objects[h := u], arenas, parent[g := h])
  {
    forall c | c in objects[h := u] && c.Slot?
      ensures InItsSlot(objects[h := u], arenas, parent[g := h], c)
    {
      assert InItsSlot(objects, arenas, parent, c);
    }
  }

  /** A field map lets go of a group. */
  function Unlinked(w: World, x: Addr, k: nat): World
    requires w.forest.anc.Keys == w.forest.nodes && x in w.objects && k < |w.objects[x].groups|
    requires w.objects[x].groups[k].at in w.forest.nodes
  {
    var o := w.objects[x];
    w.(objects := w.objects[x := o.(groups := RemoveAt(o.groups, k))],
       forest := Detached(w.forest, o.groups[k].at))
  }

  lemma HeldWithout(groups: seq<Held>, parent: map<Addr, Addr>, p: Addr, k: nat)
    requires HeldBy(groups, parent, p) && k < |groups|
    ensures HeldBy(RemoveAt(groups, k), parent - {groups[k].at}, p)
    ensures forall c :: Holds(RemoveAt(groups, k), c) <==> c != groups[k].at && Holds(groups, c)
  {
    var r := RemoveAt(groups, k);
    forall c | Holds(groups, c) && c != groups[k].at
      ensures Holds(r, c)
    {
      var i :| 0 <= i < |groups| && groups[i].at == c;
      assert r[if i < k then i else i - 1].at == c;
    }
  }

  lemma GroupOf(w: World, x: Addr, k: nat)
    requires Inv(w) && x in w.objects && k < |w.objects[x].groups|
    ensures
      var g := w.objects[x].groups[k].at;
      && g in w.forest.parent && w.forest.parent[g] == x && g in w.objects && !g.Variable?
      && w.forest.anc[g] == w.forest.anc[x] + {x} && x !in w.forest.anc[x]
  {
    var g := w.objects[x].groups[k].at;
    assert HeldBy(w.objects[x].groups, w.forest.parent, x);
    assert IsHeld(w.objects, w.forest.parent, g);
    assert IsChild(w.forest, g) && IsNode(w.forest, x);
  }

  lemma UnlinkKeeps(w: World, x: Addr, k: nat)
    requires Inv(w) && x in w.objects && k < |w.objects[x].groups|
    ensures w.objects[x].groups[k].at in w.forest.nodes && Inv(Unlinked(w, x, k))
  {
    GroupOf(w, x, k);
    UnlinkKeepsShape(w, x, k);
    UnlinkKeepsShelter(w, x, k);
    BooksSame(w, Unlinked(w, x, k));
  }

  lemma UnlinkKeepsShape(w: World, x: Addr, k: nat)
    requires Shaped(w) && x in w.objects && k < |w.objects[x].groups|
    requires w.objects[x].groups[k].at in w.forest.parent && w.objects[x].groups[k].at in w.forest.nodes
    ensures Shaped(Unlinked(w, x, k))
  {
    SubtreeDetached(w.forest, w.objects[x].groups[k].at);
    UnlinkKeepsLinked(w.objects, w.forest.parent, x, k);
  }

  lemma UnlinkKeepsShelter(w: World, x: Addr, k: nat)
    requires w.forest.anc.Keys == w.forest.nodes == w.objects.Keys && Sheltered(w)
    requires x in w.objects && k < |w.objects[x].groups| && w.objects[x].groups[k].at in w.forest.nodes
    ensures Sheltered(Unlinked(w, x, k))
  {
    var r := Unlinked(w, x, k);
    UnlinkKeepsSlots(w.objects, w.arenas, w.forest.parent, x, w.objects[x].groups[k].at, r.objects[x]);
    SameOwners(w.objects, r.objects, w.arenas);
  }

  lemma UnlinkKeepsLinked(objects: map<Addr, Object>, parent: map<Addr, Addr>, x: Addr, k: nat)
    requires Linked(objects, parent) && x in objects && k < |objects[x].groups|
    ensures Linked(objects[x := objects[x].(groups := RemoveAt(objects[x].groups, k))],
                   parent - {objects[x].groups[k].at})
  {
    var g := objects[x].groups[k].at;
    var r, rp := objects[x := objects[x].(groups := RemoveAt(objects[x].groups, k))], parent - {g};
    HeldWithout(objects[x].groups, parent, x, k);
    assert HeldBy(objects[x].groups, parent, x);
    forall p | p in r
      ensures HeldBy(r[p].groups, rp, p)
    {
      assert HeldBy(objects[p].groups, parent, p);
    }
    forall c | c in rp
      ensures IsHeld(r, rp, c)
    {
      assert IsHeld(objects, parent, c);
    }
  }

  lemma UnlinkKeepsSlots(objects: map<Addr, Object>, arenas: map<nat, Arena>, parent: map<Addr, Addr>,
                         x: Addr, g: Addr, u: Object)
    requires SlotsInUse(objects, arenas, parent) && x in objects && u.arena == objects[x].arena
    ensures SlotsInUse(objects[x := u], arenas, parent - {g})
  {
    forall c | c in objects[x := u] && c.Slot?
      ensures InItsSlot(objects[x := u], arenas, parent - {g}, c)
    {
      assert InItsSlot(objects, arenas, parent, c);
    }
  }

  /** A field map ends its life: it holds nothing and nothing holds it. */
  ghost predicate CanBury(w: World, x: Addr) {
    x in w.objects && OwnsNothing(w.objects[x]) && x !in w.forest.parent
  }

  function Buried(w: World, x: Addr): World {
    w.(objects := w.objects - {x}, forest := Without(w.forest, {x}),
       ledger := w.ledger.(ended := w.ledger.ended + multiset{x}))
  }

  /** A field map that holds nothing has nothing below it. */
  lemma EmptyBelow(w: World, x: Addr)
    requires Shaped(w) && x in w.objects && w.objects[x].groups == []
    ensures Below(w.forest, x) == {x}
  {
    forall c | c in w.forest.parent
      ensures w.forest.parent[c] != x
    {
      assert IsHeld(w.objects, w.forest.parent, c);
    }
    forall y | y in w.forest.nodes
      ensures x !in w.forest.anc[y]
    {
      NothingUnder(w.forest, x, y);
    }
  }

  lemma BuryKeeps(w: World, x: Addr)
    requires Inv(w) && CanBury(w, x)
    ensures Inv(Buried(w, x))
  {
    BuryKeepsShape(w, x);
    BuryKeepsShelter(w, x);
    BuryIsBooked(w, x);
  }

  lemma BuryIsBooked(w: World, x: Addr)
    requires Booked(w) && x in w.objects
    ensures Booked(Buried(w, x))
  {
    assert w.objects.Keys == (w.objects - {x}).Keys + {x};
  }

  lemma BuryKeepsShape(w: World, x: Addr)
    requires Shaped(w) && CanBury(w, x)
    ensures Shaped(Buried(w, x))
  {
    EmptyBelow(w, x);
    SubtreeRemoved(w.forest, x);
    BuryKeepsLinked(w.objects, w.forest.parent, x);
  }

  lemma BuryKeepsLinked(objects: map<Addr, Object>, parent: map<Addr, Addr>, x: Addr)
    requires Linked(objects, parent) && x in objects && x !in parent && objects[x].groups == []
    ensures Linked(objects - {x}, parent - {x})
  {
    forall p | p in objects - {x}
      ensures HeldBy((objects - {x})[p].groups, parent - {x}, p)
    {
      assert HeldBy(objects[p].groups, parent, p);
    }
    forall c | c in parent - {x}
      ensures IsHeld(objects - {x}, parent - {x}, c)
    {
      assert IsHeld(objects, parent, c);
    }
  }

  lemma BuryKeepsShelter(w: World, x: Addr)
    requires Shaped(w) && Sheltered(w) && CanBury(w, x)
    ensures Sheltered(Buried(w, x))
  {
    BuryKeepsSlots(w.objects, w.arenas, w.forest.parent, x);
    OwnersWithout(w.objects, x, w.arenas);
  }

  lemma BuryKeepsSlots(objects: map<Addr, Object>, arenas: map<nat, Arena>, parent: map<Addr, Addr>, x: Addr)
    requires SlotsInUse(objects, arenas, parent) && x in objects && objects[x].arena == None
    ensures SlotsInUse(objects - {x}, arenas, parent - {x})
  {
    forall c | c in objects - {x} && c.Slot?
      ensures InItsSlot(objects - {x}, arenas, parent - {x}, c)
    {
      assert InItsSlot(objects, arenas, parent, c);
    }
  }

  lemma OwnersWithout(objects: map<Addr, Object>, x: Addr, arenas: map<nat, Arena>)
    requires ArenasOwned(objects, arenas) && x in objects && objects[x].arena == None
    ensures ArenasOwned(objects - {x}, arenas)
  {
    forall a | a in arenas
      ensures Owned(objects - {x}, a)
    {
      assert Owned(objects, a);
      var y :| y in objects && objects[y].arena == Some(a);
      assert y in objects - {x};
    }
  }

  /** A field map's fields change. */
  function WithFields(w: World, x: Addr, fields: seq<Fields.Field>): World
    requires x in w.objects
  {
    w.(objects := w.objects[x := w.objects[x].(fields := fields)])
  }

  lemma FieldsKeep(w: World, x: Addr, fields: seq<Fields.Field>)
    requires Inv(w) && x in w.objects
    ensures Inv(WithFields(w, x, fields))
  {
    SameGroups(w.objects, WithFields(w, x, fields).objects, w.forest.parent);
    FieldsKeepShelter(w, x, fields);
    BooksSame(w, WithFields(w, x, fields));
  }

  lemma FieldsKeepShelter(w: World, x: Addr, fields: seq<Fields.Field>)
    requires Sheltered(w) && x in w.objects
    ensures Sheltered(WithFields(w, x, fields))
  {
    var r := WithFields(w, x, fields);
    forall c | c in r.objects && c.Slot?
      ensures InItsSlot(r.objects, r.arenas, r.forest.parent, c)
    {
      assert InItsSlot(w.objects, w.arenas, w.forest.parent, c);
    }
    SameOwners(w.objects, r.objects, w.arenas);
  }

  // ----- arenas

  function ArenaMade(w: World, x: Addr): World
    requires x in w.objects
  {
    w.(arenas := w.arenas[w.next := Arena(CAPACITY, 0, 0)],
       objects := w.objects[x := w.objects[x].(arena := Some(w.next))], next := w.next + 1)
  }

  lemma MakeArenaKeeps(w: World, x: Addr)
    requires Inv(w) && x in w.objects && w.objects[x].arena == None
    ensures Inv(ArenaMade(w, x))
  {
    MakeArenaKeepsShape(w, x);
    MakeArenaKeepsShelter(w, x);
    BooksSame(w, ArenaMade(w, x));
  }

  /** What a field map holds is all that its shape depends on. */
  lemma SameGroups(objects: map<Addr, Object>, r: map<Addr, Object>, parent: map<Addr, Addr>)
    requires Linked(objects, parent) && r.Keys == objects.Keys
    requires forall x :: x in objects ==> r[x].groups == objects[x].groups
    ensures Linked(r, parent)
  {
    forall p | p in r
      ensures HeldBy(r[p].groups, parent, p)
    {
      assert HeldBy(objects[p].groups, parent, p);
    }
    forall c | c in parent
      ensures IsHeld(r, parent, c)
    {
      assert IsHeld(objects, parent, c);
    }
  }

  lemma MakeArenaKeepsShape(w: World, x: Addr)
    requires Shaped(w) && x in w.objects
    ensures Shaped(ArenaMade(w, x))
  {
    SameGroups(w.objects, ArenaMade(w, x).objects, w.forest.parent);
  }

  lemma MakeArenaKeepsShelter(w: World, x: Addr)
    requires Sheltered(w) && x in w.objects && w.objects[x].arena == None
    ensures Sheltered(ArenaMade(w, x))
  {
    var r := ArenaMade(w, x);
    forall c | c in r.objects && c.Slot?
      ensures InItsSlot(r.objects, r.arenas, r.forest.parent, c)
    {
      assert InItsSlot(w.objects, w.arenas, w.forest.parent, c);
    }
    forall a | a in r.arenas
      ensures Owned(r.objects, a)
    {
      if a == w.next {
        assert r.objects[x].arena == Some(a);
      } else {
        OwnerStays(w.objects, r.objects, x, a);
      }
    }
  }

  lemma OwnerStays(objects: map<Addr, Object>, r: map<Addr, Object>, x: Addr, a: nat)
    requires Owned(objects, a) && x in objects && objects[x].arena != Some(a)
    requires forall y :: y in objects && y != x ==> y in r && r[y].arena == objects[y].arena
    ensures Owned(r, a)
  {
    var y :| y in objects && objects[y].arena == Some(a);
    assert y in r;
  }

  /** No group is alive in the arena. */
  ghost predicate SlotsFree(objects: map<Addr, Object>, a: nat) {
    forall c :: c in objects && c.Slot? ==> c.arena != a
  }

  function ArenaReset(w: World, a: nat): World
    requires a in w.arenas
  {
    w.(arenas := w.arenas[a := Arena(w.arenas[a].capacity, 0, 0)])
  }

  lemma ResetArenaKeeps(w: World, a: nat)
    requires Inv(w) && a in w.arenas && SlotsFree(w.objects, a)
    ensures Inv(ArenaReset(w, a))
  {
    SlotsElsewhere(w.objects, w.arenas, ArenaReset(w, a).arenas, w.forest.parent, a);
    BooksSame(w, ArenaReset(w, a));
  }

  lemma SlotsElsewhere(objects: map<Addr, Object>, arenas: map<nat, Arena>, r: map<nat, Arena>,
                       parent: map<Addr, Addr>, a: nat)
    requires SlotsInUse(objects, arenas, parent) && SlotsFree(objects, a)
    requires forall b :: b in arenas && b != a ==> b in r && r[b] == arenas[b]
    ensures SlotsInUse(objects, r, parent)
  {
    forall c | c in objects && c.Slot?
      ensures InItsSlot(objects, r, parent, c)
    {
      assert InItsSlot(objects, arenas, parent, c);
    }
  }

  function ArenaDropped(w: World, x: Addr, a: nat): World
    requires x in w.objects
  {
    w.(arenas := w.arenas - {a}, objects := w.objects[x := w.objects[x].(arena := None)])
  }

  lemma DropArenaKeeps(w: World, x: Addr, a: nat)
    requires Inv(w) && x in w.objects && w.objects[x].arena == Some(a) && SlotsFree(w.objects, a)
    ensures Inv(ArenaDropped(w, x, a))
  {
    SameGroups(w.objects, ArenaDropped(w, x, a).objects, w.forest.parent);
    DropArenaKeepsShelter(w, x, a);
    BooksSame(w, ArenaDropped(w, x, a));
  }

  lemma DropArenaKeepsShelter(w: World, x: Addr, a: nat)
    requires Sheltered(w) && x in w.objects && w.objects[x].arena == Some(a) && SlotsFree(w.objects, a)
    ensures Sheltered(ArenaDropped(w, x, a))
  {
    var r := ArenaDropped(w, x, a);
    forall c | c in r.objects && c.Slot?
      ensures InItsSlot(r.objects, r.arenas, r.forest.parent, c)
    {
      assert InItsSlot(w.objects, w.arenas, w.forest.parent, c);
    }
    forall b | b in r.arenas
      ensures Owned(r.objects, b)
    {
      OwnerStays(w.objects, r.objects, x, b);
    }
  }

  // ----- storage

  /** GroupArena::allocate: the next slot, or a heap block once the slots are used up. */
  function Allocated(w: World, a: nat): (Addr, World)
    requires a in w.arenas
  {
    var n := w.arenas[a];
    if n.count < n.capacity
    then (Slot(a, n.count), w.(arenas := w.arenas[a := n.(count := n.count + 1)]))
    else (Block(w.next), BlockTaken(w).(arenas := w.arenas[a := n.(overflow := n.overflow + 1)]))
  }

  /** operator new */
  function BlockTaken(w: World): World {
    w.(blocks := w.blocks + {w.next}, next := w.next + 1, ledger := w.ledger.(taken := w.ledger.taken + multiset{w.next}))
  }

  lemma TakingIsBooked(w: World)
    requires Booked(w) && forall id :: id in w.blocks ==> id < w.next
    ensures Booked(BlockTaken(w))
  {
  }

  /** What is allocated is not in use. */
  lemma AllocatedIsFree(w: World, a: nat)
    requires Sheltered(w) && a in w.arenas
    ensures CanBuild(Allocated(w, a).1, Allocated(w, a).0)
  {
    SlotBelow(w.objects, w.arenas, w.forest.parent, Allocated(w, a).0);
  }

  lemma SlotBelow(objects: map<Addr, Object>, arenas: map<nat, Arena>, parent: map<Addr, Addr>, c: Addr)
    requires SlotsInUse(objects, arenas, parent)
    ensures c in objects && c.Slot? ==> c.arena in arenas && c.index < arenas[c.arena].count
  {
    assert c in objects && c.Slot? ==> InItsSlot(objects, arenas, parent, c);
  }

  lemma AllocateKeeps(w: World, a: nat)
    requires Inv(w) && a in w.arenas
    ensures Inv(Allocated(w, a).1)
  {
    var r := Allocated(w, a).1;
    assert r.forest == w.forest && r.objects == w.objects;
    AllocateKeepsShelter(w, a);
    TakingIsBooked(w);
  }

  lemma AllocateKeepsShelter(w: World, a: nat)
    requires Sheltered(w) && a in w.arenas
    ensures Sheltered(Allocated(w, a).1)
  {
    AllocateKeepsSlots(w, a);
  }

  lemma AllocateKeepsSlots(w: World, a: nat)
    requires SlotsInUse(w.objects, w.arenas, w.forest.parent) && a in w.arenas
    ensures SlotsInUse(w.objects, Allocated(w, a).1.arenas, w.forest.parent)
  {
    var r := Allocated(w, a).1;
    forall c | c in w.objects && c.Slot?
      ensures InItsSlot(w.objects, r.arenas, w.forest.parent, c)
    {
      assert InItsSlot(w.objects, w.arenas, w.forest.parent, c);
    }
  }

  /** operator delete, and an arena's count of its overflow. */
  function Freed(w: World, id: nat): World {
    w.(blocks := w.blocks - {id}, ledger := w.ledger.(freed := w.ledger.freed + multiset{id}))
  }

  lemma FreeKeeps(w: World, id: nat)
    requires Inv(w) && id in w.blocks && Block(id) !in w.objects
    ensures Inv(Freed(w, id))
  {
    assert w.blocks == (w.blocks - {id}) + {id};
  }

  function OverflowLess(w: World, a: nat): World
    requires a in w.arenas
  {
    var n := w.arenas[a];
    w.(arenas := w.arenas[a := n.(overflow := if n.overflow > 0 then n.overflow - 1 else 0)])
  }

  lemma OverflowKeeps(w: World, a: nat)
    requires Inv(w) && a in w.arenas
    ensures Inv(OverflowLess(w, a))
  {
    var r := OverflowLess(w, a);
    forall c | c in w.objects && c.Slot?
      ensures InItsSlot(w.objects, r.arenas, w.forest.parent, c)
    {
      assert InItsSlot(w.objects, w.arenas, w.forest.parent, c);
    }
  }

  // ----- an exchange of everything that two field maps own

  function Swapped(w: World, x: Addr, y: Addr): World
    requires x in w.objects && y in w.objects
    requires w.forest.anc.Keys == w.forest.nodes && x in w.forest.nodes && y in w.forest.nodes
  {
    w.(objects := w.objects[x := w.objects[y]][y := w.objects[x]], forest := Exchanged(w.forest, x, y))
  }

  predicate CanSwap(w: World, x: Addr, y: Addr) {
    x in w.objects && y in w.objects && x in w.forest.anc && y in w.forest.anc && Unrelated(w.forest, x, y)
  }

  lemma SwapKeeps(w: World, x: Addr, y: Addr)
    requires Inv(w) && CanSwap(w, x, y)
    ensures Inv(Swapped(w, x, y))
  {
    SwapKeepsShape(w, x, y);
    SwapKeepsShelter(w, x, y);
    BooksSame(w, Swapped(w, x, y));
  }

  lemma SwapKeepsShape(w: World, x: Addr, y: Addr)
    requires Shaped(w) && CanSwap(w, x, y)
    ensures Shaped(Swapped(w, x, y))
  {
    ChildrenExchanged(w.forest, x, y);
    SwapKeepsLinked(w.objects, w.forest.parent, x, y);
  }

  lemma SwapKeepsLinked(objects: map<Addr, Object>, parent: map<Addr, Addr>, x: Addr, y: Addr)
    requires Linked(objects, parent) && x in objects && y in objects && x != y
    ensures Linked(objects[x := objects[y]][y := objects[x]], map c | c in parent :: Other(x, y, parent[c]))
  {
    var r, rp := objects[x := objects[y]][y := objects[x]], map c | c in parent :: Other(x, y, parent[c]);
    forall p | p in r
      ensures HeldBy(r[p].groups, rp, p)
    {
      assert HeldBy(objects[Other(x, y, p)].groups, parent, Other(x, y, p));
    }
    forall c | c in rp
      ensures IsHeld(r, rp, c)
    {
      assert IsHeld(objects, parent, c);
    }
  }

  lemma SwapKeepsShelter(w: World, x: Addr, y: Addr)
    requires w.forest.anc.Keys == w.forest.nodes && Sheltered(w) && CanSwap(w, x, y)
    ensures Sheltered(Swapped(w, x, y))
  {
    SwapKeepsSlots(w.objects, w.arenas, w.forest.parent, x, y);
    SwapKeepsOwners(w.objects, w.arenas, x, y);
  }

  lemma SwapKeepsSlots(objects: map<Addr, Object>, arenas: map<nat, Arena>, parent: map<Addr, Addr>, x: Addr, y: Addr)
    requires SlotsInUse(objects, arenas, parent) && x in objects && y in objects && x != y
    ensures SlotsInUse(objects[x := objects[y]][y := objects[x]], arenas, map c | c in parent :: Other(x, y, parent[c]))
  {
    var r, rp := objects[x := objects[y]][y := objects[x]], map c | c in parent :: Other(x, y, parent[c]);
    forall c | c in r && c.Slot?
      ensures InItsSlot(r, arenas, rp, c)
    {
      assert InItsSlot(objects, arenas, parent, c);
    }
  }

  lemma SwapKeepsOwners(objects: map<Addr, Object>, arenas: map<nat, Arena>, x: Addr, y: Addr)
    requires ArenasOwned(objects, arenas) && x in objects && y in objects && x != y
    ensures ArenasOwned(objects[x := objects[y]][y := objects[x]], arenas)
  {
    var r := objects[x := objects[y]][y := objects[x]];
    forall a | a in arenas
      ensures Owned(r, a)
    {
      OwnerMoves(objects, x, y, a);
    }
    forall p, q | p in r && q in r && SameArena(r[p], r[q])
      ensures p == q
    {
      OneOwnerStill(objects, arenas, x, y, p, q);
    }
  }

  lemma OneOwnerStill(objects: map<Addr, Object>, arenas: map<nat, Arena>, x: Addr, y: Addr, p: Addr, q: Addr)
    requires ArenasOwned(objects, arenas) && x in objects && y in objects && x != y
    requires p in objects && q in objects
    requires var r := objects[x := objects[y]][y := objects[x]]; SameArena(r[p], r[q])
    ensures p == q
  {
    assert SameArena(objects[Other(x, y, p)], objects[Other(x, y, q)]);
  }

  lemma OwnerMoves(objects: map<Addr, Object>, x: Addr, y: Addr, a: nat)
    requires Owned(objects, a) && x in objects && y in objects && x != y
    ensures Owned(objects[x := objects[y]][y := objects[x]], a)
  {
    var r := objects[x := objects[y]][y := objects[x]];
    var z :| z in objects && objects[z].arena == Some(a);
    assert r[Other(x, y, z)].arena == Some(a);
  }
}
