/** The operations of field maps on the memory: construction, copies, moves, swaps,
    assignments, and the addition, replacement and removal of groups. */
module GroupMemory {
  import opened Decimal
  import opened Forests
  import opened Ownership
  import opened Lifetimes
  import opened Shapes
  import opened Cycles
  import opened Readings
  import Fields
  import FieldMaps
  import MessageOrder

  class Memory {
    var w: World

    constructor ()
      ensures Inv(w) && AtRest(w) && w.objects == map[] && w.arenas == map[] && w.blocks == {}
    {
      w := World(map[], map[], {}, 0, Forest({}, map[], map[]),
                 Ledger(multiset{}, multiset{}, multiset{}, multiset{}));
    }

    // ----- the steps

    method Build(x: Addr, o: Object)
      requires Inv(w) && CanBuild(w, x) && OwnsNothing(o)
      modifies this
      ensures Inv(w) && w == Built(old(w), x, o)
    {
      BuildKeeps(w, x, o);
      w := Built(w, x, o);
    }

    method SetFields(x: Addr, fields: seq<Fields.Field>)
      requires Inv(w) && x in w.objects
      modifies this
      ensures Inv(w) && w == WithFields(old(w), x, fields)
    {
      FieldsKeep(w, x, fields);
      w := WithFields(w, x, fields);
    }

    /** The destructor's end: the field map must be alive, and own nothing any more. */
    method Bury(x: Addr)
      requires Inv(w) && CanBury(w, x)
      modifies this
      ensures Inv(w) && w == Buried(old(w), x)
    {
      BuryKeeps(w, x);
      w := Buried(w, x);
    }

    method Link(h: Addr, k: nat, g: Held)
      requires Inv(w) && CanLink(w, h, g.at) && k <= |w.objects[h].groups|
      modifies this
      ensures Inv(w) && w == LinkedTo(old(w), h, k, g)
    {
      LinkKeeps(w, h, k, g);
      w := LinkedTo(w, h, k, g);
    }

    method Unlink(x: Addr, k: nat) returns (g: Addr)
      requires Inv(w) && x in w.objects && k < |w.objects[x].groups|
      modifies this
      ensures g == old(w.objects[x].groups[k].at) && g in old(w.forest.nodes)
      ensures Inv(w) && w == Unlinked(old(w), x, k)
    {
      UnlinkKeeps(w, x, k);
      g := w.objects[x].groups[k].at;
      w := Unlinked(w, x, k);
    }

    /** getArena */
    method GetArena(x: Addr) returns (a: nat)
      requires Inv(w) && x in w.objects
      modifies this
      ensures Inv(w) && x in w.objects && w.objects[x].arena == Some(a) && a in w.arenas
      ensures w == WithArena(old(w), x)
    {
      if w.objects[x].arena == None {
        MakeArenaKeeps(w, x);
        w := ArenaMade(w, x);
      }
      a := w.objects[x].arena.value;
    }

    /** GroupArena::reset: no group may be alive in it. */
    method ResetArena(a: nat)
      requires Inv(w) && a in w.arenas && SlotsFree(w.objects, a)
      modifies this
      ensures Inv(w) && w == ArenaReset(old(w), a)
    {
      ResetArenaKeeps(w, a);
      w := ArenaReset(w, a);
    }

    /** The arena of a field map is deleted: no group may be alive in it. */
    method DropArena(x: Addr)
      requires Inv(w) && x in w.objects && w.objects[x].arena.Some? && SlotsFree(w.objects, w.objects[x].arena.value)
      modifies this
      ensures Inv(w) && w == ArenaDropped(old(w), x, old(w).objects[x].arena.value)
    {
      DropArenaKeeps(w, x, w.objects[x].arena.value);
      w := ArenaDropped(w, x, w.objects[x].arena.value);
    }

    /** GroupArena::allocate */
    method Allocate(a: nat) returns (x: Addr)
      requires Inv(w) && a in w.arenas
      modifies this
      ensures Inv(w) && CanBuild(w, x)
      ensures x == Allocated(old(w), a).0 && w == Allocated(old(w), a).1
      ensures var n := old(w).arenas[a];
        a in w.arenas && w.arenas[a].overflow == (if n.count < 32 then n.overflow else n.overflow + 1)
        && w.arenas[a].count == (if n.count < 32 then n.count + 1 else 32)
    {
      AllocateKeeps(w, a);
      AllocatedIsFree(w, a);
      x := Allocated(w, a).0;
      w := Allocated(w, a).1;
    }

    /** operator delete: the block must be in use, and the field map in it destroyed. */
    method Free(x: Addr)
      requires Inv(w) && x.Block? && x.id in w.blocks && x !in w.objects
      modifies this
      ensures Inv(w) && w == Freed(old(w), x.id)
    {
      FreeKeeps(w, x.id);
      w := Freed(w, x.id);
    }

    /** The storage of a destroyed group goes back: to the arena of its holder, if that is
        where it comes from, and to the heap otherwise. */
    method Deallocate(arena: Option<nat>, g: Addr)
      requires Inv(w) && g !in w.objects && (arena.Some? ==> arena.value in w.arenas)
      requires (g.Block? && g.id in w.blocks) || (g.Slot? && arena == Some(g.arena))
      modifies this
      ensures Inv(w) && w == Deallocated(old(w), arena, g)
      ensures arena.Some? && g.Block? ==>
        var n := old(w).arenas[arena.value].overflow;
        arena.value in w.arenas && w.arenas[arena.value].overflow == if n > 0 then n - 1 else 0
    {
      if arena.None? {
        Free(g);
      } else if !(g.Slot? && g.arena == arena.value) {
        Free(g);
        OverflowKeeps(w, arena.value);
        w := OverflowLess(w, arena.value);
      }
    }

    method Exchange(x: Addr, y: Addr)
      requires Inv(w) && CanSwap(w, x, y)
      modifies this
      ensures Inv(w) && w == Swapped(old(w), x, y)
    {
      SwapKeeps(w, x, y);
      w := Swapped(w, x, y);
    }

    // ----- destruction

    /** ~FieldMap: the groups, the arena, and then the field map itself. Its storage is left. */
    method Destroy(x: Addr)
      requires Inv(w) && x in w.objects && x !in w.forest.parent && Clearable(w, x)
      modifies this
      ensures Inv(w) && Destroyed(old(w), w, x)
      decreases |Under(w.forest, x)|, 3
    {
      ghost var w0 := w;
      ghost var w1 := ClearOut(x);
      ghost var w2 := w;
      Bury(x);
      DestroyedIs(w0, w1, w2, w, x);
    }

    method Clear(x: Addr)
      requires Inv(w) && x in w.objects && Clearable(w, x)
      modifies this
      ensures Inv(w) && Cleared(old(w), w, x)
      decreases |Under(w.forest, x)|, 1
    {
      ghost var w0 := w;
      ghost var gone := {};
      NothingGone(w, x);
      SetFields(x, []);
      while w.objects[x].groups != []
        invariant Inv(w) && Clearing(w0, w, x, gone)
        decreases |w.objects[x].groups|
      {
        ghost var w1 := w;
        UnderFewer(w0.forest, gone, x);
        DestroyHeld(x, 0);
        ghost var more := Below(w1.forest, w1.objects[x].groups[0].at);
        MoreGone(w0, w1, w, x, gone, more);
        gone := gone + more;
      }
      NoGroupsLeft(w0, w, x, gone);
      ghost var w1 := w;
      if w.objects[x].arena.Some? {
        ResetArena(w.objects[x].arena.value);
      }
      ClearedIs(w0, w1, w, x, gone);
    }

    /** A group that x holds is destroyed and its storage given back. */
    method DestroyHeld(x: Addr, k: nat)
      requires Inv(w) && x in w.objects && k < |w.objects[x].groups| && Clearable(w, x)
      modifies this
      ensures Inv(w) && HeldGone(old(w), w, x, k)
      decreases |Under(w.forest, x)|, 0
    {
      ghost var w0 := w;
      HeldStorage(w, x, k);
      var g := Unlink(x, k);
      ghost var w1 := w;
      UnlinkedIs(w0, x, k);
      Destroy(g);
      ghost var w2 := w;
      ReadyToDeallocate(w0, w1, w2, x, k, g);
      Deallocate(w.objects[x].arena, g);
      HeldGoneIs(w0, w1, w2, w, x, k, g);
    }

    // ----- copies

    /** cloneInto: a copy in the arena of h. */
    method CloneInto(h: Addr, src: Addr) returns (g: Addr)
      requires Inv(w) && h in w.objects && src in w.objects && w.objects[h].arena.Some?
      requires w.objects[h].arena.value in w.arenas
      modifies this
      ensures Inv(w) && CopyOf(old(w), w, g, old(w).objects[h].arena)
      ensures SameShape(old(w).objects, src, w.objects, g)
      ensures !g.Variable? && (g.Slot? ==> old(w).objects[h].arena == Some(g.arena))
      ensures var n := old(w).arenas[old(w).objects[h].arena.value].count;
        if n < 32 then g == Slot(old(w).objects[h].arena.value, n) else g.Block?
      decreases |Under(w.forest, src)|, 2
    {
      ghost var w0 := w;
      var a := w.objects[h].arena.value;
      g := Allocate(a);
      ghost var w1 := w;
      CopyConstruct(g, src);
      AllocatedCopy(w0, w1, w, g, a);
    }

    /** The copy constructor: the groups are cloned, one by one, into the new map's arena. */
    method CopyConstruct(x: Addr, src: Addr)
      requires Inv(w) && CanBuild(w, x) && src in w.objects
      modifies this
      ensures Inv(w) && CopyOf(old(w), w, x, None) && SameShape(old(w).objects, src, w.objects, x)
      decreases |Under(w.forest, src)|, 1
    {
      ghost var w0 := w;
      var groups := w.objects[src].groups;
      var o := Object(w.objects[src].order, w.objects[src].fields, [], None);
      BuiltCopy(w, x, o);
      Build(x, o);
      for k := 0 to |groups|
        invariant Inv(w) && Copying(w0, w, x) && CopiedTo(w0, src, w, x, k)
      {
        CopyGroup(w0, src, x, k, groups[k]);
      }
      CopyDone(w0, src, w, x, |groups|);
    }

    /** The body of the loop of the copy constructor. */
    method CopyGroup(ghost w0: World, ghost src: Addr, x: Addr, k: nat, h: Held)
      requires Inv(w0) && Inv(w) && Copying(w0, w, x) && CopiedTo(w0, src, w, x, k)
      requires k < |w0.objects[src].groups| && h == w0.objects[src].groups[k]
      modifies this
      ensures Inv(w) && Copying(w0, w, x) && CopiedTo(w0, src, w, x, k + 1)
      decreases |Under(w0.forest, src)|, 0
    {
      GroupOf(w0, src, k);
      UnderChild(w0.forest, h.at, src);
      ArenaForClone(w0, src, x, k);
      ghost var w2 := w;
      SameUnder(w0, w2, h.at);
      var g := CloneInto(x, h.at);
      ghost var w3 := w;
      CloneMade(w0, w2, w3, x, g);
      CloneCopied(w0, src, w2, w3, x, k, h, g);
      Link(x, k, Held(h.tag, g));
      CloneLinked(w0, w2, w3, w, x, k, Held(h.tag, g));
      CopiedMore(w0, src, w3, w, x, k, Held(h.tag, g));
    }

    /** getArena, while a copy is made. */
    method ArenaForClone(ghost w0: World, ghost src: Addr, x: Addr, ghost k: nat)
      requires Inv(w0) && Inv(w) && Copying(w0, w, x) && CopiedTo(w0, src, w, x, k)
      modifies this
      ensures Inv(w) && Copying(w0, w, x) && CopiedTo(w0, src, w, x, k)
      ensures w.objects[x].arena.Some? && w.objects[x].arena.value in w.arenas
    {
      ghost var w1 := w;
      var _ := GetArena(x);
      ArenaForCopy(w0, w1, w, x);
      CopiedWithArena(w0, src, w1, w, x, k);
    }

    // ----- what a program calls

    /** The address of a variable that the program declares. */
    method NewVariable() returns (x: Addr)
      requires Inv(w)
      modifies this
      ensures Inv(w) && x == Variable(old(w).next) && w == old(w).(next := old(w).next + 1) && CanBuild(w, x)
    {
      x := Variable(w.next);
      NextKeeps(w);
      w := w.(next := w.next + 1);
    }

    /** operator new */
    method NewBlock() returns (g: Addr)
      requires Inv(w)
      modifies this
      ensures Inv(w) && g == Block(old(w).next) && CanBuild(w, g) && w.objects == old(w).objects
      ensures w == BlockTaken(old(w))
    {
      g := Block(w.next);
      BlockKeeps(w);
      w := BlockTaken(w);
    }

    method NewMap(order: MessageOrder.Order) returns (x: Addr)
      requires Inv(w) && AtRest(w)
      modifies this
      ensures Inv(w) && AtRest(w) && CopyOf(old(w), w, x, None) && w.objects[x] == Object(order, [], [], None)
    {
      ghost var w0 := w;
      x := NewVariable();
      var o := Object(order, [], [], None);
      BuiltCopy(w, x, o);
      ghost var w1 := w;
      Build(x, o);
      CopyRests(w0, w1, w, x);
    }

    method NewCopy(src: Addr) returns (x: Addr)
      requires Inv(w) && AtRest(w) && src in w.objects
      modifies this
      ensures Inv(w) && AtRest(w) && x.Variable? && CopyOf(old(w), w, x, None)
      ensures SameShape(old(w).objects, src, w.objects, x)
    {
      ghost var w0 := w;
      x := CopyVariable(src);
      CopyRests(w0, w0.(next := w0.next + 1), w, x);
    }

    method CopyVariable(src: Addr) returns (x: Addr)
      requires Inv(w) && src in w.objects
      modifies this
      ensures Inv(w) && x.Variable? && CopyOf(old(w).(next := old(w).next + 1), w, x, None)
      ensures SameShape(old(w).objects, src, w.objects, x)
    {
      x := NewVariable();
      CopyConstruct(x, src);
    }

    /** The move constructor. */
    method NewMoved(rhs: Addr) returns (x: Addr)
      requires Inv(w) && AtRest(w) && rhs in w.objects
      modifies this
      ensures Inv(w) && AtRest(w) && x !in old(w).objects && Same(old(w), w, {rhs})
      ensures x in w.objects && rhs in w.objects
      ensures w.objects[x] == old(w).objects[rhs] && Bare(w.objects[rhs])
    {
      ghost var w0 := w;
      x := NewMap(w.objects[rhs].order);
      ghost var w1 := w;
      NewUnrelated(w0, w, rhs, x);
      HandOver(x, rhs);
      MovedIs(w0, w1, w, x, rhs);
    }

    /** A copy that the program makes on the heap, to hand it to addGroupPtr. */
    method NewGroup(src: Addr) returns (g: Addr)
      requires Inv(w) && AtRest(w) && src in w.objects
      modifies this
      ensures Inv(w) && AtRest(w) && g.Block? && CopyOf(old(w), w, g, None)
      ensures SameShape(old(w).objects, src, w.objects, g)
    {
      ghost var w0 := w;
      g := NewBlock();
      ghost var w1 := w;
      CopyConstruct(g, src);
      BlockRests(w0, w1, w, g);
    }

    /** addGroup: a clone of the source as it is before the call, which may be h itself. */
    method AddGroup(h: Addr, tag: int, src: Addr, setCount: bool)
      requires Inv(w) && AtRest(w) && h in w.objects && src in w.objects
      modifies this
      ensures Inv(w) && AtRest(w) && Same(old(w), w, {h})
      ensures exists g :: CloneAdded(old(w), w, h, tag, src, g, setCount)
    {
      ghost var w0 := w;
      var g := CloneFor(h, src);
      ghost var w2 := w;
      TakeOver(h, tag, g, setCount);
      CloneRests(w0, WithArena(w0, h), w2, w, h, tag, g, setCount);
      ShapeOfAdded(w0, src, w2, w, h, tag, g, setCount);
      assert CloneAdded(w0, w, h, tag, src, g, setCount);
    }

    /** group.cloneInto(getArena()) */
    method CloneFor(h: Addr, src: Addr) returns (g: Addr)
      requires Inv(w) && h in w.objects && src in w.objects
      modifies this
      ensures Inv(w) && CanLink(w, h, g) && SameShape(old(w).objects, src, w.objects, g)
      ensures var v := WithArena(old(w), h); CopyOf(v, w, g, v.objects[h].arena)
    {
      ghost var w0 := w;
      ShapeWithArena(w, h, src);
      var _ := GetArena(h);
      ghost var w1 := WithArena(w0, h);
      g := CloneInto(h, src);
      CloneCanLink(w1, w, h, g);
      SameShapeTwice(w0.objects, src, w1.objects, src, w.objects, g);
    }

    /** addGroupPtr: the map takes over a group that nothing holds and that it is not itself in. */
    method AddGroupPtr(h: Addr, tag: int, group: Option<Addr>, setCount: bool)
      requires Inv(w) && AtRest(w) && (group.Some? ==> group.value.Block? && CanLink(w, h, group.value))
      modifies this
      ensures Inv(w) && AtRest(w)
      ensures if group.None? then w == old(w)
              else Same(old(w), w, {h}) && GroupAdded(old(w), w, h, tag, group.value, setCount)
    {
      if group.Some? {
        TakeOver(h, tag, group.value, setCount);
      }
    }

    method TakeOver(h: Addr, tag: int, g: Addr, setCount: bool)
      requires Inv(w) && CanLink(w, h, g)
      modifies this
      ensures Inv(w) && w == TakenOver(old(w), h, tag, g, setCount)
    {
      Link(h, PlaceFor(w.objects[h].groups, tag), Held(tag, g));
      if setCount {
        SetFields(h, WithCount(w.objects[h], tag));
      }
    }

    /** setField */
    method SetField(x: Addr, f: Fields.Field, overwrite: bool)
      requires Inv(w) && AtRest(w) && x in w.objects
      modifies this
      ensures Inv(w) && AtRest(w)
      ensures w == WithFields(old(w), x, FieldMaps.SetIn(old(w).objects[x].order, old(w).objects[x].fields, f, overwrite))
    {
      SetFields(x, FieldMaps.SetIn(w.objects[x].order, w.objects[x].fields, f, overwrite));
    }

    /** An exchange of all that two unrelated field maps own. */
    method HandOver(x: Addr, y: Addr)
      requires Inv(w) && AtRest(w) && CanSwap(w, x, y)
      modifies this
      ensures Inv(w) && AtRest(w) && w == Swapped(old(w), x, y)
    {
      RestSwapped(w, x, y);
      Exchange(x, y);
    }

    /** swap; between a field map and one below it, it leaves a cycle. */
    method Swap(x: Addr, y: Addr)
      requires Inv(w) && AtRest(w) && x in w.objects && y in w.objects
      modifies this
      ensures
        if x == y || CanSwap(old(w), x, y) then Inv(w) && AtRest(w) && Traded(old(w), w, x, y)
        else w == Tangled(old(w), x, y) && Cyclic(w)
    {
      ghost var w0 := w;
      if x == y {
      } else if CanSwap(w, x, y) {
        HandOver(x, y);
        TradedIs(w0, w, x, y);
      } else {
        SwapTangles(w, x, y);
        w := Tangled(w, x, y);
      }
    }

    /** Move assignment: what x owned is destroyed, what rhs owned is handed over. From a map
        above x it leaves a cycle; a source below x is dead when it is to be read, and there the
        model stops. */
    method MoveAssign(x: Addr, rhs: Addr)
      requires Inv(w) && AtRest(w) && x in w.objects && rhs in w.objects
      modifies this
      ensures
        if x == rhs then w == old(w)
        else if CanSwap(old(w), x, rhs) then Inv(w) && AtRest(w) && MovedTo(old(w), w, x, rhs)
        else if rhs in Under(old(w).forest, x) then Inv(w) && x in w.objects && rhs !in w.objects
        else TiedUp(old(w), w, x, rhs)
    {
      if x == rhs {
      } else if CanSwap(w, x, rhs) {
        ghost var w0 := w;
        GiveUp(x, rhs);
        ghost var w1 := w;
        HandOver(x, rhs);
        HandedOver(w0, w1, w, x, rhs);
      } else if rhs in Under(w.forest, x) {
        MoveFromBelow(x, rhs);
      } else {
        MoveFromAbove(x, rhs);
      }
    }

    method MoveFromBelow(x: Addr, rhs: Addr)
      requires Inv(w) && AtRest(w) && x in w.objects && rhs in Under(w.forest, x)
      modifies this
      ensures Inv(w) && x in w.objects && rhs !in w.objects
    {
      ghost var w0 := w;
      RestClearable(w, x);
      ghost var w1 := ClearOut(x);
      MoveFromBelowIsDead(w0, w1, x, rhs);
    }

    method MoveFromAbove(x: Addr, rhs: Addr)
      requires Inv(w) && AtRest(w) && x in w.objects && rhs in w.objects && x in w.forest.anc && rhs in w.forest.anc[x]
      modifies this
      ensures TiedUp(old(w), w, x, rhs)
    {
      ghost var w0 := w;
      RestClearable(w, x);
      ghost var w1 := ClearOut(x);
      MoveTangles(w0, w1, w, x, rhs);
      w := Tangled(w, x, rhs);
    }

    /** clear, and the arena given up. */
    method ClearOut(x: Addr) returns (ghost v: World)
      requires Inv(w) && x in w.objects && Clearable(w, x)
      modifies this
      ensures Inv(w) && Cleared(old(w), v, x) && Sheltered(v)
      ensures w == if v.objects[x].arena.Some? then ArenaDropped(v, x, v.objects[x].arena.value) else v
      decreases |Under(w.forest, x)|, 2
    {
      Clear(x);
      v := w;
      if w.objects[x].arena.Some? {
        DropArena(x);
      }
    }

    /** x destroys what it owns; rhs is unrelated, and stays. */
    method GiveUp(x: Addr, ghost rhs: Addr)
      requires Inv(w) && AtRest(w) && CanSwap(w, x, rhs)
      modifies this
      ensures Inv(w) && AtRest(w) && CanSwap(w, x, rhs)
      ensures Bare(w.objects[x]) && w.objects[rhs] == old(w).objects[rhs]
      ensures Same(old(w), w, Below(old(w).forest, x))
    {
      ghost var w0 := w;
      RestClearable(w, x);
      ghost var w1 := ClearOut(x);
      ClearedRests(w0, w1, x);
      UnrelatedStill(w0, w1, w, x, rhs);
    }

    /** Copy assignment, by a copy and a swap. The source may be anywhere, even below x. */
    method Assign(x: Addr, src: Addr)
      requires Inv(w) && AtRest(w) && x in w.objects && src in w.objects
      modifies this
      ensures Inv(w) && AtRest(w) && x in w.objects && Same(old(w), w, Below(old(w).forest, x))
      ensures SameShape(old(w).objects, src, w.objects, x)
      ensures x in old(w).forest.parent <==> x in w.forest.parent
    {
      ghost var w0 := w;
      var tmp := NewCopy(src);
      ghost var w1 := w;
      NewUnrelated(w0, w1, x, tmp);
      HandOver(x, tmp);
      ghost var w2 := w;
      RestClearable(w, tmp);
      Destroy(tmp);
      DestroyedRests(w2, w, tmp);
      AssignedIs(w0, w1, w2, w, x, tmp);
      ShapeAssigned(w0, src, w1, w2, w, x, tmp);
    }

    /** The position of the group with the number num under a tag. */
    method Find(x: Addr, num: int, tag: int) returns (k: Option<nat>)
      requires x in w.objects
      ensures k == Nth(w.objects[x].groups, num, tag)
    {
      var groups := w.objects[x].groups;
      var left := num;
      for i := 0 to |groups|
        invariant Nth(groups, num, tag) == Shifted(Nth(groups[i..], left, tag), i)
      {
        assert groups[i..][1..] == groups[i + 1..];
        if groups[i].tag == tag {
          if left == 1 {
            return Some(i);
          }
          left := left - 1;
        }
      }
      k := None;
    }

    method ReplaceGroup(x: Addr, num: int, tag: int, src: Addr)
      requires Inv(w) && AtRest(w) && x in w.objects && src in w.objects
      modifies this
      ensures Inv(w) && AtRest(w)
      ensures x in w.objects && GroupReplaced(old(w), w, x, Nth(old(w).objects[x].groups, num, tag), src)
    {
      var k := Find(x, num, tag);
      NthIs(w.objects[x].groups, num, tag);
      if k.Some? {
        GroupOf(w, x, k.value);
        Assign(w.objects[x].groups[k.value].at, src);
      }
    }

    /** removeGroup(num, tag): the last group of a tag takes the count field with it. */
    method RemoveGroup(x: Addr, num: int, tag: int)
      requires Inv(w) && AtRest(w) && x in w.objects
      modifies this
      ensures Inv(w) && AtRest(w)
      ensures var k := Nth(old(w).objects[x].groups, num, tag);
        if k.None? then w == old(w) else GroupRemoved(old(w), w, x, k.value, tag)
    {
      var k := Find(x, num, tag);
      NthIs(w.objects[x].groups, num, tag);
      if k.Some? {
        ghost var w0 := w;
        RestClearable(w, x);
        DestroyHeld(x, k.value);
        HeldGoneRests(w0, w, x, k.value);
        SetFields(x, if CountTag(w.objects[x].groups, tag) == 0 then DropOne(w.objects[x].fields, tag)
                     else WithCount(w.objects[x], tag));
      }
    }

    /** removeField and removeGroup(tag) call each other, as long as there is something left. */
    method RemoveField(x: Addr, tag: int)
      requires Inv(w) && AtRest(w) && x in w.objects
      modifies this
      ensures Inv(w) && AtRest(w) && x in w.objects
      ensures w.objects[x] == FieldRemoved(old(w).objects[x], tag) && Trimmed(old(w), w, x)
      decreases |w.objects[x].fields| + |w.objects[x].groups|
    {
      if FieldMaps.First(w.objects[x].fields, tag) < |w.objects[x].fields| {
        ghost var w0 := w;
        TrimmedByFields(w, x, DropOne(w.objects[x].fields, tag));
        SetFields(x, DropOne(w.objects[x].fields, tag));
        ghost var w1 := w;
        RemoveGroups(x, tag);
        TrimmedTwice(w0, w1, w, x);
      }
    }

    method RemoveGroups(x: Addr, tag: int)
      requires Inv(w) && AtRest(w) && x in w.objects
      modifies this
      ensures Inv(w) && AtRest(w) && x in w.objects
      ensures w.objects[x] == GroupsRemoved(old(w).objects[x], tag) && Trimmed(old(w), w, x)
      decreases |w.objects[x].fields| + |w.objects[x].groups|
    {
      var k := Find(x, 1, tag);
      NthIs(w.objects[x].groups, 1, tag);
      FoundOrNone(w.objects[x].groups, tag);
      if k.Some? {
        ghost var w0 := w;
        GroupsThenField(w.objects[x], tag);
        DestroyGroups(x, tag);
        ghost var w1 := w;
        RemoveField(x, tag);
        TrimmedTwice(w0, w1, w, x);
      }
    }

    /** All groups of a tag are destroyed. */
    method DestroyGroups(x: Addr, tag: int)
      requires Inv(w) && AtRest(w) && x in w.objects
      modifies this
      ensures Inv(w) && AtRest(w) && x in w.objects
      ensures w.objects[x] == old(w).objects[x].(groups := OtherTags(old(w).objects[x].groups, tag))
      ensures Trimmed(old(w), w, x)
    {
      var k := Find(x, 1, tag);
      while k.Some?
        invariant Inv(w) && AtRest(w) && x in w.objects && k == Nth(w.objects[x].groups, 1, tag)
        invariant OtherTags(w.objects[x].groups, tag) == OtherTags(old(w).objects[x].groups, tag)
        invariant w.objects[x] == old(w).objects[x].(groups := w.objects[x].groups) && Trimmed(old(w), w, x)
        decreases |w.objects[x].groups|
      {
        ghost var w1 := w;
        NthIs(w.objects[x].groups, 1, tag);
        OtherTagsWithout(w.objects[x].groups, k.value, tag);
        RestClearable(w, x);
        DestroyHeld(x, k.value);
        HeldGoneRests(w1, w, x, k.value);
        TrimmedByMore(old(w), w1, w, x, k.value);
        k := Find(x, 1, tag);
      }
      FoundOrNone(w.objects[x].groups, tag);
    }

    /** clear */
    method ClearMap(x: Addr)
      requires Inv(w) && AtRest(w) && x in w.objects
      modifies this
      ensures Inv(w) && AtRest(w) && Cleared(old(w), w, x)
    {
      ghost var w0 := w;
      RestClearable(w, x);
      Clear(x);
      ClearedRests(w0, w, x);
    }

    /** The end of a variable, or the deletion of a group that nothing holds. */
    method Delete(x: Addr)
      requires Inv(w) && AtRest(w) && x in w.objects && x !in w.forest.parent
      modifies this
      ensures Inv(w) && AtRest(w)
      ensures w.objects == old(w).objects - Below(old(w).forest, x)
    {
      ghost var w0 := w;
      RestClearable(w, x);
      RootStorage(w, x);
      Destroy(x);
      if x.Block? {
        Free(x);
      }
      DeletedRests(w0, w, x);
    }

    // ----- calls on a field map, and its value

    /** A call has its effect in memory, and to the value at its field map it does what the
        operation that is meant does. */
    method Edit(op: Op)
      requires Inv(w) && AtRest(w) && Edits(op) && Allowed(w, op)
      modifies this
      ensures Inv(w) && AtRest(w) && Edited(old(w), w, op) && Reads(old(w), w, op.x, Meant(old(w), op))
    {
      if op.AddGroup? || op.AddGroupPtr? {
        EditByAdding(op);
      } else if op.ReplaceGroup? || op.RemoveGroup? {
        EditGroup(op);
      } else if op.SetField? {
        EditField(op);
      } else {
        EditTag(op);
      }
    }

    method EditByAdding(op: Op)
      requires Inv(w) && AtRest(w) && Edits(op) && Allowed(w, op) && (op.AddGroup? || op.AddGroupPtr?)
      modifies this
      ensures Inv(w) && AtRest(w) && Edited(old(w), w, op) && Reads(old(w), w, op.x, Meant(old(w), op))
    {
      ghost var w0 := w;
      if op.AddGroup? {
        AddGroup(op.x, op.tag, op.src, op.setCount);
        CloneReads(w0, w, op.x, op.tag, op.src, op.setCount);
      } else {
        AddGroupPtr(op.x, op.tag, op.group, op.setCount);
        TakenReads(w0, w, op.x, op.tag, op.group.value, op.setCount);
      }
    }

    method EditField(op: Op)
      requires Inv(w) && AtRest(w) && Allowed(w, op) && op.SetField?
      modifies this
      ensures Inv(w) && AtRest(w) && Edited(old(w), w, op) && Reads(old(w), w, op.x, Meant(old(w), op))
    {
      ghost var w0 := w;
      SetField(op.x, op.f, op.overwrite);
      SetReads(w0, w, op.x, op.f, op.overwrite);
    }

    method EditTag(op: Op)
      requires Inv(w) && AtRest(w) && Allowed(w, op) && (op.RemoveField? || op.RemoveGroups?)
      modifies this
      ensures Inv(w) && AtRest(w) && Edited(old(w), w, op) && Reads(old(w), w, op.x, Meant(old(w), op))
    {
      ghost var w0 := w;
      if op.RemoveField? {
        RemoveField(op.x, op.tag);
        RemoveFieldReads(w0, w, op.x, op.tag);
      } else {
        RemoveGroups(op.x, op.tag);
        RemoveAllReads(w0, w, op.x, op.tag);
      }
    }

    method EditGroup(op: Op)
      requires Inv(w) && AtRest(w) && Allowed(w, op) && (op.ReplaceGroup? || op.RemoveGroup?)
      modifies this
      ensures Inv(w) && AtRest(w) && Edited(old(w), w, op) && Reads(old(w), w, op.x, Meant(old(w), op))
    {
      ghost var w0 := w;
      if op.ReplaceGroup? {
        ReplaceGroup(op.x, op.num, op.tag, op.src);
        ReplacedReads(w0, w, op.x, op.num, op.tag, op.src);
      } else {
        RemoveGroup(op.x, op.num, op.tag);
        RemovedReads(w0, w, op.x, op.num, op.tag);
      }
    }

    /** A new field map and a series of calls on it; calls on other maps, and calls that a
        program must not make, are left out, and no others: the states of the memory, from the
        new map on, say what each call met and did. The value that has come about in memory is
        that of the run of the operations that are meant; so its count fields are right, if the
        calls see to it. */
    method BuildUp(order: MessageOrder.Order, ops: seq<Op>, ghost tags: set<int>)
      returns (x: Addr, ghost worlds: seq<World>)
      requires Inv(w) && AtRest(w)
      modifies this
      ensures Inv(w) && AtRest(w) && BuiltTo(old(w), w, x, order, ops, worlds)
      ensures var p := FieldMaps.Run(order, MeantBy(x, ops, worlds[..|ops|]));
        TreeAt(w, x) == FieldMaps.Tree(order, p.fields, p.groups)
      ensures (forall op :: op in ops && Edits(op) ==> Conventional(op, tags)) ==> FieldMaps.Counted(PartsAt(w, x), tags)
    {
      ghost var w0 := w;
      x := NewMap(order);
      BuildStarts(w0, w, x, order);
      worlds := CallAll(w0, x, order, ops);
      BuiltIs(w0, w, x, order, ops, worlds, tags);
    }

    method CallAll(ghost w0: World, x: Addr, ghost order: MessageOrder.Order, ops: seq<Op>)
      returns (ghost worlds: seq<World>)
      requires Inv(w) && AtRest(w) && BuiltTo(w0, w, x, order, [], [w])
      modifies this
      ensures Inv(w) && AtRest(w) && BuiltTo(w0, w, x, order, ops, worlds)
    {
      if ops == [] {
        worlds := [w];
      } else {
        var last := |ops| - 1;
        assert ops == ops[..last] + [ops[last]];
        worlds := CallAll(w0, x, order, ops[..last]);
        worlds := CallMore(w0, x, ops[last], order, ops[..last], worlds);
      }
    }

    method CallMore(ghost w0: World, x: Addr, op: Op, ghost order: MessageOrder.Order, ghost done: seq<Op>, ghost worlds: seq<World>)
      returns (ghost after: seq<World>)
      requires Inv(w) && AtRest(w) && BuiltTo(w0, w, x, order, done, worlds)
      modifies this
      ensures Inv(w) && AtRest(w) && BuiltTo(w0, w, x, order, done + [op], after)
    {
      ghost var w1 := w;
      CallOn(x, op, order, MeantBy(x, done, worlds[..|done|]));
      after := worlds + [w];
      BuiltMore(w0, w1, w, x, order, done, worlds, op);
    }

    method CallOn(x: Addr, op: Op, ghost order: MessageOrder.Order, ghost meant: seq<FieldMaps.Op>)
      requires Inv(w) && AtRest(w) && BuiltBy(w, x, order, meant)
      modifies this
      ensures Inv(w) && AtRest(w) && Called(old(w), w, x, op)
      ensures BuiltBy(w, x, order, meant + MeantAt(old(w), x, op))
    {
      if IsOn(w, x, op) {
        RunMore(order, meant, Meant(w, op));
        Edit(op);
      } else {
        assert meant + [] == meant;
      }
    }

    // ----- programs

    /** One call; a call that a program must not make is left out. */
    method Do(op: Op)
      requires Inv(w) && AtRest(w)
      modifies this
      ensures Inv(w) && AtRest(w)
    {
      if Allowed(w, op) {
        if Makes(op) {
          Make(op);
        } else {
          Change(op);
        }
      }
    }

    method Make(op: Op)
      requires Inv(w) && AtRest(w) && Allowed(w, op) && Makes(op)
      modifies this
      ensures Inv(w) && AtRest(w)
    {
      match op
      case NewMap(order) => var _ := NewMap(order);
      case NewCopy(src) => var _ := NewCopy(src);
      case NewMoved(rhs) => var _ := NewMoved(rhs);
      case NewGroup(src) => var _ := NewGroup(src);
    }

    method Change(op: Op)
      requires Inv(w) && AtRest(w) && Allowed(w, op) && !Makes(op)
      modifies this
      ensures Inv(w) && AtRest(w)
    {
      match op
      case AddGroup(x, tag, src, setCount) => AddGroup(x, tag, src, setCount);
      case AddGroupPtr(x, tag, g, setCount) => AddGroupPtr(x, tag, g, setCount);
      case SetField(x, f, overwrite) => SetField(x, f, overwrite);
      case RemoveField(x, tag) => RemoveField(x, tag);
      case ReplaceGroup(x, num, tag, src) => ReplaceGroup(x, num, tag, src);
      case RemoveGroup(x, num, tag) => RemoveGroup(x, num, tag);
      case RemoveGroups(x, tag) => RemoveGroups(x, tag);
      case Clear(x) => ClearMap(x);
      case Swap(x, y) => Swap(x, y);
      case Assign(x, src) => Assign(x, src);
      case MoveAssign(x, rhs) => MoveAssign(x, rhs);
      case Delete(x) => Delete(x);
    }

    /** Whatever a program does with its field maps, when all of them have ended, no group is
        alive and no arena is left; every field map that was made has ended once, and every
        block that was taken was taken once and freed once. Along the way nothing is destroyed
        or freed that is not alive or in use, and no arena reset that holds a live group:
        these are what Bury, Free, ResetArena and DropArena require. */
    method Run(ops: seq<Op>)
      requires Inv(w) && AtRest(w)
      modifies this
      ensures Inv(w) && w.objects == map[] && w.arenas == map[] && w.blocks == {}
      ensures w.ledger.ended == w.ledger.made && w.ledger.freed == w.ledger.taken
      ensures forall id :: id in w.ledger.taken ==> w.ledger.taken[id] == 1
    {
      for i := 0 to |ops|
        invariant Inv(w) && AtRest(w)
      {
        Do(ops[i]);
      }
      while w.objects != map[]
        invariant Inv(w) && AtRest(w)
        decreases |w.objects|
      {
        var root :| root in w.objects && root !in w.forest.parent by {
          assert w.forest.nodes != {};
          var x := HasRoot(w.forest);
        }
        FewerObjects(w.objects, Below(w.forest, root), root);
        Delete(root);
      }
      NothingLeft(w);
    }
  }

  /** The calls that a program makes on its field maps. */
  datatype Op =
    | NewMap(order: MessageOrder.Order)
    | NewCopy(src: Addr)
    | NewMoved(rhs: Addr)
    | NewGroup(src: Addr)
    | SetField(x: Addr, f: Fields.Field, overwrite: bool)
    | RemoveField(x: Addr, tag: int)
    | AddGroup(x: Addr, tag: int, src: Addr, setCount: bool)
    | AddGroupPtr(x: Addr, tag: int, group: Option<Addr>, setCount: bool)
    | ReplaceGroup(x: Addr, num: int, tag: int, src: Addr)
    | RemoveGroup(x: Addr, num: int, tag: int)
    | RemoveGroups(x: Addr, tag: int)
    | Clear(x: Addr)
    | Swap(x: Addr, y: Addr)
    | Assign(x: Addr, src: Addr)
    | MoveAssign(x: Addr, rhs: Addr)
    | Delete(x: Addr)

  predicate Makes(op: Op) {
    op.NewMap? || op.NewCopy? || op.NewMoved? || op.NewGroup?
  }

  /** What a program must see to: field maps that it names are alive; it hands over groups that
      nothing holds, swaps and moves between unrelated maps, and deletes what nothing holds. */
  predicate Allowed(w: World, op: Op) {
    match op
    case NewMap(_) => true
    case NewCopy(src) => src in w.objects
    case NewMoved(rhs) => rhs in w.objects
    case NewGroup(src) => src in w.objects
    case SetField(x, _, _) => x in w.objects
    case RemoveField(x, _) => x in w.objects
    case AddGroup(x, _, src, _) => x in w.objects && src in w.objects
    case AddGroupPtr(x, _, g, _) => g.Some? ==> g.value.Block? && CanLink(w, x, g.value)
    case ReplaceGroup(x, _, _, src) => x in w.objects && src in w.objects
    case RemoveGroup(x, _, _) => x in w.objects
    case RemoveGroups(x, _) => x in w.objects
    case Clear(x) => x in w.objects
    case Swap(x, y) => x in w.objects && y in w.objects && (x == y || CanSwap(w, x, y))
    case Assign(x, src) => x in w.objects && src in w.objects
    case MoveAssign(x, rhs) => x in w.objects && rhs in w.objects && (x == rhs || CanSwap(w, x, rhs))
    case Delete(x) => x in w.objects && x !in w.forest.parent
  }

  // ----- calls as operations on values

  /** The calls that change one field map, which is not yet ended by them. */
  predicate Edits(op: Op) {
    || op.SetField? || op.RemoveField? || op.AddGroup? || (op.AddGroupPtr? && op.group.Some?)
    || op.ReplaceGroup? || op.RemoveGroup? || op.RemoveGroups?
  }

  /** The operation on values that a call means: a source stands for its tree. */
  ghost function Meant(w: World, op: Op): FieldMaps.Op
    requires Edits(op)
  {
    match op
    case SetField(_, f, overwrite) => FieldMaps.Set(f, overwrite)
    case RemoveField(_, tag) => FieldMaps.Remove(tag)
    case AddGroup(_, tag, src, setCount) => FieldMaps.Add(tag, TreeAt(w, src), setCount)
    case AddGroupPtr(_, tag, g, setCount) => FieldMaps.Add(tag, TreeAt(w, g.value), setCount)
    case ReplaceGroup(_, num, tag, src) => FieldMaps.Replace(num, tag, TreeAt(w, src))
    case RemoveGroup(_, num, tag) => FieldMaps.RemoveOne(num, tag)
    case RemoveGroups(_, tag) => FieldMaps.RemoveAll(tag)
  }

  /** The effect of a call: what the method that it names ensures. */
  ghost predicate Edited(w: World, r: World, op: Op)
    requires Edits(op)
  {
    op.x in w.objects && op.x in r.objects &&
    match op
    case SetField(x, f, overwrite) =>
      r == WithFields(w, x, FieldMaps.SetIn(w.objects[x].order, w.objects[x].fields, f, overwrite))
    case RemoveField(x, tag) => r.objects[x] == FieldRemoved(w.objects[x], tag) && Trimmed(w, r, x)
    case RemoveGroups(x, tag) => r.objects[x] == GroupsRemoved(w.objects[x], tag) && Trimmed(w, r, x)
    case AddGroup(x, tag, src, setCount) =>
      src in w.objects && Same(w, r, {x}) && exists g :: CloneAdded(w, r, x, tag, src, g, setCount)
    case AddGroupPtr(x, tag, g, setCount) =>
      CanLink(w, x, g.value) && Same(w, r, {x}) && GroupAdded(w, r, x, tag, g.value, setCount)
    case ReplaceGroup(x, num, tag, src) => src in w.objects && GroupReplaced(w, r, x, Nth(w.objects[x].groups, num, tag), src)
    case RemoveGroup(x, num, tag) =>
      var k := Nth(w.objects[x].groups, num, tag);
      if k.None? then r == w else GroupRemoved(w, r, x, k.value, tag)
  }

  /** A program may make the call, and it edits x. */
  predicate IsOn(w: World, x: Addr, op: Op) {
    Edits(op) && op.x == x && Allowed(w, op)
  }

  ghost predicate Called(w: World, r: World, x: Addr, op: Op) {
    if IsOn(w, x, op) then Edited(w, r, op) else r == w
  }

  /** x is new, and empty. */
  ghost predicate NewIn(w: World, r: World, x: Addr, order: MessageOrder.Order) {
    CopyOf(w, r, x, None) && r.objects[x] == Object(order, [], [], None)
  }

  ghost function MeantAt(w: World, x: Addr, op: Op): seq<FieldMaps.Op> {
    if IsOn(w, x, op) then [Meant(w, op)] else []
  }

  /** The operations that the calls on x mean, each in the memory that it met. */
  ghost function MeantBy(x: Addr, ops: seq<Op>, worlds: seq<World>): seq<FieldMaps.Op>
    requires |worlds| == |ops|
  {
    if ops == [] then []
    else
      var last := |ops| - 1;
      MeantBy(x, ops[..last], worlds[..last]) + MeantAt(worlds[last], x, ops[last])
  }

  /** Groups under count tags only, and no count field written by hand. */
  predicate Conventional(op: Op, tags: set<int>)
    requires Edits(op)
  {
    match op
    case SetField(_, f, _) => f.tag !in tags
    case AddGroup(_, tag, _, setCount) => tag in tags && setCount
    case AddGroupPtr(_, tag, _, setCount) => tag in tags && setCount
    case _ => true
  }

  ghost predicate BuiltBy(w: World, x: Addr, order: MessageOrder.Order, meant: seq<FieldMaps.Op>) {
    x in w.objects && w.objects[x].order == order && PartsAt(w, x) == FieldMaps.Run(order, meant)
  }

  /** The states of the memory from the new map on, and what has come of it. */
  ghost predicate BuiltTo(w0: World, w: World, x: Addr, order: MessageOrder.Order, ops: seq<Op>, worlds: seq<World>) {
    && |worlds| == |ops| + 1 && NewIn(w0, worlds[0], x, order) && worlds[|ops|] == w
    && (forall i :: 0 <= i < |ops| ==> Called(worlds[i], worlds[i + 1], x, ops[i]))
    && BuiltBy(w, x, order, MeantBy(x, ops, worlds[..|ops|]))
  }

  lemma BuildStarts(w0: World, w: World, x: Addr, order: MessageOrder.Order)
    requires Inv(w) && NewIn(w0, w, x, order)
    ensures BuiltTo(w0, w, x, order, [], [w])
  {
    BareReads(w, x);
  }

  lemma BuiltMore(w0: World, w: World, r: World, x: Addr, order: MessageOrder.Order, ops: seq<Op>, worlds: seq<World>, op: Op)
    requires BuiltTo(w0, w, x, order, ops, worlds) && Called(w, r, x, op)
    requires BuiltBy(r, x, order, MeantBy(x, ops, worlds[..|ops|]) + MeantAt(w, x, op))
    ensures BuiltTo(w0, r, x, order, ops + [op], worlds + [r])
  {
    CalledMore(w, r, x, ops, worlds, op);
    MeantMore(r, x, ops, worlds, op);
  }

  lemma CalledMore(w: World, r: World, x: Addr, ops: seq<Op>, worlds: seq<World>, op: Op)
    requires |worlds| == |ops| + 1 && worlds[|ops|] == w && Called(w, r, x, op)
    requires forall i :: 0 <= i < |ops| ==> Called(worlds[i], worlds[i + 1], x, ops[i])
    ensures var all, after := ops + [op], worlds + [r];
      forall i :: 0 <= i < |all| ==> Called(after[i], after[i + 1], x, all[i])
  {
    var all, after := ops + [op], worlds + [r];
    forall i | 0 <= i < |all|
      ensures Called(after[i], after[i + 1], x, all[i])
    {
      assert i < |ops| ==> Called(worlds[i], worlds[i + 1], x, ops[i]);
    }
  }

  lemma MeantMore(r: World, x: Addr, ops: seq<Op>, worlds: seq<World>, op: Op)
    requires |worlds| == |ops| + 1
    ensures MeantBy(x, ops + [op], (worlds + [r])[..|ops + [op]|])
         == MeantBy(x, ops, worlds[..|ops|]) + MeantAt(worlds[|ops|], x, op)
  {
    var all := ops + [op];
    assert all[..|ops|] == ops && (worlds + [r])[..|all|] == worlds;
  }

  lemma BuiltIs(w0: World, w: World, x: Addr, order: MessageOrder.Order, ops: seq<Op>, worlds: seq<World>, tags: set<int>)
    requires Inv(w) && BuiltTo(w0, w, x, order, ops, worlds)
    ensures var p := FieldMaps.Run(order, MeantBy(x, ops, worlds[..|ops|]));
      TreeAt(w, x) == FieldMaps.Tree(order, p.fields, p.groups)
    ensures (forall op :: op in ops && Edits(op) ==> Conventional(op, tags)) ==> FieldMaps.Counted(PartsAt(w, x), tags)
  {
    var meant := MeantBy(x, ops, worlds[..|ops|]);
    TreeUnfold(w, x);
    MeantFollow(x, ops, worlds[..|ops|], tags);
    if AllFollow(meant, tags) {
      FieldMaps.RunKeepsCounted(order, meant, tags);
    }
  }

  ghost predicate AllFollow(meant: seq<FieldMaps.Op>, tags: set<int>) {
    forall m :: m in meant ==> FieldMaps.Follows(m, tags)
  }

  lemma {:induction false} MeantFollow(x: Addr, ops: seq<Op>, worlds: seq<World>, tags: set<int>)
    requires |worlds| == |ops|
    ensures (forall op :: op in ops && Edits(op) ==> Conventional(op, tags)) ==> AllFollow(MeantBy(x, ops, worlds), tags)
  {
    if ops != [] && forall op :: op in ops && Edits(op) ==> Conventional(op, tags) {
      var last := |ops| - 1;
      MeantFollow(x, ops[..last], worlds[..last], tags);
      assert ops[last] in ops;
      FollowsAt(worlds[last], x, ops[last], tags);
    }
  }

  lemma FollowsAt(w: World, x: Addr, op: Op, tags: set<int>)
    requires Edits(op) ==> Conventional(op, tags)
    ensures AllFollow(MeantAt(w, x, op), tags)
  {
  }

  lemma RunMore(order: MessageOrder.Order, ops: seq<FieldMaps.Op>, op: FieldMaps.Op)
    ensures FieldMaps.Run(order, ops + [op]) == FieldMaps.Apply(order, FieldMaps.Run(order, ops), op)
  {
    assert (ops + [op])[..|ops|] == ops;
  }
}
