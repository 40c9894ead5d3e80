/** What an exchange between a field map and one below it does: the groups end up in a cycle. */
module Cycles {
  import opened Forests
  import opened Ownership
  import opened Lifetimes

  /** From x on, each holds the next. */
  ghost predicate Descends(objects: map<Addr, Object>, x: Addr, path: seq<Addr>) {
    path != [] && forall i :: 0 <= i < |path| ==> HoldsNext(objects, Previous(x, path, i), path[i])
  }

  function Previous(x: Addr, path: seq<Addr>, i: nat): Addr
    requires i < |path|
  {
    if i == 0 then x else path[i - 1]
  }

  ghost predicate HoldsNext(objects: map<Addr, Object>, p: Addr, c: Addr) {
    p in objects && Holds(objects[p].groups, c)
  }

  /** A field map holds itself, directly or through others. */
  ghost predicate Cyclic(w: World) {
    exists x, path :: Descends(w.objects, x, path) && path[|path| - 1] == x
  }

  lemma HolderAbove(w: World, p: Addr, c: Addr)
    requires Shaped(w) && HoldsNext(w.objects, p, c)
    ensures c in w.forest.anc && p in w.forest.anc && p in w.forest.anc[c] && w.forest.anc[p] <= w.forest.anc[c]
  {
    assert HeldBy(w.objects[p].groups, w.forest.parent, p);
    assert IsChild(w.forest, c);
  }

  lemma {:induction false} AboveAll(w: World, x: Addr, path: seq<Addr>)
    requires Shaped(w) && Descends(w.objects, x, path)
    ensures var y := path[|path| - 1]; y in w.forest.anc && x in w.forest.anc[y]
  {
    var last := |path| - 1;
    assert HoldsNext(w.objects, Previous(x, path, last), path[last]);
    HolderAbove(w, Previous(x, path, last), path[last]);
    if last > 0 {
      WayUp(w.objects, x, path);
      AboveAll(w, x, path[..last]);
    }
  }

  lemma WayUp(objects: map<Addr, Object>, x: Addr, path: seq<Addr>)
    requires Descends(objects, x, path) && |path| > 1
    ensures Descends(objects, x, path[..|path| - 1])
  {
    var r := path[..|path| - 1];
    forall i | 0 <= i < |r|
      ensures HoldsNext(objects, Previous(x, r, i), r[i])
    {
      assert HoldsNext(objects, Previous(x, path, i), path[i]);
    }
  }

  /** No forest fits the pointers of a cycle. */
  lemma CycleFitsNone(w: World, f: Forest)
    requires Cyclic(w)
    ensures !Shaped(w.(forest := f))
  {
    var r := w.(forest := f);
    if Shaped(r) {
      var x, path :| Descends(w.objects, x, path) && path[|path| - 1] == x;
      AboveAll(r, x, path);
      NotAboveItself(f, x);
    }
  }

  lemma NotAboveItself(f: Forest, y: Addr)
    requires Rooted(f) && y in f.nodes
    ensures y in f.anc && y !in f.anc[y]
  {
    assert IsNode(f, y);
  }

  /** The exchange that swap and the moves make, whoever holds whom. */
  function Tangled(w: World, x: Addr, y: Addr): World
    requires x in w.objects && y in w.objects
  {
    w.(objects := w.objects[x := w.objects[y]][y := w.objects[x]])
  }

  /** The way from a field map down to one below it; what is between is neither. */
  lemma {:induction false} WayDown(w: World, x: Addr, y: Addr) returns (path: seq<Addr>)
    requires Shaped(w) && y in w.forest.anc && x in w.forest.anc[y]
    ensures Descends(w.objects, x, path) && path[|path| - 1] == y
    ensures Between(w.forest.anc[y], x, path)
    decreases w.forest.anc[y]
  {
    HasHolder(w, x, y);
    var p := w.forest.parent[y];
    if p == x {
      path := [y];
    } else {
      path := WayDown(w, x, p);
      WayOn(w.objects, x, path, y);
      BetweenOn(w.forest.anc[p], w.forest.anc[y], x, path, y);
      path := path + [y];
    }
  }

  /** All but the last are in the set, and not x. */
  ghost predicate Between(up: set<Addr>, x: Addr, path: seq<Addr>) {
    forall i :: 0 <= i < |path| - 1 ==> path[i] in up && path[i] != x
  }

  lemma BetweenOn(less: set<Addr>, up: set<Addr>, x: Addr, path: seq<Addr>, y: Addr)
    requires Between(less, x, path) && less <= up && path != [] && path[|path| - 1] in up && path[|path| - 1] != x
    ensures Between(up, x, path + [y])
  {
  }

  lemma HasHolder(w: World, x: Addr, y: Addr)
    requires Shaped(w) && y in w.forest.anc && x in w.forest.anc[y]
    ensures y in w.forest.parent && HoldsNext(w.objects, w.forest.parent[y], y)
    ensures var p := w.forest.parent[y];
      && p in w.forest.anc && p in w.forest.anc[y] && w.forest.anc[p] < w.forest.anc[y]
      && (p == x || x in w.forest.anc[p])
  {
    assert IsNode(w.forest, y);
    assert IsChild(w.forest, y) && IsHeld(w.objects, w.forest.parent, y);
    assert IsNode(w.forest, w.forest.parent[y]);
  }

  lemma WayOn(objects: map<Addr, Object>, x: Addr, path: seq<Addr>, y: Addr)
    requires Descends(objects, x, path) && HoldsNext(objects, path[|path| - 1], y)
    ensures Descends(objects, x, path + [y])
  {
    var r := path + [y];
    forall i | 0 <= i < |r|
      ensures HoldsNext(objects, Previous(x, r, i), r[i])
    {
      if i < |path| {
        assert HoldsNext(objects, Previous(x, path, i), path[i]);
      }
    }
  }

  /** The groups of x are given to y, which is below it: the way down to y now begins at y. */
  lemma CycleMade(w: World, r: World, x: Addr, y: Addr)
    requires Shaped(w) && x in w.objects && y in w.forest.anc && x in w.forest.anc[y]
    requires y in r.objects && r.objects[y].groups == w.objects[x].groups
    requires forall q :: q in w.objects && q != x && q != y ==> q in r.objects && r.objects[q].groups == w.objects[q].groups
    ensures Cyclic(r)
  {
    var path := WayDown(w, x, y);
    NotAboveItself(w.forest, y);
    forall i | 0 <= i < |path|
      ensures HoldsNext(r.objects, Previous(y, path, i), path[i])
    {
      assert HoldsNext(w.objects, Previous(x, path, i), path[i]);
    }
    assert Descends(r.objects, y, path);
  }

  /** A swap between a field map and one below it leaves a cycle. */
  lemma SwapTangles(w: World, x: Addr, y: Addr)
    requires Shaped(w) && x in w.objects && y in w.objects && x != y && !CanSwap(w, x, y)
    ensures Cyclic(Tangled(w, x, y))
  {
    if x in w.forest.anc[y] {
      CycleMade(w, Tangled(w, x, y), x, y);
    } else {
      CycleMade(w, Tangled(w, x, y), y, x);
    }
  }

  /** x has what y had, which is now in a cycle; y is bare. */
  ghost predicate TiedUp(w: World, r: World, x: Addr, y: Addr) {
    && y in w.objects && x in r.objects && y in r.objects
    && r.objects[x] == w.objects[y] && Bare(r.objects[y]) && Cyclic(r)
  }

  /** A move from above: what x owned is gone, and what y, above x, owned becomes a cycle. */
  lemma MoveTangles(w: World, v: World, u: World, x: Addr, y: Addr)
    requires Shaped(w) && Shaped(u) && Cleared(w, v, x) && y in w.objects && y in w.forest.anc[x]
    requires u == (if v.objects[x].arena.Some? then ArenaDropped(v, x, v.objects[x].arena.value) else v)
    ensures x != y && x in u.objects && y in u.objects && TiedUp(w, Tangled(u, x, y), x, y)
  {
    NotAboveItself(w.forest, x);
    NotAboveItself(w.forest, y);
    AboveNotBelow(w.forest, x, y);
    StillAbove(w, v, x, y);
    SwapTangles(u, x, y);
  }

  lemma StillAbove(w: World, v: World, x: Addr, y: Addr)
    requires Cleared(w, v, x) && y in w.objects && x in w.forest.anc && y in w.forest.anc[x]
    requires x !in w.forest.anc[x] && y != x && y !in Under(w.forest, x)
    ensures x in v.objects && y in v.objects && v.objects[y] == w.objects[y] && x in v.forest.anc && y in v.forest.anc[x]
  {
  }

  /** A move from below reads what it has destroyed: x is cleared before the source is read. */
  lemma MoveFromBelowIsDead(w: World, v: World, x: Addr, y: Addr)
    requires Shaped(w) && Cleared(w, v, x) && y in Under(w.forest, x)
    ensures y in w.objects && x in v.objects && y !in v.objects
  {
    assert IsNode(w.forest, x);
  }
}
