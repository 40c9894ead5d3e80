/** Groups in one list, each under its tag, and the same groups by tag. */
module GroupLists {
  import opened FieldMaps
  import opened MessageOrder
  import opened Sequences
  import Fields
  import Lifetimes

  datatype Labelled = Labelled(tag: int, tree: Tree)

  /** The list by tag: each group goes to the end of those of its tag. */
  function Collected(ls: seq<Labelled>): seq<Entry> {
    if ls == [] then []
    else
      var l, es := ls[|ls| - 1], Collected(ls[..|ls| - 1]);
      WithGroups(es, l.tag, GroupsOf(es, l.tag) + [l.tree])
  }

  /** The groups of one tag. */
  function Trees(ls: seq<Labelled>, tag: int): seq<Tree> {
    if ls == [] then [] else Trees(ls[..|ls| - 1], tag) + Single(ls[|ls| - 1], tag)
  }

  function Single(l: Labelled, tag: int): seq<Tree> {
    if l.tag == tag then [l.tree] else []
  }

  lemma {:induction false} CollectedIs(ls: seq<Labelled>)
    ensures SortedGroups(Collected(ls))
    ensures forall t :: GroupsOf(Collected(ls), t) == Trees(ls, t) && Has(Collected(ls), t) == (Trees(ls, t) != [])
  {
    if ls != [] {
      var l, es := ls[|ls| - 1], Collected(ls[..|ls| - 1]);
      var gs := GroupsOf(es, l.tag) + [l.tree];
      CollectedIs(ls[..|ls| - 1]);
      WithGroupsSorted(es, l.tag, gs);
      forall t
        ensures GroupsOf(Collected(ls), t) == Trees(ls, t) && Has(Collected(ls), t) == (Trees(ls, t) != [])
      {
        WithGroupsEffect(es, l.tag, gs, t);
      }
    }
  }

  ghost predicate SameAt(a: seq<Entry>, b: seq<Entry>, t: int) {
    Has(a, t) == Has(b, t) && GroupsOf(a, t) == GroupsOf(b, t)
  }

  /** There is one way to sort entries. */
  lemma {:induction false} SameEntries(a: seq<Entry>, b: seq<Entry>)
    requires SortedGroups(a) && SortedGroups(b) && forall t :: SameAt(a, b, t)
    ensures a == b
  {
    if b != [] {
      assert SameAt(a, b, b[0].tag);
      HeadTag(b, a);
    }
    if a != [] {
      HeadTag(a, b);
      TailSorted(a);
      TailSorted(b);
      forall t
        ensures SameAt(a[1..], b[1..], t)
      {
        assert SameAt(a, b, t);
        Unfold(a, t);
        Unfold(b, t);
      }
      SameEntries(a[1..], b[1..]);
      assert SameAt(a, b, a[0].tag);
      Unfold(a, a[0].tag);
      Unfold(b, a[0].tag);
      assert a == [a[0]] + a[1..] && b == [b[0]] + b[1..];
    }
  }

  lemma HeadTag(a: seq<Entry>, b: seq<Entry>)
    requires a != [] && SortedGroups(b) && SameAt(a, b, a[0].tag)
    ensures b != [] && b[0].tag <= a[0].tag
  {
    var i := EntryOf(b, a[0].tag);
    assert Has(a, a[0].tag);
    assert b[i].tag == a[0].tag;
  }

  /** Only the groups of one tag have changed. */
  ghost predicate Changed(ls: seq<Labelled>, r: seq<Labelled>, tag: int, gs: seq<Tree>) {
    forall t :: Trees(r, t) == if t == tag then gs else Trees(ls, t)
  }

  lemma CollectedWith(ls: seq<Labelled>, r: seq<Labelled>, tag: int, gs: seq<Tree>)
    requires Changed(ls, r, tag, gs) && gs != []
    ensures Collected(r) == WithGroups(Collected(ls), tag, gs)
  {
    CollectedIs(ls);
    CollectedIs(r);
    WithGroupsSorted(Collected(ls), tag, gs);
    forall t
      ensures SameAt(Collected(r), WithGroups(Collected(ls), tag, gs), t)
    {
      WithGroupsEffect(Collected(ls), tag, gs, t);
    }
    SameEntries(Collected(r), WithGroups(Collected(ls), tag, gs));
  }

  lemma CollectedWithout(ls: seq<Labelled>, r: seq<Labelled>, tag: int)
    requires Changed(ls, r, tag, []) && Trees(ls, tag) != []
    ensures Collected(r) == WithoutEntry(Collected(ls), tag)
  {
    CollectedIs(ls);
    CollectedIs(r);
    EntryGoneSorted(Collected(ls), tag);
    forall t
      ensures SameAt(Collected(r), WithoutEntry(Collected(ls), tag), t)
    {
      EntryGone(Collected(ls), tag, t);
    }
    SameEntries(Collected(r), WithoutEntry(Collected(ls), tag));
  }

  lemma {:induction false} TreesConcat(a: seq<Labelled>, b: seq<Labelled>, tag: int)
    ensures Trees(a + b, tag) == Trees(a, tag) + Trees(b, tag)
  {
    if b == [] {
      assert a + b == a;
    } else {
      var most, last := b[..|b| - 1], b[|b| - 1];
      TreesConcat(a, most, tag);
      CutLast(a, b);
      Associative(Trees(a, tag), Trees(most, tag), Single(last, tag));
    }
  }

  lemma CutLast(a: seq<Labelled>, b: seq<Labelled>)
    requires b != []
    ensures (a + b)[..|a + b| - 1] == a + b[..|b| - 1] && (a + b)[|a + b| - 1] == b[|b| - 1]
  {
  }

  lemma {:induction false} NoTrees(ls: seq<Labelled>, tag: int)
    requires forall l :: l in ls ==> l.tag != tag
    ensures Trees(ls, tag) == []
  {
    if ls != [] {
      NoTrees(ls[..|ls| - 1], tag);
    }
  }

  lemma Around(a: seq<Labelled>, l: Labelled, b: seq<Labelled>, tag: int)
    ensures Trees(a + [l] + b, tag) == Trees(a, tag) + Single(l, tag) + Trees(b, tag)
  {
    TreesConcat(a + [l], b, tag);
    assert (a + [l])[..|a|] == a;
  }

  /** A group that goes behind all of its tag. */
  lemma GroupInserted(a: seq<Labelled>, l: Labelled, b: seq<Labelled>)
    requires forall m :: m in b ==> m.tag != l.tag
    ensures Changed(a + b, a + [l] + b, l.tag, Trees(a + b, l.tag) + [l.tree])
  {
    NoTrees(b, l.tag);
    forall t
      ensures Trees(a + [l] + b, t) == if t == l.tag then Trees(a + b, t) + [l.tree] else Trees(a + b, t)
    {
      Around(a, l, b, t);
      TreesConcat(a, b, t);
    }
  }

  lemma Middle(a: seq<Tree>, x: Tree, b: seq<Tree>, y: Tree)
    ensures var s, n := a + [x] + b, |a|;
      n < |s| && s[..n] + s[n + 1..] == a + b && s[n := y] == a + [y] + b
  {
  }

  /** A group that is taken out. */
  lemma GroupTaken(a: seq<Labelled>, l: Labelled, b: seq<Labelled>)
    ensures var gs, n := Trees(a + [l] + b, l.tag), |Trees(a, l.tag)|;
      n < |gs| && Changed(a + [l] + b, a + b, l.tag, gs[..n] + gs[n + 1..])
  {
    Around(a, l, b, l.tag);
    Middle(Trees(a, l.tag), l.tree, Trees(b, l.tag), l.tree);
    forall t
      ensures Trees(a + b, t) == if t == l.tag then Trees(a, t) + Trees(b, t) else Trees(a + [l] + b, t)
    {
      OneLess(a, l, b, t);
    }
  }

  lemma OneLess(a: seq<Labelled>, l: Labelled, b: seq<Labelled>, t: int)
    ensures Trees(a + b, t) == if t == l.tag then Trees(a, t) + Trees(b, t) else Trees(a + [l] + b, t)
  {
    Around(a, l, b, t);
    TreesConcat(a, b, t);
  }

  /** A group that is replaced. */
  lemma GroupChanged(a: seq<Labelled>, l: Labelled, m: Labelled, b: seq<Labelled>)
    requires m.tag == l.tag
    ensures var gs, n := Trees(a + [l] + b, l.tag), |Trees(a, l.tag)|;
      n < |gs| && Changed(a + [l] + b, a + [m] + b, l.tag, gs[n := m.tree])
  {
    Around(a, l, b, l.tag);
    Middle(Trees(a, l.tag), l.tree, Trees(b, l.tag), m.tree);
    forall t
      ensures Trees(a + [m] + b, t) == if t == l.tag then Trees(a, t) + [m.tree] + Trees(b, t) else Trees(a + [l] + b, t)
    {
      OneChanged(a, l, m, b, t);
    }
  }

  lemma OneChanged(a: seq<Labelled>, l: Labelled, m: Labelled, b: seq<Labelled>, t: int)
    requires m.tag == l.tag
    ensures Trees(a + [m] + b, t) == if t == l.tag then Trees(a, t) + [m.tree] + Trees(b, t) else Trees(a + [l] + b, t)
  {
    Around(a, l, b, t);
    Around(a, m, b, t);
  }

  // ----- the operations, by the list

  lemma AddIs(order: Order, fields: seq<Fields.Field>, a: seq<Labelled>, l: Labelled, b: seq<Labelled>, setCount: bool)
    requires forall m :: m in b ==> m.tag != l.tag
    ensures
      var ls := a + [l] + b;
      Parts(fields, Collected(a + b)).AddGroup(order, l.tag, l.tree, setCount) ==
      Parts(if setCount then SetIn(order, fields, CountField(l.tag, |Trees(ls, l.tag)|), true) else fields, Collected(ls))
  {
    var gs := Trees(a + b, l.tag) + [l.tree];
    CollectedIs(a + b);
    GroupInserted(a, l, b);
    CollectedWith(a + b, a + [l] + b, l.tag, gs);
  }

  lemma HasGroupIs(fields: seq<Fields.Field>, ls: seq<Labelled>, num: int, tag: int)
    ensures Parts(fields, Collected(ls)).HasGroup(num, tag) <==> 0 < num <= |Trees(ls, tag)|
  {
    CollectedIs(ls);
  }

  lemma ReplaceIs(fields: seq<Fields.Field>, a: seq<Labelled>, l: Labelled, m: Labelled, b: seq<Labelled>)
    requires m.tag == l.tag
    ensures Parts(fields, Collected(a + [l] + b)).ReplaceGroup(|Trees(a, l.tag)| + 1, l.tag, m.tree) ==
            Parts(fields, Collected(a + [m] + b))
  {
    var ls, n := a + [l] + b, |Trees(a, l.tag)|;
    CollectedIs(ls);
    HasGroupIs(fields, ls, n + 1, l.tag);
    GroupChanged(a, l, m, b);
    CollectedWith(ls, a + [m] + b, l.tag, Trees(ls, l.tag)[n := m.tree]);
  }

  lemma RemoveIs(order: Order, fields: seq<Fields.Field>, a: seq<Labelled>, l: Labelled, b: seq<Labelled>, num: int)
    requires num == |Trees(a, l.tag)| + 1
    ensures
      var n := |Trees(a + b, l.tag)|;
      Parts(fields, Collected(a + [l] + b)).RemoveGroup(order, num, l.tag) ==
      Parts(if n == 0 then Lifetimes.DropOne(fields, l.tag) else SetIn(order, fields, CountField(l.tag, n), true),
            Collected(a + b))
  {
    var ls, n := a + [l] + b, |Trees(a, l.tag)|;
    var gs := Trees(ls, l.tag);
    CollectedIs(ls);
    HasGroupIs(fields, ls, n + 1, l.tag);
    GroupTaken(a, l, b);
    assert gs[..n] + gs[n + 1..] == Trees(a + b, l.tag);
    if Trees(a + b, l.tag) == [] {
      CollectedWithout(ls, a + b, l.tag);
      EntryGone(Collected(ls), l.tag, l.tag);
      FieldGone(fields, Collected(a + b), l.tag);
    } else {
      CollectedWith(ls, a + b, l.tag, Trees(a + b, l.tag));
    }
  }

  lemma FieldGone(fields: seq<Fields.Field>, es: seq<Entry>, tag: int)
    requires !Has(es, tag)
    ensures Parts(fields, es).RemoveField(tag) == Parts(Lifetimes.DropOne(fields, tag), es)
  {
  }

  lemma FieldThenGroups(fields: seq<Fields.Field>, es: seq<Entry>, tag: int)
    ensures Parts(fields, es).RemoveField(tag) ==
            if First(fields, tag) == |fields| then Parts(fields, es)
            else Parts(Lifetimes.DropOne(fields, tag), es).RemoveGroups(tag)
  {
  }

  lemma RemoveAllIs(fields: seq<Fields.Field>, ls: seq<Labelled>, rest: seq<Labelled>, tag: int)
    requires Changed(ls, rest, tag, [])
    ensures Parts(fields, Collected(ls)).RemoveGroups(tag) ==
            if Trees(ls, tag) == [] then Parts(fields, Collected(ls))
            else Parts(Lifetimes.DropOne(fields, tag), Collected(rest))
  {
    CollectedIs(ls);
    if Trees(ls, tag) != [] {
      CollectedWithout(ls, rest, tag);
      EntryGone(Collected(ls), tag, tag);
      FieldGone(fields, Collected(rest), tag);
    }
  }

  lemma RemoveFieldIs(fields: seq<Fields.Field>, ls: seq<Labelled>, rest: seq<Labelled>, tag: int)
    requires Changed(ls, rest, tag, []) && First(fields, tag) < |fields|
    ensures
      var left := Lifetimes.DropOne(fields, tag);
      Parts(fields, Collected(ls)).RemoveField(tag) ==
      if Trees(ls, tag) == [] then Parts(left, Collected(ls)) else Parts(Lifetimes.DropOne(left, tag), Collected(rest))
  {
    FieldThenGroups(fields, Collected(ls), tag);
    RemoveAllIs(Lifetimes.DropOne(fields, tag), ls, rest, tag);
  }
}
