/** The sorted field vector of a field map, with its repeating groups: lookup, insertion
    and removal in place, and the map that they implement. */
module FieldMaps {
  import opened Decimal
  import opened Fields
  import opened MessageOrder
  import opened Sequences
  import Division
  import I = IntConvertor

  /** The groups under one tag. */
  datatype Entry = Entry(tag: int, groups: seq<Tree>)

  /** The value of a field map: its order, its fields, its groups by ascending tag. */
  datatype Tree = Tree(order: Order, fields: seq<Field>, groups: seq<Entry>)

  // ----- sorted fields

  /** No field precedes an earlier one. */
  ghost predicate SortedBy(order: Order, fields: seq<Field>) {
    forall i, j :: 0 <= i < j < |fields| ==> !Precedes(order, fields[j].tag, fields[i].tag)
  }

  /** The position of the first field with the tag; the length if there is none. */
  function First(fields: seq<Field>, tag: int): (i: nat)
    ensures i <= |fields| && (i < |fields| ==> fields[i].tag == tag)
    ensures forall j :: 0 <= j < i ==> fields[j].tag != tag
  {
    if fields == [] || fields[0].tag == tag then 0 else 1 + First(fields[1..], tag)
  }

  lemma FirstIs(fields: seq<Field>, tag: int, i: nat)
    requires i <= |fields| && (i < |fields| ==> fields[i].tag == tag)
    requires forall j :: 0 <= j < i ==> fields[j].tag != tag
    ensures First(fields, tag) == i
  {
  }

  function Count(fields: seq<Field>, tag: int): nat {
    if fields == [] then 0 else (if fields[0].tag == tag then 1 else 0) + Count(fields[1..], tag)
  }

  /** A new field goes after every field that it does not precede. */
  function Placed(order: Order, fields: seq<Field>, f: Field): (r: seq<Field>)
    ensures |r| == |fields| + 1
  {
    if fields == [] || Precedes(order, f.tag, fields[0].tag) then [f] + fields
    else [fields[0]] + Placed(order, fields[1..], f)
  }

  lemma {:induction false} PlacedAt(order: Order, fields: seq<Field>, f: Field, k: nat)
    requires k <= |fields|
    requires forall i :: 0 <= i < k ==> !Precedes(order, f.tag, fields[i].tag)
    requires k < |fields| ==> Precedes(order, f.tag, fields[k].tag)
    ensures Placed(order, fields, f) == fields[..k] + [f] + fields[k..]
  {
    if k > 0 {
      PlacedAt(order, fields[1..], f, k - 1);
      assert fields[1..][..k - 1] == fields[..k][1..];
    }
  }

  /** setField; with overwrite off it adds a field whether or not there is one. */
  function SetIn(order: Order, fields: seq<Field>, f: Field, overwrite: bool): (r: seq<Field>) {
    var i := First(fields, f.tag);
    if overwrite && i < |fields| then fields[i := fields[i].(value := f.value)] else Placed(order, fields, f)
  }

  /** The map that the vector stands for: a tag's value is that of its first field. */
  function ValueOf(fields: seq<Field>, tag: int): Option<seq<byte>> {
    var i := First(fields, tag);
    if i < |fields| then Some(fields[i].value) else None
  }

  /** The fields of other tags, in their order. */
  function Others(fields: seq<Field>, tag: int): seq<Field> {
    if fields == [] then [] else (if fields[0].tag == tag then [] else [fields[0]]) + Others(fields[1..], tag)
  }

  // ----- groups by tag

  function EntryOf(groups: seq<Entry>, tag: int): (i: nat)
    ensures i <= |groups| && (i < |groups| ==> groups[i].tag == tag)
    ensures forall j :: 0 <= j < i ==> groups[j].tag != tag
  {
    if groups == [] || groups[0].tag == tag then 0 else 1 + EntryOf(groups[1..], tag)
  }

  predicate Has(groups: seq<Entry>, tag: int) {
    EntryOf(groups, tag) < |groups|
  }

  /** The groups under a tag; none when the tag has no entry. */
  function GroupsOf(groups: seq<Entry>, tag: int): seq<Tree> {
    if Has(groups, tag) then groups[EntryOf(groups, tag)].groups else []
  }

  function WithoutEntry(groups: seq<Entry>, tag: int): (r: seq<Entry>)
    ensures Has(groups, tag) ==> |r| == |groups| - 1
  {
    if groups == [] then []
    else if groups[0].tag == tag then groups[1..]
    else [groups[0]] + WithoutEntry(groups[1..], tag)
  }

  /** operator[] of the map, and an assignment to what it finds or makes. */
  function WithGroups(groups: seq<Entry>, tag: int, gs: seq<Tree>): (r: seq<Entry>) {
    if groups == [] || tag < groups[0].tag then [Entry(tag, gs)] + groups
    else if groups[0].tag == tag then [Entry(tag, gs)] + groups[1..]
    else [groups[0]] + WithGroups(groups[1..], tag, gs)
  }

  ghost predicate SortedGroups(groups: seq<Entry>) {
    forall i, j :: 0 <= i < j < |groups| ==> groups[i].tag < groups[j].tag
  }

  // ----- the operations on values

  /** IntField(tag, (int)n) */
  function CountField(tag: int, n: nat): Field {
    Field(tag, Text(I.IntType.Int32.FromUnsigned(n % I.IntType.Int32.Modulus())))
  }

  /** The value of a count field is read as its number, up to multiples of 2^32: as the number
      itself if and only if an int can hold it. */
  lemma CountFieldReads(tag: int, n: nat)
    ensures CountField(tag, n).tag == tag
    ensures var v := I.Parsed(I.IntType.Int32, CountField(tag, n).value);
      v.Some? && (v.value - n) % 0x1_0000_0000 == 0 && (v == Some(n) <==> n <= 0x7FFF_FFFF)
  {
    var v := I.IntType.Int32.FromUnsigned(n % I.IntType.Int32.Modulus());
    ToInt(n, v);
    I.ParsePrint(I.IntType.Int32, v);
  }

  /** Conversion to int. */
  lemma ToInt(n: nat, v: int)
    requires v == I.IntType.Int32.FromUnsigned(n % I.IntType.Int32.Modulus())
    ensures (v - n) % 0x1_0000_0000 == 0 && (v == n <==> n <= 0x7FFF_FFFF)
  {
    var m := 0x1_0000_0000;
    var q, r := n / m, n % m;
    Division.RemainderIs(v - n, m, if r <= 0x7FFF_FFFF then -q else -q - 1, 0);
  }

  datatype Parts = Parts(fields: seq<Field>, groups: seq<Entry>) {

    /** removeField and removeGroup call each other; each takes out a field or an entry. */
    function RemoveField(tag: int): Parts
      decreases |fields| + |groups|
    {
      var i := First(fields, tag);
      if i < |fields| then this.(fields := RemoveAt(fields, i)).RemoveGroups(tag) else this
    }

    function RemoveGroups(tag: int): Parts
      decreases |fields| + |groups|
    {
      if Has(groups, tag) then this.(groups := WithoutEntry(groups, tag)).RemoveField(tag) else this
    }

    /** The tag has a group with the number num; the first has number 1. */
    predicate HasGroup(num: int, tag: int) {
      Has(groups, tag) && 0 < num <= |GroupsOf(groups, tag)|
    }

    function AddGroup(order: Order, tag: int, g: Tree, setCount: bool): Parts {
      var gs := GroupsOf(groups, tag) + [g];
      Parts(if setCount then SetIn(order, fields, CountField(tag, |gs|), true) else fields,
            WithGroups(groups, tag, gs))
    }

    function ReplaceGroup(num: int, tag: int, g: Tree): Parts {
      if HasGroup(num, tag)
      then this.(groups := WithGroups(groups, tag, GroupsOf(groups, tag)[num - 1 := g]))
      else this
    }

    function RemoveGroup(order: Order, num: int, tag: int): Parts {
      if !HasGroup(num, tag) then this else
        var gs := GroupsOf(groups, tag);
        var left := gs[..num - 1] + gs[num..];
        if left == [] then this.(groups := WithoutEntry(groups, tag)).RemoveField(tag)
        else Parts(SetIn(order, fields, CountField(tag, |left|), true), WithGroups(groups, tag, left))
    }
  }

  class FieldMap {
    const order: Order
    var fields: seq<Field>
    var groups: seq<Entry>

    function Value(): Tree
      reads this
    {
      Tree(order, fields, groups)
    }

    ghost predicate Sorted()
      reads this
    {
      SortedBy(order, fields)
    }

    constructor (order: Order)
      ensures Value() == Tree(order, [], [])
    {
      this.order, fields, groups := order, [], [];
    }

    /** lookup: linear below 16 fields, binary from there on. */
    method Lookup(tag: int) returns (i: nat)
      requires Sorted()
      ensures i == First(fields, tag)
    {
      if |fields| < 16 {
        i := 0;
        while i < |fields| && fields[i].tag != tag
          invariant i <= |fields| && forall j :: 0 <= j < i ==> fields[j].tag != tag
        {
          i := i + 1;
        }
        FirstIs(fields, tag, i);
        return;
      }
      i := LowerBound(tag);
      if i < |fields| && fields[i].tag == tag {
        forall j | 0 <= j < i
          ensures fields[j].tag != tag
        {
          StrictTotalOrder(order, tag, tag, tag);
        }
        FirstIs(fields, tag, i);
        return;
      }
      forall j | 0 <= j < |fields|
        ensures fields[j].tag != tag
      {
        StrictTotalOrder(order, tag, tag, tag);
        if i < |fields| {
          StrictTotalOrder(order, fields[i].tag, tag, tag);
        }
      }
      i := |fields|;
      FirstIs(fields, tag, i);
    }

    /** std::lower_bound with the sorter: the first field that does not precede the tag. */
    method LowerBound(tag: int) returns (k: nat)
      requires Sorted()
      ensures k <= |fields|
      ensures forall i :: 0 <= i < k ==> Precedes(order, fields[i].tag, tag)
      ensures forall i :: k <= i < |fields| ==> !Precedes(order, fields[i].tag, tag)
    {
      k := 0;
      var count := |fields|;
      while count > 0
        invariant 0 <= count && k + count <= |fields|
        invariant forall i :: 0 <= i < k ==> Precedes(order, fields[i].tag, tag)
        invariant forall i :: k + count <= i < |fields| ==> !Precedes(order, fields[i].tag, tag)
      {
        var half := count / 2;
        var mid := k + half;
        if Precedes(order, fields[mid].tag, tag) {
          forall i | k <= i <= mid
            ensures Precedes(order, fields[i].tag, tag)
          {
            NotAfter(fields[i].tag, fields[mid].tag, tag);
          }
          k := mid + 1;
          count := count - half - 1;
        } else {
          forall i | mid <= i < k + count
            ensures !Precedes(order, fields[i].tag, tag)
          {
            NotAfter(fields[mid].tag, fields[i].tag, tag);
          }
          count := half;
        }
      }
    }

    /** What does not come after b precedes what b precedes. */
    lemma NotAfter(a: int, b: int, c: int)
      ensures !Precedes(order, b, a) && Precedes(order, b, c) ==> Precedes(order, a, c)
      ensures !Precedes(order, b, a) && Precedes(order, c, a) ==> Precedes(order, c, b)
    {
      StrictTotalOrder(order, a, b, c);
      StrictTotalOrder(order, b, a, c);
      StrictTotalOrder(order, c, a, b);
    }

    /** findPositionFor: at the end when the last field does not come after the tag. */
    method FindPositionFor(f: Field) returns (k: nat)
      requires Sorted()
      ensures k <= |fields| && Placed(order, fields, f) == fields[..k] + [f] + fields[k..]
    {
      var tag := f.tag;
      if fields == [] {
        return 0;
      }
      var last := fields[|fields| - 1];
      if Precedes(order, last.tag, tag) || last.tag == tag {
        forall i | 0 <= i < |fields|
          ensures !Precedes(order, tag, fields[i].tag)
        {
          NotAfter(fields[i].tag, last.tag, tag);
          StrictTotalOrder(order, fields[i].tag, tag, tag);
          StrictTotalOrder(order, last.tag, tag, tag);
        }
        PlacedAt(order, fields, f, |fields|);
        return |fields|;
      }
      k := UpperBound(tag);
      PlacedAt(order, fields, f, k);
    }

    /** std::upper_bound with the sorter: the first field that the tag precedes. */
    method UpperBound(tag: int) returns (k: nat)
      requires Sorted()
      ensures k <= |fields|
      ensures forall i :: 0 <= i < k ==> !Precedes(order, tag, fields[i].tag)
      ensures k < |fields| ==> Precedes(order, tag, fields[k].tag)
    {
      k := 0;
      var count := |fields|;
      while count > 0
        invariant 0 <= count && k + count <= |fields|
        invariant forall i :: 0 <= i < k ==> !Precedes(order, tag, fields[i].tag)
        invariant k + count < |fields| ==> Precedes(order, tag, fields[k + count].tag)
      {
        var half := count / 2;
        var mid := k + half;
        if !Precedes(order, tag, fields[mid].tag) {
          forall i | k <= i <= mid
            ensures !Precedes(order, tag, fields[i].tag)
          {
            NotAfter(fields[i].tag, fields[mid].tag, tag);
            StrictTotalOrder(order, tag, fields[i].tag, fields[mid].tag);
          }
          k := mid + 1;
          count := count - half - 1;
        } else {
          count := half;
        }
      }
    }

    method AddField(f: Field)
      requires Sorted()
      modifies `fields
      ensures fields == Placed(order, old(fields), f)
    {
      var k := FindPositionFor(f);
      if k == |fields| {
        fields := fields + [f];
      } else {
        fields := fields[..k] + [f] + fields[k..];
      }
    }

    method SetField(f: Field, overwrite: bool)
      requires Sorted()
      modifies `fields
      ensures fields == SetIn(order, old(fields), f, overwrite)
    {
      if !overwrite {
        AddField(f);
      } else {
        var i := Lookup(f.tag);
        if i == |fields| {
          AddField(f);
        } else {
          fields := fields[i := fields[i].(value := f.value)];
        }
      }
    }

    /** sortFields; the library's sort is one that sorts. */
    method SortFields()
      modifies `fields
      ensures Sorted() && multiset(fields) == multiset(old(fields))
      ensures old(Sorted()) ==> fields == old(fields)
    {
      var sorted := IsSorted();
      if !sorted {
        InsertedSorts(order, fields);
        fields := Inserted(order, fields);
      }
    }

    /** std::is_sorted */
    method IsSorted() returns (sorted: bool)
      ensures sorted == Sorted()
    {
      if fields == [] {
        return true;
      }
      for i := 1 to |fields|
        invariant SortedBy(order, fields[..i])
      {
        if Precedes(order, fields[i].tag, fields[i - 1].tag) {
          return false;
        }
        LongerSorted(order, fields, i);
      }
      assert fields[..|fields|] == fields;
      sorted := true;
    }

    method RemoveField(tag: int)
      requires Sorted()
      modifies `fields, `groups
      ensures Sorted() && Parts(fields, groups) == old(Parts(fields, groups)).RemoveField(tag)
      decreases |fields| + |groups|
    {
      var i := Lookup(tag);
      if i != |fields| {
        fields := fields[..i] + fields[i + 1..];
        RemoveGroups(tag);
      }
    }

    /** removeGroup(tag): all groups of the tag. */
    method RemoveGroups(tag: int)
      requires Sorted()
      modifies `fields, `groups
      ensures Sorted() && Parts(fields, groups) == old(Parts(fields, groups)).RemoveGroups(tag)
      decreases |fields| + |groups|
    {
      if !Has(groups, tag) {
        return;
      }
      groups := WithoutEntry(groups, tag);
      RemoveField(tag);
    }

    method AddGroup(tag: int, group: Tree, setCount: bool)
      requires Sorted()
      modifies `fields, `groups
      ensures Sorted()
      ensures Parts(fields, groups) == old(Parts(fields, groups)).AddGroup(order, tag, group, setCount)
    {
      var gs := GroupsOf(groups, tag) + [group];
      groups := WithGroups(groups, tag, gs);
      if setCount {
        SetKeepsSorted(order, fields, CountField(tag, |gs|), true);
        SetField(CountField(tag, |gs|), true);
      }
    }

    method ReplaceGroup(num: int, tag: int, group: Tree)
      modifies `groups
      ensures Parts(fields, groups) == old(Parts(fields, groups)).ReplaceGroup(num, tag, group)
    {
      if !Has(groups, tag) || num <= 0 || |GroupsOf(groups, tag)| < num {
        return;
      }
      groups := WithGroups(groups, tag, GroupsOf(groups, tag)[num - 1 := group]);
    }

    /** removeGroup(num, tag): the last group of a tag takes the count field with it. */
    method RemoveGroup(num: int, tag: int)
      requires Sorted()
      modifies `fields, `groups
      ensures Sorted()
      ensures Parts(fields, groups) == old(Parts(fields, groups)).RemoveGroup(order, num, tag)
    {
      if !Has(groups, tag) || num <= 0 {
        return;
      }
      var gs := GroupsOf(groups, tag);
      if |gs| < num {
        return;
      }
      gs := gs[..num - 1] + gs[num..];
      if |gs| == 0 {
        groups := WithoutEntry(groups, tag);
        RemoveField(tag);
      } else {
        groups := WithGroups(groups, tag, gs);
        SetKeepsSorted(order, fields, CountField(tag, |gs|), true);
        SetField(CountField(tag, |gs|), true);
      }
    }
  }

  // ----- sorting

  lemma LongerSorted(order: Order, fields: seq<Field>, i: nat)
    requires 0 < i < |fields| && SortedBy(order, fields[..i]) && !Precedes(order, fields[i].tag, fields[i - 1].tag)
    ensures SortedBy(order, fields[..i + 1])
  {
    forall j | 0 <= j < i
      ensures !Precedes(order, fields[i].tag, fields[j].tag)
    {
      assert j < i - 1 ==> !Precedes(order, fields[..i][i - 1].tag, fields[..i][j].tag);
      StrictTotalOrder(order, fields[i].tag, fields[j].tag, fields[i - 1].tag);
      StrictTotalOrder(order, fields[i - 1].tag, fields[i].tag, fields[j].tag);
      StrictTotalOrder(order, fields[i].tag, fields[i - 1].tag, fields[j].tag);
    }
  }

  lemma {:induction false} PlacedMultiset(order: Order, fields: seq<Field>, f: Field)
    ensures multiset(Placed(order, fields, f)) == multiset(fields) + multiset{f}
  {
    if fields != [] && !Precedes(order, f.tag, fields[0].tag) {
      PlacedMultiset(order, fields[1..], f);
      assert fields == [fields[0]] + fields[1..];
    }
  }

  /** A sort: the fields are placed one by one. */
  function Inserted(order: Order, fields: seq<Field>): seq<Field> {
    if fields == [] then [] else Placed(order, Inserted(order, fields[..|fields| - 1]), fields[|fields| - 1])
  }

  lemma {:induction false} InsertedSorts(order: Order, fields: seq<Field>)
    ensures SortedBy(order, Inserted(order, fields)) && multiset(Inserted(order, fields)) == multiset(fields)
  {
    if fields != [] {
      var f, init := fields[|fields| - 1], fields[..|fields| - 1];
      InsertedSorts(order, init);
      PlacedKeepsSorted(order, Inserted(order, init), f);
      PlacedMultiset(order, Inserted(order, init), f);
      assert fields == init + [f];
    }
  }

  /** No tag is repeated. */
  ghost predicate NoRepeats(fields: seq<Field>) {
    forall i, j :: 0 <= i < j < |fields| ==> fields[i].tag != fields[j].tag
  }

  lemma SameHead(order: Order, a: seq<Field>, b: seq<Field>)
    requires SortedBy(order, a) && SortedBy(order, b) && NoRepeats(a) && a != [] && multiset(a) == multiset(b)
    ensures b != [] && a[0] == b[0]
  {
    assert a[0] in multiset(a) && a[0] in b;
    assert b[0] in multiset(b) && b[0] in a;
    var i :| 0 <= i < |a| && a[i] == b[0];
    var j :| 0 <= j < |b| && b[j] == a[0];
    assert i > 0 ==> !Precedes(order, a[i].tag, a[0].tag);
    assert j > 0 ==> !Precedes(order, b[j].tag, b[0].tag);
    StrictTotalOrder(order, a[0].tag, b[0].tag, a[0].tag);
  }

  /** Without repeated tags every sort gives the same vector. */
  lemma {:induction false} SortIsUnique(order: Order, a: seq<Field>, b: seq<Field>)
    requires SortedBy(order, a) && SortedBy(order, b) && NoRepeats(a) && multiset(a) == multiset(b)
    ensures a == b
  {
    if a == [] {
      assert |multiset(b)| == 0;
    } else {
      SameHead(order, a, b);
      TailMultiset(a);
      TailMultiset(b);
      SortIsUnique(order, a[1..], b[1..]);
    }
  }

  lemma RemoveAtMultiset(b: seq<Field>, j: nat)
    requires j < |b|
    ensures multiset(RemoveAt(b, j)) == multiset(b) - multiset{b[j]}
  {
    assert b == b[..j] + [b[j]] + b[j + 1..];
  }

  lemma TailMultiset(a: seq<Field>)
    requires a != []
    ensures multiset(a[1..]) == multiset(a) - multiset{a[0]}
  {
    assert a == [a[0]] + a[1..];
  }

  lemma {:induction false} CountInMultiset(a: seq<Field>, b: seq<Field>, tag: int)
    requires multiset(a) == multiset(b)
    ensures Count(a, tag) == Count(b, tag)
  {
    if a == [] {
      assert |multiset(b)| == 0;
    } else {
      assert a[0] in multiset(a) && a[0] in b;
      var j :| 0 <= j < |b| && b[j] == a[0];
      TakeOutCount(b, j, tag);
      TailMultiset(a);
      RemoveAtMultiset(b, j);
      CountInMultiset(a[1..], RemoveAt(b, j), tag);
    }
  }

  /** Sorting moves no value of a tag that is not repeated. */
  lemma SortKeepsValues(a: seq<Field>, b: seq<Field>, tag: int)
    requires multiset(a) == multiset(b) && Count(a, tag) <= 1
    ensures ValueOf(a, tag) == ValueOf(b, tag)
  {
    CountInMultiset(a, b, tag);
    CountNone(a, tag);
    CountNone(b, tag);
    if Count(a, tag) == 1 {
      var f := a[First(a, tag)];
      assert f in multiset(a) && f in b;
      var j :| 0 <= j < |b| && b[j] == f;
      OnlyOne(b, j, tag);
    }
  }

  lemma {:induction false} OnlyOne(fields: seq<Field>, j: nat, tag: int)
    requires j < |fields| && fields[j].tag == tag && Count(fields, tag) == 1
    ensures First(fields, tag) == j
  {
    if j > 0 {
      CountPositive(fields[1..], j - 1);
      OnlyOne(fields[1..], j - 1, tag);
    }
  }

  lemma {:induction false} CountPositive(fields: seq<Field>, j: nat)
    requires j < |fields|
    ensures Count(fields, fields[j].tag) > 0
  {
    if j > 0 {
      CountPositive(fields[1..], j - 1);
    }
  }

  // ----- asking for a group

  /** hasGroup(num, tag) */
  predicate HasNumber(groups: seq<Entry>, num: int, tag: int) {
    |GroupsOf(groups, tag)| >= num
  }

  /** getGroupRef; None where it throws. */
  function GroupRef(groups: seq<Entry>, num: int, tag: int): Option<Tree> {
    if !Has(groups, tag) || num <= 0 || |GroupsOf(groups, tag)| < num then None
    else Some(GroupsOf(groups, tag)[num - 1])
  }

  /** hasGroup is right about getGroupRef exactly for the numbers from 1 on. */
  lemma HasNumberIff(groups: seq<Entry>, num: int, tag: int)
    ensures (HasNumber(groups, num, tag) == GroupRef(groups, num, tag).Some?) <==> num >= 1
  {
  }

  /** A group that is added is the one with the next number, and the others keep theirs. */
  lemma AddedIsFound(order: Order, p: Parts, tag: int, g: Tree, setCount: bool, num: int, t: int)
    requires SortedGroups(p.groups)
    ensures GroupRef(p.AddGroup(order, tag, g, setCount).groups, num, t)
         == if t == tag && num == |GroupsOf(p.groups, tag)| + 1 then Some(g) else GroupRef(p.groups, num, t)
  {
    WithGroupsEffect(p.groups, tag, GroupsOf(p.groups, tag) + [g], t);
  }

  /** A group that is replaced is found under its number, the others under theirs. */
  lemma ReplacedIsFound(p: Parts, k: int, tag: int, g: Tree, num: int, t: int)
    requires SortedGroups(p.groups) && GroupRef(p.groups, k, tag).Some?
    ensures GroupRef(p.ReplaceGroup(k, tag, g).groups, num, t)
         == if t == tag && num == k then Some(g) else GroupRef(p.groups, num, t)
  {
    WithGroupsEffect(p.groups, tag, GroupsOf(p.groups, tag)[k - 1 := g], t);
  }

  /** When a group is removed, those behind it move up by one. */
  lemma RemovedIsGone(order: Order, p: Parts, k: int, tag: int, num: int, t: int)
    requires SortedGroups(p.groups) && GroupRef(p.groups, k, tag).Some?
    ensures GroupRef(p.RemoveGroup(order, k, tag).groups, num, t)
         == if t == tag && num >= k then GroupRef(p.groups, num + 1, t) else GroupRef(p.groups, num, t)
  {
    var gs := GroupsOf(p.groups, tag);
    var left := gs[..k - 1] + gs[k..];
    if left == [] {
      EntryGone(p.groups, tag, t);
      EntryGone(p.groups, tag, tag);
      EntryGoneSorted(p.groups, tag);
      RemoveFieldEffect(p.(groups := WithoutEntry(p.groups, tag)), tag);
    } else {
      WithGroupsEffect(p.groups, tag, left, t);
    }
  }

  // ----- the vector stays sorted, and implements a map

  lemma {:induction false} PlacedKeepsSorted(order: Order, fields: seq<Field>, f: Field)
    requires SortedBy(order, fields)
    ensures SortedBy(order, Placed(order, fields, f))
    ensures forall x :: x in Placed(order, fields, f) ==> x == f || x in fields
  {
    if fields != [] {
      if Precedes(order, f.tag, fields[0].tag) {
        forall i | 0 <= i < |fields|
          ensures !Precedes(order, fields[i].tag, f.tag)
        {
          StrictTotalOrder(order, f.tag, fields[0].tag, fields[i].tag);
          StrictTotalOrder(order, fields[i].tag, f.tag, fields[0].tag);
        }
      } else {
        PlacedKeepsSorted(order, fields[1..], f);
        var r := Placed(order, fields[1..], f);
        forall j | 0 <= j < |r|
          ensures !Precedes(order, r[j].tag, fields[0].tag)
        {
          assert r[j] in r;
        }
      }
    }
  }

  lemma SetKeepsSorted(order: Order, fields: seq<Field>, f: Field, overwrite: bool)
    requires SortedBy(order, fields)
    ensures SortedBy(order, SetIn(order, fields, f, overwrite))
  {
    PlacedKeepsSorted(order, fields, f);
  }

  lemma ValueUnfold(fields: seq<Field>, t: int)
    requires fields != []
    ensures ValueOf(fields, t) == if fields[0].tag == t then Some(fields[0].value) else ValueOf(fields[1..], t)
  {
  }

  lemma NoValue(fields: seq<Field>, tag: int)
    requires forall i :: 0 <= i < |fields| ==> fields[i].tag != tag
    ensures ValueOf(fields, tag) == None
  {
  }

  /** A field that is added comes after those of its tag, so it counts for the map only
      when it is the first. */
  lemma {:induction false} ValueOfPlaced(order: Order, fields: seq<Field>, f: Field, tag: int)
    requires SortedBy(order, fields)
    ensures ValueOf(Placed(order, fields, f), tag)
         == if tag == f.tag && ValueOf(fields, tag).None? then Some(f.value) else ValueOf(fields, tag)
  {
    var r := Placed(order, fields, f);
    ValueUnfold(r, tag);
    if fields == [] {
    } else if Precedes(order, f.tag, fields[0].tag) {
      forall i | 0 <= i < |fields|
        ensures fields[i].tag != f.tag
      {
        StrictTotalOrder(order, f.tag, fields[0].tag, f.tag);
      }
      NoValue(fields, f.tag);
      assert r[1..] == fields;
    } else {
      ValueUnfold(fields, tag);
      ValueOfPlaced(order, fields[1..], f, tag);
      assert r[1..] == Placed(order, fields[1..], f);
    }
  }

  /** Overwriting setField is a map update. */
  lemma SetIsMapUpdate(order: Order, fields: seq<Field>, f: Field, tag: int)
    requires SortedBy(order, fields)
    ensures ValueOf(SetIn(order, fields, f, true), tag) == if tag == f.tag then Some(f.value) else ValueOf(fields, tag)
  {
    var i := First(fields, f.tag);
    if i == |fields| {
      ValueOfPlaced(order, fields, f, tag);
    } else {
      var r := SetIn(order, fields, f, true);
      FirstIs(r, tag, First(fields, tag));
    }
  }

  lemma {:induction false} CountPlaced(order: Order, fields: seq<Field>, f: Field, tag: int)
    ensures Count(Placed(order, fields, f), tag) == Count(fields, tag) + (if f.tag == tag then 1 else 0)
  {
    if fields != [] && !Precedes(order, f.tag, fields[0].tag) {
      CountPlaced(order, fields[1..], f, tag);
      assert ([fields[0]] + Placed(order, fields[1..], f))[1..] == Placed(order, fields[1..], f);
    } else {
      assert ([f] + fields)[1..] == fields;
    }
  }

  lemma {:induction false} CountNone(fields: seq<Field>, tag: int)
    ensures Count(fields, tag) == 0 <==> First(fields, tag) == |fields|
  {
    if fields != [] {
      CountNone(fields[1..], tag);
    }
  }

  lemma {:induction false} CountSame(fields: seq<Field>, i: nat, value: seq<byte>, tag: int)
    requires i < |fields|
    ensures Count(fields[i := fields[i].(value := value)], tag) == Count(fields, tag)
  {
    if i > 0 {
      CountSame(fields[1..], i - 1, value, tag);
      assert fields[i := fields[i].(value := value)][1..] == fields[1..][i - 1 := fields[i].(value := value)];
    } else {
      assert fields[0 := fields[0].(value := value)][1..] == fields[1..];
    }
  }

  lemma TailRemoveAt(fields: seq<Field>, i: nat)
    requires i < |fields|
    ensures i > 0 ==> RemoveAt(fields, i) == [fields[0]] + RemoveAt(fields[1..], i - 1)
    ensures i == 0 ==> RemoveAt(fields, i) == fields[1..]
  {
  }

  lemma {:induction false} TakeOutCount(fields: seq<Field>, i: nat, tag: int)
    requires i < |fields|
    ensures Count(RemoveAt(fields, i), tag) == Count(fields, tag) - (if fields[i].tag == tag then 1 else 0)
  {
    TailRemoveAt(fields, i);
    if i > 0 {
      TakeOutCount(fields[1..], i - 1, tag);
    }
  }

  lemma {:induction false} TakeOutOthers(fields: seq<Field>, i: nat)
    requires i < |fields|
    ensures Others(RemoveAt(fields, i), fields[i].tag) == Others(fields, fields[i].tag)
  {
    TailRemoveAt(fields, i);
    if i > 0 {
      TakeOutOthers(fields[1..], i - 1);
    }
  }

  lemma {:induction false} TakeOutValue(fields: seq<Field>, i: nat, tag: int)
    requires i < |fields| && fields[i].tag != tag
    ensures ValueOf(RemoveAt(fields, i), tag) == ValueOf(fields, tag)
  {
    TailRemoveAt(fields, i);
    ValueUnfold(fields, tag);
    if i > 0 {
      ValueUnfold(RemoveAt(fields, i), tag);
      TakeOutValue(fields[1..], i - 1, tag);
      assert RemoveAt(fields, i)[1..] == RemoveAt(fields[1..], i - 1);
    }
  }

  // ----- what removal does

  lemma TailSorted(groups: seq<Entry>)
    requires SortedGroups(groups) && groups != []
    ensures SortedGroups(groups[1..])
    ensures !Has(groups[1..], groups[0].tag)
  {
  }

  lemma Unfold(groups: seq<Entry>, t: int)
    requires groups != []
    ensures Has(groups, t) == (groups[0].tag == t || Has(groups[1..], t))
    ensures GroupsOf(groups, t) == if groups[0].tag == t then groups[0].groups else GroupsOf(groups[1..], t)
  {
  }

  /** Taking out the entry of a tag leaves the other entries as they are. */
  lemma {:induction false} EntryGone(groups: seq<Entry>, tag: int, t: int)
    requires SortedGroups(groups) && Has(groups, tag)
    ensures Has(WithoutEntry(groups, tag), t) == (t != tag && Has(groups, t))
    ensures t != tag ==> GroupsOf(WithoutEntry(groups, tag), t) == GroupsOf(groups, t)
  {
    TailSorted(groups);
    Unfold(groups, t);
    if groups[0].tag != tag {
      Unfold(groups, tag);
      EntryGone(groups[1..], tag, t);
      assert WithoutEntry(groups, tag)[1..] == WithoutEntry(groups[1..], tag);
      Unfold(WithoutEntry(groups, tag), t);
    }
  }

  lemma {:induction false} WithoutEntrySubset(groups: seq<Entry>, tag: int)
    ensures forall e :: e in WithoutEntry(groups, tag) ==> e in groups
  {
    if groups != [] {
      WithoutEntrySubset(groups[1..], tag);
    }
  }

  lemma HeadLeast(groups: seq<Entry>)
    requires SortedGroups(groups) && groups != []
    ensures forall e :: e in groups[1..] ==> groups[0].tag < e.tag
  {
  }

  lemma {:induction false} EntryGoneSorted(groups: seq<Entry>, tag: int)
    requires SortedGroups(groups)
    ensures SortedGroups(WithoutEntry(groups, tag))
    ensures forall e :: e in WithoutEntry(groups, tag) ==> e in groups
  {
    WithoutEntrySubset(groups, tag);
    if groups != [] && groups[0].tag != tag {
      EntryGoneSorted(groups[1..], tag);
      HeadLeast(groups);
      Prepended(groups[0], WithoutEntry(groups[1..], tag));
    }
  }

  lemma Prepended(e: Entry, groups: seq<Entry>)
    requires SortedGroups(groups) && forall g :: g in groups ==> e.tag < g.tag
    ensures SortedGroups([e] + groups)
  {
  }

  function Less(n: nat, m: nat): nat {
    if n < m then 0 else n - m
  }

  /** Taking out the first field of the tag. */
  lemma FirstGone(fields: seq<Field>, tag: int)
    requires First(fields, tag) < |fields|
    ensures
      var r := RemoveAt(fields, First(fields, tag));
      && Count(fields, tag) > 0 && Count(r, tag) == Count(fields, tag) - 1
      && Others(r, tag) == Others(fields, tag)
      && (First(r, tag) < |r| <==> Count(r, tag) > 0)
  {
    var i := First(fields, tag);
    CountNone(fields, tag);
    TakeOutCount(fields, i, tag);
    TakeOutOthers(fields, i);
    CountNone(RemoveAt(fields, i), tag);
  }

  /** removeField of a tag without groups takes out one field. */
  lemma RemoveOneField(p: Parts, tag: int)
    requires !Has(p.groups, tag)
    ensures
      var r := p.RemoveField(tag);
      && r.groups == p.groups
      && Count(r.fields, tag) == Less(Count(p.fields, tag), 1)
      && Others(r.fields, tag) == Others(p.fields, tag)
  {
    CountNone(p.fields, tag);
    if First(p.fields, tag) < |p.fields| {
      FirstGone(p.fields, tag);
    }
  }

  /** removeField does nothing without a field of the tag. Otherwise it takes out the tag's
      groups; and of its fields one, or two when there were groups, since removing the groups
      removes the field once more. Fields of other tags stay as they are. */
  lemma RemoveFieldEffect(p: Parts, tag: int)
    requires SortedGroups(p.groups)
    ensures
      var r := p.RemoveField(tag);
      if First(p.fields, tag) == |p.fields| then r == p
      else
        && r.groups == (if Has(p.groups, tag) then WithoutEntry(p.groups, tag) else p.groups)
        && Count(r.fields, tag) == Less(Count(p.fields, tag), if Has(p.groups, tag) then 2 else 1)
        && Others(r.fields, tag) == Others(p.fields, tag)
  {
    if First(p.fields, tag) < |p.fields| {
      FirstGone(p.fields, tag);
      if Has(p.groups, tag) {
        EntryGone(p.groups, tag, tag);
        RemoveOneField(Parts(RemoveAt(p.fields, First(p.fields, tag)), WithoutEntry(p.groups, tag)), tag);
      }
    }
  }

  /** removeGroup(tag) does nothing without groups; otherwise it takes out all of them, and a
      field of the tag. */
  lemma RemoveGroupsEffect(p: Parts, tag: int)
    requires SortedGroups(p.groups)
    ensures
      var r := p.RemoveGroups(tag);
      if !Has(p.groups, tag) then r == p
      else
        && r.groups == WithoutEntry(p.groups, tag)
        && Count(r.fields, tag) == Less(Count(p.fields, tag), 1)
        && Others(r.fields, tag) == Others(p.fields, tag)
  {
    if Has(p.groups, tag) {
      EntryGone(p.groups, tag, tag);
      RemoveOneField(p.(groups := WithoutEntry(p.groups, tag)), tag);
    }
  }

  /** What two vectors with the same fields of other tags agree on. */
  lemma {:induction false} SameOthers(fields: seq<Field>, tag: int, t: int)
    requires t != tag
    ensures Count(fields, t) == Count(Others(fields, tag), t)
    ensures ValueOf(fields, t) == ValueOf(Others(fields, tag), t)
  {
    if fields != [] {
      SameOthers(fields[1..], tag, t);
      ValueUnfold(fields, t);
      if fields[0].tag == tag {
        assert Others(fields, tag) == Others(fields[1..], tag);
      } else {
        assert Others(fields, tag)[1..] == Others(fields[1..], tag);
        ValueUnfold(Others(fields, tag), t);
      }
    }
  }

  // ----- the shape of a group

  /** In a vector sorted by a group's order no field stands behind one that the order names
      later, nor a named one behind one that is not named; the unnamed ones ascend. */
  lemma GroupShape(named: seq<int>, fields: seq<Field>, k: nat, l: nat)
    requires SortedBy(GroupOrder(named), fields) && k < l < |fields|
    ensures forall i: nat, j: nat :: LastPlace(named, fields[k].tag, i) && LastPlace(named, fields[l].tag, j) ==> i <= j
    ensures Named(named, fields[l].tag) ==> Named(named, fields[k].tag)
    ensures !Named(named, fields[k].tag) ==> fields[k].tag <= fields[l].tag
  {
    GroupOrderIs(named, fields[l].tag, fields[k].tag);
  }

  /** A group begins with its delimiter: the first field that its order names, when the order
      names it once. */
  lemma DelimiterFirst(named: seq<int>, fields: seq<Field>)
    requires SortedBy(GroupOrder(named), fields) && named != [] && LastPlace(named, named[0], 0)
    requires Count(fields, named[0]) >= 1
    ensures fields != [] && fields[0].tag == named[0]
  {
    var k := First(fields, named[0]);
    CountNone(fields, named[0]);
    if k > 0 {
      PositionIs(named, fields[0].tag);
      GroupShape(named, fields, 0, k);
    }
  }

  // ----- fields that repeat a tag

  /** The values of a tag's fields, in their order. */
  function ValuesOf(fields: seq<Field>, tag: int): seq<seq<byte>> {
    if fields == [] then [] else (if fields[0].tag == tag then [fields[0].value] else []) + ValuesOf(fields[1..], tag)
  }

  lemma ValuesCons(f: Field, fields: seq<Field>, tag: int)
    ensures ValuesOf([f] + fields, tag) == (if tag == f.tag then [f.value] else []) + ValuesOf(fields, tag)
  {
    assert ([f] + fields)[1..] == fields;
  }

  /** A new field goes behind all others of its tag. */
  lemma {:induction false} PlacedValues(order: Order, fields: seq<Field>, f: Field, tag: int)
    requires SortedBy(order, fields)
    ensures ValuesOf(Placed(order, fields, f), tag) == ValuesOf(fields, tag) + (if tag == f.tag then [f.value] else [])
  {
    if fields == [] || Precedes(order, f.tag, fields[0].tag) {
      ValuesCons(f, fields, tag);
      NotBehind(order, fields, f.tag);
      NoValues(fields, f.tag);
    } else {
      PlacedValues(order, fields[1..], f, tag);
      ValuesCons(fields[0], Placed(order, fields[1..], f), tag);
    }
  }

  lemma NotBehind(order: Order, fields: seq<Field>, tag: int)
    requires SortedBy(order, fields) && (fields == [] || Precedes(order, tag, fields[0].tag))
    ensures forall i :: 0 <= i < |fields| ==> fields[i].tag != tag
  {
    forall i | 0 <= i < |fields|
      ensures fields[i].tag != tag
    {
      StrictTotalOrder(order, tag, fields[0].tag, tag);
    }
  }

  lemma {:induction false} NoValues(fields: seq<Field>, tag: int)
    requires forall i :: 0 <= i < |fields| ==> fields[i].tag != tag
    ensures ValuesOf(fields, tag) == []
  {
    if fields != [] {
      NoValues(fields[1..], tag);
    }
  }

  lemma {:induction false} UpdatedValues(fields: seq<Field>, i: nat, value: seq<byte>, tag: int)
    requires i < |fields| && i == First(fields, fields[i].tag)
    ensures ValuesOf(fields, fields[i].tag) != []
    ensures ValuesOf(fields[i := fields[i].(value := value)], tag)
         == if tag == fields[i].tag then [value] + ValuesOf(fields, tag)[1..] else ValuesOf(fields, tag)
  {
    var r := fields[i := fields[i].(value := value)];
    if i == 0 {
      assert r[1..] == fields[1..];
    } else {
      UpdatedValues(fields[1..], i - 1, value, tag);
      assert r[1..] == fields[1..][i - 1 := fields[1..][i - 1].(value := value)];
    }
  }

  /** setField changes the first value of the tag, or adds one behind the last; always the
      latter without overwriting. Other tags keep their values. */
  lemma SetValues(order: Order, fields: seq<Field>, f: Field, overwrite: bool, tag: int)
    requires SortedBy(order, fields)
    ensures
      var r, vs := SetIn(order, fields, f, overwrite), ValuesOf(fields, tag);
      ValuesOf(r, tag) == if tag != f.tag then vs else if overwrite && vs != [] then [f.value] + vs[1..] else vs + [f.value]
  {
    var i := First(fields, f.tag);
    if overwrite && i < |fields| {
      UpdatedValues(fields, i, f.value, tag);
    } else {
      PlacedValues(order, fields, f, tag);
      if i == |fields| {
        NoValues(fields, f.tag);
      }
    }
  }

  lemma {:induction false} TakenValues(fields: seq<Field>, i: nat, tag: int)
    requires i < |fields| && i == First(fields, fields[i].tag)
    ensures ValuesOf(fields, fields[i].tag) != []
    ensures ValuesOf(RemoveAt(fields, i), tag)
         == if tag == fields[i].tag then ValuesOf(fields, tag)[1..] else ValuesOf(fields, tag)
  {
    if i == 0 {
      assert RemoveAt(fields, 0) == fields[1..];
    } else {
      TakenValues(fields[1..], i - 1, tag);
      TailRemoveAt(fields, i);
    }
  }

  /** What is left without the first k values. */
  function Dropped(vs: seq<seq<byte>>, k: nat): seq<seq<byte>> {
    if k <= |vs| then vs[k..] else []
  }

  /** removeField takes out the first value of its tag, or the first two. */
  lemma RemoveFieldValues(p: Parts, tag: int, t: int)
    requires SortedGroups(p.groups)
    ensures ValuesOf(p.RemoveField(tag).fields, t)
         == if t == tag then Dropped(ValuesOf(p.fields, t), if Has(p.groups, tag) then 2 else 1) else ValuesOf(p.fields, t)
  {
    var i := First(p.fields, tag);
    if i == |p.fields| {
      NoValues(p.fields, tag);
    } else {
      TakenValues(p.fields, i, t);
      if Has(p.groups, tag) {
        EntryGone(p.groups, tag, tag);
        RemoveOneValue(Parts(RemoveAt(p.fields, i), WithoutEntry(p.groups, tag)), tag, t);
      }
    }
  }

  lemma RemoveOneValue(p: Parts, tag: int, t: int)
    requires !Has(p.groups, tag)
    ensures ValuesOf(p.RemoveField(tag).fields, t)
         == if t == tag then Dropped(ValuesOf(p.fields, t), 1) else ValuesOf(p.fields, t)
  {
    var i := First(p.fields, tag);
    if i == |p.fields| {
      NoValues(p.fields, tag);
    } else {
      TakenValues(p.fields, i, t);
    }
  }

  // ----- count fields agree with their groups

  /** For every count tag: its field is there exactly when it has groups, once, and holds
      their number. Only count tags have groups. */
  ghost predicate Counted(p: Parts, tags: set<int>) {
    && SortedGroups(p.groups)
    && (forall e :: e in p.groups ==> e.tag in tags && e.groups != [])
    && forall tag :: tag in tags ==> CountedAt(p, tag)
  }

  ghost predicate CountedAt(p: Parts, tag: int) {
    if Has(p.groups, tag)
    then Count(p.fields, tag) == 1 && ValueOf(p.fields, tag) == Some(CountField(tag, |GroupsOf(p.groups, tag)|).value)
    else Count(p.fields, tag) == 0
  }

  /** The operations that agree with the convention: groups under count tags only, and count
      fields not written by hand. */
  datatype Op =
    | Add(tag: int, g: Tree, setCount: bool)
    | Replace(num: int, tag: int, g: Tree)
    | RemoveOne(num: int, tag: int)
    | RemoveAll(tag: int)
    | Remove(tag: int)
    | Set(f: Field, overwrite: bool)

  predicate Follows(op: Op, tags: set<int>) {
    match op
    case Add(tag, _, setCount) => tag in tags && setCount
    case Set(f, _) => f.tag !in tags
    case _ => true
  }

  function Apply(order: Order, p: Parts, op: Op): Parts {
    match op
    case Add(tag, g, setCount) => p.AddGroup(order, tag, g, setCount)
    case Replace(num, tag, g) => p.ReplaceGroup(num, tag, g)
    case RemoveOne(num, tag) => p.RemoveGroup(order, num, tag)
    case RemoveAll(tag) => p.RemoveGroups(tag)
    case Remove(tag) => p.RemoveField(tag)
    case Set(f, overwrite) => p.(fields := SetIn(order, p.fields, f, overwrite))
  }

  lemma {:induction false} WithGroupsEffect(groups: seq<Entry>, tag: int, gs: seq<Tree>, t: int)
    requires SortedGroups(groups)
    ensures Has(WithGroups(groups, tag, gs), t) == (t == tag || Has(groups, t))
    ensures GroupsOf(WithGroups(groups, tag, gs), t) == if t == tag then gs else GroupsOf(groups, t)
  {
    var r := WithGroups(groups, tag, gs);
    Unfold(r, t);
    if groups == [] || tag < groups[0].tag {
      assert r[1..] == groups;
    } else {
      Unfold(groups, t);
      TailSorted(groups);
      if groups[0].tag == tag {
        assert r[1..] == groups[1..];
      } else {
        WithGroupsEffect(groups[1..], tag, gs, t);
        assert r[1..] == WithGroups(groups[1..], tag, gs);
      }
    }
  }

  lemma {:induction false} WithGroupsSorted(groups: seq<Entry>, tag: int, gs: seq<Tree>)
    requires SortedGroups(groups)
    ensures SortedGroups(WithGroups(groups, tag, gs))
    ensures forall e :: e in WithGroups(groups, tag, gs) ==> e == Entry(tag, gs) || e in groups
  {
    if groups != [] && groups[0].tag < tag {
      WithGroupsSorted(groups[1..], tag, gs);
      var tail := WithGroups(groups[1..], tag, gs);
      forall j | 0 <= j < |tail|
        ensures groups[0].tag < tail[j].tag
      {
        assert tail[j] in tail;
      }
    }
  }

  /** Setting a field leaves the other tags alone. */
  lemma SetAside(order: Order, fields: seq<Field>, f: Field, overwrite: bool, tag: int)
    requires SortedBy(order, fields) && tag != f.tag
    ensures Count(SetIn(order, fields, f, overwrite), tag) == Count(fields, tag)
    ensures ValueOf(SetIn(order, fields, f, overwrite), tag) == ValueOf(fields, tag)
  {
    CountPlaced(order, fields, f, tag);
    ValueOfPlaced(order, fields, f, tag);
    if overwrite && First(fields, f.tag) < |fields| {
      CountSame(fields, First(fields, f.tag), f.value, tag);
      SetIsMapUpdate(order, fields, f, tag);
    }
  }

  /** Setting the count field of a tag that had one at most leaves it with one. */
  lemma SetCount(order: Order, fields: seq<Field>, f: Field)
    requires SortedBy(order, fields) && Count(fields, f.tag) <= 1
    ensures Count(SetIn(order, fields, f, true), f.tag) == 1
    ensures ValueOf(SetIn(order, fields, f, true), f.tag) == Some(f.value)
  {
    CountNone(fields, f.tag);
    CountPlaced(order, fields, f, f.tag);
    SetIsMapUpdate(order, fields, f, f.tag);
    if First(fields, f.tag) < |fields| {
      CountSame(fields, First(fields, f.tag), f.value, f.tag);
    }
  }

  /** Giving a count tag some groups, and the field that counts them. */
  lemma GroupsAndCount(order: Order, p: Parts, tags: set<int>, tag: int, gs: seq<Tree>)
    requires SortedBy(order, p.fields) && Counted(p, tags) && tag in tags && gs != []
    ensures Counted(Parts(SetIn(order, p.fields, CountField(tag, |gs|), true), WithGroups(p.groups, tag, gs)), tags)
  {
    var f := CountField(tag, |gs|);
    var r := Parts(SetIn(order, p.fields, f, true), WithGroups(p.groups, tag, gs));
    WithGroupsSorted(p.groups, tag, gs);
    assert CountedAt(p, tag);
    SetCount(order, p.fields, f);
    forall t | t in tags
      ensures CountedAt(r, t)
    {
      WithGroupsEffect(p.groups, tag, gs, t);
      if t != tag {
        assert CountedAt(p, t);
        SetAside(order, p.fields, f, true, t);
      }
    }
  }

  /** Taking out a count tag: its field and its groups go together. */
  lemma CountedWithout(p: Parts, r: Parts, tags: set<int>, tag: int)
    requires Counted(p, tags) && Has(p.groups, tag)
    requires r.groups == WithoutEntry(p.groups, tag)
    requires Count(r.fields, tag) == 0 && Others(r.fields, tag) == Others(p.fields, tag)
    ensures Counted(r, tags)
  {
    EntryGoneSorted(p.groups, tag);
    forall t | t in tags
      ensures CountedAt(r, t)
    {
      assert CountedAt(p, t);
      EntryGone(p.groups, tag, t);
      if t != tag {
        SameOthers(p.fields, tag, t);
        SameOthers(r.fields, tag, t);
      }
    }
  }

  lemma EntryCounted(p: Parts, tags: set<int>, tag: int)
    requires Counted(p, tags) && Has(p.groups, tag)
    ensures tag in tags && GroupsOf(p.groups, tag) != [] && Count(p.fields, tag) == 1
  {
    assert p.groups[EntryOf(p.groups, tag)] in p.groups;
    assert CountedAt(p, tag);
  }

  lemma RemovalKeepsCounted(p: Parts, tags: set<int>, tag: int)
    requires Counted(p, tags) && Has(p.groups, tag)
    ensures Counted(p.RemoveField(tag), tags)
    ensures Counted(p.RemoveGroups(tag), tags)
  {
    EntryCounted(p, tags, tag);
    CountNone(p.fields, tag);
    RemoveFieldEffect(p, tag);
    CountedWithout(p, p.RemoveField(tag), tags, tag);
    RemoveGroupsEffect(p, tag);
    CountedWithout(p, p.RemoveGroups(tag), tags, tag);
  }

  lemma RemovalElsewhere(p: Parts, tags: set<int>, tag: int)
    requires Counted(p, tags) && !Has(p.groups, tag)
    ensures Counted(p.RemoveField(tag), tags)
    ensures p.RemoveGroups(tag) == p
  {
    var r := p.RemoveField(tag);
    RemoveFieldEffect(p, tag);
    assert r.groups == p.groups && Count(r.fields, tag) <= Count(p.fields, tag);
    forall t | t in tags
      ensures CountedAt(r, t)
    {
      assert CountedAt(p, t);
      if t != tag && r != p {
        SameOthers(p.fields, tag, t);
        SameOthers(r.fields, tag, t);
      }
    }
  }

  // ----- runs

  lemma {:induction false} RemoveAtSorted(order: Order, fields: seq<Field>, i: nat)
    requires i < |fields| && SortedBy(order, fields)
    ensures SortedBy(order, RemoveAt(fields, i))
  {
  }

  lemma RemovalKeepsSorted(order: Order, p: Parts, tag: int)
    requires SortedBy(order, p.fields)
    ensures SortedBy(order, p.RemoveField(tag).fields)
    ensures SortedBy(order, p.RemoveGroups(tag).fields)
    decreases |p.fields| + |p.groups|
  {
    var i := First(p.fields, tag);
    if i < |p.fields| {
      RemoveAtSorted(order, p.fields, i);
      RemovalKeepsSorted(order, p.(fields := RemoveAt(p.fields, i)), tag);
    }
    if Has(p.groups, tag) {
      RemovalKeepsSorted(order, p.(groups := WithoutEntry(p.groups, tag)), tag);
    }
  }

  /** Every operation keeps the vector sorted. */
  lemma ApplyKeepsSorted(order: Order, p: Parts, op: Op)
    requires SortedBy(order, p.fields)
    ensures SortedBy(order, Apply(order, p, op).fields)
  {
    match op
    case Add(tag, g, _) => SetKeepsSorted(order, p.fields, CountField(tag, |GroupsOf(p.groups, tag) + [g]|), true);
    case Replace(_, _, _) =>
    case RemoveOne(num, tag) => RemoveOneKeepsSorted(order, p, num, tag);
    case RemoveAll(tag) => RemovalKeepsSorted(order, p, tag);
    case Remove(tag) => RemovalKeepsSorted(order, p, tag);
    case Set(f, overwrite) => SetKeepsSorted(order, p.fields, f, overwrite);
  }

  lemma RemoveOneKeepsSorted(order: Order, p: Parts, num: int, tag: int)
    requires SortedBy(order, p.fields)
    ensures SortedBy(order, p.RemoveGroup(order, num, tag).fields)
  {
    if p.HasGroup(num, tag) {
      var gs := GroupsOf(p.groups, tag);
      var left := gs[..num - 1] + gs[num..];
      if left == [] {
        RemovalKeepsSorted(order, p.(groups := WithoutEntry(p.groups, tag)), tag);
      } else {
        SetKeepsSorted(order, p.fields, CountField(tag, |left|), true);
      }
    }
  }

  /** An operation that follows the convention keeps the count fields right. */
  lemma ApplyKeepsCounted(order: Order, p: Parts, op: Op, tags: set<int>)
    requires SortedBy(order, p.fields) && Counted(p, tags) && Follows(op, tags)
    ensures Counted(Apply(order, p, op), tags)
  {
    match op
    case Add(tag, g, _) => GroupsAndCount(order, p, tags, tag, GroupsOf(p.groups, tag) + [g]);
    case Replace(num, tag, g) =>
      if p.HasGroup(num, tag) {
        ReplaceKeepsCounted(p, tags, num, tag, g);
      }
    case RemoveOne(num, tag) =>
      if p.HasGroup(num, tag) {
        var gs := GroupsOf(p.groups, tag);
        var left := gs[..num - 1] + gs[num..];
        EntryCounted(p, tags, tag);
        if left == [] {
          LastGroupGone(p, tags, tag);
        } else {
          GroupsAndCount(order, p, tags, tag, left);
        }
      }
    case RemoveAll(tag) => RemoveKeepsCounted(p, tags, tag);
    case Remove(tag) => RemoveKeepsCounted(p, tags, tag);
    case Set(f, overwrite) => SetKeepsCounted(order, p, tags, f, overwrite);
  }

  lemma ReplaceKeepsCounted(p: Parts, tags: set<int>, num: int, tag: int, g: Tree)
    requires Counted(p, tags) && p.HasGroup(num, tag)
    ensures Counted(p.ReplaceGroup(num, tag, g), tags)
  {
    var gs := GroupsOf(p.groups, tag)[num - 1 := g];
    EntryCounted(p, tags, tag);
    WithGroupsSorted(p.groups, tag, gs);
    forall t | t in tags
      ensures CountedAt(p.ReplaceGroup(num, tag, g), t)
    {
      assert CountedAt(p, t);
      WithGroupsEffect(p.groups, tag, gs, t);
    }
  }

  lemma LastGroupGone(p: Parts, tags: set<int>, tag: int)
    requires Counted(p, tags) && Has(p.groups, tag)
    ensures Counted(p.(groups := WithoutEntry(p.groups, tag)).RemoveField(tag), tags)
  {
    RemovalKeepsCounted(p, tags, tag);
  }

  lemma RemoveKeepsCounted(p: Parts, tags: set<int>, tag: int)
    requires Counted(p, tags)
    ensures Counted(p.RemoveField(tag), tags)
    ensures Counted(p.RemoveGroups(tag), tags)
  {
    if Has(p.groups, tag) {
      RemovalKeepsCounted(p, tags, tag);
    } else {
      RemovalElsewhere(p, tags, tag);
    }
  }

  lemma SetKeepsCounted(order: Order, p: Parts, tags: set<int>, f: Field, overwrite: bool)
    requires SortedBy(order, p.fields) && Counted(p, tags) && f.tag !in tags
    ensures Counted(p.(fields := SetIn(order, p.fields, f, overwrite)), tags)
  {
    var r := p.(fields := SetIn(order, p.fields, f, overwrite));
    forall t | t in tags
      ensures CountedAt(r, t)
    {
      assert CountedAt(p, t);
      SetAside(order, p.fields, f, overwrite, t);
    }
  }

  function Run(order: Order, ops: seq<Op>): Parts {
    if ops == [] then Parts([], []) else Apply(order, Run(order, ops[..|ops| - 1]), ops[|ops| - 1])
  }

  /** After any run, whatever is set, the vector is sorted. */
  lemma {:induction false} RunKeepsSorted(order: Order, ops: seq<Op>)
    ensures SortedBy(order, Run(order, ops).fields)
  {
    if ops != [] {
      RunKeepsSorted(order, ops[..|ops| - 1]);
      ApplyKeepsSorted(order, Run(order, ops[..|ops| - 1]), ops[|ops| - 1]);
    }
  }

  /** After any run that writes no count field by hand, a tag has groups exactly when its
      count field is present, which it then is once and with their number: it parses to it, as
      far as an int can hold it. */
  lemma RunKeepsCounted(order: Order, ops: seq<Op>, tags: set<int>)
    requires forall op :: op in ops ==> Follows(op, tags)
    ensures Counted(Run(order, ops), tags)
    ensures forall tag :: tag in tags ==> NumberReads(Run(order, ops), tag)
  {
    RunCounted(order, ops, tags);
    forall tag | tag in tags
      ensures NumberReads(Run(order, ops), tag)
    {
      NumberAt(Run(order, ops), tags, tag);
    }
  }

  ghost predicate NumberReads(p: Parts, tag: int) {
    var n, value := |GroupsOf(p.groups, tag)|, ValueOf(p.fields, tag);
    if n == 0 then value == None
    else value.Some? && (n <= 0x7FFF_FFFF ==> I.Parsed(I.IntType.Int32, value.value) == Some(n))
  }

  lemma NumberAt(p: Parts, tags: set<int>, tag: int)
    requires Counted(p, tags) && tag in tags
    ensures NumberReads(p, tag)
  {
    assert CountedAt(p, tag);
    CountFieldReads(tag, |GroupsOf(p.groups, tag)|);
    if Has(p.groups, tag) {
      EntryCounted(p, tags, tag);
    } else {
      CountNone(p.fields, tag);
      NoValue(p.fields, tag);
    }
  }

  lemma {:induction false} RunCounted(order: Order, ops: seq<Op>, tags: set<int>)
    requires forall op :: op in ops ==> Follows(op, tags)
    ensures Counted(Run(order, ops), tags)
  {
    if ops != [] {
      RunCounted(order, ops[..|ops| - 1], tags);
      RunKeepsSorted(order, ops[..|ops| - 1]);
      ApplyKeepsCounted(order, Run(order, ops[..|ops| - 1]), ops[|ops| - 1], tags);
    }
  }

  // ----- two plain maps

  /** What a field map is for: a value for each tag, and groups for some. */
  datatype Maps = Maps(fields: map<int, seq<byte>>, groups: map<int, seq<Tree>>) {

    function Get(tag: int): Option<seq<byte>> {
      if tag in fields then Some(fields[tag]) else None
    }

    function Without(tag: int): Maps {
      Maps(fields - {tag}, groups - {tag})
    }

    /** The groups of a tag and the field that counts them. */
    function With(tag: int, gs: seq<Tree>): Maps {
      Maps(fields[tag := CountField(tag, |gs|).value], groups[tag := gs])
    }

    function Apply(op: Op): Maps {
      match op
      case Add(tag, g, setCount) =>
        var gs := (if tag in groups then groups[tag] else []) + [g];
        if setCount then With(tag, gs) else this.(groups := groups[tag := gs])
      case Replace(num, tag, g) =>
        if tag in groups && 0 < num <= |groups[tag]|
        then this.(groups := groups[tag := groups[tag][num - 1 := g]])
        else this
      case RemoveOne(num, tag) =>
        if tag in groups && 0 < num <= |groups[tag]|
        then
          var left := groups[tag][..num - 1] + groups[tag][num..];
          if left == [] then Without(tag) else With(tag, left)
        else this
      case RemoveAll(tag) => if tag in groups then Without(tag) else this
      case Remove(tag) => if tag in fields then Without(tag) else this
      case Set(f, _) => this.(fields := fields[f.tag := f.value])
    }
  }

  /** The vectors and the maps agree on a tag. */
  ghost predicate AgreeAt(p: Parts, m: Maps, t: int) {
    && Count(p.fields, t) <= 1
    && ValueOf(p.fields, t) == m.Get(t)
    && Has(p.groups, t) == (t in m.groups)
    && (t in m.groups ==> GroupsOf(p.groups, t) == m.groups[t])
  }

  ghost predicate Agree(p: Parts, m: Maps) {
    SortedGroups(p.groups) && forall t :: AgreeAt(p, m, t)
  }

  function MapsRun(ops: seq<Op>): Maps {
    if ops == [] then Maps(map[], map[]) else MapsRun(ops[..|ops| - 1]).Apply(ops[|ops| - 1])
  }

  lemma SetAgrees(order: Order, p: Parts, m: Maps, f: Field)
    requires SortedBy(order, p.fields) && Agree(p, m)
    ensures Agree(p.(fields := SetIn(order, p.fields, f, true)), m.(fields := m.fields[f.tag := f.value]))
  {
    var p2, m2 := p.(fields := SetIn(order, p.fields, f, true)), m.(fields := m.fields[f.tag := f.value]);
    forall t
      ensures AgreeAt(p2, m2, t)
    {
      assert AgreeAt(p, m, t);
      if t == f.tag {
        SetCount(order, p.fields, f);
      } else {
        SetAside(order, p.fields, f, true, t);
      }
    }
  }

  lemma GroupsAgree(p: Parts, m: Maps, tag: int, gs: seq<Tree>)
    requires Agree(p, m)
    ensures Agree(p.(groups := WithGroups(p.groups, tag, gs)), m.(groups := m.groups[tag := gs]))
  {
    var p2, m2 := p.(groups := WithGroups(p.groups, tag, gs)), m.(groups := m.groups[tag := gs]);
    WithGroupsSorted(p.groups, tag, gs);
    forall t
      ensures AgreeAt(p2, m2, t)
    {
      assert AgreeAt(p, m, t);
      WithGroupsEffect(p.groups, tag, gs, t);
    }
  }

  /** Without a tag: no groups and no fields of it, the rest as before. */
  lemma WithoutAgrees(p: Parts, m: Maps, r: Parts, tag: int)
    requires Agree(p, m)
    requires r.groups == (if Has(p.groups, tag) then WithoutEntry(p.groups, tag) else p.groups)
    requires Count(r.fields, tag) == 0 && Others(r.fields, tag) == Others(p.fields, tag)
    ensures Agree(r, m.Without(tag))
  {
    if Has(p.groups, tag) {
      EntryGoneSorted(p.groups, tag);
    }
    CountNone(r.fields, tag);
    forall t
      ensures AgreeAt(r, m.Without(tag), t)
    {
      assert AgreeAt(p, m, t);
      if Has(p.groups, tag) {
        EntryGone(p.groups, tag, t);
      }
      if t != tag {
        SameOthers(p.fields, tag, t);
        SameOthers(r.fields, tag, t);
      }
    }
  }

  lemma RemoveAgrees(p: Parts, m: Maps, tag: int)
    requires Agree(p, m)
    ensures Agree(p.RemoveField(tag), m.Apply(Remove(tag)))
    ensures Agree(p.RemoveGroups(tag), m.Apply(RemoveAll(tag)))
  {
    assert AgreeAt(p, m, tag);
    CountNone(p.fields, tag);
    RemoveFieldEffect(p, tag);
    RemoveGroupsEffect(p, tag);
    if tag in m.fields {
      WithoutAgrees(p, m, p.RemoveField(tag), tag);
    }
    if tag in m.groups {
      WithoutAgrees(p, m, p.RemoveGroups(tag), tag);
    }
  }

  lemma ApplyAgrees(order: Order, p: Parts, m: Maps, op: Op)
    requires SortedBy(order, p.fields) && Agree(p, m)
    requires op.Set? ==> op.overwrite
    ensures Agree(Apply(order, p, op), m.Apply(op))
  {
    match op
    case Set(f, _) => SetAgrees(order, p, m, f);
    case Remove(tag) => RemoveAgrees(p, m, tag);
    case RemoveAll(tag) => RemoveAgrees(p, m, tag);
    case Add(tag, g, setCount) =>
      assert AgreeAt(p, m, tag);
      AddAgrees(order, p, m, tag, GroupsOf(p.groups, tag) + [g], setCount);
    case Replace(num, tag, g) =>
      assert AgreeAt(p, m, tag);
      if p.HasGroup(num, tag) {
        GroupsAgree(p, m, tag, m.groups[tag][num - 1 := g]);
      }
    case RemoveOne(num, tag) =>
      assert AgreeAt(p, m, tag);
      if p.HasGroup(num, tag) {
        var left := m.groups[tag][..num - 1] + m.groups[tag][num..];
        if left == [] {
          RemoveAgrees(p, m, tag);
        } else {
          AddAgrees(order, p, m, tag, left, true);
        }
      }
  }

  lemma AddAgrees(order: Order, p: Parts, m: Maps, tag: int, gs: seq<Tree>, setCount: bool)
    requires SortedBy(order, p.fields) && Agree(p, m)
    ensures setCount ==>
      Agree(Parts(SetIn(order, p.fields, CountField(tag, |gs|), true), WithGroups(p.groups, tag, gs)), m.With(tag, gs))
    ensures Agree(p.(groups := WithGroups(p.groups, tag, gs)), m.(groups := m.groups[tag := gs]))
  {
    GroupsAgree(p, m, tag, gs);
    if setCount {
      SetAgrees(order, p.(groups := WithGroups(p.groups, tag, gs)), m.(groups := m.groups[tag := gs]),
                CountField(tag, |gs|));
    }
  }

  /** A field map implements two plain maps over every run of overwriting writes, additions,
      replacements and removals, under every order of the tags. */
  lemma {:induction false} RunAgrees(order: Order, ops: seq<Op>)
    requires forall op :: op in ops ==> op.Set? ==> op.overwrite
    ensures Agree(Run(order, ops), MapsRun(ops))
  {
    if ops != [] {
      var before := ops[..|ops| - 1];
      RunAgrees(order, before);
      RunKeepsSorted(order, before);
      ApplyAgrees(order, Run(order, before), MapsRun(before), ops[|ops| - 1]);
    }
  }
}
