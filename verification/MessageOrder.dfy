/** The field orders. A group's order is looked up in an array indexed by field number
    or, when that would be too large, in an open-addressed hash table; both are proved
    to give the position that the order names, and every order is a strict total one. */
module MessageOrder {
  import opened Division

  const BEGIN_STRING := 8
  const BODY_LENGTH := 9
  const CHECK_SUM := 10
  const MSG_TYPE := 35
  const SIGNATURE := 89
  const SIGNATURE_LENGTH := 93

  /** The orders of a message's parts; a group order lists its fields. */
  datatype Order = Normal | Header | Trailer | GroupOrder(fields: seq<int>)

  /** The last position at which the order names the field, from 1; 0 if it does not, or if
      the tag is not positive. */
  function Position(fields: seq<int>, field: int): (p: nat)
    ensures p <= |fields|
  {
    if fields == [] then 0
    else if field > 0 && fields[|fields| - 1] == field then |fields|
    else Position(fields[..|fields| - 1], field)
  }

  function HeaderPosition(field: int): nat {
    if field == BEGIN_STRING then 1 else if field == BODY_LENGTH then 2 else if field == MSG_TYPE then 3 else 0
  }

  function TrailerPosition(field: int): nat {
    if field == SIGNATURE_LENGTH then 1 else if field == SIGNATURE then 2 else 0
  }

  /** The form that the orders with a table share; position 0 is that of a tag they do not name. */
  predicate ByPosition(px: nat, py: nat, x: int, y: int) {
    if px != 0 && py != 0 then px < py
    else if px != 0 then true
    else if py != 0 then false
    else x < y
  }

  /** message_order::operator() */
  predicate Precedes(order: Order, x: int, y: int) {
    match order
    case Normal => x < y
    case Header => ByPosition(HeaderPosition(x), HeaderPosition(y), x, y)
    case Trailer =>
      if x == CHECK_SUM then false
      else if y == CHECK_SUM then true
      else ByPosition(TrailerPosition(x), TrailerPosition(y), x, y)
    case GroupOrder(fields) => ByPosition(Position(fields, x), Position(fields, y), x, y)
  }

  lemma {:induction false} PositionNames(fields: seq<int>, field: int)
    ensures var p := Position(fields, field);
      (p > 0 ==> fields[p - 1] == field > 0)
      && (field > 0 ==> forall i :: p <= i < |fields| ==> fields[i] != field)
  {
    if fields != [] {
      PositionNames(fields[..|fields| - 1], field);
    }
  }

  /** The last place at which a list names a field; field numbers are positive. */
  predicate LastPlace(fields: seq<int>, field: int, i: nat) {
    i < |fields| && fields[i] == field > 0 && forall j :: i < j < |fields| ==> fields[j] != field
  }

  predicate Named(fields: seq<int>, field: int) {
    field > 0 && field in fields
  }

  lemma PositionIs(fields: seq<int>, field: int)
    ensures Position(fields, field) > 0 <==> Named(fields, field)
    ensures forall i: nat :: LastPlace(fields, field, i) ==> Position(fields, field) == i + 1
    ensures Position(fields, field) > 0 ==> LastPlace(fields, field, Position(fields, field) - 1)
  {
    PositionNames(fields, field);
  }

  /** What a group's order is: the fields that it names come first, by the last place at which
      it names them; the rest follow by number. */
  lemma GroupOrderIs(fields: seq<int>, x: int, y: int)
    ensures forall i: nat, j: nat :: LastPlace(fields, x, i) && LastPlace(fields, y, j) ==>
      (Precedes(GroupOrder(fields), x, y) <==> i < j)
    ensures Named(fields, x) && !Named(fields, y) ==> Precedes(GroupOrder(fields), x, y)
    ensures !Named(fields, x) && Named(fields, y) ==> !Precedes(GroupOrder(fields), x, y)
    ensures !Named(fields, x) && !Named(fields, y) ==> (Precedes(GroupOrder(fields), x, y) <==> x < y)
  {
    PositionIs(fields, x);
    PositionIs(fields, y);
  }

  /** The header's order is that of a list, and so is the trailer's, but for the checksum,
      which comes last. */
  lemma PartOrdersAre(x: int, y: int)
    ensures Precedes(Header, x, y) <==> Precedes(GroupOrder([8, 9, 35]), x, y)
    ensures Precedes(Trailer, x, y) <==> x != 10 && (y == 10 || Precedes(GroupOrder([93, 89]), x, y))
    ensures Precedes(Normal, x, y) <==> x < y
  {
    ListPositions(x);
    ListPositions(y);
  }

  lemma ListPositions(x: int)
    ensures Position([8, 9, 35], x) == HeaderPosition(x) && Position([93, 89], x) == TrailerPosition(x)
  {
    PlaceInHeader(x);
    PositionIs([93, 89], x);
    assert [93, 89][0] == 93 && [93, 89][1] == 89;
    assert x == 93 ==> LastPlace([93, 89], x, 0);
    assert x == 89 ==> LastPlace([93, 89], x, 1);
  }

  lemma PlaceInHeader(x: int)
    ensures Position([8, 9, 35], x) == HeaderPosition(x)
  {
    var fields := [8, 9, 35];
    PositionIs(fields, x);
    assert fields[0] == 8 && fields[1] == 9 && fields[2] == 35;
    assert x == 8 ==> LastPlace(fields, x, 0);
    assert x == 9 ==> LastPlace(fields, x, 1);
    assert x == 35 ==> LastPlace(fields, x, 2);
  }

  /** Every order is a strict total order on field numbers. */
  lemma StrictTotalOrder(order: Order, x: int, y: int, z: int)
    ensures !Precedes(order, x, x)
    ensures Precedes(order, x, y) && Precedes(order, y, z) ==> Precedes(order, x, z)
    ensures x != y ==> Precedes(order, x, y) != Precedes(order, y, x)
  {
    if order.GroupOrder? {
      PositionNames(order.fields, x);
      PositionNames(order.fields, y);
    }
  }

  // ----- the hash table, on values

  /** Fibonacci hashing. */
  function SlotOf(field: int): nat {
    field % 0x1_0000_0000 * 0x9E37_79B9_7F4A_7C15 % 0x1_0000_0000_0000_0000 / 0x1_0000_0000
  }

  /** The slot at distance d from the field's first one. The number of slots is a power of
      two, so the code's mask is a remainder. */
  function At(slots: int, field: int, d: nat): (slot: nat)
    requires slots > 0
    ensures slot < slots
  {
    (SlotOf(field) + d) % slots
  }

  lemma AtNext(slots: int, field: int, d: nat)
    requires slots > 0
    ensures At(slots, field, d + 1) == (At(slots, field, d) + 1) % slots
  {
    RemainderStep(SlotOf(field) + d, slots);
  }

  lemma RemainderStep(a: nat, n: int)
    requires n > 0
    ensures (a + 1) % n == (a % n + 1) % n
  {
    var q, r := a / n, a % n;
    assert a + 1 == q * n + (r + 1);
    if r + 1 < n {
      RemainderIs(a + 1, n, q, r + 1);
      RemainderIs(r + 1, n, 0, r + 1);
    } else {
      RemainderIs(a + 1, n, q + 1, 0);
      RemainderIs(n, n, 1, 0);
    }
  }

  /** Every slot is at some distance from a field's first one. */
  lemma DistanceTo(slots: int, field: int, slot: nat) returns (d: nat)
    requires slot < slots
    ensures d < slots && At(slots, field, d) == slot
  {
    var h := SlotOf(field);
    var q, r := h / slots, h % slots;
    assert h == q * slots + r;
    if r <= slot {
      d := slot - r;
      QuotientIs(h + d, slots, q, slot);
    } else {
      d := slots + slot - r;
      assert (q + 1) * slots == q * slots + slots;
      QuotientIs(h + d, slots, q + 1, slot);
    }
  }

  /** The probe for a field ends at distance d: the slot is the field's, or empty. */
  ghost predicate FoundAt(t: seq<int>, slots: int, field: int, d: nat)
    requires 0 < slots && |t| == 2 * slots
  {
    d < slots && t[2 * At(slots, field, d)] == field && Passed(t, slots, field, d)
  }

  /** The probe has passed the first d slots of the field. */
  ghost predicate Passed(t: seq<int>, slots: int, field: int, d: nat)
    requires 0 < slots && |t| == 2 * slots
  {
    forall e: nat :: e < d ==> t[2 * At(slots, field, e)] != 0 && t[2 * At(slots, field, e)] != field
  }

  /** Every field of the order is found, at its distance, with its position. */
  ghost predicate FieldsFound(t: seq<int>, slots: int, fields: seq<int>, dist: map<int, nat>)
    requires 0 < slots && |t| == 2 * slots
  {
    && (forall f :: f in dist <==> Position(fields, f) > 0)
    && (forall f :: f in dist ==>
         FoundAt(t, slots, f, dist[f]) && t[2 * At(slots, f, dist[f]) + 1] == Position(fields, f))
  }

  /** Every slot is empty or is where its field is found. */
  ghost predicate SlotsUsed(t: seq<int>, slots: int, dist: map<int, nat>)
    requires 0 < slots && |t| == 2 * slots
  {
    forall s :: 0 <= s < slots ==>
      if t[2 * s] == 0 then t[2 * s + 1] == 0
      else t[2 * s] in dist && At(slots, t[2 * s], dist[t[2 * s]]) == s
  }

  /** A table holds pairs of a field and its position; field 0 marks an empty slot. dist
      gives the distance at which each field of the order is found. */
  ghost predicate TableForm(t: seq<int>, slots: int, fields: seq<int>, dist: map<int, nat>) {
    && 0 < slots && |t| == 2 * slots && |dist| <= |fields|
    && FieldsFound(t, slots, fields, dist) && SlotsUsed(t, slots, dist)
  }

  lemma {:induction false} Pigeonhole(s: seq<int>, keys: set<int>)
    requires forall i :: 0 <= i < |s| ==> s[i] in keys
    requires forall i, j :: 0 <= i < j < |s| ==> s[i] != s[j]
    ensures |s| <= |keys|
  {
    if s != [] {
      Pigeonhole(s[1..], keys - {s[0]});
    }
  }

  /** A table with more slots than fields has an empty slot. */
  lemma HasEmptySlot(t: seq<int>, slots: int, fields: seq<int>, dist: map<int, nat>) returns (s: nat)
    requires TableForm(t, slots, fields, dist) && |fields| < slots
    ensures s < slots && t[2 * s] == 0
  {
    assert |dist.Keys| == |dist|;
    if s0: nat :| s0 < slots && t[2 * s0] == 0 {
      s := s0;
    } else {
      var keys := seq(slots, i requires 0 <= i < slots => t[2 * i]);
      Pigeonhole(keys, dist.Keys);
      assert false;
    }
  }

  lemma PositionGrows(fields: seq<int>, next: int, f: int)
    ensures Position(fields + [next], f) == if f == next > 0 then |fields| + 1 else Position(fields, f)
  {
    assert (fields + [next])[..|fields|] == fields;
  }

  lemma EmptyTable(t: seq<int>, slots: int)
    requires 0 < slots && |t| == 2 * slots && forall i :: 0 <= i < |t| ==> t[i] == 0
    ensures TableForm(t, slots, [], map[])
  {
  }

  /** A field that is not a field number is passed over. */
  lemma SkipKeeps(t: seq<int>, slots: int, fields: seq<int>, dist: map<int, nat>, next: int)
    requires TableForm(t, slots, fields, dist) && next <= 0
    ensures TableForm(t, slots, fields + [next], dist)
  {
    forall f
      ensures Position(fields + [next], f) == Position(fields, f)
    {
      PositionGrows(fields, next, f);
    }
  }

  function Stored(t: seq<int>, slot: nat, field: int, position: int): (r: seq<int>)
    requires 2 * slot + 1 < |t|
    ensures |r| == |t|
  {
    t[2 * slot := field][2 * slot + 1 := position]
  }

  /** Another field's probe is not disturbed. */
  lemma OthersFound(t: seq<int>, slots: int, field: int, slot: nat, p: int, f: int, d: nat)
    requires 0 < slots && |t| == 2 * slots && slot < slots && f != field && field != 0 && f != 0
    requires t[2 * slot] == 0 || t[2 * slot] == field
    requires FoundAt(t, slots, f, d)
    ensures FoundAt(Stored(t, slot, field, p), slots, f, d) && At(slots, f, d) != slot
  {
  }

  /** Where the probe finds the field's slot the position is overwritten, where it finds an
      empty one the field goes in. */
  lemma StoreKeeps(t: seq<int>, slots: int, fields: seq<int>, dist: map<int, nat>, field: int, d: nat, slot: nat)
    returns (after: map<int, nat>)
    requires TableForm(t, slots, fields, dist) && field > 0
    requires d < slots && Passed(t, slots, field, d) && slot == At(slots, field, d)
    requires t[2 * slot] == 0 || t[2 * slot] == field
    ensures TableForm(Stored(t, slot, field, |fields| + 1), slots, fields + [field], after)
  {
    after := dist[field := d];
    FieldsStillFound(t, slots, fields, dist, field, d, slot);
    if field in dist {
      SameDistance(t, slots, field, dist[field], d);
    }
    SlotsStillUsed(t, slots, dist, field, d, slot, |fields| + 1);
  }

  lemma FieldsStillFound(t: seq<int>, slots: int, fields: seq<int>, dist: map<int, nat>, field: int, d: nat, slot: nat)
    requires 0 < slots && |t| == 2 * slots && FieldsFound(t, slots, fields, dist) && field > 0
    requires d < slots && Passed(t, slots, field, d) && slot == At(slots, field, d)
    requires t[2 * slot] == 0 || t[2 * slot] == field
    ensures FieldsFound(Stored(t, slot, field, |fields| + 1), slots, fields + [field], dist[field := d])
  {
    var r, after := Stored(t, slot, field, |fields| + 1), dist[field := d];
    forall f
      ensures f in after <==> Position(fields + [field], f) > 0
    {
      PositionGrows(fields, field, f);
    }
    forall f | f in after
      ensures FoundAt(r, slots, f, after[f]) && r[2 * At(slots, f, after[f]) + 1] == Position(fields + [field], f)
    {
      PositionGrows(fields, field, f);
      if f == field {
        assert FoundAt(r, slots, field, d);
      } else {
        PositionNames(fields, f);
        OthersFound(t, slots, field, slot, |fields| + 1, f, dist[f]);
      }
    }
  }

  /** A field that is in the table is found at its own distance only. */
  lemma SameDistance(t: seq<int>, slots: int, field: int, d: nat, e: nat)
    requires 0 < slots && |t| == 2 * slots && field != 0 && FoundAt(t, slots, field, d) && Passed(t, slots, field, e)
    requires t[2 * At(slots, field, e)] == 0 || t[2 * At(slots, field, e)] == field
    ensures d == e
  {
  }

  lemma SlotsStillUsed(t: seq<int>, slots: int, dist: map<int, nat>, field: int, d: nat, slot: nat, p: int)
    requires 0 < slots && |t| == 2 * slots && SlotsUsed(t, slots, dist) && slot < slots
    requires field != 0 && slot == At(slots, field, d) && (field in dist ==> dist[field] == d)
    ensures SlotsUsed(Stored(t, slot, field, p), slots, dist[field := d])
  {
  }

  // ----- the class

  datatype Mode = NormalMode | HeaderMode | TrailerMode | GroupMode

  /** message_order. In group mode the lookup has one of two forms: m_mask is negative, the
      complement of the largest field number, for an array of positions, and otherwise one
      less than the number of slots of the table. */
  class FieldOrder {
    var mode: Mode
    var groupOrder: array<int>
    var mask: int
    ghost var order: Order
    ghost var dist: map<int, nat>

    ghost predicate ArrayForm(fields: seq<int>)
      reads this, groupOrder
    {
      && groupOrder.Length == -mask && mask < 0
      && (forall i :: 0 <= i < |fields| ==> fields[i] < groupOrder.Length)
      && (forall f :: 0 <= f < groupOrder.Length ==> groupOrder[f] == Position(fields, f))
    }

    ghost predicate Valid()
      reads this, groupOrder
    {
      match mode
      case NormalMode => order == Normal || order == GroupOrder([])
      case HeaderMode => order == Header
      case TrailerMode => order == Trailer
      case GroupMode =>
        order.GroupOrder? &&
        if mask < 0 then ArrayForm(order.fields)
        else TableForm(groupOrder[..], mask + 1, order.fields, dist) && |order.fields| < mask + 1
    }

    constructor (order: Order)
      ensures Valid() && this.order == order
    {
      mode := match order
        case Normal => NormalMode
        case Header => HeaderMode
        case Trailer => TrailerMode
        case GroupOrder(fields) => if fields == [] then NormalMode else GroupMode;
      mask, groupOrder, dist := 0, new int[0], map[];
      this.order := order;
      new;
      if order.GroupOrder? && order.fields != [] {
        SetOrder(order.fields);
      }
    }

    /** setOrder, for an order that names at least one field. */
    method SetOrder(fields: seq<int>)
      requires mode == GroupMode && order == GroupOrder(fields) && fields != []
      modifies this
      ensures Valid() && order == old(order)
    {
      var largest := Largest(fields);
      var slots := 4;
      while slots < 2 * |fields|
        invariant slots >= 4
      {
        slots := slots * 2;
      }
      if largest + 1 <= 16 * slots {
        groupOrder := Positions(fields, largest);
        mask := -(largest + 1);
      } else {
        mask := slots - 1;
        groupOrder, dist := Table(fields, slots);
      }
    }

    /** operator() */
    method Compare(x: int, y: int) returns (r: bool)
      requires Valid()
      ensures r == Precedes(order, x, y)
    {
      match mode
      case NormalMode => r := x < y;
      case HeaderMode => r := ByPosition(HeaderPosition(x), HeaderPosition(y), x, y);
      case TrailerMode =>
        if x == CHECK_SUM {
          return false;
        } else if y == CHECK_SUM {
          return true;
        }
        r := ByPosition(TrailerPosition(x), TrailerPosition(y), x, y);
      case GroupMode =>
        var positionX := PositionOf(x);
        var positionY := PositionOf(y);
        r := ByPosition(positionX, positionY, x, y);
    }

    /** position: from the array or the table, the last position the order gives the field. */
    method PositionOf(field: int) returns (p: nat)
      requires Valid() && mode == GroupMode
      ensures p == Position(order.fields, field)
    {
      if mask < 0 {
        PositionNames(order.fields, field);
        p := if 0 <= field < groupOrder.Length then groupOrder[field] else 0;
      } else {
        p := Probe(groupOrder, mask + 1, field, order.fields, dist);
      }
    }
  }

  method Largest(fields: seq<int>) returns (largest: int)
    ensures largest >= 0 && forall i :: 0 <= i < |fields| ==> fields[i] <= largest
  {
    largest := 0;
    for i := 0 to |fields|
      invariant largest >= 0 && forall j :: 0 <= j < i ==> fields[j] <= largest
    {
      if largest < fields[i] {
        largest := fields[i];
      }
    }
  }

  /** The array form: positions indexed by field number, 0 for a field not named. */
  method Positions(fields: seq<int>, largest: nat) returns (positions: array<int>)
    requires forall i :: 0 <= i < |fields| ==> fields[i] <= largest
    ensures fresh(positions) && positions.Length == largest + 1
    ensures forall f :: 0 <= f <= largest ==> positions[f] == Position(fields, f)
  {
    positions := new int[largest + 1](_ => 0);
    for i := 0 to |fields|
      invariant forall f :: 0 <= f <= largest ==> positions[f] == Position(fields[..i], f)
    {
      forall f
        ensures Position(fields[..i + 1], f) == if f == fields[i] > 0 then i + 1 else Position(fields[..i], f)
      {
        PositionGrows(fields[..i], fields[i], f);
        assert fields[..i + 1] == fields[..i] + [fields[i]];
      }
      if fields[i] > 0 {
        positions[fields[i]] := i + 1;
      }
    }
    assert fields[..|fields|] == fields;
  }

  /** The table form: linear probing from the field's first slot. */
  method Table(fields: seq<int>, slots: nat) returns (table: array<int>, ghost dist: map<int, nat>)
    requires slots >= 2 * |fields| && slots > 0
    ensures fresh(table) && TableForm(table[..], slots, fields, dist)
  {
    table := new int[2 * slots](_ => 0);
    dist := map[];
    EmptyTable(table[..], slots);
    for i := 0 to |fields|
      invariant TableForm(table[..], slots, fields[..i], dist)
    {
      assert fields[..i + 1] == fields[..i] + [fields[i]];
      if fields[i] <= 0 {
        SkipKeeps(table[..], slots, fields[..i], dist, fields[i]);
      } else {
        dist := Store(table, slots, fields[i], fields[..i], dist);
      }
    }
    assert fields[..|fields|] == fields;
  }

  /** The body of the loop. A position that was stored for the field before is overwritten. */
  method Store(table: array<int>, slots: nat, field: int, fields: seq<int>, ghost dist: map<int, nat>)
    returns (ghost after: map<int, nat>)
    requires TableForm(table[..], slots, fields, dist) && |fields| < slots && field > 0
    modifies table
    ensures TableForm(table[..], slots, fields + [field], after)
  {
    var slot, d := FindSlot(table, slots, field, fields, dist);
    after := StoreKeeps(table[..], slots, fields, dist, field, d, slot);
    ghost var expected := Stored(table[..], slot, field, |fields| + 1);
    table[2 * slot] := field;
    table[2 * slot + 1] := |fields| + 1;
    assert table[..] == expected;
  }

  /** The probe loop: the first slot, going round from the field's first one, that holds the
      field or is empty. The table has an empty slot, so there is one. */
  method FindSlot(table: array<int>, slots: nat, field: int, ghost fields: seq<int>, ghost dist: map<int, nat>)
    returns (slot: nat, ghost d: nat)
    requires TableForm(table[..], slots, fields, dist) && |fields| < slots
    ensures d < slots && slot == At(slots, field, d) && Passed(table[..], slots, field, d)
    ensures table[2 * slot] == 0 || table[2 * slot] == field
  {
    ghost var empty := HasEmptySlot(table[..], slots, fields, dist);
    ghost var far := DistanceTo(slots, field, empty);
    slot := SlotOf(field) % slots;
    d := 0;
    while table[2 * slot] != 0 && table[2 * slot] != field
      invariant d <= far && slot == At(slots, field, d) && Passed(table[..], slots, field, d)
      decreases far - d
    {
      AtNext(slots, field, d);
      slot := (slot + 1) % slots;
      d := d + 1;
    }
  }

  /** probe */
  method Probe(table: array<int>, slots: nat, field: int, ghost fields: seq<int>, ghost dist: map<int, nat>)
    returns (p: nat)
    requires TableForm(table[..], slots, fields, dist) && |fields| < slots
    ensures p == Position(fields, field)
  {
    var slot, d := FindSlot(table, slots, field, fields, dist);
    PositionNames(fields, field);
    if field in dist {
      assert table[..][2 * At(slots, field, dist[field])] == field;
    }
    p := if table[2 * slot] == field then table[2 * slot + 1] else 0;
  }
}
