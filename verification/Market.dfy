/** The order matcher's classes: orders updated in place, the two sides of a
    market, and the application that submits and cancels. */
module Market {
  import opened Sequences
  import B = OrderBook

  class Order {
    const arrival: nat
    const clientId: string
    const side: B.Side
    const price: real
    const quantity: int
    var open: int
    var executed: int
    var avg: real
    var lastPrice: real
    var lastQuantity: int

    constructor (o: B.Order)
      ensures Value() == o
    {
      arrival, clientId, side, price, quantity := o.arrival, o.clientId, o.side, o.price, o.quantity;
      open, executed, avg, lastPrice, lastQuantity := o.open, o.executed, o.avg, o.lastPrice, o.lastQuantity;
    }

    function Value(): B.Order
      reads this
    {
      B.Order(arrival, clientId, side, price, quantity, open, executed, avg, lastPrice, lastQuantity)
    }

    predicate IsClosed()
      reads this
    {
      open == 0
    }

    method Execute(price: real, quantity: int)
      requires quantity + executed != 0
      modifies this
      ensures Value() == B.Execute(old(Value()), price, quantity)
    {
      avg := ((quantity as real) * price + avg * (executed as real)) / ((quantity + executed) as real);
      open := open - quantity;
      executed := executed + quantity;
      lastPrice := price;
      lastQuantity := quantity;
    }

    method Cancel()
      modifies this
      ensures Value() == old(Value()).(open := 0)
    {
      open := 0;
    }
  }

  function Values(s: seq<Order>): (r: seq<B.Order>)
    reads s
    ensures |r| == |s| && forall i :: 0 <= i < |s| ==> r[i] == s[i].Value()
  {
    seq(|s|, i requires 0 <= i < |s| reads s => s[i].Value())
  }

  predicate AllDistinct(s: seq<Order>) {
    forall i, j :: 0 <= i < j < |s| ==> s[i] != s[j]
  }

  predicate Disjoint(s: seq<Order>, t: seq<Order>) {
    forall i, j :: 0 <= i < |s| && 0 <= j < |t| ==> s[i] != t[j]
  }

  lemma DistinctInsert(s: seq<Order>, t: seq<Order>, o: Order, k: nat)
    requires k <= |s| && AllDistinct(s) && Disjoint(s, t) && o !in s && o !in t
    ensures AllDistinct(s[..k] + [o] + s[k..]) && Disjoint(s[..k] + [o] + s[k..], t)
  {
    var r := s[..k] + [o] + s[k..];
    forall i, j | 0 <= i < j < |r|
      ensures r[i] != r[j]
    {
      assert i < k ==> r[i] == s[i];
      assert i > k ==> r[i] == s[i - 1];
      assert j < k ==> r[j] == s[j];
      assert j > k ==> r[j] == s[j - 1];
    }
  }

  lemma ValuesDropped(s: seq<Order>, i: nat)
    requires i <= |s|
    ensures Values(RemoveAt(s, i)) == RemoveAt(Values(s), i)
  {
    var r, v := RemoveAt(s, i), RemoveAt(Values(s), i);
    assert |r| == |v|;
    forall j | 0 <= j < |r|
      ensures Values(r)[j] == v[j]
    {
    }
  }

  lemma DistinctDropped(s: seq<Order>, t: seq<Order>, i: nat)
    requires i <= |s| && AllDistinct(s) && Disjoint(s, t)
    ensures AllDistinct(RemoveAt(s, i)) && Disjoint(RemoveAt(s, i), t)
    ensures forall x :: x in RemoveAt(s, i) ==> x in s
  {
  }

  lemma TailsDistinct(s: seq<Order>, t: seq<Order>, r: seq<Order>, u: seq<Order>)
    requires AllDistinct(s) && AllDistinct(t) && Disjoint(s, t)
    requires s != [] && t != [] && (r == s || r == s[1..]) && (u == t || u == t[1..])
    ensures AllDistinct(r) && AllDistinct(u) && Disjoint(r, u)
    ensures (forall x :: x in r ==> x in s) && forall x :: x in u ==> x in t
  {
  }

  lemma {:induction false} InsertAt(s: seq<B.Order>, o: B.Order, k: nat)
    requires k <= |s|
    requires forall i :: 0 <= i < k ==> !(B.Rank(o) < B.Rank(s[i]))
    requires k < |s| ==> B.Rank(o) < B.Rank(s[k])
    ensures B.Insert(s, o) == s[..k] + [o] + s[k..]
  {
    if k > 0 {
      InsertAt(s[1..], o, k - 1);
      assert s[1..][..k - 1] == s[..k][1..];
    }
  }

  class Market {
    var bids: seq<Order>
    var asks: seq<Order>
    ghost var log: seq<B.Trade>

    ghost function Objects(): set<Order>
      reads this`bids, this`asks
    {
      (set o | o in bids) + (set o | o in asks)
    }

    ghost predicate Valid()
      reads this`bids, this`asks
    {
      AllDistinct(bids) && AllDistinct(asks) && Disjoint(bids, asks)
    }

    ghost function Book(): B.Book
      reads this`bids, this`asks, bids, asks
    {
      B.Book(Values(bids), Values(asks))
    }

    ghost function State(): B.State
      reads this, bids, asks
    {
      B.State(Book(), log)
    }

    constructor ()
      ensures Valid() && State() == B.EMPTY.state && Objects() == {}
    {
      bids, asks, log := [], [], [];
    }

    /** multimap::insert: o goes after the elements with an equal key. */
    static method InsertInto(s: seq<Order>, o: Order) returns (r: seq<Order>, ghost k: nat)
      ensures k <= |s| && r == s[..k] + [o] + s[k..]
      ensures Values(r) == B.Insert(Values(s), o.Value())
    {
      k := 0;
      var i := 0;
      while i < |s| && !(B.Rank(o.Value()) < B.Rank(s[i].Value()))
        invariant i <= |s|
        invariant forall j :: 0 <= j < i ==> !(B.Rank(o.Value()) < B.Rank(s[j].Value()))
      {
        i := i + 1;
      }
      k := i;
      r := s[..i] + [o] + s[i..];
      InsertAt(Values(s), o.Value(), i);
    }

    method Insert(order: B.Order)
      requires Valid()
      modifies this
      ensures Valid() && fresh(Objects() - old(Objects())) && old(Objects()) <= Objects()
      ensures Book() == B.Place(old(Book()), order) && log == old(log)
    {
      var o := new Order(order);
      if order.side == B.Buy {
        InsertBid(o);
      } else {
        InsertAsk(o);
      }
    }

    method InsertBid(o: Order)
      requires Valid() && o !in bids && o !in asks
      modifies this`bids
      ensures Valid() && Objects() == old(Objects()) + {o}
      ensures Book() == B.Book(B.Insert(old(Book()).bids, o.Value()), old(Book()).asks)
    {
      ghost var before := bids;
      ghost var k;
      bids, k := InsertInto(bids, o);
      DistinctInsert(before, asks, o, k);
    }

    method InsertAsk(o: Order)
      requires Valid() && o !in bids && o !in asks
      modifies this`asks
      ensures Valid() && Objects() == old(Objects()) + {o}
      ensures Book() == B.Book(old(Book()).bids, B.Insert(old(Book()).asks, o.Value()))
    {
      ghost var before := asks;
      ghost var k;
      asks, k := InsertInto(asks, o);
      DistinctInsert(before, bids, o, k);
    }

    /** match(Order &bid, Order &ask) */
    static method Trade(bid: Order, ask: Order)
      requires bid != ask && bid.open > 0 && ask.open > 0 && bid.executed >= 0 && ask.executed >= 0
      modifies bid, ask
      ensures bid.Value() == B.Execute(old(bid.Value()), ask.price, B.MatchQuantity(old(bid.Value()), old(ask.Value())))
      ensures ask.Value() == B.Execute(old(ask.Value()), ask.price, B.MatchQuantity(old(bid.Value()), old(ask.Value())))
    {
      var price := ask.price;
      var quantity := 0;
      if bid.open > ask.open {
        quantity := ask.open;
      } else {
        quantity := bid.open;
      }
      bid.Execute(price, quantity);
      ask.Execute(price, quantity);
    }

    /** Erases the front element if its order is closed. */
    static method EraseIfClosed(s: seq<Order>, ghost before: seq<B.Order>, ghost front: B.Order)
      returns (r: seq<Order>)
      requires s != [] && before != [] && Values(s) == [front] + before[1..]
      ensures Values(r) == B.Settle(before, front)
      ensures r == s || r == s[1..]
    {
      r := s;
      assert s[0].Value() == front;
      if s[0].IsClosed() {
        r := s[1..];
        assert Values(r) == Values(s)[1..];
      }
    }

    /** match(queue): trades while the best bid reaches the best ask, queues a copy of both
        orders after each trade, and erases those that are closed. */
    method Match(queue: seq<B.Order>) returns (orders: seq<B.Order>, any: bool)
      requires Valid() && B.Valid(Book())
      modifies this, Objects()
      ensures Valid() && Objects() <= old(Objects())
      ensures State() == B.Match(old(State()))
      ensures old(log) <= log && orders == queue + B.Updates(log[|old(log)|..])
      ensures any == (orders != [])
    {
      orders := queue;
      ghost var start, target := |log|, B.Match(State());
      assert log[start..] == [];
      while bids != [] && asks != [] && bids[0].price >= asks[0].price
        invariant Valid() && Objects() <= old(Objects()) && B.Valid(Book())
        invariant B.Match(State()) == target
        invariant old(log) <= log && orders == queue + B.Updates(log[start..])
        decreases |bids| + |asks|
      {
        orders := Turn(queue, start, orders);
      }
      any := orders != [];
    }

    /** One turn of the loop, against the recursion that specifies it. */
    method Turn(ghost queue: seq<B.Order>, ghost start: nat, orders: seq<B.Order>) returns (r: seq<B.Order>)
      requires Valid() && B.Valid(Book()) && B.Crossed(Book())
      requires start <= |log| && orders == queue + B.Updates(log[start..])
      modifies this, bids[0], asks[0]
      ensures Valid() && Objects() <= old(Objects()) && B.Valid(Book())
      ensures B.Match(State()) == B.Match(old(State()))
      ensures old(log) <= log && r == queue + B.Updates(log[start..])
      ensures |bids| + |asks| < old(|bids| + |asks|)
    {
      ghost var before := State();
      ghost var t := B.NextTrade(before.book);
      B.NextTradeIsFront(before.book);
      B.PassKeepsValid(before);
      B.UpdatesGrow(before.log, start, t);
      r := MatchOnce(orders, t);
    }

    /** Trades the two front orders. */
    method TradeFront(ghost t: B.Trade) returns (updates: seq<B.Order>)
      requires Valid() && t.book == Book() && B.FrontTrade(t)
      modifies bids[0], asks[0]
      ensures updates == [t.bidAfter, t.askAfter]
      ensures Book() == B.Book([t.bidAfter] + t.book.bids[1..], [t.askAfter] + t.book.asks[1..])
    {
      var bid, ask := bids[0], asks[0];
      Trade(bid, ask);
      updates := [bid.Value(), ask.Value()];
      assert forall i :: 1 <= i < |bids| ==> bids[i] != bid && bids[i] != ask;
      assert forall i :: 1 <= i < |asks| ==> asks[i] != bid && asks[i] != ask;
    }

    /** Erases the front orders that the trade closed. */
    method EraseClosed(ghost t: B.Trade)
      requires Valid() && t.book.bids != [] && t.book.asks != []
      requires Book() == B.Book([t.bidAfter] + t.book.bids[1..], [t.askAfter] + t.book.asks[1..])
      modifies this`bids, this`asks
      ensures Valid() && Objects() <= old(Objects())
      ensures Book() == B.Book(B.Settle(t.book.bids, t.bidAfter), B.Settle(t.book.asks, t.askAfter))
    {
      var b := EraseIfClosed(bids, t.book.bids, t.bidAfter);
      var a := EraseIfClosed(asks, t.book.asks, t.askAfter);
      TailsDistinct(bids, asks, b, a);
      bids, asks := b, a;
    }

    /** The body of the loop, for a crossed book. */
    method MatchOnce(orders: seq<B.Order>, ghost t: B.Trade) returns (r: seq<B.Order>)
      requires Valid() && t.book == Book() && B.FrontTrade(t)
      modifies this, bids[0], asks[0]
      ensures Valid() && Objects() <= old(Objects())
      ensures Book() == B.Book(B.Settle(t.book.bids, t.bidAfter), B.Settle(t.book.asks, t.askAfter))
      ensures log == old(log) + [t] && r == orders + [t.bidAfter, t.askAfter]
    {
      var updates := TradeFront(t);
      r := orders + updates;
      EraseClosed(t);
      log := log + [t];
    }

    /** The first order on a side with the client id, in priority order. */
    static method FindIn(s: seq<Order>, id: string) returns (i: nat)
      ensures i == B.FirstWith(Values(s), id)
    {
      i := 0;
      while i < |s|
        invariant i <= |s|
        invariant forall j :: 0 <= j < i ==> s[j].clientId != id
      {
        if s[i].clientId == id {
          B.FirstWithIs(Values(s), id, i);
          return;
        }
        i := i + 1;
      }
      B.FirstWithIs(Values(s), id, i);
    }

    /** find: the order, or null where the code throws. */
    method Find(side: B.Side, id: string) returns (r: Order?)
      ensures
        var s := if side.Buy? then bids else asks;
        var i := B.FirstWith(Values(s), id);
        if i < |s| then r == s[i] else r == null
    {
      var s := if side == B.Buy then bids else asks;
      var i := FindIn(s, id);
      r := if i < |s| then s[i] else null;
    }

    /** cancel, on an order of this market. */
    method Close(order: Order, side: B.Side, ghost i: nat)
      requires Valid() && i < |if side.Buy? then bids else asks|
      requires order == (if side.Buy? then bids else asks)[i]
      modifies order
      ensures Book() == B.CloseAt(old(Book()), side, i)
    {
      order.Cancel();
      assert forall j :: 0 <= j < |bids| && (side.Sell? || j != i) ==> bids[j] != order;
      assert forall j :: 0 <= j < |asks| && (side.Buy? || j != i) ==> asks[j] != order;
    }

    static method EraseFirst(s: seq<Order>, id: string) returns (r: seq<Order>, ghost i: nat)
      ensures i == B.FirstWith(Values(s), id) && i <= |s| && r == RemoveAt(s, i)
    {
      var k := FindIn(s, id);
      i := k;
      r := if k < |s| then s[..k] + s[k + 1..] else s;
    }

    /** erase: takes out the first order on the order's side with the order's client id. */
    method Erase(order: Order)
      requires Valid()
      modifies this`bids, this`asks
      ensures Valid() && Objects() <= old(Objects())
      ensures Book() == B.CancelIn(old(Book()), order.side, order.clientId)
    {
      if order.side == B.Buy {
        ghost var before := bids;
        ghost var i;
        bids, i := EraseFirst(bids, order.clientId);
        ValuesDropped(before, i);
        DistinctDropped(before, asks, i);
      } else {
        ghost var before := asks;
        ghost var i;
        asks, i := EraseFirst(asks, order.clientId);
        ValuesDropped(before, i);
        DistinctDropped(before, bids, i);
      }
    }
  }
}
