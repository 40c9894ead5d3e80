/** The order matcher on values: the specification that the classes are proved
    against, and what is promised about it over whole runs. */
module OrderBook {
  import opened Sequences

  datatype Side = Buy | Sell

  /** The value of an order object. The arrival number stands for the object's
      identity; the code never looks at it. */
  datatype Order = Order(
    arrival: nat, clientId: string, side: Side, price: real, quantity: int,
    open: int, executed: int, avg: real, lastPrice: real, lastQuantity: int)

  /** The constructor of Order. */
  function NewOrder(arrival: nat, clientId: string, side: Side, price: real, quantity: int): Order {
    Order(arrival, clientId, side, price, quantity, quantity, 0, 0.0, 0.0, 0)
  }

  /** Order::execute */
  function Execute(o: Order, price: real, quantity: int): Order
    requires quantity + o.executed != 0
  {
    o.(avg := ((quantity as real) * price + o.avg * (o.executed as real)) / ((quantity + o.executed) as real),
       open := o.open - quantity,
       executed := o.executed + quantity,
       lastPrice := price,
       lastQuantity := quantity)
  }

  /** The two multimaps, in iteration order. */
  datatype Book = Book(bids: seq<Order>, asks: seq<Order>)

  /** A smaller rank is a better price. */
  function Rank(o: Order): real {
    if o.side.Buy? then -o.price else o.price
  }

  /** Price-time priority within a side. */
  predicate Better(x: Order, y: Order) {
    Rank(x) < Rank(y) || (Rank(x) == Rank(y) && x.arrival < y.arrival)
  }

  ghost predicate Sorted(s: seq<Order>) {
    forall i, j :: 0 <= i < j < |s| ==> Better(s[i], s[j])
  }

  ghost predicate Resting(s: seq<Order>, side: Side) {
    forall i :: 0 <= i < |s| ==> s[i].side == side && s[i].open > 0 && s[i].executed >= 0
  }

  ghost predicate Distinct(s: seq<Order>) {
    forall i, j :: 0 <= i < j < |s| ==> s[i].arrival != s[j].arrival
  }

  ghost predicate Apart(s: seq<Order>, t: seq<Order>) {
    forall i, j :: 0 <= i < |s| && 0 <= j < |t| ==> s[i].arrival != t[j].arrival
  }

  ghost predicate Valid(b: Book) {
    && Sorted(b.bids) && Resting(b.bids, Buy) && Distinct(b.bids)
    && Sorted(b.asks) && Resting(b.asks, Sell) && Distinct(b.asks)
    && Apart(b.bids, b.asks)
  }

  predicate Crossed(b: Book) {
    b.bids != [] && b.asks != [] && b.bids[0].price >= b.asks[0].price
  }

  /** multimap::insert puts an element after those with an equal key. */
  function Insert(s: seq<Order>, o: Order): (r: seq<Order>)
    ensures |r| == |s| + 1
  {
    if s == [] || Rank(o) < Rank(s[0]) then [o] + s else [s[0]] + Insert(s[1..], o)
  }

  function Place(b: Book, o: Order): Book {
    if o.side.Buy? then b.(bids := Insert(b.bids, o)) else b.(asks := Insert(b.asks, o))
  }

  /** One execution: the book it found, the two orders before and after, and the terms. */
  datatype Trade = Trade(
    book: Book, bid: Order, ask: Order, price: real, quantity: int, bidAfter: Order, askAfter: Order)

  datatype State = State(book: Book, log: seq<Trade>)

  function MatchQuantity(bid: Order, ask: Order): int {
    if bid.open > ask.open then ask.open else bid.open
  }

  /** The front order after an execution: gone when closed. */
  function Settle(s: seq<Order>, front: Order): (r: seq<Order>)
    requires s != []
    ensures |r| <= |s| && (front.open == 0 ==> |r| < |s|)
  {
    if front.open == 0 then s[1..] else [front] + s[1..]
  }

  /** A trade between the front orders of its book, at the ask's price, for the smaller
      of their open quantities. */
  predicate FrontTrade(t: Trade) {
    && t.book.bids != [] && t.bid == t.book.bids[0] && t.bid.open > 0 && t.bid.executed >= 0
    && t.book.asks != [] && t.ask == t.book.asks[0] && t.ask.open > 0 && t.ask.executed >= 0
    && t.price == t.ask.price && t.quantity == MatchQuantity(t.bid, t.ask)
    && t.bidAfter == Execute(t.bid, t.price, t.quantity) && t.askAfter == Execute(t.ask, t.price, t.quantity)
  }

  function NextTrade(b: Book): (t: Trade)
    requires Valid(b) && Crossed(b)
  {
    var bid, ask := b.bids[0], b.asks[0];
    var price, quantity := ask.price, MatchQuantity(bid, ask);
    Trade(b, bid, ask, price, quantity, Execute(bid, price, quantity), Execute(ask, price, quantity))
  }

  lemma NextTradeIsFront(b: Book)
    requires Valid(b) && Crossed(b)
    ensures FrontTrade(NextTrade(b))
  {
  }

  /** One pass of the match loop. */
  function Pass(s: State): State
    requires Valid(s.book) && Crossed(s.book)
  {
    var t := NextTrade(s.book);
    State(Book(Settle(s.book.bids, t.bidAfter), Settle(s.book.asks, t.askAfter)), s.log + [t])
  }

  lemma PassKeepsValid(s: State)
    requires Valid(s.book) && Crossed(s.book)
    ensures Valid(Pass(s).book)
    ensures |Pass(s).book.bids| + |Pass(s).book.asks| < |s.book.bids| + |s.book.asks|
  {
    var b := s.book;
    var t := NextTrade(b);
    SettleKeeps(b.bids, t.bidAfter, Buy);
    SettleKeeps(b.asks, t.askAfter, Sell);
    SettleDistinct(b.bids, b.asks, t.bidAfter, t.askAfter);
    SettleDistinct(b.asks, b.bids, t.askAfter, t.bidAfter);
  }

  lemma SettleKeeps(s: seq<Order>, front: Order, side: Side)
    requires s != [] && Sorted(s) && Resting(s, side)
    requires front.arrival == s[0].arrival && front.price == s[0].price && front.side == s[0].side
    requires front.open >= 0 && front.executed >= 0
    ensures Sorted(Settle(s, front)) && Resting(Settle(s, front), side)
  {
  }

  lemma SettleDistinct(s: seq<Order>, t: seq<Order>, f: Order, g: Order)
    requires s != [] && t != [] && Distinct(s) && Apart(s, t)
    requires f.arrival == s[0].arrival && g.arrival == t[0].arrival
    ensures Distinct(Settle(s, f)) && Apart(Settle(s, f), Settle(t, g))
  {
  }

  /** The match loop. It ends, because every pass closes an order. */
  function Match(s: State): (r: State)
    requires Valid(s.book)
    ensures Valid(r.book) && !Crossed(r.book)
    ensures s.log <= r.log
    decreases |s.book.bids| + |s.book.asks|
  {
    if Crossed(s.book) then
      PassKeepsValid(s);
      Match(Pass(s))
    else s
  }

  // ----- placing an order

  lemma {:induction false} InsertMembers(s: seq<Order>, o: Order)
    ensures forall x :: x in Insert(s, o) <==> x in s || x == o
  {
    if s != [] && !(Rank(o) < Rank(s[0])) {
      InsertMembers(s[1..], o);
    }
  }

  /** r is s with o put in, behind all that are better and before the others. */
  ghost predicate Queued(s: seq<Order>, o: Order, r: seq<Order>, k: nat) {
    && k <= |s| && r == s[..k] + [o] + s[k..]
    && (forall i :: 0 <= i < k ==> Better(s[i], o)) && forall i :: k <= i < |s| ==> Better(o, s[i])
  }

  lemma {:induction false} InsertPlace(s: seq<Order>, o: Order) returns (k: nat)
    requires Sorted(s) && forall x :: x in s ==> x.arrival < o.arrival
    ensures Queued(s, o, Insert(s, o), k)
  {
    k := 0;
    if s != [] && !(Rank(o) < Rank(s[0])) {
      k := InsertPlace(s[1..], o);
      QueuedBehind(s, o, Insert(s[1..], o), k);
      k := k + 1;
    }
  }

  lemma QueuedBehind(s: seq<Order>, o: Order, r: seq<Order>, k: nat)
    requires s != [] && Better(s[0], o) && Queued(s[1..], o, r, k)
    ensures Queued(s, o, [s[0]] + r, k + 1)
  {
    assert s[..k + 1] == [s[0]] + s[1..][..k] && s[k + 1..] == s[1..][k..];
    assert forall i :: k + 1 <= i < |s| ==> s[i] == s[1..][i - 1];
    assert forall i :: 1 <= i < k + 1 ==> s[i] == s[1..][i - 1];
  }

  lemma QueuedKeeps(s: seq<Order>, o: Order, r: seq<Order>, k: nat)
    requires Sorted(s) && Resting(s, o.side) && o.open > 0 && o.executed >= 0 && Queued(s, o, r, k)
    ensures Sorted(r) && Resting(r, o.side)
  {
  }

  /** Arriving last, an order queues behind those of its own price; the others stay in their
      order. */
  lemma InsertKeeps(s: seq<Order>, o: Order)
    requires Sorted(s) && Resting(s, o.side) && o.open > 0 && o.executed >= 0
    requires forall x :: x in s ==> x.arrival < o.arrival
    ensures Sorted(Insert(s, o)) && Resting(Insert(s, o), o.side)
    ensures exists k :: Queued(s, o, Insert(s, o), k)
  {
    var k := InsertPlace(s, o);
    QueuedKeeps(s, o, Insert(s, o), k);
  }

  lemma {:induction false} InsertDistinct(s: seq<Order>, o: Order)
    requires Distinct(s) && forall x :: x in s ==> x.arrival != o.arrival
    ensures Distinct(Insert(s, o))
  {
    if s != [] && !(Rank(o) < Rank(s[0])) {
      InsertDistinct(s[1..], o);
      InsertMembers(s[1..], o);
      var r := Insert(s[1..], o);
      forall j | 0 <= j < |r|
        ensures r[j].arrival != s[0].arrival
      {
        assert r[j] in r;
      }
    }
  }

  /** No order of the book has an arrival number of n or more. */
  ghost predicate Before(b: Book, n: nat) {
    (forall x :: x in b.bids ==> x.arrival < n) && (forall x :: x in b.asks ==> x.arrival < n)
  }

  lemma ApartMembers(s: seq<Order>, t: seq<Order>)
    ensures Apart(s, t) <==> forall x, y :: x in s && y in t ==> x.arrival != y.arrival
  {
  }

  lemma PlaceKeepsValid(b: Book, o: Order, n: nat)
    requires Valid(b) && Before(b, n) && o.arrival == n && o.open > 0 && o.executed == 0
    ensures Valid(Place(b, o)) && Before(Place(b, o), n + 1)
  {
    var own := if o.side.Buy? then b.bids else b.asks;
    InsertKeeps(own, o);
    InsertMembers(own, o);
    InsertDistinct(own, o);
    ApartMembers(b.bids, b.asks);
    ApartMembers(Place(b, o).bids, Place(b, o).asks);
  }

  // ----- how much is executed

  function Traded(log: seq<Trade>): int {
    if log == [] then 0 else Traded(log[..|log| - 1]) + log[|log| - 1].quantity
  }

  predicate Compatible(o: Order, x: Order) {
    if o.side.Buy? then x.price <= o.price else o.price <= x.price
  }

  /** The open quantity, over the whole opposite side, that o could trade with. */
  function Available(o: Order, opposite: seq<Order>): int {
    if opposite == [] then 0
    else (if Compatible(o, opposite[0]) then opposite[0].open else 0) + Available(o, opposite[1..])
  }

  function Min(a: int, b: int): int {
    if a < b then a else b
  }

  lemma {:induction false} NoneAvailable(o: Order, opposite: seq<Order>, side: Side)
    requires Sorted(opposite) && Resting(opposite, side) && o.side != side
    requires opposite != [] ==> !Compatible(o, opposite[0])
    ensures Available(o, opposite) == 0
  {
    if |opposite| > 1 {
      assert Better(opposite[0], opposite[1]);
      NoneAvailable(o, opposite[1..], side);
    }
  }

  lemma AvailableSamePrice(o: Order, o': Order, opposite: seq<Order>)
    requires o.side == o'.side && o.price == o'.price
    ensures Available(o, opposite) == Available(o', opposite)
  {
  }

  lemma {:induction false} AvailableNonNegative(o: Order, opposite: seq<Order>, side: Side)
    requires Resting(opposite, side)
    ensures Available(o, opposite) >= 0
  {
    if opposite != [] {
      AvailableNonNegative(o, opposite[1..], side);
    }
  }

  /** The book without the front order of one side is uncrossed: only that order can trade. */
  lemma {:induction false} SweepAsks(s: State)
    requires Valid(s.book) && s.book.bids != []
    requires !Crossed(s.book.(bids := s.book.bids[1..]))
    ensures Traded(Match(s).log)
         == Traded(s.log) + Min(s.book.bids[0].open, Available(s.book.bids[0], s.book.asks))
    decreases |s.book.bids| + |s.book.asks|
  {
    var o, asks := s.book.bids[0], s.book.asks;
    if !Crossed(s.book) {
      NoneAvailable(o, asks, Sell);
    } else {
      PassKeepsValid(s);
      var next, t := Pass(s), NextTrade(s.book);
      var o', ask' := Execute(o, t.price, t.quantity), Execute(asks[0], t.price, t.quantity);
      assert next.log[..|next.log| - 1] == s.log;
      AvailableSamePrice(o, o', asks[1..]);
      AvailableNonNegative(o, asks[1..], Sell);
      if o'.open == 0 {
        assert next.book.bids == s.book.bids[1..];
        assert asks[1..] != [] ==> Better(asks[0], asks[1]);
        assert Match(next) == next;
      } else {
        assert next.book.asks == asks[1..] && next.book.bids[1..] == s.book.bids[1..];
        assert asks[1..] != [] ==> Better(asks[0], asks[1]);
        SweepAsks(next);
      }
    }
  }

  lemma {:induction false} SweepBids(s: State)
    requires Valid(s.book) && s.book.asks != []
    requires !Crossed(s.book.(asks := s.book.asks[1..]))
    ensures Traded(Match(s).log)
         == Traded(s.log) + Min(s.book.asks[0].open, Available(s.book.asks[0], s.book.bids))
    decreases |s.book.bids| + |s.book.asks|
  {
    var o, bids := s.book.asks[0], s.book.bids;
    if !Crossed(s.book) {
      NoneAvailable(o, bids, Buy);
    } else {
      PassKeepsValid(s);
      var next, t := Pass(s), NextTrade(s.book);
      var o', bid' := Execute(o, t.price, t.quantity), Execute(bids[0], t.price, t.quantity);
      assert next.log[..|next.log| - 1] == s.log;
      AvailableSamePrice(o, o', bids[1..]);
      AvailableNonNegative(o, bids[1..], Buy);
      assert bids[1..] != [] ==> Better(bids[0], bids[1]);
      if o'.open == 0 {
        assert next.book.asks == s.book.asks[1..];
        assert Match(next) == next;
      } else {
        assert next.book.bids == bids[1..] && next.book.asks[1..] == s.book.asks[1..];
        SweepBids(next);
      }
    }
  }

  /** An order placed in an uncrossed book trades exactly the smaller of its quantity and
      the open opposite quantity at compatible prices, and leaves the book uncrossed. */
  lemma ExecutesExactly(b: Book, o: Order, n: nat)
    requires Valid(b) && !Crossed(b) && Before(b, n) && o.arrival == n && o.open > 0 && o.executed == 0
    ensures Valid(Place(b, o)) && !Crossed(Match(State(Place(b, o), [])).book)
    ensures Traded(Match(State(Place(b, o), [])).log)
         == Min(o.open, Available(o, if o.side.Buy? then b.asks else b.bids))
  {
    PlaceKeepsValid(b, o, n);
    var s := State(Place(b, o), []);
    var own, opposite := if o.side.Buy? then b.bids else b.asks, if o.side.Buy? then b.asks else b.bids;
    if Crossed(s.book) {
      assert own != [] ==> Rank(o) < Rank(own[0]);
      assert Insert(own, o) == [o] + own;
      if o.side.Buy? {
        assert s.book.bids[1..] == b.bids;
        SweepAsks(s);
      } else {
        assert s.book.asks[1..] == b.asks;
        SweepBids(s);
      }
    } else {
      NoneAvailable(o, opposite, if o.side.Buy? then Sell else Buy);
    }
  }

  // ----- runs of orders and cancels

  /** The position of the first order with the given client id; |s| if there is none. */
  function FirstWith(s: seq<Order>, id: string): (i: nat)
    ensures i <= |s| && (i < |s| ==> s[i].clientId == id)
    ensures forall j :: 0 <= j < i ==> s[j].clientId != id
  {
    if s == [] || s[0].clientId == id then 0 else 1 + FirstWith(s[1..], id)
  }

  function CancelIn(b: Book, side: Side, id: string): Book {
    if side.Buy? then b.(bids := RemoveAt(b.bids, FirstWith(b.bids, id)))
    else b.(asks := RemoveAt(b.asks, FirstWith(b.asks, id)))
  }

  /** The book while an order is being canceled: closed, not yet erased. */
  function CloseAt(b: Book, side: Side, i: nat): Book
    requires i < |if side.Buy? then b.bids else b.asks|
  {
    if side.Buy? then b.(bids := b.bids[i := b.bids[i].(open := 0)])
    else b.(asks := b.asks[i := b.asks[i].(open := 0)])
  }

  lemma {:induction false} FirstWithIs(s: seq<Order>, id: string, i: nat)
    requires i <= |s| && (i < |s| ==> s[i].clientId == id)
    requires forall j :: 0 <= j < i ==> s[j].clientId != id
    ensures FirstWith(s, id) == i
  {
  }

  /** find and erase look for the same client id in the same order: what is erased is
      what was found, closed in the meantime. */
  lemma EraseFindsTheSame(b: Book, side: Side, id: string)
    requires FirstWith(if side.Buy? then b.bids else b.asks, id) < |if side.Buy? then b.bids else b.asks|
    ensures CancelIn(CloseAt(b, side, FirstWith(if side.Buy? then b.bids else b.asks, id)), side, id)
         == CancelIn(b, side, id)
  {
    var s := if side.Buy? then b.bids else b.asks;
    var i := FirstWith(s, id);
    FirstWithIs(s[i := s[i].(open := 0)], id, i);
  }

  datatype Event =
    | Submit(clientId: string, side: Side, price: real, quantity: int)
    | Cancel(side: Side, clientId: string)

  predicate Admissible(e: Event) {
    e.Submit? ==> e.quantity > 0
  }

  datatype System = System(state: State, next: nat)

  const EMPTY := System(State(Book([], []), []), 0)

  // ----- what holds of every reachable system

  function QuantityOf(log: seq<Trade>, arrival: nat): int {
    if log == [] then 0 else
      var t := log[|log| - 1];
      QuantityOf(log[..|log| - 1], arrival)
      + (if t.bid.arrival == arrival || t.ask.arrival == arrival then t.quantity else 0)
  }

  function ValueOf(log: seq<Trade>, arrival: nat): real {
    if log == [] then 0.0 else
      var t := log[|log| - 1];
      ValueOf(log[..|log| - 1], arrival)
      + (if t.bid.arrival == arrival || t.ask.arrival == arrival then (t.quantity as real) * t.price else 0.0)
  }

  /** A buyer pays its limit at most on average; a seller gets exactly its limit. */
  predicate WithinLimit(o: Order) {
    o.executed > 0 ==> if o.side.Buy? then o.avg <= o.price else o.avg == o.price
  }

  /** The order's own figures are those of the executions logged for it. */
  predicate Accounted(o: Order, log: seq<Trade>) {
    && o.open >= 0 && o.executed >= 0 && o.open + o.executed == o.quantity
    && o.executed == QuantityOf(log, o.arrival)
    && o.avg * (o.executed as real) == ValueOf(log, o.arrival)
    && WithinLimit(o)
  }

  predicate SameTerms(o: Order, p: Order) {
    o.arrival == p.arrival && o.clientId == p.clientId && o.side == p.side && o.price == p.price && o.quantity == p.quantity
  }

  /** What a trade does to one of its parties: it is the last execution, and the quantity is no
      longer open. */
  predicate PartyAfter(o: Order, t: Trade, x: Order) {
    && SameTerms(o, x) && x.lastPrice == t.price && x.lastQuantity == t.quantity
    && x.open == o.open - t.quantity && x.executed == o.executed + t.quantity
  }

  ghost predicate BestOf(o: Order, s: seq<Order>) {
    o in s && forall x :: x in s ==> x == o || Better(o, x)
  }

  /** Both parties were first in priority, at a price within both limits, and the figures
      of both are right afterwards. */
  ghost predicate SoundTrade(log: seq<Trade>, i: nat)
    requires i < |log|
  {
    var t := log[i];
    && BestOf(t.bid, t.book.bids) && BestOf(t.ask, t.book.asks)
    && t.ask.price == t.price <= t.bid.price
    && 0 < t.quantity == Min(t.bid.open, t.ask.open)
    && t.bid.executed >= 0 && t.ask.executed >= 0
    && PartyAfter(t.bid, t, t.bidAfter) && Accounted(t.bidAfter, log[..i + 1])
    && PartyAfter(t.ask, t, t.askAfter) && Accounted(t.askAfter, log[..i + 1])
  }

  ghost predicate LogBefore(log: seq<Trade>, n: nat) {
    forall i :: 0 <= i < |log| ==> log[i].bid.arrival < n && log[i].ask.arrival < n
  }

  ghost predicate Sound(s: State, n: nat) {
    && Valid(s.book) && Before(s.book, n) && LogBefore(s.log, n)
    && (forall o :: o in s.book.bids || o in s.book.asks ==> Accounted(o, s.log))
    && (forall i :: 0 <= i < |s.log| ==> SoundTrade(s.log, i))
  }

  lemma {:induction false} NothingLogged(log: seq<Trade>, n: nat)
    requires LogBefore(log, n)
    ensures QuantityOf(log, n) == 0 && ValueOf(log, n) == 0.0
  {
    if log != [] {
      NothingLogged(log[..|log| - 1], n);
    }
  }

  lemma AverageTimesQuantity(q: real, p: real, avg: real, e: real)
    requires q > 0.0 && e >= 0.0
    ensures (q * p + avg * e) / (q + e) * (q + e) == q * p + avg * e
  {
  }

  lemma RealProducts(f: real, a: real, b: real)
    requires f >= 0.0 && a <= b
    ensures f * a <= f * b
  {
  }

  lemma StrictProducts(f: real, a: real, b: real)
    requires f > 0.0 && a < b
    ensures f * a < b * f
  {
  }

  lemma DivideBelow(n: real, d: real, limit: real)
    requires d > 0.0 && n <= d * limit
    ensures n / d <= limit
  {
    var m := n / d;
    assert m * d == n;
    if m > limit {
      StrictProducts(d, limit, m);
    }
  }

  /** A weighted average stays within a bound on both of its terms. */
  lemma AverageBelow(q: real, p: real, avg: real, e: real, limit: real)
    requires q > 0.0 && e >= 0.0 && p <= limit && (e > 0.0 ==> avg <= limit)
    ensures (q * p + avg * e) / (q + e) <= limit
  {
    RealProducts(q, p, limit);
    if e > 0.0 {
      RealProducts(e, avg, limit);
    }
    DivideBelow(q * p + avg * e, q + e, limit);
  }

  lemma AverageExactly(q: real, p: real, e: real)
    requires q > 0.0 && e >= 0.0
    ensures (q * p + p * e) / (q + e) == p
  {
    assert q * p + p * e == p * (q + e);
  }

  /** The average that execute computes, against the value of the executions. */
  lemma NewAverage(side: Side, limit: real, avg: real, e: real, q: real, p: real)
    requires q > 0.0 && e >= 0.0
    requires if side.Buy? then p <= limit else p == limit
    requires e > 0.0 ==> if side.Buy? then avg <= limit else avg == limit
    ensures (q * p + avg * e) / (q + e) * (q + e) == avg * e + q * p
    ensures if side.Buy? then (q * p + avg * e) / (q + e) <= limit else (q * p + avg * e) / (q + e) == limit
  {
    AverageTimesQuantity(q, p, avg, e);
    if side.Buy? {
      AverageBelow(q, p, avg, e, limit);
    } else {
      assert avg * e == p * e;
      AverageExactly(q, p, e);
    }
  }

  lemma ExecutedFigures(o: Order, price: real, quantity: int)
    requires 0 < quantity && o.executed >= 0 && WithinLimit(o)
    requires if o.side.Buy? then price <= o.price else price == o.price
    ensures
      var x := Execute(o, price, quantity);
      x.avg * (x.executed as real) == o.avg * (o.executed as real) + (quantity as real) * price && WithinLimit(x)
  {
    assert (quantity + o.executed) as real == quantity as real + o.executed as real;
    NewAverage(o.side, o.price, o.avg, o.executed as real, quantity as real, price);
  }

  lemma LogOneMore(log: seq<Trade>, t: Trade, arrival: nat)
    requires t.bid.arrival == arrival || t.ask.arrival == arrival
    ensures QuantityOf(log + [t], arrival) == QuantityOf(log, arrival) + t.quantity
    ensures ValueOf(log + [t], arrival) == ValueOf(log, arrival) + (t.quantity as real) * t.price
  {
    assert (log + [t])[..|log|] == log;
  }

  lemma ExecutionAccounted(o: Order, log: seq<Trade>, t: Trade)
    requires Accounted(o, log) && 0 < t.quantity <= o.open
    requires t.bid.arrival == o.arrival || t.ask.arrival == o.arrival
    requires if o.side.Buy? then t.price <= o.price else t.price == o.price
    ensures Accounted(Execute(o, t.price, t.quantity), log + [t])
  {
    LogOneMore(log, t, o.arrival);
    ExecutedFigures(o, t.price, t.quantity);
  }

  lemma OthersUnaffected(o: Order, log: seq<Trade>, t: Trade)
    requires Accounted(o, log) && t.bid.arrival != o.arrival && t.ask.arrival != o.arrival
    ensures Accounted(o, log + [t])
  {
    assert (log + [t])[..|log|] == log;
  }

  lemma PassSound(s: State, n: nat)
    requires Sound(s, n) && Crossed(s.book)
    ensures Sound(Pass(s), n)
  {
    PassKeepsValid(s);
    var t, r := NextTrade(s.book), Pass(s);
    var bids, asks := s.book.bids, s.book.asks;
    assert bids[0] in bids && asks[0] in asks;
    ExecutionAccounted(t.bid, s.log, t);
    ExecutionAccounted(t.ask, s.log, t);
    forall o | o in r.book.bids || o in r.book.asks
      ensures Accounted(o, r.log)
    {
      if o != t.bidAfter && o != t.askAfter {
        assert o in bids[1..] || o in asks[1..];
        OthersUnaffected(o, s.log, t);
      }
    }
    forall i | 0 <= i < |r.log|
      ensures SoundTrade(r.log, i)
    {
      if i < |s.log| {
        assert SoundTrade(s.log, i);
        assert r.log[..i + 1] == s.log[..i + 1];
      } else {
        assert r.log[..i + 1] == r.log;
      }
    }
  }

  lemma {:induction false} MatchSound(s: State, n: nat)
    requires Sound(s, n)
    ensures Sound(Match(s), n)
    decreases |s.book.bids| + |s.book.asks|
  {
    if Crossed(s.book) {
      PassSound(s, n);
      PassKeepsValid(s);
      MatchSound(Pass(s), n);
    }
  }

  lemma PlaceSound(s: State, o: Order, n: nat)
    requires Sound(s, n) && o.quantity > 0 && o == NewOrder(n, o.clientId, o.side, o.price, o.quantity)
    ensures Sound(State(Place(s.book, o), s.log), n + 1)
  {
    PlaceKeepsValid(s.book, o, n);
    InsertMembers(if o.side.Buy? then s.book.bids else s.book.asks, o);
    NothingLogged(s.log, n);
  }

  lemma WithoutKeeps(s: seq<Order>, i: nat, side: Side)
    requires i <= |s| && Sorted(s) && Resting(s, side) && Distinct(s)
    ensures Sorted(RemoveAt(s, i)) && Resting(RemoveAt(s, i), side) && Distinct(RemoveAt(s, i))
    ensures forall x :: x in RemoveAt(s, i) ==> x in s
    ensures RemoveAt(s, i) != [] ==> RemoveAt(s, i)[0] == s[0] || Better(s[0], RemoveAt(s, i)[0])
  {
  }

  lemma CancelSound(s: State, side: Side, id: string, n: nat)
    requires Sound(s, n) && !Crossed(s.book)
    ensures Sound(State(CancelIn(s.book, side, id), s.log), n) && !Crossed(CancelIn(s.book, side, id))
  {
    var own := if side.Buy? then s.book.bids else s.book.asks;
    WithoutKeeps(own, FirstWith(own, id), side);
    ApartMembers(s.book.bids, s.book.asks);
    ApartMembers(CancelIn(s.book, side, id).bids, CancelIn(s.book, side, id).asks);
  }

  /** processOrder and processCancel. */
  function Step(s: System, e: Event): System
    requires Sound(s.state, s.next) && Admissible(e)
  {
    match e
    case Submit(clientId, side, price, quantity) =>
      var o := NewOrder(s.next, clientId, side, price, quantity);
      PlaceSound(s.state, o, s.next);
      System(Match(State(Place(s.state.book, o), s.state.log)), s.next + 1)
    case Cancel(side, clientId) =>
      System(State(CancelIn(s.state.book, side, clientId), s.state.log), s.next)
  }

  lemma StepSound(s: System, e: Event)
    requires Sound(s.state, s.next) && !Crossed(s.state.book) && Admissible(e)
    ensures Sound(Step(s, e).state, Step(s, e).next) && !Crossed(Step(s, e).state.book)
  {
    match e
    case Submit(clientId, side, price, quantity) =>
      var o := NewOrder(s.next, clientId, side, price, quantity);
      PlaceSound(s.state, o, s.next);
      MatchSound(State(Place(s.state.book, o), s.state.log), s.next + 1);
    case Cancel(side, clientId) =>
      CancelSound(s.state, side, clientId, s.next);
  }

  /** No bid reaches any ask. */
  ghost predicate Uncrossed(b: Book) {
    forall x, y :: x in b.bids && y in b.asks ==> x.price < y.price
  }

  /** It is enough to look at the two front orders. */
  lemma FrontsDecide(b: Book)
    requires Valid(b)
    ensures Uncrossed(b) <==> !Crossed(b)
  {
    if !Crossed(b) {
      forall x, y | x in b.bids && y in b.asks
        ensures x.price < y.price
      {
        assert x == b.bids[0] || Better(b.bids[0], x);
        assert y == b.asks[0] || Better(b.asks[0], y);
      }
    } else {
      assert b.bids[0] in b.bids && b.asks[0] in b.asks;
    }
  }

  /** Over every run of orders and cancels from the empty market: the book stays uncrossed
      and sorted; every trade was between the orders first in price-time priority, at a
      price within both limits; and every order's figures are those of its executions. */
  function Run(events: seq<Event>): (s: System)
    requires forall e :: e in events ==> Admissible(e)
    ensures Sound(s.state, s.next) && !Crossed(s.state.book) && Uncrossed(s.state.book)
  {
    if events == [] then EMPTY else
      var before := Run(events[..|events| - 1]);
      var e := events[|events| - 1];
      assert e in events;
      StepSound(before, e);
      FrontsDecide(Step(before, e).state.book);
      Step(before, e)
  }

  // ----- conservation

  function TotalOpen(s: seq<Order>): int {
    if s == [] then 0 else s[0].open + TotalOpen(s[1..])
  }

  lemma {:induction false} SettleTotal(s: seq<Order>, front: Order)
    requires s != []
    ensures TotalOpen(Settle(s, front)) == TotalOpen(s) - s[0].open + front.open
  {
    if front.open != 0 {
      assert ([front] + s[1..])[1..] == s[1..];
    }
  }

  /** Bids and asks give up equal quantities, and together what was traded. */
  lemma {:induction false} BothSidesExecuteEqually(s: State)
    requires Valid(s.book)
    ensures
      var r := Match(s);
      && TotalOpen(s.book.bids) - TotalOpen(r.book.bids) == Traded(r.log) - Traded(s.log)
      && TotalOpen(s.book.asks) - TotalOpen(r.book.asks) == Traded(r.log) - Traded(s.log)
    decreases |s.book.bids| + |s.book.asks|
  {
    if Crossed(s.book) {
      PassKeepsValid(s);
      var t := NextTrade(s.book);
      SettleTotal(s.book.bids, t.bidAfter);
      SettleTotal(s.book.asks, t.askAfter);
      assert Pass(s).log[..|s.log|] == s.log;
      BothSidesExecuteEqually(Pass(s));
    }
  }

  // ----- what the market reports

  /** The copies that the match loop queues: both parties, after the execution. */
  function Updates(log: seq<Trade>): seq<Order> {
    if log == [] then [] else
      Updates(log[..|log| - 1]) + [log[|log| - 1].bidAfter, log[|log| - 1].askAfter]
  }

  lemma UpdatesGrow(log: seq<Trade>, start: nat, t: Trade)
    requires start <= |log|
    ensures Updates((log + [t])[start..]) == Updates(log[start..]) + [t.bidAfter, t.askAfter]
  {
    assert (log + [t])[start..] == log[start..] + [t];
    assert (log[start..] + [t])[..|log| - start] == log[start..];
  }

  /** In the order of the trades, and of each trade the bid first. */
  lemma {:induction false} UpdatesAre(log: seq<Trade>)
    ensures |Updates(log)| == 2 * |log|
    ensures forall i :: 0 <= i < |log| ==>
      Updates(log)[2 * i] == log[i].bidAfter && Updates(log)[2 * i + 1] == log[i].askAfter
  {
    if log != [] {
      UpdatesAre(log[..|log| - 1]);
    }
  }
}
