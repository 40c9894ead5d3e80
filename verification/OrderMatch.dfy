/** The order-matching application: submits and cancels, and what it reports. */
module OrderMatch {
  import B = OrderBook
  import M = Market

  datatype Status = New | PartiallyFilled | Filled | Canceled

  /** An execution report: the order's figures at the time, and its status. */
  datatype Report = Report(order: B.Order, status: Status)

  function FillReport(o: B.Order): Report {
    Report(o, if o.quantity == o.executed then Filled else PartiallyFilled)
  }

  function FillReports(s: seq<B.Order>): (r: seq<Report>)
    ensures |r| == |s|
  {
    seq(|s|, i requires 0 <= i < |s| => FillReport(s[i]))
  }

  /** The report of a trade to one of its parties: the terms of the trade, what is left of the
      order, and filled exactly when nothing is. */
  predicate ReportsTrade(r: Report, party: B.Order, t: B.Trade) {
    && B.PartyAfter(party, t, r.order)
    && r.status == if r.order.open == 0 then Filled else PartiallyFilled
  }

  /** After start reports, each trade from the first on is reported to the bid, then to the ask. */
  ghost predicate TradesReported(reports: seq<Report>, start: nat, log: seq<B.Trade>, first: nat) {
    && first <= |log| && |reports| == start + 2 * (|log| - first)
    && forall i :: first <= i < |log| ==>
      && ReportsTrade(reports[start + 2 * (i - first)], log[i].bid, log[i])
      && ReportsTrade(reports[start + 2 * (i - first) + 1], log[i].ask, log[i])
  }

  lemma FillReportsAre(before: seq<Report>, log: seq<B.Trade>, first: nat)
    requires first <= |log| && forall i :: 0 <= i < |log| ==> B.SoundTrade(log, i)
    ensures TradesReported(before + FillReports(B.Updates(log[first..])), |before|, log, first)
  {
    var updates := B.Updates(log[first..]);
    B.UpdatesAre(log[first..]);
    forall i | first <= i < |log|
      ensures ReportsTrade(FillReports(updates)[2 * (i - first)], log[i].bid, log[i])
      ensures ReportsTrade(FillReports(updates)[2 * (i - first) + 1], log[i].ask, log[i])
    {
      assert B.SoundTrade(log, i) && log[first..][i - first] == log[i];
    }
  }

  class Application {
    const market: M.Market
    var next: nat
    var reports: seq<Report>

    ghost function System(): B.System
      reads this, market, market.bids, market.asks
    {
      B.System(market.State(), next)
    }

    /** The invariant of every run of orders and cancels. */
    ghost predicate Valid()
      reads this, market, market.bids, market.asks
    {
      market.Valid() && B.Sound(System().state, next) && !B.Crossed(market.Book())
    }

    constructor ()
      ensures Valid() && System() == B.EMPTY && reports == []
      ensures fresh(market) && market.Objects() == {}
    {
      market := new M.Market();
      next, reports := 0, [];
    }

    /** processOrder: the order is accepted, matched, and every queued copy reported. */
    method ProcessOrder(clientId: string, side: B.Side, price: real, quantity: int)
      requires Valid() && quantity > 0
      modifies this, market, market.Objects()
      ensures Valid() && System() == B.Step(old(System()), B.Submit(clientId, side, price, quantity))
      ensures old(market.log) <= market.log
      ensures old(reports) + [Report(B.Order(old(next), clientId, side, price, quantity,
        quantity, 0, 0.0, 0.0, 0), New)] <= reports
      ensures TradesReported(reports, |old(reports)| + 1, market.log, |old(market.log)|)
    {
      ghost var before, e := System(), B.Submit(clientId, side, price, quantity);
      B.StepSound(before, e);
      var order := B.NewOrder(next, clientId, side, price, quantity);
      B.PlaceSound(before.state, order, before.next);
      ghost var placed := B.State(B.Place(before.state.book, order), before.state.log);
      assert B.Valid(placed.book);
      var orders := AcceptAndMatch(order, placed);
      ghost var after := market.State();
      ReportTrades(orders, market.log, |before.state.log|);
      next := next + 1;
      assert market.State() == after;
      assert System() == B.Step(before, e);
    }

    method AcceptAndMatch(order: B.Order, ghost placed: B.State) returns (orders: seq<B.Order>)
      requires market.Valid() && B.Valid(placed.book)
      requires placed == B.State(B.Place(market.Book(), order), market.log)
      modifies `reports, market, market.Objects()
      ensures market.Valid() && market.State() == B.Match(placed)
      ensures placed.log <= market.log && orders == B.Updates(market.log[|placed.log|..])
      ensures reports == old(reports) + [Report(order, New)]
    {
      reports := reports + [Report(order, New)];
      market.Insert(order);
      assert market.State() == placed;
      var any;
      orders, any := market.Match([]);
    }

    /** The loop that empties the queue. */
    method Drain(queue: seq<B.Order>)
      modifies `reports
      ensures reports == old(reports) + FillReports(queue)
    {
      var orders := queue;
      while orders != []
        invariant reports + FillReports(orders) == old(reports) + FillReports(queue)
        decreases |orders|
      {
        assert FillReports(orders) == [FillReport(orders[0])] + FillReports(orders[1..]);
        reports := reports + [FillReport(orders[0])];
        orders := orders[1..];
      }
    }

    method ReportTrades(queue: seq<B.Order>, ghost log: seq<B.Trade>, ghost first: nat)
      requires first <= |log| && queue == B.Updates(log[first..])
      requires forall i :: 0 <= i < |log| ==> B.SoundTrade(log, i)
      modifies `reports
      ensures old(reports) <= reports && TradesReported(reports, |old(reports)|, log, first)
    {
      FillReportsAre(reports, log, first);
      Drain(queue);
    }

    /** processCancel: the order that find returns is closed, reported and erased; when
        there is none, nothing happens. */
    method ProcessCancel(clientId: string, side: B.Side)
      requires Valid()
      modifies this, market, market.Objects()
      ensures Valid() && System() == B.Step(old(System()), B.Cancel(side, clientId))
      ensures
        var s := if side.Buy? then old(market.Book()).bids else old(market.Book()).asks;
        var i := B.FirstWith(s, clientId);
        reports == old(reports) + (if i < |s| then [Report(s[i].(open := 0), Canceled)] else [])
    {
      B.StepSound(System(), B.Cancel(side, clientId));
      CancelAndErase(clientId, side);
    }

    method CancelAndErase(clientId: string, side: B.Side)
      requires market.Valid()
      requires B.Resting(market.Book().bids, B.Buy) && B.Resting(market.Book().asks, B.Sell)
      modifies `reports, market`bids, market`asks, market.Objects()
      ensures market.Valid() && market.Book() == B.CancelIn(old(market.Book()), side, clientId)
      ensures
        var s := if side.Buy? then old(market.Book()).bids else old(market.Book()).asks;
        var i := B.FirstWith(s, clientId);
        reports == old(reports) + (if i < |s| then [Report(s[i].(open := 0), Canceled)] else [])
    {
      ghost var before := market.Book();
      var order := market.Find(side, clientId);
      if order != null {
        ghost var i := B.FirstWith(if side.Buy? then before.bids else before.asks, clientId);
        B.EraseFindsTheSame(before, side, clientId);
        CancelFound(order, side, clientId, i);
      }
    }

    method CancelFound(order: M.Order, side: B.Side, ghost clientId: string, ghost i: nat)
      requires market.Valid() && i < |if side.Buy? then market.bids else market.asks|
      requires order == (if side.Buy? then market.bids else market.asks)[i]
      requires order.side == side && order.clientId == clientId
      modifies `reports, market`bids, market`asks, order
      ensures market.Valid()
      ensures market.Book() == B.CancelIn(B.CloseAt(old(market.Book()), side, i), side, clientId)
      ensures reports == old(reports) + [Report(old(order.Value()).(open := 0), Canceled)]
    {
      market.Close(order, side, i);
      reports := reports + [Report(order.Value(), Canceled)];
      market.Erase(order);
    }
  }
}
