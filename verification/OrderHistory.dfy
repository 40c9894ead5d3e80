/** What became of every order of a run: it is in the book with what is left of it, or filled,
    or canceled; and no trade passed over one that was still open. */
module OrderHistory {
  import opened Sequences
  import opened OrderBook

  // ----- the orders of a run

  ghost predicate AllAdmissible(events: seq<Event>) {
    forall e :: e in events ==> Admissible(e)
  }

  /** The orders submitted, by arrival number. */
  function Submitted(events: seq<Event>): seq<Order> {
    if events == [] then [] else
      var before := Submitted(events[..|events| - 1]);
      match events[|events| - 1]
      case Submit(clientId, side, price, quantity) => before + [NewOrder(|before|, clientId, side, price, quantity)]
      case Cancel(_, _) => before
  }

  /** The n-th order submitted is what the event at k asked for, and nothing of it is executed. */
  predicate OrderOf(events: seq<Event>, k: nat, n: nat)
    requires k < |events| && events[k].Submit? && n < |Submitted(events)|
  {
    var e, o := events[k], Submitted(events)[n];
    && o.arrival == n && o.clientId == e.clientId && o.side == e.side && o.price == e.price
    && o.quantity == e.quantity == o.open && o.executed == 0
  }

  /** Every submit makes an order: its number is how many submits came before. */
  lemma {:induction false} SubmitMakes(events: seq<Event>, k: nat)
    requires k < |events| && events[k].Submit?
    ensures |Submitted(events[..k])| < |Submitted(events)| && OrderOf(events, k, |Submitted(events[..k])|)
  {
    var init := events[..|events| - 1];
    if k < |init| {
      SubmitMakes(init, k);
      assert init[..k] == events[..k];
    }
  }

  /** And every order was submitted. */
  lemma {:induction false} MadeBySubmit(events: seq<Event>, n: nat) returns (k: nat)
    requires n < |Submitted(events)|
    ensures k < |events| && events[k].Submit? && |Submitted(events[..k])| == n && OrderOf(events, k, n)
  {
    var init := events[..|events| - 1];
    if n < |Submitted(init)| {
      k := MadeBySubmit(init, n);
      assert init[..k] == events[..k];
    } else {
      k := |init|;
    }
  }

  /** The arrival numbers of the orders that were canceled. */
  function Canceled(events: seq<Event>): set<nat>
    requires AllAdmissible(events)
  {
    if events == [] then {} else
      var init := events[..|events| - 1];
      match events[|events| - 1]
      case Submit(_, _, _, _) => Canceled(init)
      case Cancel(side, clientId) => Canceled(init) + CanceledBy(Run(init).state.book, side, clientId)
  }

  function SideOf(b: Book, side: Side): seq<Order> {
    if side.Buy? then b.bids else b.asks
  }

  function CanceledBy(b: Book, side: Side, clientId: string): set<nat> {
    var s := SideOf(b, side);
    var i := FirstWith(s, clientId);
    if i < |s| then {s[i].arrival} else {}
  }

  // ----- what became of them

  /** What the executions have left of an order. */
  function LeftOf(p: Order, log: seq<Trade>): int {
    p.quantity - QuantityOf(log, p.arrival)
  }

  ghost predicate InBook(s: seq<Order>, p: Order, open: int) {
    exists o :: o in s && SameTerms(o, p) && o.open == open
  }

  ghost predicate Settled(s: State, p: Order, canceled: set<nat>) {
    p.arrival in canceled || LeftOf(p, s.log) == 0 || InBook(SideOf(s.book, p.side), p, LeftOf(p, s.log))
  }

  ghost predicate Known(o: Order, orders: seq<Order>, canceled: set<nat>) {
    o.arrival < |orders| && SameTerms(o, orders[o.arrival]) && o.arrival !in canceled
  }

  /** Every order is canceled, filled, or in the book with what is left of it; and the book
      holds no others. */
  ghost predicate Complete(s: State, orders: seq<Order>, canceled: set<nat>) {
    && (forall n :: 0 <= n < |orders| ==> orders[n].arrival == n)
    && (forall n :: n in canceled ==> n < |orders|)
    && (forall n :: 0 <= n < |orders| ==> Settled(s, orders[n], canceled))
    && (forall o :: o in s.book.bids || o in s.book.asks ==> Known(o, orders, canceled))
  }

  /** The two parties of a pass. */
  lemma PartySettled(s: State, r: State, t: Trade, side: Side, orders: seq<Order>, canceled: set<nat>, n: nat)
    requires Sound(s, |orders|) && Crossed(s.book) && Complete(s, orders, canceled) && n < |orders|
    requires r == Pass(s) && t == NextTrade(s.book) && Sound(r, |orders|)
    requires n == if side.Buy? then t.bid.arrival else t.ask.arrival
    ensures Settled(r, orders[n], canceled)
  {
    var x, y := if side.Buy? then t.bid else t.ask, if side.Buy? then t.bidAfter else t.askAfter;
    assert x in SideOf(s.book, side) && Known(x, orders, canceled);
    assert SoundTrade(r.log, |s.log|) && r.log[..|s.log| + 1] == r.log;
    assert Accounted(y, r.log) && SameTerms(y, orders[n]);
    if y.open != 0 {
      assert y in SideOf(r.book, side);
    }
  }

  lemma OtherSettled(s: State, r: State, t: Trade, p: Order, canceled: set<nat>)
    requires Valid(s.book) && Crossed(s.book) && r == Pass(s) && t == NextTrade(s.book)
    requires p.arrival != t.bid.arrival && p.arrival != t.ask.arrival && Settled(s, p, canceled)
    ensures Settled(r, p, canceled)
  {
    assert r.log[..|s.log|] == s.log;
    assert QuantityOf(r.log, p.arrival) == QuantityOf(s.log, p.arrival);
    if InBook(SideOf(s.book, p.side), p, LeftOf(p, s.log)) {
      var o :| o in SideOf(s.book, p.side) && SameTerms(o, p) && o.open == LeftOf(p, s.log);
      assert o in SideOf(r.book, p.side);
    }
  }

  lemma PassComplete(s: State, orders: seq<Order>, canceled: set<nat>)
    requires Sound(s, |orders|) && Crossed(s.book) && Complete(s, orders, canceled)
    ensures Complete(Pass(s), orders, canceled)
  {
    var r, t := Pass(s), NextTrade(s.book);
    PassSound(s, |orders|);
    forall n | 0 <= n < |orders|
      ensures Settled(r, orders[n], canceled)
    {
      if n == t.bid.arrival {
        PartySettled(s, r, t, Buy, orders, canceled, n);
      } else if n == t.ask.arrival {
        PartySettled(s, r, t, Sell, orders, canceled, n);
      } else {
        assert Settled(s, orders[n], canceled);
        OtherSettled(s, r, t, orders[n], canceled);
      }
    }
    KnownAfterPass(s, orders, canceled);
  }

  lemma KnownAfterPass(s: State, orders: seq<Order>, canceled: set<nat>)
    requires Valid(s.book) && Crossed(s.book)
    requires forall o :: o in s.book.bids || o in s.book.asks ==> Known(o, orders, canceled)
    ensures forall o :: o in Pass(s).book.bids || o in Pass(s).book.asks ==> Known(o, orders, canceled)
  {
    var t := NextTrade(s.book);
    assert t.bid in s.book.bids && t.ask in s.book.asks;
    forall o | o in Pass(s).book.bids || o in Pass(s).book.asks
      ensures Known(o, orders, canceled)
    {
      if o != t.bidAfter && o != t.askAfter {
        assert o in s.book.bids || o in s.book.asks;
      }
    }
  }

  /** The book of every trade of the loop is complete, as is the book that it leaves. */
  ghost predicate TradesComplete(log: seq<Trade>, start: nat, orders: seq<Order>, canceled: set<nat>) {
    forall i :: start <= i < |log| ==> Valid(log[i].book) && Complete(State(log[i].book, log[..i]), orders, canceled)
  }

  lemma {:induction false} MatchComplete(s: State, orders: seq<Order>, canceled: set<nat>)
    requires Sound(s, |orders|) && Complete(s, orders, canceled)
    ensures Complete(Match(s), orders, canceled)
    ensures TradesComplete(Match(s).log, |s.log|, orders, canceled)
    decreases |s.book.bids| + |s.book.asks|
  {
    if Crossed(s.book) {
      var r := Pass(s);
      PassSound(s, |orders|);
      PassKeepsValid(s);
      PassComplete(s, orders, canceled);
      MatchComplete(r, orders, canceled);
      FirstComplete(s, r, Match(r).log, orders, canceled);
    }
  }

  /** One trade more at the front. */
  lemma FirstComplete(s: State, r: State, log: seq<Trade>, orders: seq<Order>, canceled: set<nat>)
    requires Valid(s.book) && Crossed(s.book) && r == Pass(s) && r.log <= log
    requires Complete(s, orders, canceled) && TradesComplete(log, |r.log|, orders, canceled)
    ensures TradesComplete(log, |s.log|, orders, canceled)
  {
    assert log[|s.log|] == r.log[|s.log|] && log[..|s.log|] == s.log;
  }

  lemma PlaceComplete(s: State, orders: seq<Order>, canceled: set<nat>, o: Order)
    requires Sound(s, |orders|) && Complete(s, orders, canceled)
    requires o == NewOrder(|orders|, o.clientId, o.side, o.price, o.quantity)
    ensures Complete(State(Place(s.book, o), s.log), orders + [o], canceled)
  {
    var r, after := State(Place(s.book, o), s.log), orders + [o];
    InsertMembers(SideOf(s.book, o.side), o);
    NothingLogged(s.log, |orders|);
    forall n | 0 <= n < |after|
      ensures Settled(r, after[n], canceled)
    {
      if n == |orders| {
        assert o in SideOf(r.book, o.side);
      } else {
        assert Settled(s, orders[n], canceled);
        StillInBook(s.book, r.book, orders[n], LeftOf(orders[n], s.log));
      }
    }
    forall x | x in r.book.bids || x in r.book.asks
      ensures Known(x, after, canceled)
    {
      assert x == o || Known(x, orders, canceled);
    }
  }

  lemma StillInBook(b: Book, c: Book, p: Order, open: int)
    requires forall o :: o in SideOf(b, p.side) ==> o in SideOf(c, p.side)
    ensures InBook(SideOf(b, p.side), p, open) ==> InBook(SideOf(c, p.side), p, open)
  {
  }

  lemma CancelComplete(s: State, orders: seq<Order>, canceled: set<nat>, side: Side, clientId: string)
    requires Sound(s, |orders|) && Complete(s, orders, canceled)
    ensures Complete(State(CancelIn(s.book, side, clientId), s.log), orders, canceled + CanceledBy(s.book, side, clientId))
  {
    var own := SideOf(s.book, side);
    var i := FirstWith(own, clientId);
    if i < |own| {
      assert own[i] in own && Known(own[i], orders, canceled);
      var r, after := State(CancelIn(s.book, side, clientId), s.log), canceled + {own[i].arrival};
      forall n | 0 <= n < |orders|
        ensures Settled(r, orders[n], after)
      {
        assert Settled(s, orders[n], canceled);
        if n != own[i].arrival {
          OthersStay(s.book, side, i, orders[n], LeftOf(orders[n], s.log));
        }
      }
      forall o | o in r.book.bids || o in r.book.asks
        ensures Known(o, orders, after)
      {
        OnlyOneGone(s.book, side, i, o);
        assert Known(o, orders, canceled);
      }
    }
  }

  lemma OthersStay(b: Book, side: Side, i: nat, p: Order, open: int)
    requires i < |SideOf(b, side)| && p.arrival != SideOf(b, side)[i].arrival
    ensures InBook(SideOf(b, p.side), p, open) ==>
      InBook(if p.side == side then RemoveAt(SideOf(b, side), i) else SideOf(b, p.side), p, open)
  {
    if InBook(SideOf(b, p.side), p, open) {
      var o :| o in SideOf(b, p.side) && SameTerms(o, p) && o.open == open;
      assert p.side == side ==> o in RemoveAt(SideOf(b, side), i);
    }
  }

  /** The order that is taken out is the only one with its arrival number. */
  lemma OnlyOneGone(b: Book, side: Side, i: nat, o: Order)
    requires Valid(b) && i < |SideOf(b, side)|
    requires o in RemoveAt(SideOf(b, side), i) || o in SideOf(b, if side.Buy? then Sell else Buy)
    ensures o in b.bids || o in b.asks
    ensures o.arrival != SideOf(b, side)[i].arrival
  {
    ApartMembers(b.bids, b.asks);
  }

  // ----- over whole runs

  lemma EventsBefore(events: seq<Event>)
    requires AllAdmissible(events) && events != []
    ensures AllAdmissible(events[..|events| - 1]) && Admissible(events[|events| - 1])
  {
    assert events[|events| - 1] in events;
  }

  /** After every run each order submitted is canceled, filled, or in the book with what is
      left of it, and the book holds no others. */
  lemma {:induction false} RunComplete(events: seq<Event>)
    requires AllAdmissible(events)
    ensures |Submitted(events)| == Run(events).next
    ensures Complete(Run(events).state, Submitted(events), Canceled(events))
  {
    if events != [] {
      EventsBefore(events);
      var init, e := events[..|events| - 1], events[|events| - 1];
      RunComplete(init);
      StepComplete(Run(init), e, Submitted(init), Canceled(init));
    }
  }

  lemma StepComplete(s: System, e: Event, orders: seq<Order>, canceled: set<nat>)
    requires Sound(s.state, s.next) && Admissible(e) && |orders| == s.next && Complete(s.state, orders, canceled)
    ensures s.state.log <= Step(s, e).state.log && (e.Cancel? ==> Step(s, e).state.log == s.state.log)
    ensures
      match e
      case Submit(clientId, side, price, quantity) =>
        var after := orders + [NewOrder(s.next, clientId, side, price, quantity)];
        && Complete(Step(s, e).state, after, canceled)
        && TradesComplete(Step(s, e).state.log, |s.state.log|, after, canceled)
      case Cancel(side, clientId) =>
        Complete(Step(s, e).state, orders, canceled + CanceledBy(s.state.book, side, clientId))
  {
    match e
    case Submit(clientId, side, price, quantity) =>
      var o := NewOrder(s.next, clientId, side, price, quantity);
      PlaceSound(s.state, o, s.next);
      PlaceComplete(s.state, orders, canceled, o);
      MatchComplete(State(Place(s.state.book, o), s.state.log), orders + [o], canceled);
    case Cancel(side, clientId) =>
      CancelComplete(s.state, orders, canceled, side, clientId);
  }

  /** The event at k made the i-th trade: the run up to it had fewer trades, the run with it
      has that one. */
  ghost predicate MadeBy(events: seq<Event>, i: nat, k: nat) {
    && k < |events| && events[k].Submit? && AllAdmissible(events[..k]) && AllAdmissible(events[..k + 1])
    && |Run(events[..k]).state.log| <= i < |Run(events[..k + 1]).state.log|
  }

  /** It did so from a complete book. */
  ghost predicate MadeAt(events: seq<Event>, log: seq<Trade>, i: nat, k: nat)
    requires AllAdmissible(events) && i < |log|
  {
    MadeBy(events, i, k) && Run(events[..k + 1]).state.log <= log && FromComplete(log, i, events[..k + 1])
  }

  ghost predicate FromComplete(log: seq<Trade>, i: nat, events: seq<Event>)
    requires AllAdmissible(events) && i < |log|
  {
    Valid(log[i].book) && Complete(State(log[i].book, log[..i]), Submitted(events), Canceled(events))
  }

  lemma {:induction false} TradeMadeAt(events: seq<Event>, i: nat) returns (k: nat)
    requires AllAdmissible(events) && i < |Run(events).state.log|
    ensures MadeAt(events, Run(events).state.log, i, k)
  {
    EventsBefore(events);
    var init := events[..|events| - 1];
    LogGrows(events);
    if i < |Run(init).state.log| {
      k := TradeMadeAt(init, i);
      EarlierTrade(events, Run(init).state.log, Run(events).state.log, i, k);
    } else {
      k := |events| - 1;
      LatestComplete(events, i);
      assert events[..k + 1] == events;
      LatestTrade(events, events, Run(events).state.log, i, k);
    }
  }

  lemma LogGrows(events: seq<Event>)
    requires AllAdmissible(events) && events != [] && AllAdmissible(events[..|events| - 1])
    ensures Run(events[..|events| - 1]).state.log <= Run(events).state.log
  {
    var init := events[..|events| - 1];
    EventsBefore(events);
    RunComplete(init);
    StepComplete(Run(init), events[|events| - 1], Submitted(init), Canceled(init));
  }

  lemma LatestTrade(events: seq<Event>, upTo: seq<Event>, log: seq<Trade>, i: nat, k: nat)
    requires AllAdmissible(events) && k + 1 == |events| && upTo == events[..k + 1] && AllAdmissible(events[..k])
    requires AllAdmissible(upTo) && log == Run(upTo).state.log && |Run(events[..k]).state.log| <= i < |log|
    requires events[k].Submit? && FromComplete(log, i, upTo)
    ensures MadeAt(events, log, i, k)
  {
  }

  lemma LatestComplete(events: seq<Event>, i: nat)
    requires AllAdmissible(events) && events != [] && AllAdmissible(events[..|events| - 1])
    requires |Run(events[..|events| - 1]).state.log| <= i < |Run(events).state.log|
    ensures events[|events| - 1].Submit? && FromComplete(Run(events).state.log, i, events)
  {
    var init := events[..|events| - 1];
    EventsBefore(events);
    RunComplete(init);
    StepComplete(Run(init), events[|events| - 1], Submitted(init), Canceled(init));
  }

  lemma EarlierTrade(events: seq<Event>, log: seq<Trade>, after: seq<Trade>, i: nat, k: nat)
    requires AllAdmissible(events) && events != [] && AllAdmissible(events[..|events| - 1])
    requires i < |log| && log <= after && MadeAt(events[..|events| - 1], log, i, k)
    ensures MadeAt(events, after, i, k)
  {
    var init := events[..|events| - 1];
    assert events[..k + 1] == init[..k + 1] && events[..k] == init[..k];
    SameTrade(log, after, i, init[..k + 1]);
  }

  lemma SameTrade(log: seq<Trade>, after: seq<Trade>, i: nat, events: seq<Event>)
    requires AllAdmissible(events) && i < |log| && log <= after && FromComplete(log, i, events)
    ensures FromComplete(after, i, events)
  {
    assert after[..i] == log[..i];
  }

  /** Every order of the side that is still open has a worse price, or the same price and
      arrived later. */
  ghost predicate FirstOfAll(o: Order, log: seq<Trade>, orders: seq<Order>, canceled: set<nat>) {
    forall n :: 0 <= n < |orders| && orders[n].side == o.side && n != o.arrival
                && n !in canceled && LeftOf(orders[n], log) > 0 ==>
      (if o.side.Buy? then orders[n].price < o.price else o.price < orders[n].price)
      || (orders[n].price == o.price && o.arrival < n)
  }

  lemma BestIsFirst(o: Order, s: State, orders: seq<Order>, canceled: set<nat>)
    requires Complete(s, orders, canceled) && BestOf(o, SideOf(s.book, o.side))
    ensures FirstOfAll(o, s.log, orders, canceled)
  {
    forall n | 0 <= n < |orders| && orders[n].side == o.side && n != o.arrival
               && n !in canceled && LeftOf(orders[n], s.log) > 0
      ensures (if o.side.Buy? then orders[n].price < o.price else o.price < orders[n].price)
        || (orders[n].price == o.price && o.arrival < n)
    {
      assert Settled(s, orders[n], canceled);
      var x :| x in SideOf(s.book, o.side) && SameTerms(x, orders[n]) && x.open == LeftOf(orders[n], s.log);
    }
  }

  /** Price-time priority over the whole run: at every trade, which the event at k made, each
      party comes before every other order of its side that was submitted by then, not canceled
      by then, and not yet filled. */
  lemma PriorityOverRun(events: seq<Event>, i: nat) returns (k: nat)
    requires AllAdmissible(events) && i < |Run(events).state.log|
    ensures MadeBy(events, i, k) && Run(events[..k + 1]).state.log <= Run(events).state.log
    ensures
      var log := Run(events).state.log;
      var orders, canceled := Submitted(events[..k + 1]), Canceled(events[..k + 1]);
      && Known(log[i].bid, orders, canceled) && FirstOfAll(log[i].bid, log[..i], orders, canceled)
      && Known(log[i].ask, orders, canceled) && FirstOfAll(log[i].ask, log[..i], orders, canceled)
  {
    k := TradeMadeAt(events, i);
    var log := Run(events).state.log;
    var s := State(log[i].book, log[..i]);
    assert SoundTrade(log, i);
    assert log[i].bid.side.Buy? && log[i].ask.side.Sell?;
    BestIsFirst(log[i].bid, s, Submitted(events[..k + 1]), Canceled(events[..k + 1]));
    BestIsFirst(log[i].ask, s, Submitted(events[..k + 1]), Canceled(events[..k + 1]));
  }
}
