/**
  One quoting turn (`send_messages`): cancel every open order, then place one
  buy and one sell per product around the mid price, with fresh order ids.
 */
module Quoting {
  import opened Base
  import opened Dicts
  import opened Rounding
  import opened Pricing
  import opened Algorithm

  /** A new order and the counter value after it. */
  datatype Created = Created(order: Order, next: int)

  /** `create_order`: the order takes the counter's current value as its id; the counter moves on by one. */
  function CreateOrder(name: string, idx: int, ticker: string, size: int, price: real, dir: Direction): (c: Created)
    ensures c.order.orderId == idx && c.next == idx + 1
    ensures c.order.ticker == ticker && c.order.size == size && c.order.price == price
    ensures c.order.aggDir == dir && c.order.botName == name
  {
    Created(Order(ticker, price, size, idx, dir, name), idx + 1)
  }

  /** `remove_order`: the REMOVE message for an order id. */
  function RemoveOrder(id: int): Msg {
    RemoveMsg(id)
  }

  /** Cancellation messages and what is left open. */
  datatype Cancelled = Cancelled(msgs: seq<Msg>, open: Dict<int, Resting>)

  /** The cancel loop over a snapshot of ids: one REMOVE per id, in order, each id deleted from the open orders. */
  function CancelEach(ids: seq<int>, open: Dict<int, Resting>): (c: Cancelled)
    ensures |c.msgs| == |ids|
    ensures forall i :: 0 <= i < |ids| ==> c.msgs[i] == RemoveMsg(ids[i])
    ensures c.open == Without(open, set i | i in ids)
  {
    if ids == [] then
      assert (set i | i in ids) == {};
      WithoutAbsent(open, {});
      Cancelled([], open)
    else
      var rest := CancelEach(ids[1..], Remove(open, ids[0]));
      assert rest.open == Without(open, set i | i in ids) by {
        WithoutWithout(open, {ids[0]}, set i | i in ids[1..]);
        assert {ids[0]} + (set i | i in ids[1..]) == set i | i in ids;
      }
      Cancelled([RemoveOrder(ids[0])] + rest.msgs, rest.open)
  }

  /** One REMOVE per open order, in insertion order. */
  function Removals(open: Dict<int, Resting>): seq<Msg> {
    seq(|open|, i requires 0 <= i < |open| => RemoveMsg(open[i].0))
  }

  /** Lines 148-150: every open order is cancelled, in insertion order, and none is left. */
  function CancelAll(open: Dict<int, Resting>): (c: Cancelled)
    ensures c.open == []
    ensures c.msgs == Removals(open)
  {
    var c := CancelEach(Keys(open), open);
    assert forall i :: 0 <= i < |open| ==> c.msgs[i] == Removals(open)[i];
    forall i | 0 <= i < |open| ensures open[i].0 in set i | i in Keys(open) {
      assert Keys(open)[i] == open[i].0;
    }
    WithoutAll(open, set i | i in Keys(open));
    c
  }

  /** The quote for one ticker, from the book, the position and the configuration. */
  function QuoteFor(cfg: Config, position: map<string, int>, book: Book, ticker: string): Quote {
    var mid := MidPrice(BidsOf(book, ticker), AsksOf(book, ticker), cfg.params.defaultPrice);
    MakeQuote(cfg.params, mid, PositionOf(position, ticker), LimitFor(cfg, ticker), TickFor(cfg, ticker))
  }

  /** The per-ticker pricing of one turn, fixed for the whole product loop. */
  function Pricer(cfg: Config, position: map<string, int>, book: Book): string -> Quote {
    t => QuoteFor(cfg, position, book, t)
  }

  /**
    Reference for the k-th order of a turn that starts at id `idx`: product k / 2,
    the buy at even k and the sell at odd k, with id idx + k.
   */
  function ExpectedOrder(name: string, quote: string -> Quote, ps: seq<Product>, idx: int, k: int): Order
    requires 0 <= k < 2 * |ps|
  {
    var p := ps[k / 2];
    var q := quote(p.ticker);
    if k % 2 == 0 then Order(p.ticker, q.buy, q.size, idx + k, Buy, name)
    else Order(p.ticker, q.sell, q.size, idx + k, Sell, name)
  }

  /** All orders a turn places, by the reference. */
  function Placed(name: string, quote: string -> Quote, ps: seq<Product>, idx: int): seq<Order> {
    seq(2 * |ps|, k requires 0 <= k < 2 * |ps| => ExpectedOrder(name, quote, ps, idx, k))
  }

  function OrderMsgs(os: seq<Order>): seq<Msg> {
    seq(|os|, i requires 0 <= i < |os| => OrderMsg(os[i]))
  }

  /** The open-order entries the bot records for placed orders. */
  function Entries(os: seq<Order>): Dict<int, Resting> {
    seq(|os|, i requires 0 <= i < |os| => (os[i].orderId, Resting(os[i].aggDir, os[i].size, os[i].price)))
  }

  lemma PlacedCons(name: string, quote: string -> Quote, ps: seq<Product>, idx: int)
    requires ps != []
    ensures Placed(name, quote, ps, idx)
         == [ExpectedOrder(name, quote, ps, idx, 0), ExpectedOrder(name, quote, ps, idx, 1)]
            + Placed(name, quote, ps[1..], idx + 2)
  {
    var a := Placed(name, quote, ps, idx);
    var b := Placed(name, quote, ps[1..], idx + 2);
    forall k | 2 <= k < |a| ensures a[k] == b[k - 2] {
      assert (k - 2) / 2 == k / 2 - 1 && (k - 2) % 2 == k % 2;
    }
  }

  lemma MsgsAndEntriesSplit(x: seq<Order>, y: seq<Order>)
    ensures OrderMsgs(x + y) == OrderMsgs(x) + OrderMsgs(y)
    ensures Entries(x + y) == Entries(x) + Entries(y)
  {
  }

  /** What a quoting pass produced: the next id, the open orders and the order messages. */
  datatype Quoted = Quoted(idx: int, open: Dict<int, Resting>, msgs: seq<Msg>)

  /**
    The product loop of lines 153-212: per product a buy then a sell, each
    created with the running counter and recorded in the open orders.
   */
  function QuoteEach(name: string, quote: string -> Quote, ps: seq<Product>, idx: int, open: Dict<int, Resting>): (r: Quoted)
    requires IdsBelow(open, idx)
    ensures r.idx == idx + 2 * |ps|
    ensures r.msgs == OrderMsgs(Placed(name, quote, ps, idx))
    ensures r.open == open + Entries(Placed(name, quote, ps, idx))
  {
    if ps == [] then
      Quoted(idx, open, [])
    else
      var ticker := ps[0].ticker;
      var q := quote(ticker);
      var buy := CreateOrder(name, idx, ticker, q.size, q.buy, Buy);
      var open1 := Put(open, buy.order.orderId, Resting(Buy, q.size, q.buy));
      var sell := CreateOrder(name, buy.next, ticker, q.size, q.sell, Sell);
      var open2 := Put(open1, sell.order.orderId, Resting(Sell, q.size, q.sell));
      FreshPairAppends(open, idx, Resting(Buy, q.size, q.buy), Resting(Sell, q.size, q.sell));
      assert buy.order == Order(ticker, q.buy, q.size, idx, Buy, name) && buy.next == idx + 1;
      assert sell.order == Order(ticker, q.sell, q.size, idx + 1, Sell, name) && sell.next == idx + 2;
      assert open2 == open + [(idx, Resting(Buy, q.size, q.buy)), (idx + 1, Resting(Sell, q.size, q.sell))];
      var rest := QuoteEach(name, quote, ps[1..], sell.next, open2);
      var r := Quoted(rest.idx, rest.open, [OrderMsg(buy.order), OrderMsg(sell.order)] + rest.msgs);
      QuoteEachStep(name, quote, ps, idx, open, rest, r);
      r
  }

  /** Every open id is below `idx`, so the ids the counter hands out next are fresh. */
  predicate IdsBelow(open: Dict<int, Resting>, idx: int) {
    forall i :: 0 <= i < |open| ==> open[i].0 < idx
  }

  /** Two fresh ids above every open id are appended, in order. */
  lemma FreshPairAppends(open: Dict<int, Resting>, idx: int, b: Resting, s: Resting)
    requires IdsBelow(open, idx)
    ensures Put(Put(open, idx, b), idx + 1, s) == open + [(idx, b), (idx + 1, s)]
    ensures IdsBelow(open + [(idx, b), (idx + 1, s)], idx + 2)
  {
    var open1 := Put(open, idx, b);
    FreshKey(open, idx, idx);
    assert open1 == open + [(idx, b)];
    assert IdsBelow(open1, idx + 1);
    FreshKey(open1, idx + 1, idx + 1);
    assert Put(open1, idx + 1, s) == open1 + [(idx + 1, s)];
    assert open1 + [(idx + 1, s)] == open + [(idx, b), (idx + 1, s)];
  }

  /** An id at or above `idx` is not yet a key. */
  lemma FreshKey(open: Dict<int, Resting>, idx: int, k: int)
    requires IdsBelow(open, idx) && k >= idx
    ensures k !in Keys(open)
  {
    forall i | 0 <= i < |open| ensures Keys(open)[i] != k {
      assert Keys(open)[i] == open[i].0;
    }
  }

  /** The loop step: the first product's pair followed by the rest of the loop is the whole reference. */
  lemma QuoteEachStep(name: string, quote: string -> Quote, ps: seq<Product>, idx: int, open: Dict<int, Resting>, rest: Quoted, r: Quoted)
    requires ps != []
    requires var q := quote(ps[0].ticker);
      && rest.idx == idx + 2 + 2 * |ps[1..]|
      && rest.msgs == OrderMsgs(Placed(name, quote, ps[1..], idx + 2))
      && rest.open == open + [(idx, Resting(Buy, q.size, q.buy)), (idx + 1, Resting(Sell, q.size, q.sell))]
                      + Entries(Placed(name, quote, ps[1..], idx + 2))
      && r.idx == rest.idx && r.open == rest.open
      && r.msgs == [OrderMsg(Order(ps[0].ticker, q.buy, q.size, idx, Buy, name)),
                    OrderMsg(Order(ps[0].ticker, q.sell, q.size, idx + 1, Sell, name))] + rest.msgs
    ensures r.idx == idx + 2 * |ps|
    ensures r.msgs == OrderMsgs(Placed(name, quote, ps, idx))
    ensures r.open == open + Entries(Placed(name, quote, ps, idx))
  {
    PlacedCons(name, quote, ps, idx);
    var placed := Placed(name, quote, ps, idx);
    var head, tail := placed[..2], Placed(name, quote, ps[1..], idx + 2);
    assert placed == head + tail;
    var q := quote(ps[0].ticker);
    var buy, sell := Order(ps[0].ticker, q.buy, q.size, idx, Buy, name), Order(ps[0].ticker, q.sell, q.size, idx + 1, Sell, name);
    assert head == [buy, sell];
    assert OrderMsgs(head) == [OrderMsg(buy), OrderMsg(sell)];
    assert Entries(head) == [(idx, Resting(Buy, q.size, q.buy)), (idx + 1, Resting(Sell, q.size, q.sell))];
    MsgsAndEntriesSplit(head, tail);
  }

  /** The bot after a call, and the messages it sent. */
  datatype Step = Step(player: Player, msgs: seq<Msg>)

  /**
    A turn in closed form: REMOVE for every open order, then the reference
    orders, which become the open orders; the counter moves on by two per
    product and the turn counter by one. The lemmas about turns are stated
    over this form, which `SendMessages` is proved equal to.
   */
  function ExpectedTurn(p: Player, book: Book): Step {
    var placed := Placed(p.cfg.name, Pricer(p.cfg, p.position, book), p.cfg.products, p.idx);
    Step(p.(timestampNum := p.timestampNum + 1, idx := p.idx + 2 * |p.cfg.products|, openOrders := Entries(placed)),
         Removals(p.openOrders) + OrderMsgs(placed))
  }

  /**
    `send_messages(book)`: REMOVE for every order open on entry, in insertion
    order, then the reference orders; the open orders become exactly those new
    orders, the counter moves on by two per product, the turn counter by one,
    and the position is untouched.
   */
  function SendMessages(p: Player, book: Book): (s: Step)
    ensures s == ExpectedTurn(p, book)
    ensures s.player.cfg == p.cfg && s.player.position == p.position
    ensures s.player.timestampNum == p.timestampNum + 1
    ensures s.player.idx == p.idx + 2 * |p.cfg.products|
    ensures s.msgs == Removals(p.openOrders) + OrderMsgs(Placed(p.cfg.name, Pricer(p.cfg, p.position, book), p.cfg.products, p.idx))
    ensures s.player.openOrders == Entries(Placed(p.cfg.name, Pricer(p.cfg, p.position, book), p.cfg.products, p.idx))
  {
    var cancelled := CancelAll(p.openOrders);
    var quoted := QuoteEach(p.cfg.name, Pricer(p.cfg, p.position, book), p.cfg.products, p.idx, cancelled.open);
    var msgs := cancelled.msgs + quoted.msgs;
    AssembleTurn(p, book, cancelled, quoted);
    Step(p.(timestampNum := p.timestampNum + 1, idx := quoted.idx, openOrders := quoted.open), msgs)
  }

  /** The cancel pass followed by the product loop, each as its contract states, is the closed form. */
  lemma AssembleTurn(p: Player, book: Book, cancelled: Cancelled, quoted: Quoted)
    requires cancelled.open == [] && cancelled.msgs == Removals(p.openOrders)
    requires var placed := Placed(p.cfg.name, Pricer(p.cfg, p.position, book), p.cfg.products, p.idx);
      && quoted.idx == p.idx + 2 * |p.cfg.products|
      && quoted.msgs == OrderMsgs(placed)
      && quoted.open == cancelled.open + Entries(placed)
    ensures Step(p.(timestampNum := p.timestampNum + 1, idx := quoted.idx, openOrders := quoted.open), cancelled.msgs + quoted.msgs)
         == ExpectedTurn(p, book)
  {
    var entries := Entries(Placed(p.cfg.name, Pricer(p.cfg, p.position, book), p.cfg.products, p.idx));
    assert cancelled.open + entries == entries;
  }

  /** The ids of the ORDER messages, in emission order. */
  function OrderIds(msgs: seq<Msg>): seq<int> {
    if msgs == [] then []
    else (if msgs[0].OrderMsg? then [msgs[0].order.orderId] else []) + OrderIds(msgs[1..])
  }

  /** `n` consecutive integers from `a`. */
  function Range(a: int, n: nat): seq<int> {
    seq(n, k requires 0 <= k < n => a + k)
  }

  lemma {:induction false} OrderIdsConcat(x: seq<Msg>, y: seq<Msg>)
    ensures OrderIds(x + y) == OrderIds(x) + OrderIds(y)
  {
    if x == [] {
      assert x + y == y;
    } else {
      assert (x + y)[0] == x[0] && (x + y)[1..] == x[1..] + y;
      OrderIdsConcat(x[1..], y);
    }
  }

  lemma {:induction false} OrderIdsOfOrders(os: seq<Order>)
    ensures OrderIds(OrderMsgs(os)) == seq(|os|, i requires 0 <= i < |os| => os[i].orderId)
  {
    if os != [] {
      assert OrderMsgs(os)[1..] == OrderMsgs(os[1..]);
      OrderIdsOfOrders(os[1..]);
    }
  }

  lemma {:induction false} OrderIdsOfRemoves(msgs: seq<Msg>)
    requires forall i :: 0 <= i < |msgs| ==> msgs[i].RemoveMsg?
    ensures OrderIds(msgs) == []
  {
    if msgs != [] {
      OrderIdsOfRemoves(msgs[1..]);
    }
  }

  /** The reference orders carry the consecutive ids from `idx`, whatever the prices. */
  lemma PlacedIds(name: string, quote: string -> Quote, ps: seq<Product>, idx: int)
    ensures var placed := Placed(name, quote, ps, idx);
      && OrderIds(OrderMsgs(placed)) == Range(idx, 2 * |ps|)
      && Keys(Entries(placed)) == Range(idx, 2 * |ps|)
  {
    OrderIdsOfOrders(Placed(name, quote, ps, idx));
  }

  /**
    The ids a turn hands out are the next 2 * |products| counter values in
    order; they are exactly the ids left open, so every open id is fresh and
    they strictly increase.
   */
  lemma SendMessagesIds(p: Player, book: Book)
    ensures var s := ExpectedTurn(p, book);
      && OrderIds(s.msgs) == Range(p.idx, 2 * |p.cfg.products|)
      && Keys(s.player.openOrders) == Range(p.idx, 2 * |p.cfg.products|)
      && StrictlyIncreasing(Keys(s.player.openOrders))
  {
    var placed := Placed(p.cfg.name, Pricer(p.cfg, p.position, book), p.cfg.products, p.idx);
    OrderIdsConcat(Removals(p.openOrders), OrderMsgs(placed));
    OrderIdsOfRemoves(Removals(p.openOrders));
    PlacedIds(p.cfg.name, Pricer(p.cfg, p.position, book), p.cfg.products, p.idx);
    RangeIncreasing(p.idx, 2 * |p.cfg.products|);
  }

  lemma RangeIncreasing(a: int, n: nat)
    ensures StrictlyIncreasing(Range(a, n))
  {
  }

  /** A message list made of REMOVEs followed by ORDERs. */
  lemma RemovesThenOrders(rs: seq<Msg>, os: seq<Order>)
    requires forall i :: 0 <= i < |rs| ==> rs[i].RemoveMsg?
    ensures var msgs := rs + OrderMsgs(os);
      && (forall i, j :: 0 <= i < j < |msgs| && msgs[i].OrderMsg? ==> msgs[j].OrderMsg?)
      && (forall i :: 0 <= i < |msgs| ==> (msgs[i].RemoveMsg? <==> i < |rs|))
  {
    var msgs := rs + OrderMsgs(os);
    forall i | 0 <= i < |msgs| ensures msgs[i].RemoveMsg? <==> i < |rs| {
      if i >= |rs| {
        assert msgs[i] == OrderMsgs(os)[i - |rs|];
      }
    }
  }

  /** Every REMOVE comes before every ORDER, and the REMOVEs name exactly the ids open on entry, in order. */
  lemma CancelBeforeQuote(p: Player, book: Book)
    ensures var s := ExpectedTurn(p, book);
      && (forall i, j :: 0 <= i < j < |s.msgs| && s.msgs[i].OrderMsg? ==> s.msgs[j].OrderMsg?)
      && (forall i :: 0 <= i < |s.msgs| ==> (s.msgs[i].RemoveMsg? <==> i < |p.openOrders|))
      && seq(|p.openOrders|, i requires 0 <= i < |p.openOrders| => s.msgs[i].orderId) == Keys(p.openOrders)
  {
    var s := ExpectedTurn(p, book);
    var rs := Removals(p.openOrders);
    RemovesThenOrders(rs, Placed(p.cfg.name, Pricer(p.cfg, p.position, book), p.cfg.products, p.idx));
    assert forall i :: 0 <= i < |p.openOrders| ==> s.msgs[i] == rs[i];
  }

  /**
    Orders k and k + 1 are the buy then the sell for product k / 2: same
    ticker and size, the size within one and the base size, both prices whole
    ticks, and the buy not above the sell.
   */
  predicate QuotedPair(cfg: Config, placed: seq<Order>, k: int)
    requires 0 <= k && k + 1 < |placed| == 2 * |cfg.products|
  {
    var buy, sell := placed[k], placed[k + 1];
    var tick := TickFor(cfg, buy.ticker);
    && buy.ticker == sell.ticker == cfg.products[k / 2].ticker
    && buy.aggDir == Buy && sell.aggDir == Sell
    && buy.size == sell.size
    && (cfg.params.defaultOrderSize >= 1 ==> 1 <= buy.size <= cfg.params.defaultOrderSize)
    && IsMultipleOf(buy.price, tick) && IsMultipleOf(sell.price, tick)
    && (cfg.params.baseSpread >= 0.0 ==> buy.price <= sell.price)
  }

  /** Every product gets its pair: a buy then a sell, as `QuotedPair` describes. */
  lemma QuotePairs(p: Player, book: Book)
    ensures var placed := Placed(p.cfg.name, Pricer(p.cfg, p.position, book), p.cfg.products, p.idx);
      forall k :: 0 <= k < |placed| && k % 2 == 0 ==> QuotedPair(p.cfg, placed, k)
  {
    var placed := Placed(p.cfg.name, Pricer(p.cfg, p.position, book), p.cfg.products, p.idx);
    forall k | 0 <= k < |placed| && k % 2 == 0 ensures QuotedPair(p.cfg, placed, k) {
      PairAt(p, book, k);
    }
  }

  lemma PairAt(p: Player, book: Book, k: int)
    requires 0 <= k < 2 * |p.cfg.products| && k % 2 == 0
    ensures QuotedPair(p.cfg, Placed(p.cfg.name, Pricer(p.cfg, p.position, book), p.cfg.products, p.idx), k)
  {
    var placed := Placed(p.cfg.name, Pricer(p.cfg, p.position, book), p.cfg.products, p.idx);
    var t := p.cfg.products[k / 2].ticker;
    var mid := MidPrice(BidsOf(book, t), AsksOf(book, t), p.cfg.params.defaultPrice);
    var q := MakeQuote(p.cfg.params, mid, PositionOf(p.position, t), LimitFor(p.cfg, t), TickFor(p.cfg, t));
    assert Pricer(p.cfg, p.position, book)(t) == q;
    assert (k + 1) / 2 == k / 2 && (k + 1) % 2 == 1;
    assert placed[k] == Order(t, q.buy, q.size, p.idx + k, Buy, p.cfg.name);
    assert placed[k + 1] == Order(t, q.sell, q.size, p.idx + k + 1, Sell, p.cfg.name);
    MakeQuoteProperties(p.cfg.params, mid, PositionOf(p.position, t), LimitFor(p.cfg, t), TickFor(p.cfg, t));
  }

  /** When the open ids are a run of consecutive ids, the turn's i-th message cancels the i-th of them. */
  lemma CancelsOpenRun(p: Player, book: Book, a: int, n: nat, i: int)
    requires Keys(p.openOrders) == Range(a, n)
    requires 0 <= i < n
    ensures ExpectedTurn(p, book).msgs[i] == RemoveMsg(a + i)
  {
    var s := ExpectedTurn(p, book);
    assert s.msgs[i] == Removals(p.openOrders)[i];
    assert Keys(p.openOrders)[i] == p.openOrders[i].0 == a + i;
  }

  /** A turn that starts with a run of consecutive open ids cancels exactly that run and opens the next one. */
  lemma TurnAfterRun(q: Player, book: Book, a: int, n: nat)
    requires Keys(q.openOrders) == Range(a, n)
    requires n == 2 * |q.cfg.products| && q.idx == a + n
    ensures |ExpectedTurn(q, book).player.openOrders| == n
    ensures forall i :: 0 <= i < n ==> ExpectedTurn(q, book).msgs[i] == RemoveMsg(a + i)
    ensures Keys(ExpectedTurn(q, book).player.openOrders) == Range(a + n, n)
    ensures ExpectedTurn(q, book).player.timestampNum == q.timestampNum + 1
  {
    var s := ExpectedTurn(q, book);
    assert forall i :: 0 <= i < n ==> s.msgs[i] == RemoveMsg(a + i) by {
      forall i | 0 <= i < n ensures s.msgs[i] == RemoveMsg(a + i) {
        CancelsOpenRun(q, book, a, n, i);
      }
    }
    TurnOpensRun(q, book, a + n, n);
  }

  /**
    Two turns with no trades in between: the second cancels exactly the orders
    the first placed, and both leave 2 * |products| orders open, the second
    turn's ids all above the first's.
   */
  lemma RefreshTwice(p: Player, b1: Book, b2: Book)
    ensures var s1 := ExpectedTurn(p, b1);
      var s2 := ExpectedTurn(s1.player, b2);
      |s1.player.openOrders| == |s2.player.openOrders| == 2 * |p.cfg.products|
    ensures var s2 := ExpectedTurn(ExpectedTurn(p, b1).player, b2);
      forall i :: 0 <= i < 2 * |p.cfg.products| ==> s2.msgs[i] == RemoveMsg(p.idx + i)
    ensures var s2 := ExpectedTurn(ExpectedTurn(p, b1).player, b2);
      Keys(s2.player.openOrders) == Range(p.idx + 2 * |p.cfg.products|, 2 * |p.cfg.products|)
    ensures ExpectedTurn(ExpectedTurn(p, b1).player, b2).player.timestampNum == p.timestampNum + 2
  {
    var q, n := ExpectedTurn(p, b1).player, 2 * |p.cfg.products|;
    TurnOpensRun(p, b1, p.idx, n);
    TurnAfterRun(q, b2, p.idx, n);
  }

  /** After any turn the open ids are the run of ids the turn handed out. */
  lemma TurnOpensRun(p: Player, book: Book, a: int, n: nat)
    requires a == p.idx && n == 2 * |p.cfg.products|
    ensures var q := ExpectedTurn(p, book).player;
      && Keys(q.openOrders) == Range(a, n)
      && |q.openOrders| == n
      && q.idx == a + n && q.cfg == p.cfg
  {
    var q := ExpectedTurn(p, book).player;
    SendMessagesIds(p, book);
    assert |Keys(q.openOrders)| == |q.openOrders|;
  }
}
