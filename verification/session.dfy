/**
  A trading session: the bot is constructed, given its first order id, and then
  called strictly one call at a time by the exchange, either to quote or to
  settle trades.
 */
module Session {
  import opened Base
  import opened Dicts
  import opened Algorithm
  import opened Quoting
  import opened Ledger

  /** One call from the exchange: a quoting turn on a book, or a batch of settled trades. */
  datatype Event = Turn(book: Book) | Settle(trades: seq<Trade>)

  /** The number of quoting turns. */
  function Turns(evs: seq<Event>): nat {
    if evs == [] then 0 else (if evs[0].Turn? then 1 else 0) + Turns(evs[1..])
  }

  /**
    The calls applied in order; the messages of every turn, concatenated. A turn
    is `send_messages` in the closed form `ExpectedTurn`, which
    `Quoting.SendMessages` is proved equal to.
   */
  function Run(p: Player, evs: seq<Event>): (s: Step)
    ensures s.player.cfg == p.cfg
    ensures s.player.timestampNum == p.timestampNum + Turns(evs)
    ensures s.player.idx == p.idx + 2 * |p.cfg.products| * Turns(evs)
    decreases |evs|
  {
    if evs == [] then Step(p, [])
    else
      PerTurn(2 * |p.cfg.products|, evs);
      match evs[0]
      case Turn(book) =>
        var s1 := ExpectedTurn(p, book);
        var s2 := Run(s1.player, evs[1..]);
        Step(s2.player, s1.msgs + s2.msgs)
      case Settle(ts) =>
        Run(ProcessTrades(p, ts), evs[1..])
  }

  /** Counting per turn: the first call adds its share, the rest add theirs. */
  lemma PerTurn(k: int, evs: seq<Event>)
    requires evs != []
    ensures k * Turns(evs) == (if evs[0].Turn? then k else 0) + k * Turns(evs[1..])
  {
    var b, t := if evs[0].Turn? then 1 else 0, Turns(evs[1..]);
    assert Turns(evs) == b + t;
    Distribute(k, b, t);
  }

  lemma Distribute(k: int, b: int, t: int)
    ensures k * (b + t) == k * b + k * t
  {}

  /** The open orders have strictly increasing ids, all below the next id to be handed out. */
  predicate Valid(p: Player) {
    StrictlyIncreasing(Keys(p.openOrders)) && IdsBelow(p.openOrders, p.idx)
  }

  lemma SendMessagesKeepsValid(p: Player, book: Book)
    ensures Valid(ExpectedTurn(p, book).player)
  {
    var s := ExpectedTurn(p, book);
    SendMessagesIds(p, book);
    forall i | 0 <= i < |s.player.openOrders| ensures s.player.openOrders[i].0 < s.player.idx {
      assert Keys(s.player.openOrders)[i] == s.player.openOrders[i].0;
    }
  }

  lemma ProcessTradesKeepsValid(p: Player, ts: seq<Trade>)
    requires Valid(p)
    ensures Valid(ProcessTrades(p, ts))
  {
    var r := ProcessTrades(p, ts);
    WithoutKeepsIncreasing(p.openOrders, FilledAll(ts, p.cfg.name));
    forall i | 0 <= i < |r.openOrders| ensures r.openOrders[i].0 < r.idx {
      assert r.openOrders[i] in r.openOrders;
    }
  }

  /** Validity holds after any sequence of calls. */
  lemma {:induction false} RunKeepsValid(p: Player, evs: seq<Event>)
    requires Valid(p)
    ensures Valid(Run(p, evs).player)
    decreases |evs|
  {
    if evs != [] {
      match evs[0]
      case Turn(book) =>
        SendMessagesKeepsValid(p, book);
        RunKeepsValid(ExpectedTurn(p, book).player, evs[1..]);
      case Settle(ts) =>
        ProcessTradesKeepsValid(p, ts);
        RunKeepsValid(ProcessTrades(p, ts), evs[1..]);
    }
  }

  /** Every element lies in [lo, hi). */
  predicate Within(s: seq<int>, lo: int, hi: int) {
    forall i :: 0 <= i < |s| ==> lo <= s[i] < hi
  }

  lemma IncreasingConcat(x: seq<int>, y: seq<int>, lo: int, mid: int, hi: int)
    requires StrictlyIncreasing(x) && StrictlyIncreasing(y)
    requires Within(x, lo, mid) && Within(y, mid, hi) && lo <= mid <= hi
    ensures StrictlyIncreasing(x + y) && Within(x + y, lo, hi)
  {
    forall i, j | 0 <= i < j < |x + y| ensures (x + y)[i] < (x + y)[j] {
      if j < |x| {
      } else if i < |x| {
        assert (x + y)[j] == y[j - |x|];
      } else {
        assert (x + y)[i] == y[i - |x|] && (x + y)[j] == y[j - |x|];
      }
    }
    forall i | 0 <= i < |x + y| ensures lo <= (x + y)[i] < hi {
      if i >= |x| {
        assert (x + y)[i] == y[i - |x|];
      }
    }
  }

  /**
    Across any sequence of calls, the ids of all ORDER messages are strictly
    increasing (so pairwise distinct), there are 2 * |products| per turn, and
    each lies between the starting id and the final counter.
   */
  lemma {:induction false} RunOrderIds(p: Player, evs: seq<Event>)
    ensures var s := Run(p, evs);
      && StrictlyIncreasing(OrderIds(s.msgs))
      && Within(OrderIds(s.msgs), p.idx, s.player.idx)
      && |OrderIds(s.msgs)| == 2 * |p.cfg.products| * Turns(evs)
    decreases |evs|
  {
    if evs != [] {
      PerTurn(2 * |p.cfg.products|, evs);
      match evs[0]
      case Turn(book) =>
        var s1 := ExpectedTurn(p, book);
        var s2 := Run(s1.player, evs[1..]);
        SendMessagesIds(p, book);
        RunOrderIds(s1.player, evs[1..]);
        OrderIdsConcat(s1.msgs, s2.msgs);
        assert Within(OrderIds(s1.msgs), p.idx, s1.player.idx);
        IncreasingConcat(OrderIds(s1.msgs), OrderIds(s2.msgs), p.idx, s1.player.idx, s2.player.idx);
      case Settle(ts) =>
        RunOrderIds(ProcessTrades(p, ts), evs[1..]);
    }
  }

  /**
    A whole session from construction: `set_idx(start)` then any calls. The open
    orders stay valid, `timestamp_num` counts the turns, and every order id sent
    is at least `start`, with the ids strictly increasing over the session.
   */
  lemma WholeSession(products: seq<Product>, start: int, evs: seq<Event>)
    ensures var s := Run(SetIdx(Init(products), start), evs);
      && Valid(s.player)
      && s.player.timestampNum == Turns(evs)
      && StrictlyIncreasing(OrderIds(s.msgs))
      && Within(OrderIds(s.msgs), start, s.player.idx)
  {
    var p := SetIdx(Init(products), start);
    RunKeepsValid(p, evs);
    RunOrderIds(p, evs);
  }

  /**
    At any point of a session, the next turn of a constructed bot quotes every
    product as a buy then a sell on its ticker, signed with the bot's name, with
    a size from 1 to the default 5 and the buy never above the sell: the
    default spread is non-negative and the default size is at least one.
   */
  lemma SessionQuotesPairs(products: seq<Product>, start: int, evs: seq<Event>, book: Book)
    ensures var q := Run(SetIdx(Init(products), start), evs).player;
      var placed := Placed(q.cfg.name, Pricer(q.cfg, q.position, book), q.cfg.products, q.idx);
      forall k :: 0 <= k && k + 1 < |placed| && k % 2 == 0 ==> DefaultPair(placed, products, k)
  {
    var q := Run(SetIdx(Init(products), start), evs).player;
    var placed := Placed(q.cfg.name, Pricer(q.cfg, q.position, book), q.cfg.products, q.idx);
    assert q.cfg == Init(products).cfg;
    forall k | 0 <= k && k + 1 < |placed| && k % 2 == 0 ensures DefaultPair(placed, products, k) {
      ConstructedPair(q, book, products, k);
    }
  }

  /**
    Orders k and k + 1 are a buy then a sell on product k / 2, signed with the
    bot's name, of one size from 1 to the default 5, the buy not above the sell.
   */
  predicate DefaultPair(placed: seq<Order>, products: seq<Product>, k: int)
    requires 0 <= k && k + 1 < |placed| && k / 2 < |products|
  {
    && placed[k].ticker == placed[k + 1].ticker == products[k / 2].ticker
    && placed[k].aggDir == Buy && placed[k + 1].aggDir == Sell
    && placed[k].botName == placed[k + 1].botName == "MarketMakerBot"
    && 1 <= placed[k].size == placed[k + 1].size <= 5
    && placed[k].price <= placed[k + 1].price
  }

  lemma ConstructedPair(q: Player, book: Book, products: seq<Product>, k: int)
    requires q.cfg.products == products && q.cfg.name == "MarketMakerBot"
    requires q.cfg.params.defaultOrderSize == 5 && q.cfg.params.baseSpread == 1.0
    requires 0 <= k && k + 1 < 2 * |products| && k % 2 == 0
    ensures DefaultPair(Placed(q.cfg.name, Pricer(q.cfg, q.position, book), q.cfg.products, q.idx), products, k)
  {
    var quote := Pricer(q.cfg, q.position, book);
    var placed := Placed(q.cfg.name, quote, products, q.idx);
    PairAt(q, book, k);
    assert placed[k] == ExpectedOrder(q.cfg.name, quote, products, q.idx, k);
    assert placed[k + 1] == ExpectedOrder(q.cfg.name, quote, products, q.idx, k + 1);
  }
}
