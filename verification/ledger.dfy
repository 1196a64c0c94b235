/**
  Trade settlement (`process_trades`): the bot's signed position per ticker and
  its open-order map, updated trade by trade.
 */
module Ledger {
  import opened Base
  import opened Dicts
  import opened Algorithm

  /** The bot's position change from one trade, both roles counted. */
  function Delta(t: Trade, name: string): int {
    (if t.aggBot == name then (if t.aggDir == "Buy" then t.size else -t.size) else 0)
    + (if t.restBot == name then (if t.aggDir == "Buy" then -t.size else t.size) else 0)
  }

  /** The trade involves the bot on at least one side. */
  predicate Involves(t: Trade, name: string) {
    t.aggBot == name || t.restBot == name
  }

  /** The order ids of the bot's own side(s) of one trade. */
  function Filled(t: Trade, name: string): set<int> {
    (if t.aggBot == name then {t.aggOrderId} else {}) + (if t.restBot == name then {t.restOrderId} else {})
  }

  /** The net position change in `ticker` over a list of trades. */
  function NetDelta(ts: seq<Trade>, ticker: string, name: string): int {
    if ts == [] then 0
    else (if ts[0].ticker == ticker then Delta(ts[0], name) else 0) + NetDelta(ts[1..], ticker, name)
  }

  /** The ids of all the bot's sides in a list of trades. */
  function FilledAll(ts: seq<Trade>, name: string): set<int> {
    if ts == [] then {} else Filled(ts[0], name) + FilledAll(ts[1..], name)
  }

  /** Deleting an order id from the open orders only when it is there. */
  function DropIfOpen(open: Dict<int, Resting>, id: int): (r: Dict<int, Resting>)
    ensures r == Without(open, {id})
  {
    if id in Keys(open) then Remove(open, id)
    else
      WithoutAbsent(open, {id});
      open
  }

  /** One side's fill: the ticker's position, read as 0 when absent, moves by `d`; the ticker becomes a key. */
  function Credit(position: map<string, int>, ticker: string, d: int): (r: map<string, int>)
    ensures PositionOf(r, ticker) == PositionOf(position, ticker) + d
    ensures forall k :: k != ticker ==> PositionOf(r, k) == PositionOf(position, k)
    ensures r.Keys == position.Keys + {ticker}
  {
    position[ticker := PositionOf(position, ticker) + d]
  }

  /**
    One trade (lines 229-253): as aggressor the bot gains the size on a buy and
    loses it otherwise; as the resting side the sign is reversed; each role
    also drops its order id from the open orders if it is there.
   */
  function ProcessTrade(p: Player, t: Trade): (r: Player)
    ensures r.cfg == p.cfg && r.idx == p.idx && r.timestampNum == p.timestampNum
    ensures PositionOf(r.position, t.ticker) == PositionOf(p.position, t.ticker) + Delta(t, p.cfg.name)
    ensures forall k :: k != t.ticker ==> PositionOf(r.position, k) == PositionOf(p.position, k)
    ensures r.position.Keys == p.position.Keys + (if Involves(t, p.cfg.name) then {t.ticker} else {})
    ensures r.openOrders == Without(p.openOrders, Filled(t, p.cfg.name))
  {
    var name := p.cfg.name;
    var p1 :=
      if t.aggBot == name then
        var d := if t.aggDir == "Buy" then t.size else -t.size;
        p.(position := Credit(p.position, t.ticker, d), openOrders := DropIfOpen(p.openOrders, t.aggOrderId))
      else p;
    var p2 :=
      if t.restBot == name then
        var d := if t.aggDir == "Buy" then -t.size else t.size;
        p1.(position := Credit(p1.position, t.ticker, d), openOrders := DropIfOpen(p1.openOrders, t.restOrderId))
      else p1;
    WithoutWithout(p.openOrders, if t.aggBot == name then {t.aggOrderId} else {}, if t.restBot == name then {t.restOrderId} else {});
    WithoutAbsent(p.openOrders, {});
    WithoutAbsent(p1.openOrders, {});
    p2
  }

  /**
    `process_trades(trades)`: every ticker's position moves by its net change,
    the open orders lose exactly the bot's filled ids (order kept), and the
    configuration and counters stay as they were.
   */
  function ProcessTrades(p: Player, ts: seq<Trade>): (r: Player)
    ensures r.cfg == p.cfg && r.idx == p.idx && r.timestampNum == p.timestampNum
    ensures forall k :: PositionOf(r.position, k) == PositionOf(p.position, k) + NetDelta(ts, k, p.cfg.name)
    ensures r.openOrders == Without(p.openOrders, FilledAll(ts, p.cfg.name))
    ensures r.position.Keys >= p.position.Keys
    decreases |ts|
  {
    if ts == [] then
      WithoutAbsent(p.openOrders, {});
      p
    else
      var p1 := ProcessTrade(p, ts[0]);
      WithoutWithout(p.openOrders, Filled(ts[0], p.cfg.name), FilledAll(ts[1..], p.cfg.name));
      ProcessTrades(p1, ts[1..])
  }

  /** A self-trade (the bot on both sides) leaves the position as it was and drops both ids. */
  lemma SelfTradeNetsZero(p: Player, t: Trade)
    requires t.aggBot == p.cfg.name && t.restBot == p.cfg.name
    ensures forall k :: PositionOf(ProcessTrade(p, t).position, k) == PositionOf(p.position, k)
    ensures ProcessTrade(p, t).openOrders == Without(p.openOrders, {t.aggOrderId, t.restOrderId})
  {
    assert Filled(t, p.cfg.name) == {t.aggOrderId, t.restOrderId};
  }

  /** Trades the bot takes no part in change nothing at all. */
  lemma {:induction false} UninvolvedTradesChangeNothing(p: Player, ts: seq<Trade>)
    requires forall i :: 0 <= i < |ts| ==> !Involves(ts[i], p.cfg.name)
    ensures ProcessTrades(p, ts) == p
    decreases |ts|
  {
    if ts != [] {
      var p1 := ProcessTrade(p, ts[0]);
      assert Filled(ts[0], p.cfg.name) == {};
      WithoutAbsent(p.openOrders, {});
      assert p1.position == p.position;
      assert p1 == p;
      UninvolvedTradesChangeNothing(p1, ts[1..]);
    }
  }

  /** A ticker no trade names keeps its position and its presence in the position map. */
  lemma {:induction false} UnnamedTickerUnchanged(p: Player, ts: seq<Trade>, k: string)
    requires forall i :: 0 <= i < |ts| ==> ts[i].ticker != k
    ensures PositionOf(ProcessTrades(p, ts).position, k) == PositionOf(p.position, k)
    ensures k in ProcessTrades(p, ts).position <==> k in p.position
    decreases |ts|
  {
    if ts != [] {
      UnnamedTickerUnchanged(ProcessTrade(p, ts[0]), ts[1..], k);
    }
  }

  /** An id the bot's trades do not name stays open, with the same order. */
  lemma OtherOrdersStay(p: Player, ts: seq<Trade>, e: (int, Resting))
    requires e in p.openOrders && e.0 !in FilledAll(ts, p.cfg.name)
    ensures e in ProcessTrades(p, ts).openOrders
  {
  }

  /** The bot aggressively buying 3 of X gains 3 and drops its order 7; resting against a sell of 4 gains 4 and drops order 8. */
  lemma TradeExamples(p: Player)
    requires p.cfg.name == BotName && "X" !in p.position
    ensures var buy := Trade("X", 3, BotName, "Buy", 7, "Other", 1);
      && PositionOf(ProcessTrade(p, buy).position, "X") == 3
      && ProcessTrade(p, buy).openOrders == Without(p.openOrders, {7})
    ensures var sold := Trade("X", 4, "Other", "Sell", 2, BotName, 8);
      && PositionOf(ProcessTrade(p, sold).position, "X") == 4
      && ProcessTrade(p, sold).openOrders == Without(p.openOrders, {8})
  {
  }
}
