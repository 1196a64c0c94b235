/**
  The state of the market-making bot (`PlayerAlgorithm`): its fixed configuration,
  built once from the product list, and the ledger the exchange's calls update.
 */
module Algorithm {
  import opened Wrappers
  import opened Base
  import opened Dicts
  import opened Rounding
  import opened Pricing

  /** The name the bot signs its orders with and recognises itself by in trades. */
  const BotName: string := "MarketMakerBot"

  /** An open order as the bot remembers it: side, size and price. */
  datatype Resting = Resting(dir: Direction, size: int, price: real)

  /** What never changes after construction. */
  datatype Config = Config(
    products: seq<Product>,
    name: string,
    posLimits: map<string, Limit>,
    mpv: map<string, Tick>,
    params: Params)

  /**
    The bot: `timestampNum` counts quoting turns, `idx` is the next order id,
    `openOrders` maps id to order in insertion order, `position` is the signed
    net position per ticker.
   */
  datatype Player = Player(
    cfg: Config,
    timestampNum: int,
    idx: int,
    openOrders: Dict<int, Resting>,
    position: map<string, int>)

  /** A product's limit: a missing limit is unbounded. */
  function LimitOf(p: Product): Limit {
    match p.posLimit
    case Some(n) => Finite(n)
    case None => Unbounded
  }

  /** A product's tick: a missing or zero `mpv` is 1.0. */
  function TickOf(p: Product): Tick {
    match p.mpv
    case Some(m) => if m != 0.0 then m else 1.0
    case None => 1.0
  }

  function Tickers(ps: seq<Product>): set<string> {
    set p | p in ps :: p.ticker
  }

  /** Product `i` is the last one in the list with its ticker. */
  predicate LastOfTicker(ps: seq<Product>, i: int)
    requires 0 <= i < |ps|
  {
    forall j :: i < j < |ps| ==> ps[j].ticker != ps[i].ticker
  }

  /**
    A per-ticker table built from the products: one entry per ticker; when
    tickers repeat, the last product with that ticker decides the value.
   */
  function Table<V>(ps: seq<Product>, f: Product -> V): (t: map<string, V>)
    ensures t.Keys == Tickers(ps)
    ensures forall i :: 0 <= i < |ps| && LastOfTicker(ps, i) ==> t[ps[i].ticker] == f(ps[i])
  {
    if ps == [] then map[]
    else
      var init, last := ps[..|ps| - 1], ps[|ps| - 1];
      assert ps == init + [last];
      assert Tickers(ps) == Tickers(init) + {last.ticker};
      var t := Table(init, f)[last.ticker := f(last)];
      assert forall i :: 0 <= i < |ps| && LastOfTicker(ps, i) ==> t[ps[i].ticker] == f(ps[i]) by {
        forall i | 0 <= i < |ps| && LastOfTicker(ps, i) ensures t[ps[i].ticker] == f(ps[i]) {
          if i < |init| {
            assert ps[i] == init[i] && ps[i].ticker != last.ticker;
            assert LastOfTicker(init, i);
          }
        }
      }
      t
  }

  /** `PlayerAlgorithm(products)`: flat in every product, no open orders, counters at zero. */
  function Init(products: seq<Product>): (p: Player)
    ensures p.position.Keys == Tickers(products)
    ensures forall t :: t in p.position ==> p.position[t] == 0
    ensures p.cfg.posLimits.Keys == p.cfg.mpv.Keys == Tickers(products)
    ensures forall i :: 0 <= i < |products| && LastOfTicker(products, i) ==>
      p.cfg.posLimits[products[i].ticker] == LimitOf(products[i]) && p.cfg.mpv[products[i].ticker] == TickOf(products[i])
    ensures p.openOrders == [] && p.idx == 0 && p.timestampNum == 0
    ensures p.cfg.products == products && p.cfg.name == "MarketMakerBot"
    ensures p.cfg.params.baseSpread == 1.0 && p.cfg.params.skewFactor == 0.5
    ensures p.cfg.params.defaultPrice == 1000.0 && p.cfg.params.defaultOrderSize == 5
  {
    var cfg := Config(products, BotName, Table(products, LimitOf), Table(products, TickOf), Defaults);
    Player(cfg, 0, 0, [], map t | t in Tickers(products) :: 0)
  }

  /** `set_idx(idx)`: only the next order id changes. */
  function SetIdx(p: Player, idx: int): (r: Player)
    ensures r.idx == idx
    ensures r.cfg == p.cfg && r.timestampNum == p.timestampNum
    ensures r.openOrders == p.openOrders && r.position == p.position
  {
    p.(idx := idx)
  }

  /** The position in a ticker; a ticker never traded reads as 0. */
  function PositionOf(position: map<string, int>, ticker: string): int {
    if ticker in position then position[ticker] else 0
  }

  /** The position limit of a ticker; a ticker without one is unbounded. */
  function LimitFor(cfg: Config, ticker: string): Limit {
    if ticker in cfg.posLimits then cfg.posLimits[ticker] else Unbounded
  }

  /** The tick of a ticker; a ticker without one has tick 1. */
  function TickFor(cfg: Config, ticker: string): Tick {
    if ticker in cfg.mpv then cfg.mpv[ticker] else 1.0
  }
}
