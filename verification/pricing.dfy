/**
  The quoting arithmetic of the market maker for one product: the reference
  (mid) price, the inventory skew, the tick-aligned bid and ask, and the size.
 */
module Pricing {
  import opened Base
  import opened Rounding

  /** A position limit; `Unbounded` is the product's missing limit (an infinite limit in the bot). */
  datatype Limit = Unbounded | Finite(n: int)

  /** The bot's fixed quoting parameters. */
  datatype Params = Params(baseSpread: real, skewFactor: real, defaultPrice: real, defaultOrderSize: int)

  /** The values the bot is constructed with. */
  const Defaults: Params := Params(1.0, 0.5, 1000.0, 5)

  /** A buy price, a sell price and the size used on both sides. */
  datatype Quote = Quote(buy: real, sell: real, size: int)

  function AbsInt(x: int): int {
    if x < 0 then -x else x
  }

  function Max(a: int, b: int): int {
    if a < b then b else a
  }

  /** The reference price: the midpoint of the best bid and ask, else the side that exists, else the default. */
  function MidPrice(bids: seq<Rest>, asks: seq<Rest>, default: real): (mid: real)
    ensures |bids| > 0 && |asks| > 0 ==> mid == (bids[0].price + asks[0].price) / 2.0
    ensures |bids| > 0 && |asks| == 0 ==> mid == bids[0].price
    ensures |bids| == 0 && |asks| > 0 ==> mid == asks[0].price
    ensures |bids| == 0 && |asks| == 0 ==> mid == default
  {
    if |bids| > 0 && |asks| > 0 then (bids[0].price + asks[0].price) / 2.0
    else if |bids| > 0 then bids[0].price
    else if |asks| > 0 then asks[0].price
    else default
  }

  /** With both sides present and not crossed, the mid lies between them, equally far from each. */
  lemma MidBetweenBestPrices(bids: seq<Rest>, asks: seq<Rest>, default: real)
    requires |bids| > 0 && |asks| > 0 && bids[0].price <= asks[0].price
    ensures bids[0].price <= MidPrice(bids, asks, default) <= asks[0].price
    ensures MidPrice(bids, asks, default) - bids[0].price == asks[0].price - MidPrice(bids, asks, default)
  {
  }

  /** The skew is zero for a missing or zero limit; otherwise skew times limit is position times factor. */
  function Skew(pos: int, limit: Limit, factor: real): (skew: real)
    ensures limit == Unbounded || limit == Finite(0) ==> skew == 0.0
    ensures limit.Finite? && limit.n != 0 ==> skew * limit.n as real == pos as real * factor
  {
    match limit
    case Unbounded => 0.0
    case Finite(n) => if n == 0 then 0.0 else (pos as real / n as real) * factor
  }

  /** With a positive limit and factor, the skew has the sign of the position, and stays within the factor while the position is within the limit. */
  lemma SkewFollowsPosition(pos: int, n: int, factor: real)
    requires n > 0 && factor > 0.0
    ensures Skew(pos, Finite(n), factor) > 0.0 <==> pos > 0
    ensures Skew(pos, Finite(n), factor) < 0.0 <==> pos < 0
    ensures AbsInt(pos) <= n ==> -factor <= Skew(pos, Finite(n), factor) <= factor
  {
    var p, m := pos as real, n as real;
    var q := p / m;
    var skew := Skew(pos, Finite(n), factor);
    assert skew == q * factor;
    assert (skew > 0.0 <==> pos > 0) && (skew < 0.0 <==> pos < 0) by {
      assert (pos > 0 <==> p > 0.0) && (pos < 0 <==> p < 0.0);
      RatioSign(p, m);
      ScaledSign(q, factor);
    }
    if AbsInt(pos) <= n {
      assert -factor <= skew <= factor by {
        assert -m <= p <= m;
        RatioWithinOne(p, m);
        ScaledWithin(q, factor);
      }
    }
  }

  lemma RatioSign(p: real, n: real)
    requires n > 0.0
    ensures p / n > 0.0 <==> p > 0.0
    ensures p / n < 0.0 <==> p < 0.0
  {
    var q := p / n;
    assert q * n == p;
    if p > 0.0 {
      DivNonneg(p, n);
    } else if p < 0.0 {
      DivNonneg(-p, n);
      assert -p / n == -q;
    }
  }

  lemma ScaledSign(q: real, f: real)
    requires f > 0.0
    ensures q * f > 0.0 <==> q > 0.0
    ensures q * f < 0.0 <==> q < 0.0
  {
    if q > 0.0 {
      MulNonneg(q, f);
      assert q * f != 0.0;
    } else if q < 0.0 {
      MulNonneg(-q, f);
      assert (-q) * f == -(q * f);
      assert q * f != 0.0;
    }
  }

  lemma ScaledWithin(q: real, f: real)
    requires -1.0 <= q <= 1.0 && f >= 0.0
    ensures -f <= q * f <= f
  {
    MulNonneg(1.0 - q, f);
    MulNonneg(1.0 + q, f);
    assert (1.0 - q) * f == f - q * f;
    assert (1.0 + q) * f == f + q * f;
  }

  lemma RatioWithinOne(p: real, n: real)
    requires n > 0.0 && -n <= p <= n
    ensures -1.0 <= p / n <= 1.0
  {
    DivideMonotone(p, n, n);
    DivideMonotone(-n, p, n);
    DivSelf(n);
  }

  lemma DivSelf(n: real)
    requires n > 0.0
    ensures n / n == 1.0 && (-n) / n == -1.0
  {
    assert (-n) / n == -(n / n);
  }

  /** Half the position limit with a factor of one half gives a skew of one quarter. */
  lemma SkewExample()
    ensures Skew(50, Finite(100), 0.5) == 0.25
    ensures Skew(-50, Finite(100), 0.5) == -0.25
    ensures Skew(50, Finite(0), 0.5) == 0.0
    ensures Skew(50, Unbounded, 0.5) == 0.0
  {
  }

  /** The quoted size: the base size, halved above 80% of a positive limit, one above 90%. */
  function OrderSize(base: int, pos: int, limit: Limit): (size: int)
    ensures base >= 1 ==> 1 <= size <= base
    ensures !(limit.Finite? && limit.n > 0) ==> size == base
  {
    if limit.Finite? && limit.n > 0 then
      var halved := if 10 * AbsInt(pos) > 8 * limit.n then Max(1, base / 2) else base;
      if 10 * AbsInt(pos) > 9 * limit.n then 1 else halved
    else base
  }

  /** A larger position never gets a larger size, and the sign of the position does not matter. */
  lemma OrderSizeMonotone(base: int, p: int, q: int, limit: Limit)
    requires base >= 1 && AbsInt(p) <= AbsInt(q)
    ensures OrderSize(base, q, limit) <= OrderSize(base, p, limit)
    ensures OrderSize(base, -p, limit) == OrderSize(base, p, limit)
  {
  }

  /**
    The integer thresholds are exactly the percentage tests on the magnitude of
    the position: halved above 0.8 of the limit, one above 0.9 of it.
   */
  lemma OrderSizeMatchesPercentages(base: int, pos: int, n: int)
    requires n > 0
    ensures var a := AbsInt(pos) as real;
      var halved := if a > 0.8 * n as real then Max(1, base / 2) else base;
      OrderSize(base, pos, Finite(n)) == if a > 0.9 * n as real then 1 else halved
  {
    var a := AbsInt(pos) as real;
    assert 10 * AbsInt(pos) > 8 * n <==> a > 0.8 * n as real;
    assert 10 * AbsInt(pos) > 9 * n <==> a > 0.9 * n as real;
  }

  /** Base 5 and limit 100: position 79 keeps 5, 81 halves to 2, 91 forces 1, and only 1 is left near either edge. */
  lemma OrderSizeExample()
    ensures OrderSize(5, 79, Finite(100)) == 5
    ensures OrderSize(5, 80, Finite(100)) == 5
    ensures OrderSize(5, 81, Finite(100)) == 2
    ensures OrderSize(5, 90, Finite(100)) == 2
    ensures OrderSize(5, 91, Finite(100)) == 1
    ensures OrderSize(5, -91, Finite(100)) == 1
    ensures OrderSize(5, 1000, Finite(-100)) == 5
  {
  }

  /** The unrounded bid and ask: symmetric about the skewed mid, `spread` apart. */
  datatype Prices = Prices(buy: real, sell: real)

  function RawPrices(mid: real, spread: real, skew: real): (p: Prices)
    ensures p.sell - p.buy == spread
    ensures p.buy + p.sell == 2.0 * (mid - skew)
  {
    var half := spread / 2.0;
    Prices(mid - half - skew, mid + half - skew)
  }

  /** One product's quote from its mid price, position, limit and tick. */
  function MakeQuote(params: Params, mid: real, pos: int, limit: Limit, tick: Tick): Quote {
    var raw := RawPrices(mid, params.baseSpread, Skew(pos, limit, params.skewFactor));
    Quote(RoundToTick(raw.buy, tick), RoundToTick(raw.sell, tick), OrderSize(params.defaultOrderSize, pos, limit))
  }

  /**
    Both prices are whole numbers of ticks, each within half a tick of its raw
    price, the bid never above the ask for a non-negative spread, and the size
    within one and the base size.
   */
  lemma MakeQuoteProperties(params: Params, mid: real, pos: int, limit: Limit, tick: Tick)
    ensures var q := MakeQuote(params, mid, pos, limit, tick);
      var raw := RawPrices(mid, params.baseSpread, Skew(pos, limit, params.skewFactor));
      && IsMultipleOf(q.buy, tick) && IsMultipleOf(q.sell, tick)
      && Abs(q.buy - raw.buy) <= Abs(tick) / 2.0
      && Abs(q.sell - raw.sell) <= Abs(tick) / 2.0
      && (params.baseSpread >= 0.0 ==> q.buy <= q.sell)
      && (params.defaultOrderSize >= 1 ==> 1 <= q.size <= params.defaultOrderSize)
  {
    var raw := RawPrices(mid, params.baseSpread, Skew(pos, limit, params.skewFactor));
    RoundToTickAligned(raw.buy, tick);
    RoundToTickAligned(raw.sell, tick);
    if params.baseSpread >= 0.0 {
      RoundToTickMonotone(raw.buy, raw.sell, tick);
    }
  }

  /**
    With the default parameters, a flat position and a unit tick, a mid of 1000
    (an empty book) gives a bid and an ask at the same price: 999.5 and 1000.5
    both round to the even 1000.
   */
  lemma DefaultQuotesCoincide(limit: Limit)
    ensures MakeQuote(Defaults, 1000.0, 0, limit, 1.0) == Quote(1000.0, 1000.0, 5)
  {
    assert Skew(0, limit, 0.5) == 0.0;
    assert RawPrices(1000.0, 1.0, 0.0) == Prices(999.5, 1000.5);
    assert RoundToTick(999.5, 1.0) == 1000.0 by {
      assert 999.5 / 1.0 == 999.5 && (999.5).Floor == 999;
    }
    assert RoundToTick(1000.5, 1.0) == 1000.0 by {
      assert 1000.5 / 1.0 == 1000.5 && (1000.5).Floor == 1000;
    }
    assert OrderSize(5, 0, limit) == 5;
  }
}
