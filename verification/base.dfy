/**
  The records the exchange harness hands to the trading bot and receives from it.
  Only the fields the bot reads or writes are kept.
 */
module Base {
  import opened Wrappers

  /** The side of an order the bot itself places. */
  datatype Direction = Buy | Sell

  /** A tradable instrument: its position limit and its minimum price variation (tick). */
  datatype Product = Product(ticker: string, posLimit: Option<int>, mpv: Option<real>)

  /** A resting order seen in the book. */
  datatype Rest = Rest(price: real, size: int)

  /** One ticker's side of the book, best price first. A missing "Bids" or "Asks" entry is an empty list. */
  datatype Levels = Levels(bids: seq<Rest>, asks: seq<Rest>)

  /** The order book: ticker to its two sides. */
  type Book = map<string, Levels>

  datatype Order = Order(ticker: string, price: real, size: int, orderId: int, aggDir: Direction, botName: string)

  /** A message to the exchange: a new order, or the cancellation of an order by id. */
  datatype Msg = OrderMsg(order: Order) | RemoveMsg(orderId: int)

  /**
    A settled trade. The aggressor direction is the harness's text; anything other
    than "Buy" is read as a sell.
   */
  datatype Trade = Trade(
    ticker: string,
    size: int,
    aggBot: string,
    aggDir: string,
    aggOrderId: int,
    restBot: string,
    restOrderId: int)

  /** The bid levels of a ticker; a missing ticker or side reads as no levels. */
  function BidsOf(book: Book, ticker: string): seq<Rest> {
    if ticker in book then book[ticker].bids else []
  }

  /** The ask levels of a ticker; a missing ticker or side reads as no levels. */
  function AsksOf(book: Book, ticker: string): seq<Rest> {
    if ticker in book then book[ticker].asks else []
  }
}
