/** The matching service as its clients see it: one book per venue and symbol. Between requests
    a book is its list of resting orders; a request runs the in-place matcher on it. */
module MatchingService {
  import opened OrderBook
  import opened OrderFlow
  import opened Matching

  class Hub {
    var books: map<Market, BookVal>

    ghost predicate Valid()
      reads this
    {
      forall m :: m in books ==> WellFormed(books[m])
    }

    constructor (markets: set<Market>)
      ensures Valid() && books == map m | m in markets :: BookVal([], [])
    {
      books := map m | m in markets :: BookVal([], []);
    }

    /** Match a new order; `left` is what became of it, on the book exactly when `resting`. */
    method SubmitOrder(m: Market, o: Ord) returns (trades: seq<Trade>, ghost left: Ord, resting: bool)
      requires Valid() && m in books && o.remaining == o.quantity
      modifies this
      ensures Valid() && m in books && books == old(books)[m := books[m]]
      ensures MatchStep(old(books)[m], o, trades, left, resting, books[m])
    {
      var after;
      trades, left, resting, after := MatchOn(books[m], o);
      books := books[m := after];
    }

    /** Run the matcher on the book written down as `before`. */
    static method MatchOn(before: BookVal, o: Ord)
      returns (trades: seq<Trade>, ghost left: Ord, resting: bool, after: BookVal)
      requires WellFormed(before) && o.remaining == o.quantity
      ensures WellFormed(after) && MatchStep(before, o, trades, left, resting, after)
    {
      var book := new Book.Restored(before);
      var incoming := new Order(o.id, o.user, o.side, o.price, o.quantity, o.createdAt);
      var rest;
      trades, rest := book.Match(incoming);
      left, resting, after := incoming.Val(), rest != null, book.View();
    }

    /** Remove an order from its book; an unknown id or market changes nothing. */
    method CancelOrder(m: Market, id: string)
      requires Valid()
      modifies this
      ensures Valid() && books == CancelBooks(old(books), m, id)
    {
      if m in books {
        var book := new Book.Restored(books[m]);
        var removed := book.Cancel(id);
        books := books[m := book.View()];
      }
    }
  }
}
