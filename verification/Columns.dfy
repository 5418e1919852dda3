/**
 Requirements read off the columns: when two orders can trade and which comes first, when a
 trade is certain to go through or to fail. They are stated without the functions that the
 model computes with, so that those can be held against them.
 */
module Columns {
  import opened Money
  import opened Tables

  /** Is `y` something that `x` may be traded with? */
  predicate MayMatch(x: Order, y: Order) {
    && (y.status == Pending || y.status == PartiallyFilled)
    && y.asset == x.asset && y.side != x.side && y.user != x.user
    && (x.side == Buy ==> y.price <= x.price)
    && (x.side == Sell ==> y.price >= x.price)
  }

  /** For `x`, is `a` at least as good as `b`: cheaper to buy from or dearer to sell to, or as good and no later? */
  predicate NoWorse(x: Order, a: Order, b: Order) {
    && (x.side == Buy ==> a.price <= b.price)
    && (x.side == Sell ==> a.price >= b.price)
    && (a.price == b.price ==> a.createdAt <= b.createdAt)
  }

  /** A strictly better price for `x`. */
  predicate IsBetter(x: Order, price: int, other: int) {
    if x.side == Buy then price < other else price > other
  }

  /** Two open orders of different users on opposite sides of one asset, with something left and prices that meet. */
  predicate CanMeet(orders: seq<Order>, i: nat, j: nat) {
    && i < |orders| && j < |orders|
    && (orders[i].status == Pending || orders[i].status == PartiallyFilled)
    && MayMatch(orders[i], orders[j])
    && orders[i].filled < orders[i].quantity && orders[j].filled < orders[j].quantity
  }

  /** More than a unit to spare in every check: nothing can stop this trade. */
  predicate SurelyPays(t: Tables, buyer: int, seller: int, asset: int, price: int, quantity: int) {
    && buyer in t.wallets && seller in t.wallets
    && Cost(price, quantity) + 1.0 <= t.wallets[buyer].balance as real
    && t.wallets[seller].balance as real + Cost(price, quantity) + 1.0 < NUMERIC_LIMIT as real
    && ((buyer, asset) in t.holdings ==> t.holdings[(buyer, asset)].quantity + quantity < NUMERIC_LIMIT)
    && (seller, asset) in t.holdings && quantity <= t.holdings[(seller, asset)].quantity
  }

  /** A wallet is missing, the buyer is short by more than a unit, or the seller holds too little. */
  predicate SurelyFails(t: Tables, buyer: int, seller: int, asset: int, price: int, quantity: int) {
    || buyer !in t.wallets || seller !in t.wallets
    || t.wallets[buyer].balance as real + 1.0 < Cost(price, quantity)
    || ((seller, asset) in t.holdings && t.holdings[(seller, asset)].quantity < quantity)
  }

  /** The column NUMERIC(20,8) takes what has at most twelve digits before the point. */
  lemma FitsExactly(n: int)
    ensures Fits(n) <==> -99_999_999_999_999_999_999 <= n <= 99_999_999_999_999_999_999
  {
  }
}
