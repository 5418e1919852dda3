/**
 The tables that the trading core shares, and every transaction that commits a
 change to them. Orders are numbered by their position, so an order id is an index.
 A wallet is named by its owner, who has at most one.
 */
module Tables {
  import opened Money
  import opened Arithmetic

  datatype Option<+T> = None | Some(value: T)

  datatype Side = Buy | Sell

  datatype Status = Pending | PartiallyFilled | Filled | Cancelled

  datatype Order = Order(user: int, asset: int, side: Side, price: int, quantity: int,
                         filled: int, status: Status, key: Option<string>, createdAt: int)
  {
    /** The generated column `remaining_quantity`. */
    function Remaining(): int {
      quantity - filled
    }

    predicate IsOpen() {
      status == Pending || status == PartiallyFilled
    }
  }

  datatype Trade = Trade(buy: nat, sell: nat, asset: int, price: int, quantity: int,
                         buyer: int, seller: int)
  {
    function Cost(): real {
      Money.Cost(price, quantity)
    }

    /** The cost as the engine computes it. */
    function Paid(m: Maths): real {
      m.cost(Wide, price, quantity)
    }

    /** The amount of its ledger rows. */
    function Row(m: Maths): int {
      Arithmetic.Row(m, price, quantity)
    }
  }

  datatype Wallet = Wallet(balance: int, version: int)

  /** What the balance column takes. */
  predicate IsBalance(n: int) {
    0 <= n && Fits(n)
  }

  datatype Kind = Deposit | Withdrawal

  /** Where a ledger row comes from; `Describe` gives the text stored with it. */
  datatype Note = Text(text: string) | FillOf(side: Side, order: nat)

  /** A ledger row. Every writer stores it with status COMPLETED. */
  datatype Entry = Entry(user: int, amount: int, kind: Kind, note: Note)

  datatype Holding = Holding(quantity: int, average: int)

  datatype Tables = Tables(orders: seq<Order>, trades: seq<Trade>, wallets: map<int, Wallet>,
                           ledger: seq<Entry>, holdings: map<(int, int), Holding>)

  /** The extra factor of precision that the database keeps inside a division. */
  type Scale = n: int | 0 < n witness 1

  const DAY := 86_400_000_000

  /** One committed transaction, with what its caller supplied. */
  datatype Commit =
    | OpenWallet(user: int)
    | Transfer(user: int, amount: real, kind: Kind, text: string)
    | Insert(order: Order)
    | Cancel(user: int, id: nat)
    | Expire(now: int)
    | Fill(incoming: nat, candidate: nat, scale: Scale)

  // ----- Orders -----

  function NewStatus(m: Maths, filled: int, fill: int, total: int): Status {
    if m.completes(filled, fill, total) then Filled else PartiallyFilled
  }

  function WithFill(m: Maths, o: Order, quantity: int): Order {
    o.(filled := o.filled + quantity, status := NewStatus(m, o.filled, quantity, o.quantity))
  }

  predicate KeyTaken(orders: seq<Order>, user: int, key: Option<string>) {
    key.Some? && exists i :: 0 <= i < |orders| && orders[i].user == user && orders[i].key == key
  }

  predicate IsStale(o: Order, now: int) {
    o.IsOpen() && o.createdAt < now - DAY
  }

  function Expired(orders: seq<Order>, now: int): (r: seq<Order>)
    ensures |r| == |orders|
    ensures forall i :: 0 <= i < |orders| ==>
      r[i] == if IsStale(orders[i], now) then orders[i].(status := Cancelled) else orders[i]
  {
    if orders == [] then [] else
      var o := orders[|orders| - 1];
      Expired(orders[..|orders| - 1], now) + [if IsStale(o, now) then o.(status := Cancelled) else o]
  }

  // ----- Trades -----

  predicate Crosses(a: Order, b: Order) {
    && a.asset == b.asset
    && a.user != b.user
    && a.side != b.side
    && if a.side == Buy then b.price <= a.price else a.price <= b.price
  }

  /** A trade between an incoming order and a resting one, at the resting order's price. */
  function TradeOf(orders: seq<Order>, incoming: nat, candidate: nat, quantity: int): Trade
    requires incoming < |orders| && candidate < |orders|
  {
    var i, c := orders[incoming], orders[candidate];
    if i.side == Buy then Trade(incoming, candidate, i.asset, c.price, quantity, i.user, c.user)
    else Trade(candidate, incoming, i.asset, c.price, quantity, c.user, i.user)
  }

  function Min(a: int, b: int): int {
    if a <= b then a else b
  }

  /** The trade that fills as much of both orders as it can. */
  function Match(orders: seq<Order>, incoming: nat, candidate: nat): Trade
    requires incoming < |orders| && candidate < |orders|
  {
    TradeOf(orders, incoming, candidate, Min(orders[incoming].Remaining(), orders[candidate].Remaining()))
  }

  /** What `executeTrade` checks again under the row locks, on a pair that selection made. */
  predicate Tradable(orders: seq<Order>, incoming: nat, candidate: nat) {
    && incoming < |orders| && candidate < |orders|
    && Crosses(orders[incoming], orders[candidate])
    && orders[incoming].IsOpen() && orders[candidate].IsOpen()
    && 0 < orders[incoming].Remaining() && 0 < orders[candidate].Remaining()
  }

  // ----- Holdings -----

  /** Division rounded to the nearest integer, halves away from zero. */
  function HalfUp(n: int, d: int): int
    requires 0 <= n && 0 < d
  {
    (2 * n + d) / (2 * d)
  }

  /** The weighted mean as stored: rounded inside the division, then again into the column. */
  function Average(held: int, average: int, bought: int, price: int, scale: Scale): int
    requires 0 <= held && 0 <= average && 0 < bought && 0 <= price
  {
    var total := held * average + bought * price;
    assert 0 <= held * average && 0 <= bought * price;
    assert 0 <= total * scale;
    HalfUp(HalfUp(total * scale, held + bought), scale)
  }

  predicate HoldingsOk(h: map<(int, int), Holding>) {
    forall k :: k in h ==> 0 <= h[k].quantity && 0 <= h[k].average
  }

  function Upsert(h: map<(int, int), Holding>, k: (int, int), quantity: int, price: int, scale: Scale): map<(int, int), Holding>
    requires HoldingsOk(h) && 0 < quantity && 0 <= price
  {
    if k in h then
      h[k := Holding(h[k].quantity + quantity, Average(h[k].quantity, h[k].average, quantity, price, scale))]
    else h[k := Holding(quantity, price)]
  }

  /** An UPDATE without an upsert: a missing row is left missing. */
  function Reduce(h: map<(int, int), Holding>, k: (int, int), quantity: int): map<(int, int), Holding> {
    if k in h then h[k := h[k].(quantity := h[k].quantity - quantity)] else h
  }

  // ----- Committed transactions -----

  /** The balance that a posting stores. */
  function Moved(m: Maths, bits: Bits, balance: int, amount: real, kind: Kind): int {
    if kind == Deposit then m.plus(bits, balance, amount) else m.minus(bits, balance, amount)
  }

  /** The wallet exists, a withdrawal is covered, and the numbers fit their columns. */
  predicate Postable(m: Maths, bits: Bits, wallets: map<int, Wallet>, user: int, amount: real, kind: Kind) {
    && user in wallets
    && (kind == Withdrawal ==> m.covers(bits, wallets[user].balance, amount))
    && Fits(Nearest(amount)) && IsBalance(Moved(m, bits, wallets[user].balance, amount, kind))
  }

  /** The buyer can pay, the seller be paid, and the holdings can take the trade. */
  predicate Payable(m: Maths, t: Tables, tr: Trade) {
    && Postable(m, Wide, t.wallets, tr.buyer, tr.Paid(m), Withdrawal)
    && Postable(m, Wide, t.wallets, tr.seller, tr.Paid(m), Deposit)
    && ((tr.buyer, tr.asset) in t.holdings ==> Fits(t.holdings[(tr.buyer, tr.asset)].quantity + tr.quantity))
    && ((tr.seller, tr.asset) in t.holdings ==> tr.quantity <= t.holdings[(tr.seller, tr.asset)].quantity)
  }

  /** The new balance is stored, and the version goes up by one. */
  function StoreBalance(wallets: map<int, Wallet>, user: int, balance: int): map<int, Wallet>
    requires user in wallets
  {
    wallets[user := Wallet(balance, wallets[user].version + 1)]
  }

  function DebitRow(m: Maths, tr: Trade): Entry {
    Entry(tr.buyer, tr.Row(m), Withdrawal, FillOf(Buy, tr.buy))
  }

  function CreditRow(m: Maths, tr: Trade): Entry {
    Entry(tr.seller, tr.Row(m), Deposit, FillOf(Sell, tr.sell))
  }

  function FillBoth(m: Maths, orders: seq<Order>, tr: Trade): seq<Order>
    requires tr.buy < |orders| && tr.sell < |orders| && tr.buy != tr.sell
  {
    orders[tr.buy := WithFill(m, orders[tr.buy], tr.quantity)]
          [tr.sell := WithFill(m, orders[tr.sell], tr.quantity)]
  }

  /** The wallets after the buyer has paid and the seller has been paid. */
  function PayBoth(m: Maths, wallets: map<int, Wallet>, tr: Trade): map<int, Wallet>
    requires tr.buyer in wallets && tr.seller in wallets
  {
    var debited := StoreBalance(wallets, tr.buyer, Moved(m, Wide, wallets[tr.buyer].balance, tr.Paid(m), Withdrawal));
    StoreBalance(debited, tr.seller, Moved(m, Wide, debited[tr.seller].balance, tr.Paid(m), Deposit))
  }

  function Settle(m: Maths, t: Tables, tr: Trade, scale: Scale): Tables
    requires tr.buy < |t.orders| && tr.sell < |t.orders| && tr.buy != tr.sell
    requires tr.buyer in t.wallets && tr.seller in t.wallets
    requires HoldingsOk(t.holdings) && 0 < tr.quantity && 0 <= tr.price
  {
    Tables(FillBoth(m, t.orders, tr),
           t.trades + [tr],
           PayBoth(m, t.wallets, tr),
           t.ledger + [DebitRow(m, tr)] + [CreditRow(m, tr)],
           Reduce(Upsert(t.holdings, (tr.buyer, tr.asset), tr.quantity, tr.price, scale),
                  (tr.seller, tr.asset), tr.quantity))
  }

  /** The checks a transaction passes before it commits. */
  predicate Enabled(m: Maths, t: Tables, c: Commit) {
    match c
    case OpenWallet(user) => user !in t.wallets
    case Transfer(user, amount, kind, _) => 0.0 < amount && Postable(m, Narrow, t.wallets, user, amount, kind)
    case Insert(o) =>
      && 0 < o.price && Fits(o.price) && 0 < o.quantity && Fits(o.quantity)
      && o.filled == 0 && o.status == Pending
      && !KeyTaken(t.orders, o.user, o.key)
      && (o.side == Sell ==> (o.user, o.asset) in t.holdings)
    case Cancel(user, id) => id < |t.orders| && t.orders[id].user == user && t.orders[id].IsOpen()
    case Expire(_) => true
    case Fill(i, c, _) =>
      && HoldingsOk(t.holdings)
      && Tradable(t.orders, i, c)
      && Payable(m, t, Match(t.orders, i, c))
      && 0 <= Match(t.orders, i, c).price
  }

  function After(m: Maths, t: Tables, c: Commit): Tables
    requires Enabled(m, t, c)
  {
    match c
    case OpenWallet(user) => t.(wallets := t.wallets[user := Wallet(0, 1)])
    case Transfer(user, amount, kind, text) =>
      t.(wallets := StoreBalance(t.wallets, user, Moved(m, Narrow, t.wallets[user].balance, amount, kind)),
         ledger := t.ledger + [Entry(user, Nearest(amount), kind, Text(text))])
    case Insert(o) => t.(orders := t.orders + [o])
    case Cancel(_, id) => t.(orders := t.orders[id := t.orders[id].(status := Cancelled)])
    case Expire(now) => t.(orders := Expired(t.orders, now))
    case Fill(i, c, scale) => Settle(m, t, Match(t.orders, i, c), scale)
  }

  /** A transaction that fails a check, or any call inside it, rolls back. */
  function Step(m: Maths, t: Tables, c: Commit): Tables {
    if Enabled(m, t, c) then After(m, t, c) else t
  }

  /** No orders and no wallets yet; holdings as they were seeded. */
  function Seed(holdings: map<(int, int), Holding>): Tables {
    Tables([], [], map[], [], holdings)
  }

  /** The tables after a sequence of transactions, in the order in which they committed. */
  function Steps(m: Maths, t: Tables, cs: seq<Commit>): Tables {
    if cs == [] then t else Step(m, Steps(m, t, cs[..|cs| - 1]), cs[|cs| - 1])
  }

  function Run(m: Maths, seed: map<(int, int), Holding>, cs: seq<Commit>): Tables {
    Steps(m, Seed(seed), cs)
  }

  lemma StepsAppend(m: Maths, t: Tables, cs: seq<Commit>, c: Commit)
    ensures Steps(m, t, cs + [c]) == Step(m, Steps(m, t, cs), c)
  {
    assert (cs + [c])[..|cs|] == cs;
  }
}
