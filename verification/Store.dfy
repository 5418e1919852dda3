/**
 The services and repositories, as methods that change the tables in place. Each is
 proved to commit exactly one of the transactions of module Tables, or nothing at all.
 */
module Store {
  import opened Money
  import opened Arithmetic
  import opened Tables
  import opened Orders
  import opened Ledger

  /** A call that can fail: transaction control, or the n-th read or write of an operation. */
  datatype Call = Begin | Read(n: nat) | Write(n: nat) | CommitTx

  datatype CancelResult = CancelDone | NotFound | NotOwned | NotCancellable | CancelFailed

  /** What a caller asks for; a number that does not parse is None. */
  datatype PlaceInput = PlaceInput(asset: int, side: Side, price: Option<real>, quantity: Option<real>, key: Option<string>)

  datatype Refusal =
    BadPrice | BadQuantity | UnknownAsset | InactiveAsset | InsufficientFunds | InsufficientHolding | RowRefused | CallFailed

  datatype PlaceResult = Placed(id: nat) | Existing(id: nat) | Rejected(why: Refusal)

  const QUEUE_CAPACITY := 1024

  predicate Positive(x: Option<real>) {
    x.Some? && 0.0 < x.value
  }

  predicate CanBuy(m: Maths, wallets: map<int, Wallet>, user: int, price: real, quantity: real) {
    user in wallets && m.covers(Narrow, wallets[user].balance, m.required(price, quantity))
  }

  predicate CanSell(m: Maths, holdings: map<(int, int), Holding>, user: int, asset: int, quantity: real) {
    (user, asset) in holdings && m.covers(Narrow, holdings[(user, asset)].quantity, quantity)
  }

  /** The checks of `PlaceOrder`, on the unrounded numbers. `active` is None for an unknown asset. */
  predicate Acceptable(m: Maths, t: Tables, user: int, input: PlaceInput, active: Option<bool>) {
    && Positive(input.price) && Positive(input.quantity)
    && active == Some(true)
    && match input.side
       case Buy => CanBuy(m, t.wallets, user, input.price.value, input.quantity.value)
       case Sell => CanSell(m, t.holdings, user, input.asset, input.quantity.value)
  }

  /** The column checks of an order, on the formatted numbers. */
  predicate TakesRow(price: int, quantity: int) {
    0 < price && Fits(price) && 0 < quantity && Fits(quantity)
  }

  /** What each refusal says about the request. */
  predicate Explains(why: Refusal, m: Maths, t: Tables, user: int, input: PlaceInput, active: Option<bool>) {
    match why
    case BadPrice => !Positive(input.price)
    case BadQuantity => !Positive(input.quantity)
    case UnknownAsset => active == None
    case InactiveAsset => active == Some(false)
    case InsufficientFunds =>
      input.side == Buy && Positive(input.price) && Positive(input.quantity)
      && !CanBuy(m, t.wallets, user, input.price.value, input.quantity.value)
    case InsufficientHolding =>
      input.side == Sell && Positive(input.quantity) && !CanSell(m, t.holdings, user, input.asset, input.quantity.value)
    case RowRefused =>
      Positive(input.price) && Positive(input.quantity)
      && !TakesRow(Nearest(input.price.value), Nearest(input.quantity.value))
    case CallFailed => true
  }

  /** More than the rounding to spare in every check: nothing can stop this deposit or withdrawal. */
  predicate MovesSurely(balance: int, amount: real, kind: Kind) {
    && 0 <= balance && Fits(balance)
    && (kind == Deposit ==> balance as real + amount + 10.0 < NUMERIC_LIMIT as real)
    && (kind == Withdrawal ==> amount + 10.0 <= balance as real < NUMERIC_LIMIT as real - 10.0 + amount)
  }

  /** A balance has gone up or down by an amount, and was not overdrawn, to within the rounding of such numbers. */
  predicate HasMoved(before: int, after: int, amount: real, kind: Kind) {
    if kind == Deposit then
      IsNear(after as real, before as real + amount, 0.5 + Slack(before as real + amount))
    else
      && IsNear(after as real, before as real - amount, 0.5 + Slack(before as real))
      && amount <= before as real + Slack(before as real)
  }

  lemma SurelyPostable(m: Maths, wallets: map<int, Wallet>, user: int, amount: real, kind: Kind)
    requires user in wallets && 0.0 < amount && MovesSurely(wallets[user].balance, amount, kind)
    ensures Postable(m, Narrow, wallets, user, amount, kind)
  {
    var balance := wallets[user].balance;
    if kind == Deposit {
      assert IsNear(m.plus(Narrow, balance, amount) as real, balance as real + amount, 0.5 + Slack(balance as real + amount));
    } else {
      assert m.covers(Narrow, balance, amount);
      assert IsNear(m.minus(Narrow, balance, amount) as real, balance as real - amount, 0.5 + Slack(balance as real));
    }
  }

  lemma PostableMoves(m: Maths, wallets: map<int, Wallet>, user: int, amount: real, kind: Kind)
    requires 0.0 < amount && Postable(m, Narrow, wallets, user, amount, kind) && IsBalance(wallets[user].balance)
    ensures HasMoved(wallets[user].balance, Moved(m, Narrow, wallets[user].balance, amount, kind), amount, kind)
  {
    var balance := wallets[user].balance;
    if kind == Deposit {
      assert IsNear(m.plus(Narrow, balance, amount) as real, balance as real + amount, 0.5 + Slack(balance as real + amount));
    } else {
      assert IsNear(m.minus(Narrow, balance, amount) as real, balance as real - amount, 0.5 + Slack(balance as real));
    }
  }

  lemma DecideTransfer(m: Maths, wallets: map<int, Wallet>, user: int, amount: real, kind: Kind)
    requires 0.0 < amount
    ensures user in wallets && MovesSurely(wallets[user].balance, amount, kind) ==>
      Postable(m, Narrow, wallets, user, amount, kind)
    ensures Postable(m, Narrow, wallets, user, amount, kind) && IsBalance(wallets[user].balance) ==>
      HasMoved(wallets[user].balance, Moved(m, Narrow, wallets[user].balance, amount, kind), amount, kind)
  {
    if user in wallets && MovesSurely(wallets[user].balance, amount, kind) {
      SurelyPostable(m, wallets, user, amount, kind);
    }
    if Postable(m, Narrow, wallets, user, amount, kind) && IsBalance(wallets[user].balance) {
      PostableMoves(m, wallets, user, amount, kind);
    }
  }

  function NewOrder(user: int, input: PlaceInput, createdAt: int): Order
    requires input.price.Some? && input.quantity.Some?
  {
    Order(user, input.asset, input.side, Nearest(input.price.value), Nearest(input.quantity.value), 0, Pending,
          input.key, createdAt)
  }

  function StaleCount(orders: seq<Order>, now: int): nat {
    if orders == [] then 0 else
      StaleCount(orders[..|orders| - 1], now) + if IsStale(orders[|orders| - 1], now) then 1 else 0
  }

  /** The orders that an expiry changes. */
  function Changed(orders: seq<Order>, now: int): set<int> {
    set i | 0 <= i < |orders| && IsStale(orders[i], now)
  }

  lemma ChangedGrows(before: seq<Order>, last: Order, now: int)
    ensures |Changed(before + [last], now)| == |Changed(before, now)| + if IsStale(last, now) then 1 else 0
  {
    var n: int, orders := |before|, before + [last];
    var all, earlier := Changed(orders, now), Changed(before, now);
    assert orders[n] == last && forall k :: 0 <= k < n ==> orders[k] == before[k];
    assert forall k :: k in earlier <==> k in all && k != n;
    if n in all {
      assert all == earlier + {n};
    } else {
      assert all == earlier;
    }
  }

  lemma {:induction false} StaleAreChanged(orders: seq<Order>, now: int)
    ensures StaleCount(orders, now) == |Changed(orders, now)|
  {
    if orders == [] {
      assert Changed(orders, now) == {};
    } else {
      var before, last := orders[..|orders| - 1], orders[|orders| - 1];
      assert orders == before + [last];
      StaleAreChanged(before, now);
      ChangedGrows(before, last, now);
    }
  }

  /** The count is the number of orders that change. */
  lemma StaleAreCounted(orders: seq<Order>, now: int)
    ensures StaleCount(orders, now) == |set i | 0 <= i < |orders| && Expired(orders, now)[i].status != orders[i].status|
  {
    StaleAreChanged(orders, now);
    assert Changed(orders, now) == set i | 0 <= i < |orders| && Expired(orders, now)[i].status != orders[i].status;
  }

  // ----- Orders against the columns -----

  /** What is stored of a request: its numbers to the nearest unit, and the rest as it came. */
  predicate IsRowOf(o: Order, user: int, input: PlaceInput, createdAt: int)
    requires input.price.Some? && input.quantity.Some?
  {
    && o.user == user && o.asset == input.asset && o.side == input.side
    && IsRounding(input.price.value, o.price) && IsRounding(input.quantity.value, o.quantity)
    && o.filled == 0 && o.status == Pending && o.key == input.key && o.createdAt == createdAt
  }

  /** The wallet or the holding is there, and not short by more than 64-bit rounding. */
  predicate IsFunded(t: Tables, user: int, input: PlaceInput)
    requires input.price.Some? && input.quantity.Some?
  {
    var asked := Asked(input.price.value, input.quantity.value);
    match input.side
    case Buy =>
      && user in t.wallets
      && (IsBalance(t.wallets[user].balance) ==>
            asked - asked * 0.0000000000000000001 <= t.wallets[user].balance as real + Slack(t.wallets[user].balance as real))
    case Sell =>
      && (user, input.asset) in t.holdings
      && var held := t.holdings[(user, input.asset)].quantity;
         IsBalance(held) ==> input.quantity.value <= held as real + Slack(held as real)
  }

  /** Enough for every check, with more than the rounding to spare. */
  predicate IsSurelyFunded(t: Tables, user: int, input: PlaceInput)
    requires input.price.Some? && input.quantity.Some?
  {
    var asked := Asked(input.price.value, input.quantity.value);
    && 1.0 <= input.price.value < NUMERIC_LIMIT as real - 1.0 && 1.0 <= input.quantity.value < NUMERIC_LIMIT as real - 1.0
    && match input.side
       case Buy =>
         && user in t.wallets && IsBalance(t.wallets[user].balance)
         && asked + asked * 0.0000000000000000001 + 10.0 <= t.wallets[user].balance as real
       case Sell =>
         && (user, input.asset) in t.holdings && IsBalance(t.holdings[(user, input.asset)].quantity)
         && input.quantity.value + 10.0 <= t.holdings[(user, input.asset)].quantity as real
  }

  lemma CanBuyBounds(m: Maths, wallets: map<int, Wallet>, user: int, price: real, quantity: real)
    requires 0.0 < price && 0.0 < quantity && user in wallets && IsBalance(wallets[user].balance)
    ensures var asked, balance := Asked(price, quantity), wallets[user].balance as real;
      && (CanBuy(m, wallets, user, price, quantity) ==> asked - asked * 0.0000000000000000001 <= balance + Slack(balance))
      && (asked + asked * 0.0000000000000000001 + 10.0 <= balance ==> CanBuy(m, wallets, user, price, quantity))
  {
    AskedNonNegative(price, quantity);
    assert IsNear(m.required(price, quantity), Asked(price, quantity), Asked(price, quantity) * 0.0000000000000000001);
    var required := m.required(price, quantity);
    assert m.covers(Narrow, wallets[user].balance, required) ==>
      required <= wallets[user].balance as real + Slack(wallets[user].balance as real);
  }

  lemma AcceptedIsFunded(m: Maths, t: Tables, user: int, input: PlaceInput, active: Option<bool>)
    requires Positive(input.price) && Positive(input.quantity)
    ensures Acceptable(m, t, user, input, active) ==> active == Some(true) && IsFunded(t, user, input)
    ensures active == Some(true) && IsSurelyFunded(t, user, input) ==> Acceptable(m, t, user, input, active)
  {
    if input.side == Buy && user in t.wallets && IsBalance(t.wallets[user].balance) {
      CanBuyBounds(m, t.wallets, user, input.price.value, input.quantity.value);
    }
    if input.side == Sell && (user, input.asset) in t.holdings {
      var held := t.holdings[(user, input.asset)].quantity;
      if IsBalance(held) && m.covers(Narrow, held, input.quantity.value) {
        CoveredIsEnough(m, held, input.quantity.value);
      }
    }
  }

  lemma SurelyTakesRow(user: int, input: PlaceInput, createdAt: int)
    requires Positive(input.price) && Positive(input.quantity)
    ensures IsRowOf(NewOrder(user, input, createdAt), user, input, createdAt)
    ensures var o := NewOrder(user, input, createdAt);
      1.0 <= input.price.value < NUMERIC_LIMIT as real - 1.0 && 1.0 <= input.quantity.value < NUMERIC_LIMIT as real - 1.0
      ==> TakesRow(o.price, o.quantity)
  {
  }

  lemma CoveredIsEnough(m: Maths, balance: int, amount: real)
    requires 0 <= balance && Fits(balance) && 0.0 <= amount && m.covers(Narrow, balance, amount)
    ensures amount <= balance as real + Slack(balance as real)
  {
  }

  /** Nobody has used this key, or there is none. */
  predicate IsFreshKey(orders: seq<Order>, user: int, key: Option<string>) {
    key.Some? ==> forall i :: 0 <= i < |orders| && orders[i].user == user ==> orders[i].key != key
  }

  /** A placed order: a new last row as asked for, funded, under a fresh key, and nothing else in any table. */
  predicate IsPlaced(t: Tables, u: Tables, user: int, input: PlaceInput, active: Option<bool>, createdAt: int) {
    && input.price.Some? && input.quantity.Some? && active == Some(true) && IsFunded(t, user, input)
    && |u.orders| == |t.orders| + 1 && u.orders[..|t.orders|] == t.orders
    && IsRowOf(u.orders[|t.orders|], user, input, createdAt) && IsFreshKey(t.orders, user, input.key)
    && u.trades == t.trades && u.wallets == t.wallets && u.ledger == t.ledger && u.holdings == t.holdings
  }

  /** Numbers that make sense, an active asset and a fresh key: only the funds are in question. */
  predicate IsWellAsked(orders: seq<Order>, user: int, input: PlaceInput, active: Option<bool>) {
    && input.price.Some? && 0.0 < input.price.value && input.quantity.Some? && 0.0 < input.quantity.value
    && active == Some(true) && IsFreshKey(orders, user, input.key)
  }

  /** What the columns say about a placement before it is tried. */
  lemma PlacementIsDecided(m: Maths, t: Tables, user: int, input: PlaceInput, active: Option<bool>, createdAt: int)
    ensures Acceptable(m, t, user, input, active) ==>
      var o := NewOrder(user, input, createdAt);
      Enabled(m, t, Insert(o)) <==> !KeyTaken(t.orders, user, input.key) && TakesRow(o.price, o.quantity)
    ensures Acceptable(m, t, user, input, active) && !KeyTaken(t.orders, user, input.key) ==>
      IsPlaced(t, t.(orders := t.orders + [NewOrder(user, input, createdAt)]), user, input, active, createdAt)
    ensures IsWellAsked(t.orders, user, input, active) ==>
      && !KeyTaken(t.orders, user, input.key)
      && (IsSurelyFunded(t, user, input) ==>
            && Acceptable(m, t, user, input, active)
            && TakesRow(Nearest(input.price.value), Nearest(input.quantity.value)))
      && (!IsFunded(t, user, input) ==> if input.side == Buy
            then !CanBuy(m, t.wallets, user, input.price.value, input.quantity.value)
            else !CanSell(m, t.holdings, user, input.asset, input.quantity.value))
  {
    if Positive(input.price) && Positive(input.quantity) {
      AcceptedIsFunded(m, t, user, input, Some(true));
      SurelyTakesRow(user, input, createdAt);
    }
  }

  class Database {
    const maths: Maths
    var orders: seq<Order>
    var trades: seq<Trade>
    var wallets: map<int, Wallet>
    var ledger: seq<Entry>
    var holdings: map<(int, int), Holding>
    var queue: seq<nat>

    function View(): Tables
      reads this
    {
      Tables(orders, trades, wallets, ledger, holdings)
    }

    constructor (maths: Maths, seed: map<(int, int), Holding>)
      ensures View() == Seed(seed) && queue == [] && this.maths == maths
    {
      this.maths := maths;
      orders, trades, wallets, ledger, holdings, queue := [], [], map[], [], seed, [];
    }

    /** Undo everything since the transaction began. */
    method Rollback(before: Tables)
      modifies this
      ensures View() == before && queue == old(queue)
    {
      orders, trades, wallets := before.orders, before.trades, before.wallets;
      ledger, holdings := before.ledger, before.holdings;
    }

    // ----- Wallets -----

    method CreateWallet(user: int) returns (ok: bool)
      modifies this`wallets
      ensures View() == Step(maths, old(View()), OpenWallet(user))
      ensures ok <==> user !in old(wallets)
      ensures wallets == if ok then old(wallets)[user := Wallet(0, 1)] else old(wallets)
    {
      ok := user !in wallets;
      if ok {
        wallets := wallets[user := Wallet(0, 1)];
      }
    }

    /** Compare and set: the row changes only if it still has the version that was read. */
    method UpdateBalance(user: int, balance: int, version: int) returns (ok: bool)
      modifies this`wallets
      ensures ok <==> user in old(wallets) && old(wallets)[user].version == version && IsBalance(balance)
      ensures wallets == if ok then old(wallets)[user := Wallet(balance, version + 1)] else old(wallets)
    {
      ok := user in wallets && wallets[user].version == version && IsBalance(balance);
      if ok {
        wallets := wallets[user := Wallet(balance, version + 1)];
      }
    }

    method InsertTransaction(e: Entry) returns (ok: bool)
      modifies this`ledger
      ensures ok <==> Fits(e.amount)
      ensures ledger == if ok then old(ledger) + [e] else old(ledger)
    {
      ok := Fits(e.amount);
      if ok {
        ledger := ledger + [e];
      }
    }

    /** Lock a wallet, move its balance and write the ledger row, as part of a larger transaction. */
    method PostToWallet(bits: Bits, user: int, amount: real, kind: Kind, note: Note, broken: set<Call>, read: nat, write: nat)
      returns (ok: bool)
      modifies this`wallets, this`ledger
      ensures ok ==> Postable(maths, bits, old(wallets), user, amount, kind)
      ensures broken == {} && Postable(maths, bits, old(wallets), user, amount, kind) ==> ok
      ensures ok ==>
        && wallets == StoreBalance(old(wallets), user, Moved(maths, bits, old(wallets)[user].balance, amount, kind))
        && ledger == old(ledger) + [Entry(user, Nearest(amount), kind, note)]
      ensures !ok ==>
        && (wallets == old(wallets)
            || (user in old(wallets) && wallets == StoreBalance(old(wallets), user, Moved(maths, bits, old(wallets)[user].balance, amount, kind))))
        && (ledger == old(ledger) || ledger == old(ledger) + [Entry(user, Nearest(amount), kind, note)])
    {
      if Read(read) in broken || user !in wallets {
        return false;
      }
      var w := wallets[user];
      var balance;
      if kind == Withdrawal {
        if !maths.covers(bits, w.balance, amount) {
          return false;
        }
        balance := maths.minus(bits, w.balance, amount);
      } else {
        balance := maths.plus(bits, w.balance, amount);
      }
      ok := UpdateBalance(user, balance, w.version);
      if !ok || Write(write) in broken {
        return false;
      }
      ok := InsertTransaction(Entry(user, Nearest(amount), kind, note));
      if !ok || Write(write + 1) in broken {
        return false;
      }
    }

    /** A deposit or a withdrawal, in one transaction. */
    method MoveFunds(user: int, amount: Option<real>, kind: Kind, text: string, broken: set<Call>) returns (ok: bool)
      modifies this
      ensures queue == old(queue)
      ensures ok ==> Positive(amount) && Enabled(maths, old(View()), Transfer(user, amount.value, kind, text))
      ensures View() == if ok then Step(maths, old(View()), Transfer(user, amount.value, kind, text)) else old(View())
      ensures broken == {} && !ok ==>
        !Positive(amount) || !Enabled(maths, old(View()), Transfer(user, amount.value, kind, text))
      ensures ok ==>
        && amount.Some? && 0.0 < amount.value && user in old(wallets)
        && wallets.Keys == old(wallets).Keys && wallets[user].version == old(wallets)[user].version + 1
        && (IsBalance(old(wallets)[user].balance) ==>
              HasMoved(old(wallets)[user].balance, wallets[user].balance, amount.value, kind))
        && (forall u :: u in wallets && u != user ==> wallets[u] == old(wallets)[u])
        && ledger == old(ledger) + [Entry(user, Nearest(amount.value), kind, Text(text))]
        && orders == old(orders) && trades == old(trades) && holdings == old(holdings)
      ensures broken == {} && amount.Some? && 0.0 < amount.value && user in old(wallets) ==>
        (MovesSurely(old(wallets)[user].balance, amount.value, kind) ==> ok)
    {
      if !Positive(amount) || Begin in broken {
        return false;
      }
      var before := View();
      DecideTransfer(maths, wallets, user, amount.value, kind);
      ok := PostToWallet(Narrow, user, amount.value, kind, Text(text), broken, 0, 0);
      if !ok || CommitTx in broken {
        Rollback(before);
        return false;
      }
    }

    // ----- Orders -----

    method UpdateFill(id: nat, quantity: int, status: Status) returns (ok: bool)
      requires id < |orders|
      modifies this`orders
      ensures ok <==> old(orders)[id].filled + quantity <= old(orders)[id].quantity
      ensures ok ==> orders == old(orders)[id := old(orders)[id].(filled := old(orders)[id].filled + quantity, status := status)]
    {
      ok := orders[id].filled + quantity <= orders[id].quantity;
      if ok {
        orders := orders[id := orders[id].(filled := orders[id].filled + quantity, status := status)];
      }
    }

    method CancelOrder(user: int, id: nat, broken: set<Call>) returns (r: CancelResult)
      modifies this`orders
      ensures View() == if r.CancelDone? then Step(maths, old(View()), Cancel(user, id)) else old(View())
      ensures r.CancelDone? ==> Enabled(maths, old(View()), Cancel(user, id))
      ensures broken == {} ==> !r.CancelFailed?
      ensures r.CancelDone? ==>
        && id < |old(orders)| && old(orders)[id].user == user
        && (old(orders)[id].status == Pending || old(orders)[id].status == PartiallyFilled)
        && orders == old(orders)[id := old(orders)[id].(status := Cancelled)]
      ensures !r.CancelDone? ==> orders == old(orders)
      ensures id < |old(orders)| && old(orders)[id].user != user ==> r.NotOwned? || r.CancelFailed?
      ensures broken == {} ==>
        r == if id >= |old(orders)| then NotFound
             else if old(orders)[id].user != user then NotOwned
             else if old(orders)[id].status == Filled || old(orders)[id].status == Cancelled then NotCancellable
             else CancelDone
      ensures r.NotFound? ==> id >= |orders|
      ensures r.NotOwned? ==> id < |orders| && orders[id].user != user
      ensures r.NotCancellable? ==> id < |orders| && orders[id].user == user && !orders[id].IsOpen()
    {
      if Begin in broken || Read(0) in broken {
        return CancelFailed;
      }
      if id >= |orders| {
        return NotFound;
      }
      if orders[id].user != user {
        return NotOwned;
      }
      if orders[id].status != Pending && orders[id].status != PartiallyFilled {
        return NotCancellable;
      }
      if Write(0) in broken || CommitTx in broken {
        return CancelFailed;
      }
      orders := orders[id := orders[id].(status := Cancelled)];
      r := CancelDone;
    }

    /** One bulk update; returns how many orders it cancelled. */
    method ExpireStaleOrders(now: int, failed: bool) returns (rows: nat)
      modifies this`orders
      ensures View() == if failed then old(View()) else Step(maths, old(View()), Expire(now))
      ensures rows == if failed then 0 else StaleCount(old(orders), now)
      ensures |orders| == |old(orders)| && forall i :: 0 <= i < |orders| ==>
        orders[i] == if !failed && (old(orders)[i].status == Pending || old(orders)[i].status == PartiallyFilled)
                        && old(orders)[i].createdAt < now - 24 * 60 * 60 * 1_000_000
                     then old(orders)[i].(status := Cancelled) else old(orders)[i]
      ensures rows == |set i | 0 <= i < |orders| && orders[i].status != old(orders)[i].status|
    {
      if failed {
        assert (set i | 0 <= i < |orders| && orders[i].status != old(orders)[i].status) == {};
        return 0;
      }
      rows := CancelStale(now);
      StaleAreCounted(old(orders), now);
    }

    /** Row by row, as the update does it. */
    method CancelStale(now: int) returns (rows: nat)
      modifies this`orders
      ensures orders == Expired(old(orders), now) && rows == StaleCount(old(orders), now)
    {
      rows := 0;
      for i := 0 to |orders|
        invariant |orders| == |old(orders)|
        invariant forall k :: 0 <= k < i ==> orders[k] == Expired(old(orders), now)[k]
        invariant forall k :: i <= k < |orders| ==> orders[k] == old(orders)[k]
        invariant rows == StaleCount(old(orders)[..i], now)
      {
        assert old(orders)[..i + 1][..i] == old(orders)[..i];
        if IsStale(orders[i], now) {
          orders := orders[i := orders[i].(status := Cancelled)];
          rows := rows + 1;
        }
      }
      assert old(orders)[..|orders|] == old(orders);
    }

    method GetByIdempotencyKey(user: int, key: string) returns (r: Option<nat>)
      ensures r.Some? ==> r.value < |orders| && orders[r.value].user == user && orders[r.value].key == Some(key)
      ensures r.None? ==> !KeyTaken(orders, user, Some(key))
    {
      for i := 0 to |orders|
        invariant forall k :: 0 <= k < i ==> orders[k].user != user || orders[k].key != Some(key)
      {
        if orders[i].user == user && orders[i].key == Some(key) {
          return Some(i);
        }
      }
      r := None;
    }

    /** The unique index and the column checks decide whether the row goes in. */
    method Create(o: Order) returns (ok: bool, duplicate: bool)
      modifies this`orders
      ensures duplicate <==> KeyTaken(old(orders), o.user, o.key)
      ensures ok <==> !duplicate && TakesRow(o.price, o.quantity)
      ensures orders == if ok then old(orders) + [o] else old(orders)
    {
      duplicate := false;
      if o.key.Some? {
        var found := GetByIdempotencyKey(o.user, o.key.value);
        duplicate := found.Some?;
      }
      ok := !duplicate && TakesRow(o.price, o.quantity);
      if ok {
        orders := orders + [o];
      }
    }

    /** The checks before the insert, in their order; each reads the tables as they are. */
    method CheckOrder(user: int, input: PlaceInput, active: Option<bool>, broken: set<Call>) returns (why: Option<Refusal>)
      ensures why.None? ==> Acceptable(maths, View(), user, input, active)
      ensures why.Some? ==> Explains(why.value, maths, View(), user, input, active)
      ensures why == Some(CallFailed) ==> broken != {}
      ensures broken == {} ==>
        why == if !Positive(input.price) then Some(BadPrice)
               else if !Positive(input.quantity) then Some(BadQuantity)
               else if active == None then Some(UnknownAsset)
               else if active == Some(false) then Some(InactiveAsset)
               else if input.side == Buy && !CanBuy(maths, wallets, user, input.price.value, input.quantity.value)
                 then Some(InsufficientFunds)
               else if input.side == Sell && !CanSell(maths, holdings, user, input.asset, input.quantity.value)
                 then Some(InsufficientHolding)
               else None
    {
      if !Positive(input.price) {
        return Some(BadPrice);
      }
      if !Positive(input.quantity) {
        return Some(BadQuantity);
      }
      if Read(1) in broken {
        return Some(CallFailed);
      }
      if active.None? {
        return Some(UnknownAsset);
      }
      if !active.value {
        return Some(InactiveAsset);
      }
      if Read(2) in broken {
        return Some(CallFailed);
      }
      match input.side
      case Buy =>
        var required := maths.required(input.price.value, input.quantity.value);
        if user !in wallets || !maths.covers(Narrow, wallets[user].balance, required) {
          return Some(InsufficientFunds);
        }
        why := None;
      case Sell =>
        if (user, input.asset) !in holdings || !maths.covers(Narrow, holdings[(user, input.asset)].quantity, input.quantity.value) {
          return Some(InsufficientHolding);
        }
        why := None;
    }

    /** Insert the row in a transaction of its own; if its key is taken by now, find who has it; if not, enqueue it. */
    method InsertOrder(user: int, input: PlaceInput, createdAt: int, broken: set<Call>) returns (r: PlaceResult)
      requires Positive(input.price) && Positive(input.quantity)
      modifies this
      ensures r.Placed? ==>
        && !KeyTaken(old(orders), user, input.key)
        && TakesRow(Nearest(input.price.value), Nearest(input.quantity.value))
        && View() == old(View()).(orders := old(orders) + [NewOrder(user, input, createdAt)]) && r.id == |old(orders)|
        && queue == if |old(queue)| < QUEUE_CAPACITY then old(queue) + [r.id] else old(queue)
      ensures !r.Placed? ==> View() == old(View()) && queue == old(queue)
      ensures r.Existing? ==>
        input.key.Some? && r.id < |orders| && orders[r.id].user == user && orders[r.id].key == input.key
      ensures r.Rejected? ==>
        || r.why == CallFailed
        || (r.why == RowRefused && !TakesRow(Nearest(input.price.value), Nearest(input.quantity.value)))
      ensures broken == {} ==>
        && r != Rejected(CallFailed) && (r.Existing? <==> KeyTaken(old(orders), user, input.key))
        && (r.Placed? <==> !KeyTaken(old(orders), user, input.key)
                           && TakesRow(Nearest(input.price.value), Nearest(input.quantity.value)))
    {
      if Begin in broken {
        return Rejected(CallFailed);
      }
      var before := View();
      var ok, duplicate := Create(NewOrder(user, input, createdAt));
      if ok && (Write(0) in broken || CommitTx in broken) {
        Rollback(before);
        return Rejected(CallFailed);
      }
      if duplicate {
        if Read(3) in broken {
          return Rejected(CallFailed);
        }
        var existing := GetByIdempotencyKey(user, input.key.value);
        if existing.Some? {
          return Existing(existing.value);
        }
      }
      if !ok {
        return Rejected(RowRefused);
      }
      r := Placed(|orders| - 1);
      if |queue| < QUEUE_CAPACITY {
        queue := queue + [r.id];
      }
    }

    method PlaceOrder(user: int, input: PlaceInput, active: Option<bool>, createdAt: int, broken: set<Call>)
      returns (r: PlaceResult)
      modifies this
      ensures r.Placed? ==>
        && Acceptable(maths, old(View()), user, input, active)
        && Enabled(maths, old(View()), Insert(NewOrder(user, input, createdAt)))
        && View() == After(maths, old(View()), Insert(NewOrder(user, input, createdAt)))
        && r.id == |old(orders)|
      ensures r.Placed? ==> IsPlaced(old(View()), View(), user, input, active, createdAt)
      ensures r.Placed? ==> queue == if |old(queue)| < 1024 then old(queue) + [|old(orders)|] else old(queue)
      ensures !r.Placed? ==> View() == old(View()) && queue == old(queue)
      ensures r.Existing? ==>
        input.key.Some? && r.id < |orders| && orders[r.id].user == user && orders[r.id].key == input.key
      ensures r.Rejected? ==> Explains(r.why, maths, View(), user, input, active)
      ensures r == Rejected(CallFailed) ==> broken != {}
      ensures broken == {} ==>
        (r.Placed? <==> Acceptable(maths, old(View()), user, input, active)
                        && Enabled(maths, old(View()), Insert(NewOrder(user, input, createdAt))))
      ensures broken == {} && KeyTaken(old(orders), user, input.key) && input.key != Some("") ==> r.Existing?
      ensures broken == {} && KeyTaken(old(orders), user, input.key) && Acceptable(maths, old(View()), user, input, active)
        ==> r.Existing?
      ensures broken == {} && IsWellAsked(old(orders), user, input, active) ==>
        && (IsSurelyFunded(old(View()), user, input) ==> r.Placed?)
        && (!IsFunded(old(View()), user, input) ==>
              r == Rejected(if input.side == Buy then InsufficientFunds else InsufficientHolding))
    {
      if input.key.Some? && input.key.value != "" {
        if Read(0) in broken {
          return Rejected(CallFailed);
        }
        var existing := GetByIdempotencyKey(user, input.key.value);
        if existing.Some? {
          return Existing(existing.value);
        }
      }
      r := PlaceNew(user, input, active, createdAt, broken);
    }

    /** What follows the first lookup. */
    method PlaceNew(user: int, input: PlaceInput, active: Option<bool>, createdAt: int, broken: set<Call>)
      returns (r: PlaceResult)
      modifies this
      ensures r.Placed? ==>
        && Acceptable(maths, old(View()), user, input, active)
        && Enabled(maths, old(View()), Insert(NewOrder(user, input, createdAt)))
        && View() == After(maths, old(View()), Insert(NewOrder(user, input, createdAt)))
        && r.id == |old(orders)|
      ensures r.Placed? ==> IsPlaced(old(View()), View(), user, input, active, createdAt)
      ensures r.Placed? ==> queue == if |old(queue)| < 1024 then old(queue) + [|old(orders)|] else old(queue)
      ensures !r.Placed? ==> View() == old(View()) && queue == old(queue)
      ensures r.Existing? ==>
        input.key.Some? && r.id < |orders| && orders[r.id].user == user && orders[r.id].key == input.key
      ensures r.Rejected? ==> Explains(r.why, maths, View(), user, input, active)
      ensures r == Rejected(CallFailed) ==> broken != {}
      ensures broken == {} ==>
        && (r.Placed? <==> Acceptable(maths, old(View()), user, input, active)
                           && Enabled(maths, old(View()), Insert(NewOrder(user, input, createdAt))))
        && (KeyTaken(old(orders), user, input.key) && Acceptable(maths, old(View()), user, input, active) ==> r.Existing?)
      ensures broken == {} && IsWellAsked(old(orders), user, input, active) ==>
        && (IsSurelyFunded(old(View()), user, input) ==> r.Placed?)
        && (!IsFunded(old(View()), user, input) ==>
              r == Rejected(if input.side == Buy then InsufficientFunds else InsufficientHolding))
    {
      PlacementIsDecided(maths, View(), user, input, active, createdAt);
      var why := CheckOrder(user, input, active, broken);
      if why.Some? {
        return Rejected(why.value);
      }
      r := InsertOrder(user, input, createdAt, broken);
    }

    // ----- Holdings -----

    method UpsertBuyerHolding(user: int, asset: int, quantity: int, price: int, scale: Scale) returns (ok: bool)
      requires HoldingsOk(holdings) && 0 < quantity && 0 <= price
      modifies this`holdings
      ensures ok <==> ((user, asset) in old(holdings) ==> Fits(old(holdings)[(user, asset)].quantity + quantity))
      ensures ok ==> holdings == Upsert(old(holdings), (user, asset), quantity, price, scale)
    {
      ok := (user, asset) in holdings ==> Fits(holdings[(user, asset)].quantity + quantity);
      if ok {
        holdings := Upsert(holdings, (user, asset), quantity, price, scale);
      }
    }

    /** Succeeds on a missing row without doing anything. */
    method ReduceSellerHolding(user: int, asset: int, quantity: int) returns (ok: bool)
      modifies this`holdings
      ensures ok <==> ((user, asset) in old(holdings) ==> quantity <= old(holdings)[(user, asset)].quantity)
      ensures ok ==> holdings == Reduce(old(holdings), (user, asset), quantity)
    {
      ok := true;
      if (user, asset) in holdings {
        var h := holdings[(user, asset)];
        ok := quantity <= h.quantity;
        if ok {
          holdings := holdings[(user, asset) := h.(quantity := h.quantity - quantity)];
        }
      }
    }
  }
}
