/**
 Who may change what. Every change to a row has one of a few causes, and each cause is a
 transaction that names the row or its owner; and with amounts clear of half units nothing is
 lost or gained at all.
 */
module Laws {
  import opened Money
  import opened Arithmetic
  import opened Tables
  import opened Columns
  import opened Orders
  import opened Ledger
  import opened Holdings
  import opened Exchange

  // ----- Orders -----

  /** The owner cancels an order that is still open. */
  predicate IsOwnCancel(c: Commit, id: nat, o: Order) {
    c.Cancel? && c.id == id && c.user == o.user
  }

  /** The order is more than a day old. */
  predicate IsExpiry(c: Commit, o: Order) {
    c.Expire? && o.createdAt + 86_400_000_000 < c.now
  }

  /** A trade that names the order, with one that it can meet. */
  predicate IsFillOf(c: Commit, orders: seq<Order>, id: nat) {
    c.Fill? && (c.incoming == id || c.candidate == id) && CanMeet(orders, c.incoming, c.candidate)
  }

  /** What may become of an order in one transaction: nothing, a cancellation, or a fill. */
  predicate IsLawful(a: Order, b: Order, c: Commit, orders: seq<Order>, id: nat) {
    || b == a
    || ((a.status == Pending || a.status == PartiallyFilled) && b == a.(status := Cancelled)
        && (IsOwnCancel(c, id, a) || IsExpiry(c, a)))
    || (IsFillOf(c, orders, id) && a.filled < b.filled <= b.quantity
        && b == a.(filled := b.filled, status := b.status) && (b.status == PartiallyFilled || b.status == Filled))
  }

  lemma FillIsLawful(m: Maths, t: Tables, i: nat, j: nat, scale: Scale, id: nat)
    requires OrdersInv(m, t) && id < |t.orders| && Enabled(m, t, Fill(i, j, scale))
    ensures var after := FillBoth(m, t.orders, Match(t.orders, i, j));
      IsLawful(t.orders[id], after[id], Fill(i, j, scale), t.orders, id)
  {
    MatchIsTradeOk(t.orders, i, j);
    assert OrderOk(t.orders[i]) && OrderOk(t.orders[j]);
  }

  /** An order changes only when its owner cancels it, when it is a day old, or when it trades. */
  lemma OrdersChangeOnlyBy(m: Maths, t: Tables, c: Commit, id: nat)
    requires OrdersInv(m, t) && id < |t.orders|
    ensures id < |Step(m, t, c).orders|
    ensures IsLawful(t.orders[id], Step(m, t, c).orders[id], c, t.orders, id)
  {
    if Enabled(m, t, c) && c.Fill? {
      FillIsLawful(m, t, c.incoming, c.candidate, c.scale, id);
    }
  }

  /** A cancelled order was cancelled by its owner, or expired. */
  lemma {:induction false} CancelledByOwnerOrAge(m: Maths, seed: Seeds, cs: seq<Commit>, id: nat) returns (k: nat)
    requires HoldingsOk(seed) && id < |Run(m, seed, cs).orders| && Run(m, seed, cs).orders[id].status == Cancelled
    ensures k < |cs|
    ensures var o := Run(m, seed, cs).orders[id]; IsOwnCancel(cs[k], id, o) || IsExpiry(cs[k], o)
  {
    var before, c := cs[..|cs| - 1], cs[|cs| - 1];
    var t := Run(m, seed, before);
    RunKeepsInv(m, seed, before);
    StepProgress(m, t, c);
    if id < |t.orders| {
      OrdersChangeOnlyBy(m, t, c, id);
      if t.orders[id].status == Cancelled {
        k := CancelledByOwnerOrAge(m, seed, before, id);
      } else {
        k := |cs| - 1;
      }
    } else {
      InsertsArePending(m, t, c, id);
      assert false;
    }
  }

  /** New orders come last, one at a time, open and unfilled. */
  lemma InsertsArePending(m: Maths, t: Tables, c: Commit, id: nat)
    requires |t.orders| <= id < |Step(m, t, c).orders|
    ensures c.Insert? && id == |t.orders|
    ensures var o := Step(m, t, c).orders[id];
      o == c.order && o.status == Pending && o.filled == 0 && 0 < o.price && 0 < o.quantity
  {
  }

  // ----- Wallets, holdings and the ledger -----

  /** A balance changes only by a transfer of its owner's or a trade of one of its owner's orders. */
  lemma WalletsChangeOnlyBy(m: Maths, t: Tables, c: Commit, user: int)
    requires user in t.wallets && user in Step(m, t, c).wallets && Step(m, t, c).wallets[user] != t.wallets[user]
    ensures
      || (c.Transfer? && c.user == user)
      || (c.Fill? && CanMeet(t.orders, c.incoming, c.candidate)
          && (t.orders[c.incoming].user == user || t.orders[c.candidate].user == user))
  {
  }

  /** A holding changes only by a trade of the asset by its owner. */
  lemma HoldingsChangeOnlyBy(m: Maths, t: Tables, c: Commit, user: int, asset: int)
    requires Inv(m, t)
    requires ((user, asset) in t.holdings) != ((user, asset) in Step(m, t, c).holdings)
             || ((user, asset) in t.holdings && Step(m, t, c).holdings[(user, asset)] != t.holdings[(user, asset)])
    ensures c.Fill? && CanMeet(t.orders, c.incoming, c.candidate) && t.orders[c.incoming].asset == asset
            && (t.orders[c.incoming].user == user || t.orders[c.candidate].user == user)
  {
    if Enabled(m, t, c) && c.Fill? {
      FillTouchesTwoHoldings(m, t, c.incoming, c.candidate, c.scale);
    }
  }

  /** A row of a trade: the owner of an order, its side of the trade, and the cost to the nearest unit. */
  predicate IsTradeRow(e: Entry, user: int, kind: Kind, side: Side, id: nat, price: int, quantity: int) {
    e.user == user && e.kind == kind && IsRounding(Cost(price, quantity), e.amount) && e.note == FillOf(side, id)
  }

  /** The ledger only grows: by one row for a transfer, and by a debit and a credit for a trade. */
  lemma LedgerGrowsOnlyBy(m: Maths, t: Tables, c: Commit)
    requires Inv(m, t)
    ensures var added := |Step(m, t, c).ledger| - |t.ledger|;
      && t.ledger <= Step(m, t, c).ledger
      && (added == 0
          || (added == 1 && c.Transfer?
              && Step(m, t, c).ledger[|t.ledger|] == Entry(c.user, Nearest(c.amount), c.kind, Text(c.text)))
          || (added == 2 && c.Fill? && CanMeet(t.orders, c.incoming, c.candidate)
              && var tr := Match(t.orders, c.incoming, c.candidate);
                 && IsTradeRow(Step(m, t, c).ledger[|t.ledger|], t.orders[tr.buy].user, Withdrawal, Buy, tr.buy, tr.price, tr.quantity)
                 && IsTradeRow(Step(m, t, c).ledger[|t.ledger| + 1], t.orders[tr.sell].user, Deposit, Sell, tr.sell,
                               tr.price, tr.quantity)))
  {
    if Enabled(m, t, c) && c.Fill? {
      MatchIsTradeOk(t.orders, c.incoming, c.candidate);
      var tr := Match(t.orders, c.incoming, c.candidate);
      TradeRounds(m, tr.price, tr.quantity, 0);
    }
  }

  // ----- Runs without rounding -----

  /** Amounts within a fifth of a unit of a whole one and sums below 2^35; trades whose cost is not half a unit off. */
  predicate IsClean(t: Tables, c: Commit) {
    match c
    case Transfer(user, amount, _, _) =>
      && -0.2 <= amount - Nearest(amount) as real <= 0.2
      && (user in t.wallets ==> t.wallets[user].balance as real + amount < 3_435_973_836_800_000_000.0)
    case Fill(i, j, _) =>
      i < |t.orders| && j < |t.orders| ==>
        var tr := Match(t.orders, i, j); (tr.price * tr.quantity) % 100_000_000 != 50_000_000
    case _ => true
  }

  predicate AllClean(m: Maths, seed: Seeds, cs: seq<Commit>) {
    cs != [] ==> AllClean(m, seed, cs[..|cs| - 1]) && IsClean(Run(m, seed, cs[..|cs| - 1]), cs[|cs| - 1])
  }

  lemma NoTie(price: int, quantity: int)
    requires (price * quantity) % 100_000_000 != 50_000_000
    ensures !IsTie(Cost(price, quantity))
  {
    var n := price * quantity;
    var below, rest := n / 100_000_000, n % 100_000_000;
    assert Cost(price, quantity) == below as real + rest as real / UNITS_PER_ONE;
    assert Cost(price, quantity).Floor == below;
  }

  lemma CleanIsExact(m: Maths, t: Tables, c: Commit)
    requires LedgerInv(m, t) && IsClean(t, c)
    ensures Tolerance(m, t, c) == 0
  {
    if Enabled(m, t, c) && c.Fill? {
      var tr := Match(t.orders, c.incoming, c.candidate);
      NoTie(tr.price, tr.quantity);
    }
  }

  /** In a run of clean transactions every balance is the sum of its rows, and all money is deposits minus withdrawals. */
  lemma {:induction false} CleanRunsAreExact(m: Maths, seed: Seeds, cs: seq<Commit>, user: int)
    requires HoldingsOk(seed) && AllClean(m, seed, cs)
    ensures TotalTolerance(m, seed, cs) == 0 && ToleranceOver(m, seed, cs, user) == 0
    ensures var t := Run(m, seed, cs);
      && Total(t.wallets) == External(t.ledger)
      && (user in t.wallets ==> t.wallets[user].balance == Signed(t.ledger, user))
  {
    if cs != [] {
      var before := cs[..|cs| - 1];
      CleanRunsAreExact(m, seed, before, user);
      RunKeepsInv(m, seed, before);
      CleanIsExact(m, Run(m, seed, before), cs[|cs| - 1]);
    }
    MoneyIsConserved(m, seed, cs);
    BalanceIsLedgerPlusDrift(m, seed, cs, user);
    GapIsNothing(m, seed, cs, user);
  }

  lemma GapIsNothing(m: Maths, seed: Seeds, cs: seq<Commit>, user: int)
    requires user in Run(m, seed, cs).wallets ==> Gap(Run(m, seed, cs).wallets, Run(m, seed, cs).ledger, user) == 0
    ensures var t := Run(m, seed, cs); user in t.wallets ==> t.wallets[user].balance == Signed(t.ledger, user)
  {
  }
}
