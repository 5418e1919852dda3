/**
 What every sequence of committed transactions keeps true of wallets and the ledger:
 balances against rows, versions against row counts, trades against rows, and the
 conservation of money.
 */
module Ledger {
  import opened Money
  import opened Arithmetic
  import opened Sums
  import opened Tables
  import opened Orders

  function SignedAmount(e: Entry): int {
    if e.kind == Deposit then e.amount else -e.amount
  }

  /** The sum that `ReconcileWallets` computes for one wallet. */
  function Signed(ledger: seq<Entry>, user: int): int {
    if ledger == [] then 0 else
      var last := ledger[|ledger| - 1];
      Signed(ledger[..|ledger| - 1], user) + if last.user == user then SignedAmount(last) else 0
  }

  function Rows(ledger: seq<Entry>, user: int): nat {
    if ledger == [] then 0 else
      Rows(ledger[..|ledger| - 1], user) + if ledger[|ledger| - 1].user == user then 1 else 0
  }

  /** Deposits minus withdrawals, leaving out the rows that trades wrote. */
  function External(ledger: seq<Entry>): int {
    if ledger == [] then 0 else
      var last := ledger[|ledger| - 1];
      External(ledger[..|ledger| - 1]) + if last.note.Text? then SignedAmount(last) else 0
  }

  /** The sum of the rows that the fills of one order wrote on one side. */
  function PostedFor(ledger: seq<Entry>, side: Side, id: nat): int {
    if ledger == [] then 0 else
      var last := ledger[|ledger| - 1];
      PostedFor(ledger[..|ledger| - 1], side, id) + if last.note == FillOf(side, id) then last.amount else 0
  }

  lemma AppendedSigned(ledger: seq<Entry>, e: Entry, user: int)
    ensures Signed(ledger + [e], user) == Signed(ledger, user) + if e.user == user then SignedAmount(e) else 0
  {
    assert (ledger + [e])[..|ledger|] == ledger;
  }

  lemma AppendedExternal(ledger: seq<Entry>, e: Entry)
    ensures External(ledger + [e]) == External(ledger) + if e.note.Text? then SignedAmount(e) else 0
  {
    assert (ledger + [e])[..|ledger|] == ledger;
  }

  lemma AppendedRows(ledger: seq<Entry>, e: Entry)
    ensures forall u :: Rows(ledger + [e], u) == Rows(ledger, u) + if e.user == u then 1 else 0
  {
    assert (ledger + [e])[..|ledger|] == ledger;
  }

  lemma AppendedPosted(ledger: seq<Entry>, e: Entry)
    ensures forall side, id :: PostedFor(ledger + [e], side, id)
                            == PostedFor(ledger, side, id) + if e.note == FillOf(side, id) then e.amount else 0
  {
    assert (ledger + [e])[..|ledger|] == ledger;
  }

  lemma {:induction false} NoRows(ledger: seq<Entry>, user: int)
    requires forall k :: 0 <= k < |ledger| ==> ledger[k].user != user
    ensures Signed(ledger, user) == 0 && Rows(ledger, user) == 0
  {
    if ledger != [] {
      NoRows(ledger[..|ledger| - 1], user);
    }
  }

  predicate WalletsOk(wallets: map<int, Wallet>, ledger: seq<Entry>) {
    && (forall k :: 0 <= k < |ledger| ==> ledger[k].user in wallets)
    && (forall u :: u in wallets ==> IsBalance(wallets[u].balance) && wallets[u].version == 1 + Rows(ledger, u))
  }

  /** Trades and the rows they wrote determine each other. */
  ghost predicate TradesPosted(m: Maths, trades: seq<Trade>, ledger: seq<Entry>) {
    && RowsFit(m, trades)
    && (forall k :: 0 <= k < |trades| ==> DebitRow(m, trades[k]) in ledger && CreditRow(m, trades[k]) in ledger)
    && (forall side: Side, id: nat :: PostedFor(ledger, side, id) == CostOf(m, trades, side, id))
  }

  ghost predicate LedgerInv(m: Maths, t: Tables) {
    WalletsOk(t.wallets, t.ledger) && TradesPosted(m, t.trades, t.ledger)
  }

  lemma StoreKeepsWallets(wallets: map<int, Wallet>, ledger: seq<Entry>, user: int, balance: int, e: Entry)
    requires WalletsOk(wallets, ledger) && user in wallets && e.user == user && IsBalance(balance)
    ensures WalletsOk(StoreBalance(wallets, user, balance), ledger + [e])
  {
    AppendedRows(ledger, e);
  }

  lemma TextKeepsPosted(m: Maths, trades: seq<Trade>, ledger: seq<Entry>, e: Entry)
    requires TradesPosted(m, trades, ledger) && e.note.Text?
    ensures TradesPosted(m, trades, ledger + [e])
  {
    AppendedPosted(ledger, e);
  }

  lemma FillKeepsPosted(m: Maths, trades: seq<Trade>, ledger: seq<Entry>, tr: Trade)
    requires TradesPosted(m, trades, ledger) && Fits(tr.Row(m))
    ensures TradesPosted(m, trades + [tr], ledger + [DebitRow(m, tr)] + [CreditRow(m, tr)])
  {
    AppendedPosted(ledger, DebitRow(m, tr));
    AppendedPosted(ledger + [DebitRow(m, tr)], CreditRow(m, tr));
    assert (trades + [tr])[..|trades|] == trades;
  }

  lemma FillKeepsWallets(m: Maths, wallets: map<int, Wallet>, ledger: seq<Entry>, tr: Trade)
    requires WalletsOk(wallets, ledger) && tr.buyer != tr.seller && tr.buyer in wallets && tr.seller in wallets
    requires IsBalance(m.minus(Wide, wallets[tr.buyer].balance, tr.Paid(m)))
    requires IsBalance(m.plus(Wide, wallets[tr.seller].balance, tr.Paid(m)))
    ensures WalletsOk(PayBoth(m, wallets, tr), ledger + [DebitRow(m, tr)] + [CreditRow(m, tr)])
  {
    var left := m.minus(Wide, wallets[tr.buyer].balance, tr.Paid(m));
    var debited := StoreBalance(wallets, tr.buyer, left);
    StoreKeepsWallets(wallets, ledger, tr.buyer, left, DebitRow(m, tr));
    StoreKeepsWallets(debited, ledger + [DebitRow(m, tr)], tr.seller,
                      m.plus(Wide, wallets[tr.seller].balance, tr.Paid(m)), CreditRow(m, tr));
  }

  lemma StepKeepsLedger(m: Maths, t: Tables, c: Commit)
    requires OrdersInv(m, t) && LedgerInv(m, t)
    ensures LedgerInv(m, Step(m, t, c))
  {
    if Enabled(m, t, c) {
      match c
      case OpenWallet(user) => NoRows(t.ledger, user);
      case Transfer(user, amount, kind, text) =>
        var e := Entry(user, Nearest(amount), kind, Text(text));
        StoreKeepsWallets(t.wallets, t.ledger, user, Moved(m, Narrow, t.wallets[user].balance, amount, kind), e);
        TextKeepsPosted(m, t.trades, t.ledger, e);
      case Fill(i, j, scale) =>
        var tr := Match(t.orders, i, j);
        FillKeepsWallets(m, t.wallets, t.ledger, tr);
        FillKeepsPosted(m, t.trades, t.ledger, tr);
      case _ =>
    }
  }

  // ----- Balance against ledger -----

  function Gap(wallets: map<int, Wallet>, ledger: seq<Entry>, user: int): int
    requires user in wallets
  {
    wallets[user].balance - Signed(ledger, user)
  }

  function TransferDrift(m: Maths, balance: int, amount: real, kind: Kind): int {
    Moved(m, Narrow, balance, amount, kind) - balance - (if kind == Deposit then Nearest(amount) else -Nearest(amount))
  }

  /** What a trade adds to one of its two balances beyond its ledger row. */
  function TradeDrift(m: Maths, balance: int, tr: Trade, user: int): int {
    if user == tr.buyer then m.minus(Wide, balance, tr.Paid(m)) - balance + tr.Row(m)
    else if user == tr.seller then m.plus(Wide, balance, tr.Paid(m)) - balance - tr.Row(m)
    else 0
  }

  /** What a transaction adds to a balance beyond the rows it writes for it. */
  function StepDrift(m: Maths, t: Tables, c: Commit, user: int): int
    requires user in t.wallets
  {
    if !Enabled(m, t, c) then 0 else
    match c
    case Transfer(u, amount, kind, _) =>
      if u == user then TransferDrift(m, t.wallets[user].balance, amount, kind) else 0
    case Fill(i, j, _) => TradeDrift(m, t.wallets[user].balance, Match(t.orders, i, j), user)
    case _ => 0
  }

  lemma StoreMovesGap(wallets: map<int, Wallet>, ledger: seq<Entry>, payer: int, balance: int, e: Entry, user: int)
    requires payer in wallets && user in wallets && e.user == payer
    ensures Gap(StoreBalance(wallets, payer, balance), ledger + [e], user)
         == Gap(wallets, ledger, user) + if payer == user then balance - wallets[user].balance - SignedAmount(e) else 0
  {
    AppendedSigned(ledger, e, user);
  }

  lemma TradeMovesGap(m: Maths, wallets: map<int, Wallet>, ledger: seq<Entry>, tr: Trade, user: int)
    requires tr.buyer != tr.seller && tr.buyer in wallets && tr.seller in wallets && user in wallets
    ensures Gap(PayBoth(m, wallets, tr), ledger + [DebitRow(m, tr)] + [CreditRow(m, tr)], user)
         == Gap(wallets, ledger, user) + TradeDrift(m, wallets[user].balance, tr, user)
  {
    var left := m.minus(Wide, wallets[tr.buyer].balance, tr.Paid(m));
    StoreMovesGap(wallets, ledger, tr.buyer, left, DebitRow(m, tr), user);
    StoreMovesGap(StoreBalance(wallets, tr.buyer, left), ledger + [DebitRow(m, tr)], tr.seller,
                  m.plus(Wide, wallets[tr.seller].balance, tr.Paid(m)), CreditRow(m, tr), user);
  }

  /** Every step moves the gap of a wallet by its own drift there, and by nothing else. */
  lemma StepMovesGap(m: Maths, t: Tables, c: Commit, user: int)
    requires user in t.wallets
    ensures user in Step(m, t, c).wallets
    ensures Gap(Step(m, t, c).wallets, Step(m, t, c).ledger, user)
         == Gap(t.wallets, t.ledger, user) + StepDrift(m, t, c, user)
  {
    if Enabled(m, t, c) {
      match c
      case Transfer(u, amount, kind, text) =>
        StoreMovesGap(t.wallets, t.ledger, u, Moved(m, Narrow, t.wallets[u].balance, amount, kind),
                      Entry(u, Nearest(amount), kind, Text(text)), user);
      case Fill(i, j, _) => TradeMovesGap(m, t.wallets, t.ledger, Match(t.orders, i, j), user);
      case _ =>
    }
  }

  /** A wallet opens in agreement with its empty ledger. */
  lemma WalletOpensLevel(m: Maths, t: Tables, c: Commit, user: int)
    requires WalletsOk(t.wallets, t.ledger) && user !in t.wallets
    ensures user in Step(m, t, c).wallets ==> Gap(Step(m, t, c).wallets, Step(m, t, c).ledger, user) == 0
  {
    NoRows(t.ledger, user);
  }

  // ----- How far rounding can go -----

  /** The largest number in the sum of a deposit or a withdrawal. */
  function Top(balance: int, amount: real, kind: Kind): real {
    if kind == Deposit then balance as real + amount else balance as real
  }

  /** How many units one transaction may move a balance away from its rows, or all balances from all rows. */
  function Tolerance(m: Maths, t: Tables, c: Commit): nat {
    if !Enabled(m, t, c) then 0 else
    match c
    case Transfer(u, amount, kind, _) => Allowance(Top(t.wallets[u].balance, amount, kind), amount)
    case Fill(i, j, _) => if IsTie(Match(t.orders, i, j).Cost()) then 1 else 0
    case _ => 0
  }

  predicate Touches(t: Tables, c: Commit, user: int) {
    match c
    case Transfer(u, _, _, _) => u == user
    case Fill(i, j, _) => i < |t.orders| && j < |t.orders| && (t.orders[i].user == user || t.orders[j].user == user)
    case _ => false
  }

  lemma TransferDriftIsSmall(m: Maths, wallets: map<int, Wallet>, user: int, amount: real, kind: Kind)
    requires 0.0 < amount && Postable(m, Narrow, wallets, user, amount, kind) && IsBalance(wallets[user].balance)
    ensures var bound := Allowance(Top(wallets[user].balance, amount, kind), amount);
      -(bound as int) <= TransferDrift(m, wallets[user].balance, amount, kind) <= bound
  {
    if kind == Deposit {
      DepositDrift(m, wallets[user].balance, amount);
    } else {
      WithdrawalDrift(m, wallets[user].balance, amount);
    }
  }

  lemma TradeDriftIsSmall(m: Maths, balance: int, tr: Trade, user: int)
    requires 0 <= tr.price && 0 <= tr.quantity && Fits(tr.Row(m)) && IsBalance(balance)
    requires user == tr.buyer ==> m.covers(Wide, balance, tr.Paid(m))
    ensures -1 <= TradeDrift(m, balance, tr, user) <= 1
    ensures !IsTie(tr.Cost()) ==> TradeDrift(m, balance, tr, user) == 0
  {
    TradeRounds(m, tr.price, tr.quantity, balance);
    RoundingsAgree(tr.Cost(), tr.Row(m), m.plus(Wide, balance, tr.Paid(m)) - balance);
    if m.covers(Wide, balance, tr.Paid(m)) {
      RoundingsAgree(tr.Cost(), tr.Row(m), balance - m.minus(Wide, balance, tr.Paid(m)));
    }
  }

  /** No drift exceeds what rounding allows: nothing, if the amount is clear of half units. */
  lemma StepDriftIsSmall(m: Maths, t: Tables, c: Commit, user: int)
    requires OrdersInv(m, t) && LedgerInv(m, t) && user in t.wallets
    ensures var bound := if Touches(t, c, user) then Tolerance(m, t, c) else 0;
      -(bound as int) <= StepDrift(m, t, c, user) <= bound
  {
    if Enabled(m, t, c) {
      match c
      case Transfer(u, amount, kind, _) =>
        if u == user {
          TransferDriftIsSmall(m, t.wallets, u, amount, kind);
        }
      case Fill(i, j, _) =>
        MatchIsTradeOk(t.orders, i, j);
        TradeDriftIsSmall(m, t.wallets[user].balance, Match(t.orders, i, j), user);
      case _ =>
    }
  }

  // ----- Conservation of money -----

  function Balances(wallets: map<int, Wallet>): map<int, int> {
    map u | u in wallets :: wallets[u].balance
  }

  ghost function Total(wallets: map<int, Wallet>): int {
    Sum(Balances(wallets))
  }

  lemma TotalPut(wallets: map<int, Wallet>, user: int, w: Wallet)
    ensures Total(wallets[user := w])
         == Total(wallets) - (if user in wallets then wallets[user].balance else 0) + w.balance
  {
    SumPut(Balances(wallets), user, w.balance);
    assert Balances(wallets[user := w]) == Balances(wallets)[user := w.balance];
  }

  /** All money in wallets beyond what deposits and withdrawals account for. */
  ghost function Surplus(wallets: map<int, Wallet>, ledger: seq<Entry>): int {
    Total(wallets) - External(ledger)
  }

  lemma StoreMovesSurplus(wallets: map<int, Wallet>, ledger: seq<Entry>, user: int, balance: int, e: Entry)
    requires user in wallets
    ensures Surplus(StoreBalance(wallets, user, balance), ledger + [e]) == Surplus(wallets, ledger)
         + balance - wallets[user].balance - if e.note.Text? then SignedAmount(e) else 0
  {
    TotalPut(wallets, user, StoreBalance(wallets, user, balance)[user]);
    AppendedExternal(ledger, e);
  }

  /** A trade moves the surplus by what the seller gains beyond what the buyer loses. */
  lemma TradeMovesSurplus(m: Maths, wallets: map<int, Wallet>, ledger: seq<Entry>, tr: Trade)
    requires tr.buyer != tr.seller && tr.buyer in wallets && tr.seller in wallets
    ensures Surplus(PayBoth(m, wallets, tr), ledger + [DebitRow(m, tr)] + [CreditRow(m, tr)])
         == Surplus(wallets, ledger)
            + (m.plus(Wide, wallets[tr.seller].balance, tr.Paid(m)) - wallets[tr.seller].balance)
            - (wallets[tr.buyer].balance - m.minus(Wide, wallets[tr.buyer].balance, tr.Paid(m)))
  {
    var left := m.minus(Wide, wallets[tr.buyer].balance, tr.Paid(m));
    StoreMovesSurplus(wallets, ledger, tr.buyer, left, DebitRow(m, tr));
    StoreMovesSurplus(StoreBalance(wallets, tr.buyer, left), ledger + [DebitRow(m, tr)], tr.seller,
                      m.plus(Wide, wallets[tr.seller].balance, tr.Paid(m)), CreditRow(m, tr));
  }

  /** Buyer and seller move by the same amount unless the cost is a tie, and then by one unit more or less. */
  lemma TradeConserves(m: Maths, buyer: int, seller: int, tr: Trade)
    requires 0 <= tr.price && 0 <= tr.quantity && Fits(tr.Row(m)) && IsBalance(buyer) && IsBalance(seller)
    requires m.covers(Wide, buyer, tr.Paid(m))
    ensures var moved := (m.plus(Wide, seller, tr.Paid(m)) - seller) - (buyer - m.minus(Wide, buyer, tr.Paid(m)));
      -1 <= moved <= 1 && (!IsTie(tr.Cost()) ==> moved == 0)
  {
    TradeRounds(m, tr.price, tr.quantity, buyer);
    TradeRounds(m, tr.price, tr.quantity, seller);
    RoundingsAgree(tr.Cost(), m.plus(Wide, seller, tr.Paid(m)) - seller, buyer - m.minus(Wide, buyer, tr.Paid(m)));
  }

  lemma FillMovesSurplus(m: Maths, t: Tables, tr: Trade)
    requires WalletsOk(t.wallets, t.ledger) && TradeOk(t.orders, tr) && Payable(m, t, tr)
    ensures var moved := Surplus(PayBoth(m, t.wallets, tr), t.ledger + [DebitRow(m, tr)] + [CreditRow(m, tr)])
                         - Surplus(t.wallets, t.ledger);
      -1 <= moved <= 1 && (!IsTie(tr.Cost()) ==> moved == 0)
  {
    TradeMovesSurplus(m, t.wallets, t.ledger, tr);
    TradeConserves(m, t.wallets[tr.buyer].balance, t.wallets[tr.seller].balance, tr);
  }

  lemma TransferMovesSurplus(m: Maths, t: Tables, user: int, amount: real, kind: Kind, text: string)
    requires WalletsOk(t.wallets, t.ledger) && 0.0 < amount && Postable(m, Narrow, t.wallets, user, amount, kind)
    ensures var balance := t.wallets[user].balance;
      var bound := Allowance(Top(balance, amount, kind), amount);
      var moved := Surplus(StoreBalance(t.wallets, user, Moved(m, Narrow, balance, amount, kind)),
                           t.ledger + [Entry(user, Nearest(amount), kind, Text(text))]) - Surplus(t.wallets, t.ledger);
      -(bound as int) <= moved <= bound
  {
    TransferDriftIsSmall(m, t.wallets, user, amount, kind);
    StoreMovesSurplus(t.wallets, t.ledger, user, Moved(m, Narrow, t.wallets[user].balance, amount, kind),
                      Entry(user, Nearest(amount), kind, Text(text)));
  }

  /** A trade conserves money unless its cost is a tie; a transfer is off by what its rounding allows. */
  lemma StepMovesSurplus(m: Maths, t: Tables, c: Commit)
    requires OrdersInv(m, t) && LedgerInv(m, t)
    ensures var u := Step(m, t, c);
      var moved := Surplus(u.wallets, u.ledger) - Surplus(t.wallets, t.ledger);
      -(Tolerance(m, t, c) as int) <= moved <= Tolerance(m, t, c)
  {
    if Enabled(m, t, c) {
      match c
      case OpenWallet(user) => TotalPut(t.wallets, user, Wallet(0, 1));
      case Transfer(u, amount, kind, text) => TransferMovesSurplus(m, t, u, amount, kind, text);
      case Fill(i, j, _) =>
        MatchIsTradeOk(t.orders, i, j);
        FillMovesSurplus(m, t, Match(t.orders, i, j));
      case _ =>
    }
  }
}
