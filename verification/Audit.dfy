/**
 The nightly jobs that compare wallets with the ledger and trades with the ledger.
 They only read, so their results are functions of the tables.
 */
module Audit {
  import opened Money
  import opened Arithmetic
  import opened Tables
  import opened Orders
  import opened Ledger
  import opened Exchange
  import opened Store

  // ----- Wallet reconciliation -----

  /** Too far from the sum of its rows, as the job compares them. */
  predicate Mismatch(m: Maths, t: Tables, user: int) {
    user in t.wallets && m.alarm(t.wallets[user].balance, Signed(t.ledger, user))
  }

  function Reported(m: Maths, t: Tables, unreadable: set<int>): set<int> {
    set u | u in t.wallets && u !in unreadable && Mismatch(m, t, u)
  }

  /** The rows come in no particular order. */
  method PickWallet(users: set<int>) returns (user: int)
    requires users != {}
    ensures user in users
  {
    assert (forall u :: u !in users) ==> users == {};
    user :| user in users;
  }

  /** Count the wallets that disagree with their rows, passing over those whose sum cannot be read. */
  method ReconcileWallets(db: Database, fetched: bool, unreadable: set<int>) returns (count: nat)
    ensures count == if fetched then |Reported(db.maths, db.View(), unreadable)| else 0
  {
    count := 0;
    if !fetched {
      return;
    }
    var todo := db.wallets.Keys;
    ghost var found, reported := {}, Reported(db.maths, db.View(), unreadable);
    while todo != {}
      invariant todo <= db.wallets.Keys
      invariant found == reported - todo && count == |found|
      decreases |todo|
    {
      var u := PickWallet(todo);
      todo := todo - {u};
      var sum := Signed(db.ledger, u);
      assert u in reported <==> u !in unreadable && db.maths.alarm(db.wallets[u].balance, sum);
      if u in unreadable {
        continue;
      }
      if db.maths.alarm(db.wallets[u].balance, sum) {
        count := count + 1;
        found := found + {u};
      }
    }
    assert found == reported;
  }

  /**
   After any run, the job reports no wallet that rounding has left alone, and every one that
   it has moved by two units or more, if the numbers are below 2^35.
   */
  lemma MismatchIsDrift(m: Maths, seed: Seeds, cs: seq<Commit>, user: int)
    requires HoldingsOk(seed) && user in Run(m, seed, cs).wallets
    ensures var t, drift := Run(m, seed, cs), DriftOver(m, seed, cs, user);
      && (drift == 0 ==> !Mismatch(m, t, user))
      && (IsSmall(t.wallets[user].balance) && IsSmall(Signed(t.ledger, user)) && (drift >= 2 || drift <= -2) ==>
            Mismatch(m, t, user))
    ensures ToleranceOver(m, seed, cs, user) == 0 ==> !Mismatch(m, Run(m, seed, cs), user)
  {
    BalanceIsLedgerPlusDrift(m, seed, cs, user);
    var t := Run(m, seed, cs);
    AlarmOfGap(m, t.wallets[user].balance, Signed(t.ledger, user), DriftOver(m, seed, cs, user));
  }

  lemma AlarmOfGap(m: Maths, balance: int, rows: int, drift: int)
    requires balance - rows == drift
    ensures drift == 0 ==> !m.alarm(balance, rows)
    ensures IsSmall(balance) && IsSmall(rows) && (drift >= 2 || drift <= -2) ==> m.alarm(balance, rows)
  {
  }

  /** If every sum can be read, the count is zero exactly if no wallet mismatches. */
  lemma CountIsZeroExactly(m: Maths, t: Tables)
    ensures |Reported(m, t, {})| == 0 <==>
      forall u :: u in t.wallets ==> !m.alarm(t.wallets[u].balance, Signed(t.ledger, u))
  {
    if forall u :: u in t.wallets ==> !m.alarm(t.wallets[u].balance, Signed(t.ledger, u)) {
      assert Reported(m, t, {}) == {};
    }
    forall u | u in t.wallets && m.alarm(t.wallets[u].balance, Signed(t.ledger, u)) ensures |Reported(m, t, {})| != 0 {
      assert u in Reported(m, t, {});
    }
  }

  /** The wallets that rounding has moved. */
  function Drifted(m: Maths, seed: Seeds, cs: seq<Commit>): set<int> {
    set u | u in Run(m, seed, cs).wallets && DriftOver(m, seed, cs, u) != 0
  }

  /** After any run, whatever can be read, no more wallets are reported than rounding has moved. */
  lemma OnlyDriftIsReported(m: Maths, seed: Seeds, cs: seq<Commit>, unreadable: set<int>)
    requires HoldingsOk(seed)
    ensures Reported(m, Run(m, seed, cs), unreadable) <= Drifted(m, seed, cs)
    ensures |Reported(m, Run(m, seed, cs), unreadable)| <= |Drifted(m, seed, cs)|
  {
    var reported, drifted := Reported(m, Run(m, seed, cs), unreadable), Drifted(m, seed, cs);
    forall u | u in reported ensures u in drifted {
      MismatchIsDrift(m, seed, cs, u);
    }
    assert drifted == reported + (drifted - reported);
  }

  // ----- Trade settlement -----

  function Digits(n: nat): string {
    if n < 10 then [('0' as int + n) as char] else Digits(n / 10) + [('0' as int + n % 10) as char]
  }

  const BUY_TEXT := "Trade fill: buy order #"
  const SELL_TEXT := "Trade fill: sell order #"

  /** The description stored with a ledger row. */
  function Describe(note: Note): string {
    match note
    case Text(text) => text
    case FillOf(Buy, id) => BUY_TEXT + Digits(id)
    case FillOf(Sell, id) => SELL_TEXT + Digits(id)
  }

  predicate OccursAt(s: string, part: string, i: nat) {
    i + |part| <= |s| && s[i..i + |part|] == part
  }

  predicate Contains(s: string, part: string) {
    exists i :: 0 <= i <= |s| && OccursAt(s, part, i)
  }

  function Needle(id: nat): string {
    "order #" + Digits(id)
  }

  predicate RowExists(ledger: seq<Entry>, user: int, kind: Kind, amount: int, id: nat) {
    exists k :: 0 <= k < |ledger| && ledger[k].user == user && ledger[k].kind == kind
                && ledger[k].amount == amount && Contains(Describe(ledger[k].note), Needle(id))
  }

  /** The amount that the job looks for. */
  function Sought(m: Maths, tr: Trade): int {
    Nearest(m.cost(Narrow, tr.price, tr.quantity))
  }

  predicate BuyerSettled(m: Maths, ledger: seq<Entry>, tr: Trade) {
    RowExists(ledger, tr.buyer, Withdrawal, Sought(m, tr), tr.buy)
  }

  predicate SellerSettled(m: Maths, ledger: seq<Entry>, tr: Trade) {
    RowExists(ledger, tr.seller, Deposit, Sought(m, tr), tr.sell)
  }

  /** How many debits and credits no ledger row accounts for; a query that fails counts as missing. */
  function Missing(m: Maths, ledger: seq<Entry>, trades: seq<Trade>, failed: set<(nat, Side)>): nat {
    if trades == [] then 0 else
      var n := |trades| - 1;
      Missing(m, ledger, trades[..n], failed)
      + (if (n, Buy) in failed || !BuyerSettled(m, ledger, trades[n]) then 1 else 0)
      + (if (n, Sell) in failed || !SellerSettled(m, ledger, trades[n]) then 1 else 0)
  }

  /** How many trades the job and the engine compute different amounts for. */
  function Disagreements(m: Maths, trades: seq<Trade>): nat {
    if trades == [] then 0 else
      var last := trades[|trades| - 1];
      Disagreements(m, trades[..|trades| - 1]) + if Sought(m, last) != last.Row(m) then 1 else 0
  }

  method VerifyTradeSettlements(db: Database, fetched: bool, failed: set<(nat, Side)>) returns (count: nat)
    ensures count == if fetched then Missing(db.maths, db.ledger, db.trades, failed) else 0
    ensures failed == {} && TradesPosted(db.maths, db.trades, db.ledger) ==> count <= 2 * Disagreements(db.maths, db.trades)
  {
    count := 0;
    if !fetched {
      return;
    }
    for n := 0 to |db.trades|
      invariant count == Missing(db.maths, db.ledger, db.trades[..n], failed)
    {
      assert db.trades[..n + 1][..n] == db.trades[..n];
      if (n, Buy) in failed || !BuyerSettled(db.maths, db.ledger, db.trades[n]) {
        count := count + 1;
      }
      if (n, Sell) in failed || !SellerSettled(db.maths, db.ledger, db.trades[n]) {
        count := count + 1;
      }
    }
    assert db.trades[..|db.trades|] == db.trades;
    if failed == {} && TradesPosted(db.maths, db.trades, db.ledger) {
      LittleMissing(db.maths, db.ledger, db.trades);
    }
  }

  /** No row of the right wallet, kind and amount. */
  predicate HasNoRow(ledger: seq<Entry>, user: int, kind: Kind, amount: int) {
    forall k :: 0 <= k < |ledger| ==> ledger[k].user != user || ledger[k].kind != kind || ledger[k].amount != amount
  }

  /** The trades without any debit of their amount, and those without any credit. */
  function Undebited(m: Maths, ledger: seq<Entry>, trades: seq<Trade>): set<int> {
    set k | 0 <= k < |trades| && HasNoRow(ledger, trades[k].buyer, Withdrawal, Sought(m, trades[k]))
  }

  function Uncredited(m: Maths, ledger: seq<Entry>, trades: seq<Trade>): set<int> {
    set k | 0 <= k < |trades| && HasNoRow(ledger, trades[k].seller, Deposit, Sought(m, trades[k]))
  }

  lemma UndebitedGrows(m: Maths, ledger: seq<Entry>, before: seq<Trade>, last: Trade)
    ensures |Undebited(m, ledger, before + [last])|
         == |Undebited(m, ledger, before)| + if HasNoRow(ledger, last.buyer, Withdrawal, Sought(m, last)) then 1 else 0
  {
    var n: int, trades := |before|, before + [last];
    var all, earlier := Undebited(m, ledger, trades), Undebited(m, ledger, before);
    assert trades[n] == last && forall k :: 0 <= k < n ==> trades[k] == before[k];
    assert forall k :: k in earlier <==> k in all && k != n;
    if n in all {
      assert all == earlier + {n};
    } else {
      assert all == earlier;
    }
  }

  lemma UncreditedGrows(m: Maths, ledger: seq<Entry>, before: seq<Trade>, last: Trade)
    ensures |Uncredited(m, ledger, before + [last])|
         == |Uncredited(m, ledger, before)| + if HasNoRow(ledger, last.seller, Deposit, Sought(m, last)) then 1 else 0
  {
    var n: int, trades := |before|, before + [last];
    var all, earlier := Uncredited(m, ledger, trades), Uncredited(m, ledger, before);
    assert trades[n] == last && forall k :: 0 <= k < n ==> trades[k] == before[k];
    assert forall k :: k in earlier <==> k in all && k != n;
    if n in all {
      assert all == earlier + {n};
    } else {
      assert all == earlier;
    }
  }

  lemma NothingToFind(ledger: seq<Entry>, user: int, kind: Kind, amount: int, id: nat)
    requires HasNoRow(ledger, user, kind, amount)
    ensures !RowExists(ledger, user, kind, amount, id)
  {
  }

  /** Every trade whose debit is missing raises the count, and so does every one whose credit is. */
  lemma {:induction false} MissingCountsBoth(m: Maths, ledger: seq<Entry>, trades: seq<Trade>, failed: set<(nat, Side)>)
    ensures |Undebited(m, ledger, trades)| + |Uncredited(m, ledger, trades)| <= Missing(m, ledger, trades, failed)
  {
    if trades == [] {
      assert Undebited(m, ledger, trades) == {} && Uncredited(m, ledger, trades) == {};
    } else {
      var n := |trades| - 1;
      var before, last := trades[..n], trades[n];
      assert trades == before + [last];
      MissingCountsBoth(m, ledger, before, failed);
      UndebitedGrows(m, ledger, before, last);
      UncreditedGrows(m, ledger, before, last);
      if HasNoRow(ledger, last.buyer, Withdrawal, Sought(m, last)) {
        NothingToFind(ledger, last.buyer, Withdrawal, Sought(m, last), last.buy);
      }
      if HasNoRow(ledger, last.seller, Deposit, Sought(m, last)) {
        NothingToFind(ledger, last.seller, Deposit, Sought(m, last), last.sell);
      }
    }
  }

  lemma {:induction false} LittleMissing(m: Maths, ledger: seq<Entry>, trades: seq<Trade>)
    requires forall k :: 0 <= k < |trades| ==> DebitRow(m, trades[k]) in ledger && CreditRow(m, trades[k]) in ledger
    ensures Missing(m, ledger, trades, {}) <= 2 * Disagreements(m, trades)
  {
    if trades != [] {
      var last := trades[|trades| - 1];
      if Sought(m, last) == last.Row(m) {
        PostedIsSettled(m, ledger, last);
      }
      LittleMissing(m, ledger, trades[..|trades| - 1]);
    }
  }

  lemma PostedIsSettled(m: Maths, ledger: seq<Entry>, tr: Trade)
    requires DebitRow(m, tr) in ledger && CreditRow(m, tr) in ledger && Sought(m, tr) == tr.Row(m)
    ensures BuyerSettled(m, ledger, tr) && SellerSettled(m, ledger, tr)
  {
    NamesItsOrder(Buy, tr.buy);
    NamesItsOrder(Sell, tr.sell);
  }

  lemma NamesItsOrder(side: Side, id: nat)
    ensures Contains(Describe(FillOf(side, id)), Needle(id))
  {
    var text := Describe(FillOf(side, id));
    var at := |text| - |Needle(id)|;
    assert OccursAt(text, Needle(id), at);
  }

  /**
   After any run every trade has its two rows, so the job reports at most the trades for which
   it computes another amount than the engine did.
   */
  lemma SettlementsAlwaysVerify(m: Maths, seed: Seeds, cs: seq<Commit>)
    requires HoldingsOk(seed)
    ensures var t := Run(m, seed, cs);
      && Missing(m, t.ledger, t.trades, {}) <= 2 * Disagreements(m, t.trades)
      && forall k :: 0 <= k < |t.trades| ==> DebitRow(m, t.trades[k]) in t.ledger && CreditRow(m, t.trades[k]) in t.ledger
  {
    RunKeepsInv(m, seed, cs);
    LittleMissing(m, Run(m, seed, cs).ledger, Run(m, seed, cs).trades);
  }

  lemma {:induction false} DigitsAreDigits(n: nat)
    ensures Digits(n) != [] && forall k :: 0 <= k < |Digits(n)| ==> '0' <= Digits(n)[k] <= '9'
  {
    if n >= 10 {
      DigitsAreDigits(n / 10);
    }
  }

  predicate EndsInMark(lead: string) {
    |lead| >= 7 && lead[|lead| - 7..] == "order #" && '#' !in lead[..|lead| - 1]
  }

  lemma MarkOccurs(lead: string, tail: string, part: string)
    requires EndsInMark(lead) && part <= tail
    ensures Contains(lead + tail, "order #" + part)
  {
    var text, needle, at := lead + tail, "order #" + part, |lead| - 7;
    assert text[at..at + |needle|] == lead[at..] + tail[..|part|];
    assert OccursAt(text, needle, at);
  }

  lemma OnlyMark(lead: string, tail: string, k: nat)
    requires EndsInMark(lead) && '#' !in tail && k < |lead + tail|
    ensures (lead + tail)[k] == '#' ==> k == |lead| - 1
  {
    if k < |lead| - 1 {
      assert (lead + tail)[k] == lead[..|lead| - 1][k];
    } else if k >= |lead| {
      assert (lead + tail)[k] == tail[k - |lead|];
    }
  }

  lemma MarkOccursOnce(lead: string, tail: string, part: string, i: nat)
    requires EndsInMark(lead) && '#' !in tail && OccursAt(lead + tail, "order #" + part, i)
    ensures part <= tail
  {
    var text, needle, at := lead + tail, "order #" + part, |lead| - 7;
    var found := text[i..i + |needle|];
    assert found[6] == needle[6] == '#' && found[6] == text[i + 6];
    OnlyMark(lead, tail, i + 6);
    assert i == at;
    assert part == needle[7..] == found[7..];
    assert found[7..] == tail[..|part|];
  }

  /** In a text with a single '#', a pattern that holds it can occur in one place only. */
  lemma SingleMark(lead: string, tail: string, part: string)
    requires EndsInMark(lead) && '#' !in tail
    ensures Contains(lead + tail, "order #" + part) <==> part <= tail
  {
    if part <= tail {
      MarkOccurs(lead, tail, part);
    }
    if Contains(lead + tail, "order #" + part) {
      var i :| 0 <= i <= |lead + tail| && OccursAt(lead + tail, "order #" + part, i);
      MarkOccursOnce(lead, tail, part, i);
    }
  }

  /** The pattern finds the row of any order whose number starts with the digits looked for. */
  lemma PatternMatchesPrefixes(side: Side, id: nat, other: nat)
    ensures Contains(Describe(FillOf(side, other)), Needle(id)) <==> Digits(id) <= Digits(other)
  {
    DigitsAreDigits(other);
    assert BUY_TEXT[|BUY_TEXT| - 7..] == "order #" && SELL_TEXT[|SELL_TEXT| - 7..] == "order #";
    assert "Trade fill: buy order " == BUY_TEXT[..22] && '#' !in "Trade fill: buy order ";
    assert "Trade fill: sell order " == SELL_TEXT[..23] && '#' !in "Trade fill: sell order ";
    SingleMark(if side == Buy then BUY_TEXT else SELL_TEXT, Digits(other), Digits(id));
  }
}
