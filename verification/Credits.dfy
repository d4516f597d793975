/** The credit ledger: idempotent grants, reservations and refunds, and what their runs conserve. */
module Credits {
  import opened Basics

  datatype Ledger = Ledger(
    balances: map<string, int>, purchased: map<string, int>, consumed: map<string, int>, settlements: set<string>)

  const EMPTY := Ledger(map[], map[], map[], {})

  datatype Snapshot = Snapshot(wallet: string, available: int, purchased: int, consumed: int)

  datatype LedgerError = NonPositiveCredits | MissingSettlement | InsufficientCredits

  /** `d.get(key, 0)`. */
  function Count(m: map<string, int>, key: string): int {
    if key in m then m[key] else 0
  }

  function SnapshotOf(l: Ledger, wallet: string): Snapshot {
    var key := Lower(wallet);
    Snapshot(key, Count(l.balances, key), Count(l.purchased, key), Count(l.consumed, key))
  }

  function Granted(l: Ledger, wallet: string, credits: int, settlement: string): Ledger {
    var key := Lower(wallet);
    if settlement in l.settlements then l
    else Ledger(l.balances[key := Count(l.balances, key) + credits],
                l.purchased[key := Count(l.purchased, key) + credits],
                l.consumed, l.settlements + {settlement})
  }

  function Consumed(l: Ledger, wallet: string): Ledger {
    var key := Lower(wallet);
    if Count(l.balances, key) < 1 then l
    else l.(balances := l.balances[key := Count(l.balances, key) - 1],
            consumed := l.consumed[key := Count(l.consumed, key) + 1])
  }

  function Refunded(l: Ledger, wallet: string): Ledger {
    var key := Lower(wallet);
    if Count(l.consumed, key) <= 0 then l
    else l.(balances := l.balances[key := Count(l.balances, key) + 1],
            consumed := l.consumed[key := Count(l.consumed, key) - 1])
  }

  class CreditLedger {
    var balances: map<string, int>
    var purchased: map<string, int>
    var consumed: map<string, int>
    var settlements: set<string>

    constructor ()
      ensures State() == EMPTY
    {
      balances, purchased, consumed, settlements := map[], map[], map[], {};
    }

    function State(): Ledger
      reads this
    {
      Ledger(balances, purchased, consumed, settlements)
    }

    method TakeSnapshot(wallet: string) returns (s: Snapshot)
      ensures s == SnapshotOf(State(), wallet)
    {
      var key := Lower(wallet);
      s := Snapshot(key, Count(balances, key), Count(purchased, key), Count(consumed, key));
    }

    method GrantSettled(wallet: string, credits: int, settlementId: string) returns (r: Result<Snapshot, LedgerError>)
      modifies this
      ensures credits < 1 ==> r == Err(NonPositiveCredits) && State() == old(State())
      ensures credits >= 1 && settlementId == "" ==> r == Err(MissingSettlement) && State() == old(State())
      ensures credits >= 1 && settlementId != "" ==>
        State() == Granted(old(State()), wallet, credits, settlementId) && r == Ok(SnapshotOf(State(), wallet))
    {
      if credits < 1 {
        return Err(NonPositiveCredits);
      }
      if settlementId == "" {
        return Err(MissingSettlement);
      }
      var key := Lower(wallet);
      if settlementId !in settlements {
        settlements := settlements + {settlementId};
        balances := balances[key := Count(balances, key) + credits];
        purchased := purchased[key := Count(purchased, key) + credits];
      }
      LowerIdempotent(wallet);
      var s := TakeSnapshot(key);
      return Ok(s);
    }

    method Consume(wallet: string) returns (r: Result<Snapshot, LedgerError>)
      modifies this
      ensures State() == Consumed(old(State()), wallet)
      ensures r ==
        if Count(old(balances), Lower(wallet)) < 1 then Err(InsufficientCredits) else Ok(SnapshotOf(State(), wallet))
    {
      var key := Lower(wallet);
      if Count(balances, key) < 1 {
        return Err(InsufficientCredits);
      }
      balances := balances[key := balances[key] - 1];
      consumed := consumed[key := Count(consumed, key) + 1];
      LowerIdempotent(wallet);
      var s := TakeSnapshot(key);
      return Ok(s);
    }

    method Refund(wallet: string) returns (s: Snapshot)
      modifies this
      ensures State() == Refunded(old(State()), wallet) && s == SnapshotOf(State(), wallet)
    {
      var key := Lower(wallet);
      if Count(consumed, key) > 0 {
        balances := balances[key := Count(balances, key) + 1];
        consumed := consumed[key := consumed[key] - 1];
      }
      LowerIdempotent(wallet);
      s := TakeSnapshot(key);
    }

    method Clear()
      modifies this
      ensures State() == EMPTY
    {
      balances, purchased, consumed, settlements := map[], map[], map[], {};
    }
  }

  // ---- what one operation does to every wallet ----

  predicate SameWallet(a: string, b: string) {
    Lower(a) == Lower(b)
  }

  /** A reservation takes one available credit of its wallet, if it has one, and of no other. */
  lemma ConsumeTakesOne(l: Ledger, wallet: string, other: string)
    ensures var before, after := SnapshotOf(l, other), SnapshotOf(Consumed(l, wallet), other);
      var taken := if SameWallet(wallet, other) && before.available >= 1 then 1 else 0;
      after == Snapshot(Lower(other), before.available - taken, before.purchased, before.consumed + taken)
    ensures Consumed(l, wallet).settlements == l.settlements
  {
  }

  /** A refund gives one consumed credit back to its wallet, if it has consumed one, and to no other. */
  lemma RefundGivesOne(l: Ledger, wallet: string, other: string)
    ensures var before, after := SnapshotOf(l, other), SnapshotOf(Refunded(l, wallet), other);
      var given := if SameWallet(wallet, other) && before.consumed >= 1 then 1 else 0;
      after == Snapshot(Lower(other), before.available + given, before.purchased, before.consumed - given)
    ensures Refunded(l, wallet).settlements == l.settlements
  {
  }

  /** A grant under a new settlement id adds its credits to its wallet, and to no other. */
  lemma GrantAddsOnce(l: Ledger, wallet: string, credits: int, settlement: string, other: string)
    ensures var before, after := SnapshotOf(l, other), SnapshotOf(Granted(l, wallet, credits, settlement), other);
      var added := if SameWallet(wallet, other) && settlement !in l.settlements then credits else 0;
      after == Snapshot(Lower(other), before.available + added, before.purchased + added, before.consumed)
    ensures Granted(l, wallet, credits, settlement).settlements == l.settlements + {settlement}
  {
  }

  /** Credits used: successful reservations less the refunds that had something to give back. */
  function Used(ops: seq<Operation>, wallet: string): int {
    if ops == [] then 0
    else
      var init, last := ops[..|ops| - 1], ops[|ops| - 1];
      var now := SnapshotOf(Exec(EMPTY, init), wallet);
      Used(init, wallet)
      + (if last.Consume? && SameWallet(last.wallet, wallet) && now.available >= 1 then 1
         else if last.Refund? && SameWallet(last.wallet, wallet) && now.consumed >= 1 then -1
         else 0)
  }

  /** Over any run a wallet's snapshot shows its first-accepted credits, and of these the used ones as consumed. */
  lemma {:induction false} SnapshotShowsUse(ops: seq<Operation>, wallet: string)
    ensures var bought := FirstGrants(ops, Some(Lower(wallet)));
      SnapshotOf(Exec(EMPTY, ops), wallet)
        == Snapshot(Lower(wallet), bought - Used(ops, wallet), bought, Used(ops, wallet))
    decreases |ops|
  {
    hide Granted, Consumed, Refunded;
    if ops != [] {
      var init, last := ops[..|ops| - 1], ops[|ops| - 1];
      var l := Exec(EMPTY, init);
      SnapshotShowsUse(init, wallet);
      PurchasesAreFirstGrants(init, Lower(wallet));
      match last {
        case Grant(w, credits, settlement) => GrantAddsOnce(l, w, credits, settlement, wallet);
        case Consume(w) => ConsumeTakesOne(l, w, wallet);
        case Refund(w) => RefundGivesOne(l, w, wallet);
      }
    }
  }

  // ---- runs ----

  datatype Operation =
    | Grant(wallet: string, credits: int, settlement: string)
    | Consume(wallet: string)
    | Refund(wallet: string)

  function Apply(l: Ledger, op: Operation): Ledger {
    match op
    case Grant(wallet, credits, settlement) =>
      if credits < 1 || settlement == "" then l else Granted(l, wallet, credits, settlement)
    case Consume(wallet) => Consumed(l, wallet)
    case Refund(wallet) => Refunded(l, wallet)
  }

  function Exec(l: Ledger, ops: seq<Operation>): Ledger {
    if ops == [] then l else Apply(Exec(l, ops[..|ops| - 1]), ops[|ops| - 1])
  }

  ghost predicate Conserved(l: Ledger) {
    forall w :: Count(l.balances, w) + Count(l.consumed, w) == Count(l.purchased, w)
      && Count(l.balances, w) >= 0 && Count(l.consumed, w) >= 0
  }

  /** Over any run available + consumed = purchased for every wallet, and nothing is negative. */
  lemma {:induction false} CreditsConserved(ops: seq<Operation>)
    ensures Conserved(Exec(EMPTY, ops))
    decreases |ops|
  {
    if ops != [] {
      CreditsConserved(ops[..|ops| - 1]);
    }
  }

  // ---- grants are counted once per settlement ----

  predicate Accepted(op: Operation) {
    op.Grant? && op.credits >= 1 && op.settlement != ""
  }

  /** The settlement ids accepted so far. */
  function Settled(ops: seq<Operation>): set<string> {
    set op <- ops | Accepted(op) :: op.settlement
  }

  /** Position `i` holds the first accepted grant of its settlement id. */
  predicate FirstOfSettlement(ops: seq<Operation>, i: nat)
    requires i < |ops|
  {
    Accepted(ops[i]) && ops[i].settlement !in Settled(ops[..i])
  }

  /** The credits of first-accepted grants, to one wallet or (None) to all. */
  function FirstGrants(ops: seq<Operation>, wallet: Option<string>): int {
    if ops == [] then 0
    else
      var init, i := ops[..|ops| - 1], |ops| - 1;
      FirstGrants(init, wallet)
      + (if FirstOfSettlement(ops, i) && (wallet.None? || Lower(ops[i].wallet) == wallet.value) then ops[i].credits
         else 0)
  }

  lemma SettledSnoc(ops: seq<Operation>)
    requires ops != []
    ensures var init, last := ops[..|ops| - 1], ops[|ops| - 1];
      Settled(ops) == Settled(init) + (if Accepted(last) then {last.settlement} else {})
  {
    var init, last := ops[..|ops| - 1], ops[|ops| - 1];
    assert ops == init + [last];
    assert forall op :: op in ops <==> op in init || op == last;
  }

  /** Each wallet's purchases are the first-accepted credits of its distinct settlements. */
  lemma {:induction false} PurchasesAreFirstGrants(ops: seq<Operation>, wallet: string)
    ensures var l := Exec(EMPTY, ops);
      l.settlements == Settled(ops) && Count(l.purchased, wallet) == FirstGrants(ops, Some(wallet))
    decreases |ops|
  {
    if ops != [] {
      PurchasesAreFirstGrants(ops[..|ops| - 1], wallet);
      SettledSnoc(ops);
    }
  }

  /** The sum of all values. */
  ghost function Total(m: map<string, int>): int
    decreases |m|
  {
    if m == map[] then 0
    else
      var k :| k in m;
      assert (m - {k}).Keys == m.Keys - {k};
      m[k] + Total(m - {k})
  }

  lemma {:induction false} TotalWithout(m: map<string, int>, key: string)
    requires key in m
    ensures Total(m) == m[key] + Total(m - {key})
    decreases |m|
  {
    var k :| k in m && Total(m) == m[k] + Total(m - {k});
    if k != key {
      assert (m - {k}).Keys == m.Keys - {k} && (m - {key}).Keys == m.Keys - {key};
      TotalWithout(m - {k}, key);
      TotalWithout(m - {key}, k);
      assert m - {k} - {key} == m - {key} - {k};
    }
  }

  lemma TotalUpdate(m: map<string, int>, key: string, v: int)
    ensures Total(m[key := v]) == Total(m) - Count(m, key) + v
  {
    var u := m[key := v];
    TotalWithout(u, key);
    if key in m {
      TotalWithout(m, key);
      assert u - {key} == m - {key};
    } else {
      assert u - {key} == m;
    }
  }

  /** All purchases together are the first-accepted credits, one grant per settlement id. */
  lemma {:induction false} TotalPurchased(ops: seq<Operation>)
    ensures Total(Exec(EMPTY, ops).purchased) == FirstGrants(ops, None)
    decreases |ops|
  {
    if ops != [] {
      var init, last := ops[..|ops| - 1], ops[|ops| - 1];
      TotalPurchased(init);
      PurchasesAreFirstGrants(init, "");
      if last.Grant? {
        var l, key := Exec(EMPTY, init), Lower(last.wallet);
        TotalUpdate(l.purchased, key, Count(l.purchased, key) + last.credits);
      }
    }
  }

  /** A settlement id that was accepted once never grants again, whatever wallet or amount it comes with. */
  lemma ReplayChangesNothing(ops: seq<Operation>, replay: Operation)
    requires replay.Grant? && replay.settlement in Settled(ops)
    ensures Exec(EMPTY, ops + [replay]) == Exec(EMPTY, ops)
  {
    PurchasesAreFirstGrants(ops, "");
    assert (ops + [replay])[..|ops|] == ops;
  }

  /** A refund undoes a successful reservation. */
  lemma RefundUndoesConsume(l: Ledger, wallet: string, other: string)
    requires Conserved(l) && Count(l.balances, Lower(wallet)) >= 1
    ensures SnapshotOf(Refunded(Consumed(l, wallet), wallet), other) == SnapshotOf(l, other)
    ensures Refunded(Consumed(l, wallet), wallet).settlements == l.settlements
  {
  }
}
