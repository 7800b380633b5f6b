/**
 * Knowledge credits: accounts with what was earned and spent, and the log of
 * transactions. The handlers change found accounts in place; on a transfer to oneself
 * sender and receiver are the same object.
 */
module KnowledgeCredits {
  import opened Seqs
  import opened JsonStores

  datatype Account = Account(id: string, did: string, earned: int, spent: int, balance: int, lastUpdated: int)

  datatype Transaction = Transaction(id: string, fromDid: string, toDid: string, amount: int,
                                     reason: string, timestamp: int)

  datatype Ledger = Ledger(accounts: seq<Account>, log: seq<Transaction>)

  datatype Outcome = Transferred(tx: Transaction) | InsufficientCredits

  const SYSTEM := "system"

  function AccountId(a: Account): string { a.id }

  function TransactionId(t: Transaction): string { t.id }

  function HasDid(did: string): Account -> bool { (a: Account) => a.did == did }

  function NewAccount(did: string, now: int): Account {
    Account(did, did, 0, 0, 0, now)
  }

  function Debited(a: Account, amount: int, now: int): Account {
    a.(spent := a.spent + amount, balance := a.balance - amount, lastUpdated := now)
  }

  function Credited(a: Account, amount: int, now: int): Account {
    a.(earned := a.earned + amount, balance := a.balance + amount, lastUpdated := now)
  }

  predicate Has(accounts: seq<Account>, did: string) {
    Filter(accounts, HasDid(did)) != []
  }

  /** The stored account, or a new one that is not stored yet. */
  function AccountOf(accounts: seq<Account>, did: string, now: int): Account {
    var existing := Filter(accounts, HasDid(did));
    if existing != [] then existing[0] else NewAccount(did, now)
  }

  // ---- the operations on values ------------------------------------------------------------

  function Lookup(l: Ledger, did: string, now: int): Ledger {
    if Has(l.accounts, did) then l
    else l.(accounts := Put(l.accounts, AccountId, NewAccount(did, now)))
  }

  function Award(l: Ledger, did: string, amount: int, reason: string, txId: string, now: int): Ledger {
    Ledger(Put(l.accounts, AccountId, Credited(AccountOf(l.accounts, did, now), amount, now)),
           Put(l.log, TransactionId, Transaction(txId, SYSTEM, did, amount, reason, now)))
  }

  function Transfer(l: Ledger, from: string, to: string, amount: int, reason: string, txId: string, now: int)
    : (Ledger, Outcome)
  {
    var sender := AccountOf(l.accounts, from, now);
    if sender.balance < amount then (l, InsufficientCredits)
    else
      // the same object, when it is stored
      var aliased := from == to && Has(l.accounts, from);
      var debited := Debited(sender, amount, now);
      var credited := Credited(if aliased then debited else AccountOf(l.accounts, to, now), amount, now);
      var accounts := Put(l.accounts, AccountId, if aliased then credited else debited);
      var tx := Transaction(txId, from, to, amount, reason, now);
      (Ledger(Put(accounts, AccountId, credited), Put(l.log, TransactionId, tx)), Transferred(tx))
  }

  // ---- accounts by DID -----------------------------------------------------------------------

  ghost predicate Keyed(accounts: seq<Account>) {
    && DistinctIds(accounts, AccountId)
    && forall i :: 0 <= i < |accounts| ==> accounts[i].id == accounts[i].did
  }

  /** Filtering by DID finds what the id finds. */
  lemma {:induction false} AccountOfIsStored(accounts: seq<Account>, did: string, now: int)
    requires Keyed(accounts)
    ensures var i := IndexOfId(accounts, AccountId, did);
            && (Has(accounts, did) <==> i >= 0)
            && (i >= 0 ==> AccountOf(accounts, did, now) == accounts[i])
  {
    if accounts != [] && accounts[0].did != did {
      assert forall k :: 0 <= k < |accounts[1..]| ==> accounts[1..][k] == accounts[k + 1];
      AccountOfIsStored(accounts[1..], did, now);
    }
  }

  /** What an account shows after another was stored. */
  lemma AccountAfterPut(accounts: seq<Account>, a: Account, did: string, now: int)
    requires Keyed(accounts) && a.id == a.did
    ensures var after := Put(accounts, AccountId, a);
            && Keyed(after)
            && (Has(after, did) <==> did == a.did || Has(accounts, did))
            && AccountOf(after, did, now) == (if did == a.did then a else AccountOf(accounts, did, now))
  {
    hide IndexOfId, Filter;
    var after := Put(accounts, AccountId, a);
    var i := IndexOfId(accounts, AccountId, a.id);
    PutKeepsDistinct(accounts, AccountId, a);
    AccountOfIsStored(accounts, did, now);
    AccountOfIsStored(after, did, now);
    IndexIsUnique(after, AccountId, if i >= 0 then i else |accounts|);
    var j := IndexOfId(accounts, AccountId, did);
    if j >= 0 && did != a.did {
      IndexIsUnique(after, AccountId, j);
    }
    var k := IndexOfId(after, AccountId, did);
    if k >= 0 && did != a.did {
      assert k < |accounts| && accounts[k] == after[k];
    }
  }

  // ---- the books -----------------------------------------------------------------------------

  function AmountTo(did: string): Transaction -> int {
    (t: Transaction) => if t.toDid == did then t.amount else 0
  }

  function AmountFrom(did: string): Transaction -> int {
    (t: Transaction) => if t.fromDid == did then t.amount else 0
  }

  /** Replay of the log: what a DID was given, and what it gave. */
  function Received(log: seq<Transaction>, did: string): int { Sum(log, AmountTo(did)) }

  function Given(log: seq<Transaction>, did: string): int { Sum(log, AmountFrom(did)) }

  function AccountBalance(a: Account): int { a.balance }

  function TotalBalance(accounts: seq<Account>): int { Sum(accounts, AccountBalance) }

  /** The account of `did` is what a replay of the log makes it; without one, zero. */
  ghost predicate BookOf(l: Ledger, did: string) {
    var a := AccountOf(l.accounts, did, 0);
    && a.earned == Received(l.log, did)
    && a.balance == a.earned - a.spent
    // awards are logged as given by "system", but no account is debited for them
    && (did != SYSTEM ==> a.spent == Given(l.log, did))
  }

  ghost predicate Books(l: Ledger) {
    && Keyed(l.accounts)
    && DistinctIds(l.log, TransactionId)
    && forall did :: BookOf(l, did)
  }

  ghost predicate FreshId(l: Ledger, txId: string) {
    IndexOfId(l.log, TransactionId, txId) == -1
  }

  lemma SumPut(accounts: seq<Account>, a: Account)
    requires Keyed(accounts) && a.id == a.did
    ensures TotalBalance(Put(accounts, AccountId, a))
            == TotalBalance(accounts) - AccountOf(accounts, a.did, 0).balance + a.balance
  {
    AccountOfIsStored(accounts, a.did, 0);
    var i := IndexOfId(accounts, AccountId, a.id);
    if i >= 0 {
      SumUpdate(accounts, i, a, AccountBalance);
    } else {
      SumSnoc(accounts, a, AccountBalance);
    }
  }

  lemma LogGrows(l: Ledger, t: Transaction, did: string)
    requires FreshId(l, t.id) && DistinctIds(l.log, TransactionId)
    ensures var log := Put(l.log, TransactionId, t);
            && DistinctIds(log, TransactionId)
            && Received(log, did) == Received(l.log, did) + (if t.toDid == did then t.amount else 0)
            && Given(log, did) == Given(l.log, did) + (if t.fromDid == did then t.amount else 0)
  {
    PutKeepsDistinct(l.log, TransactionId, t);
    SumSnoc(l.log, t, AmountTo(did));
    SumSnoc(l.log, t, AmountFrom(did));
  }

  /** The time only enters a new account's stamp. */
  lemma AccountOfAnyTime(accounts: seq<Account>, did: string, now: int)
    requires Keyed(accounts)
    ensures var a := AccountOf(accounts, did, now);
            && a == AccountOf(accounts, did, 0).(lastUpdated := a.lastUpdated)
            && a.id == a.did == did
  {
    AccountOfIsStored(accounts, did, now);
    AccountOfIsStored(accounts, did, 0);
  }

  lemma AwardKeepsBooks(l: Ledger, did: string, amount: int, reason: string, txId: string, now: int)
    requires Books(l) && FreshId(l, txId)
    ensures Books(Award(l, did, amount, reason, txId, now))
    ensures TotalBalance(Award(l, did, amount, reason, txId, now).accounts) == TotalBalance(l.accounts) + amount
    ensures var a := AccountOf(l.accounts, did, 0);
            AccountOf(Award(l, did, amount, reason, txId, now).accounts, did, 0)
            == a.(earned := a.earned + amount, balance := a.balance + amount, lastUpdated := now)
  {
    hide Filter, Sum, AccountOf;
    var a' := Credited(AccountOf(l.accounts, did, now), amount, now);
    var t := Transaction(txId, SYSTEM, did, amount, reason, now);
    AccountOfAnyTime(l.accounts, did, now);
    SumPut(l.accounts, a');
    forall d
      ensures BookOf(Award(l, did, amount, reason, txId, now), d)
    {
      AccountAfterPut(l.accounts, a', d, 0);
      LogGrows(l, t, d);
      assert BookOf(l, d);
    }
    AccountAfterPut(l.accounts, a', did, 0);
    LogGrows(l, t, did);
  }

  /**
   * A self-transfer by an account that is not stored yet: sender and receiver are then two
   * objects, and storing the receiver drops the sender's debit.
   */
  predicate DebitIsDropped(l: Ledger, from: string, to: string) {
    from == to && !Has(l.accounts, from)
  }

  /** What a successful transfer does to every account. */
  lemma TransferMoves(l: Ledger, from: string, to: string, amount: int, reason: string, txId: string, now: int,
                      did: string)
    requires Keyed(l.accounts)
    requires Transfer(l, from, to, amount, reason, txId, now).1.Transferred?
    ensures var after := Transfer(l, from, to, amount, reason, txId, now).0.accounts;
            var a, a' := AccountOf(l.accounts, did, 0), AccountOf(after, did, 0);
            && Keyed(after)
            && a'.earned == a.earned + (if did == to then amount else 0)
            && a'.spent == a.spent + (if did == from && !DebitIsDropped(l, from, to) then amount else 0)
            && a'.balance - a.balance == (a'.earned - a.earned) - (a'.spent - a.spent)
            && (did == from || did == to ==> a'.lastUpdated == now)
  {
    hide Filter, Sum, AccountOf;
    AccountOfAnyTime(l.accounts, from, now);
    AccountOfAnyTime(l.accounts, to, now);
    var aliased := from == to && Has(l.accounts, from);
    var debited := Debited(AccountOf(l.accounts, from, now), amount, now);
    var credited := Credited(if aliased then debited else AccountOf(l.accounts, to, now), amount, now);
    var first := if aliased then credited else debited;
    AccountAfterPut(l.accounts, first, did, 0);
    AccountAfterPut(Put(l.accounts, AccountId, first), credited, did, 0);
  }

  lemma TransferTotal(l: Ledger, from: string, to: string, amount: int, reason: string, txId: string, now: int)
    requires Keyed(l.accounts)
    requires Transfer(l, from, to, amount, reason, txId, now).1.Transferred?
    ensures TotalBalance(Transfer(l, from, to, amount, reason, txId, now).0.accounts)
            == TotalBalance(l.accounts) + (if DebitIsDropped(l, from, to) then amount else 0)
  {
    hide Filter, Sum, AccountOf, TotalBalance;
    AccountOfAnyTime(l.accounts, from, now);
    AccountOfAnyTime(l.accounts, to, now);
    var aliased := from == to && Has(l.accounts, from);
    var debited := Debited(AccountOf(l.accounts, from, now), amount, now);
    var credited := Credited(if aliased then debited else AccountOf(l.accounts, to, now), amount, now);
    var first := if aliased then credited else debited;
    var accounts := Put(l.accounts, AccountId, first);
    AccountAfterPut(l.accounts, first, to, 0);
    SumPut(l.accounts, first);
    SumPut(accounts, credited);
  }

  lemma TransferLogs(l: Ledger, from: string, to: string, amount: int, reason: string, txId: string, now: int,
                     did: string)
    requires DistinctIds(l.log, TransactionId) && FreshId(l, txId)
    requires Transfer(l, from, to, amount, reason, txId, now).1.Transferred?
    ensures var log := Transfer(l, from, to, amount, reason, txId, now).0.log;
            && DistinctIds(log, TransactionId)
            && Received(log, did) == Received(l.log, did) + (if did == to then amount else 0)
            && Given(log, did) == Given(l.log, did) + (if did == from then amount else 0)
  {
    hide Filter, Sum, AccountOf;
    LogGrows(l, Transaction(txId, from, to, amount, reason, now), did);
  }

  /**
   * A transfer fails exactly when the sender's balance is below the amount, and then
   * changes nothing. A successful one keeps the books, unless it is a nonzero
   * self-transfer by an account that is not stored.
   */
  lemma TransferKeepsBooks(l: Ledger, from: string, to: string, amount: int, reason: string, txId: string, now: int)
    requires Books(l) && FreshId(l, txId)
    ensures var (l', outcome) := Transfer(l, from, to, amount, reason, txId, now);
            && (outcome.InsufficientCredits? <==> AccountOf(l.accounts, from, 0).balance < amount)
            && (outcome.InsufficientCredits? ==> l' == l)
            && (outcome.Transferred? ==>
                  (Books(l') <==> !(DebitIsDropped(l, from, to) && amount != 0 && from != SYSTEM)))
  {
    hide Filter, Sum, AccountOf, Put, DebitIsDropped;
    AccountOfAnyTime(l.accounts, from, now);
    var (l', outcome) := Transfer(l, from, to, amount, reason, txId, now);
    if outcome.Transferred? {
      forall d
        ensures BookOf(l', d) <==> !(d == from && DebitIsDropped(l, from, to) && amount != 0 && d != SYSTEM)
      {
        TransferBook(l, from, to, amount, reason, txId, now, d);
      }
      assert BookOf(l', from) <==> !(DebitIsDropped(l, from, to) && amount != 0 && from != SYSTEM);
      TransferMoves(l, from, to, amount, reason, txId, now, from);
      TransferLogs(l, from, to, amount, reason, txId, now, from);
    }
  }

  lemma TransferBook(l: Ledger, from: string, to: string, amount: int, reason: string, txId: string, now: int,
                     d: string)
    requires Books(l) && FreshId(l, txId)
    requires Transfer(l, from, to, amount, reason, txId, now).1.Transferred?
    ensures BookOf(Transfer(l, from, to, amount, reason, txId, now).0, d)
            <==> !(d == from && DebitIsDropped(l, from, to) && amount != 0 && d != SYSTEM)
  {
    hide Filter, Sum, AccountOf, Put, DebitIsDropped, Transfer, Received, Given;
    TransferMoves(l, from, to, amount, reason, txId, now, d);
    TransferLogs(l, from, to, amount, reason, txId, now, d);
    assert BookOf(l, d);
  }

  // ---- whole runs ------------------------------------------------------------------------------

  datatype Op =
    | LookupOp(did: string, now: int)
    | AwardOp(did: string, amount: int, reason: string, txId: string, now: int)
    | TransferOp(from: string, to: string, amount: int, reason: string, txId: string, now: int)

  function Step(l: Ledger, op: Op): Ledger {
    match op
    case LookupOp(did, now) => Lookup(l, did, now)
    case AwardOp(did, amount, reason, txId, now) => Award(l, did, amount, reason, txId, now)
    case TransferOp(from, to, amount, reason, txId, now) => Transfer(l, from, to, amount, reason, txId, now).0
  }

  function Run(ops: seq<Op>): Ledger {
    if ops == [] then Ledger([], []) else Step(Run(ops[..|ops| - 1]), ops[|ops| - 1])
  }

  /** Transaction ids are new when they are drawn. */
  ghost predicate Legal(ops: seq<Op>) {
    ops == [] ||
    var front, op := ops[..|ops| - 1], ops[|ops| - 1];
    Legal(front) && (op.LookupOp? || FreshId(Run(front), op.txId))
  }

  predicate NonNegative(op: Op) { op.LookupOp? || op.amount >= 0 }

  /** The transactions that the operations stand for: every award, and every transfer that the sender could pay. */
  function Entries(ops: seq<Op>): seq<Transaction> {
    if ops == [] then []
    else
      var front := ops[..|ops| - 1];
      Entries(front)
      + match ops[|ops| - 1]
        case LookupOp(_, _) => []
        case AwardOp(did, amount, reason, txId, now) => [Transaction(txId, "system", did, amount, reason, now)]
        case TransferOp(from, to, amount, reason, txId, now) =>
          if AccountOf(Run(front).accounts, from, 0).balance < amount then []
          else [Transaction(txId, from, to, amount, reason, now)]
  }

  /** Over every run, the log lists those transactions, in order. */
  lemma {:induction false} RunLogsTheOperations(ops: seq<Op>)
    requires Legal(ops)
    ensures Run(ops).log == Entries(ops)
  {
    if ops != [] {
      hide Put;
      var front, op := ops[..|ops| - 1], ops[|ops| - 1];
      RunLogsTheOperations(front);
      match op {
        case LookupOp(_, _) =>
        case AwardOp(did, amount, reason, txId, now) =>
          FreshIsAppended(Run(front), Transaction(txId, SYSTEM, did, amount, reason, now));
        case TransferOp(from, to, amount, reason, txId, now) =>
          FreshIsAppended(Run(front), Transaction(txId, from, to, amount, reason, now));
      }
    }
  }

  lemma FreshIsAppended(l: Ledger, t: Transaction)
    requires FreshId(l, t.id)
    ensures Put(l.log, TransactionId, t) == l.log + [t]
  {
  }

  /** What was awarded in all. */
  function Awarded(ops: seq<Op>): int {
    if ops == [] then 0
    else Awarded(ops[..|ops| - 1]) + if ops[|ops| - 1].AwardOp? then ops[|ops| - 1].amount else 0
  }

  lemma LookupKeepsBooks(l: Ledger, did: string, now: int)
    requires Books(l)
    ensures Books(Lookup(l, did, now)) && Has(Lookup(l, did, now).accounts, did)
    ensures AccountOf(Lookup(l, did, now).accounts, did, 0)
            == if Has(l.accounts, did) then AccountOf(l.accounts, did, 0) else Account(did, did, 0, 0, 0, now)
    ensures TotalBalance(Lookup(l, did, now).accounts) == TotalBalance(l.accounts)
    ensures forall d :: AccountOf(Lookup(l, did, now).accounts, d, 0).balance == AccountOf(l.accounts, d, 0).balance
  {
    hide Filter, Sum;
    if !Has(l.accounts, did) {
      var l' := Lookup(l, did, now);
      SumPut(l.accounts, NewAccount(did, now));
      AccountAfterPut(l.accounts, NewAccount(did, now), did, 0);
      forall d
        ensures BookOf(l', d) && AccountOf(l'.accounts, d, 0).balance == AccountOf(l.accounts, d, 0).balance
      {
        AccountAfterPut(l.accounts, NewAccount(did, now), d, 0);
        assert BookOf(l, d);
      }
    }
  }

  /** Amounts may be negative, but not on a transfer to oneself. */
  predicate Sound(op: Op) {
    op.TransferOp? && op.from == op.to ==> op.amount >= 0
  }

  /** Over every run, each account is what a replay of the log makes it. */
  lemma {:induction false} RunKeepsBooks(ops: seq<Op>)
    requires Legal(ops) && forall op :: op in ops ==> Sound(op)
    ensures Books(Run(ops))
  {
    if ops != [] {
      var front, op := ops[..|ops| - 1], ops[|ops| - 1];
      assert op in ops;
      RunKeepsBooks(front);
      StepKeepsBooks(Run(front), op);
    } else {
      assert forall did :: BookOf(Run([]), did);
    }
  }

  lemma StepKeepsBooks(l: Ledger, op: Op)
    requires Books(l) && Sound(op) && (op.LookupOp? || FreshId(l, op.txId))
    ensures Books(Step(l, op))
  {
    hide Filter, Sum, Books, Put, AccountOf, BookOf, FreshId;
    match op {
      case LookupOp(did, now) => LookupKeepsBooks(l, did, now);
      case AwardOp(did, amount, reason, txId, now) => AwardKeepsBooks(l, did, amount, reason, txId, now);
      case TransferOp(from, to, amount, reason, txId, now) =>
        TransferKeepsBooks(l, from, to, amount, reason, txId, now);
        NoDebitDropped(l, from, to, amount, reason, txId, now);
    }
  }

  /** An account that is not stored has no balance, so it can only send nothing. */
  lemma NoDebitDropped(l: Ledger, from: string, to: string, amount: int, reason: string, txId: string, now: int)
    requires from == to ==> amount >= 0
    ensures Transfer(l, from, to, amount, reason, txId, now).1.Transferred? && DebitIsDropped(l, from, to)
            ==> amount == 0
  {
  }

  /** What "system" has spent, and what the log says it gave. */
  function SystemSpent(l: Ledger): int { AccountOf(l.accounts, SYSTEM, 0).spent }

  /** Together, balances are what was awarded; "system" has spent what it gave beyond the awards. */
  lemma {:induction false} RunCountsAwards(ops: seq<Op>)
    requires Legal(ops) && forall op :: op in ops ==> Sound(op)
    ensures TotalBalance(Run(ops).accounts) == Awarded(ops)
    ensures SystemSpent(Run(ops)) == Given(Run(ops).log, SYSTEM) - Awarded(ops)
  {
    if ops != [] {
      hide Sound, FreshId, Books, TotalBalance, SystemSpent, Given, Step;
      var front, op := ops[..|ops| - 1], ops[|ops| - 1];
      assert op in ops;
      RunKeepsBooks(front);
      RunCountsAwards(front);
      StepCountsAwards(Run(front), op);
    }
  }

  lemma StepCountsAwards(l: Ledger, op: Op)
    requires Books(l) && Sound(op) && (op.LookupOp? || FreshId(l, op.txId))
    ensures var awarded := if op.AwardOp? then op.amount else 0;
            && TotalBalance(Step(l, op).accounts) == TotalBalance(l.accounts) + awarded
            && SystemSpent(Step(l, op)) - Given(Step(l, op).log, SYSTEM)
               == SystemSpent(l) - Given(l.log, SYSTEM) - awarded
  {
    hide Filter, Sum, Put, BookOf, FreshId, TotalBalance, Given, Lookup, Award, Transfer;
    match op {
      case LookupOp(did, now) => LookupCounts(l, did, now);
      case AwardOp(did, amount, reason, txId, now) => AwardCounts(l, did, amount, reason, txId, now);
      case TransferOp(from, to, amount, reason, txId, now) => TransferCounts(l, from, to, amount, reason, txId, now);
    }
  }

  lemma LookupCounts(l: Ledger, did: string, now: int)
    requires Books(l)
    ensures var l' := Lookup(l, did, now);
            && TotalBalance(l'.accounts) == TotalBalance(l.accounts)
            && SystemSpent(l') == SystemSpent(l) && l'.log == l.log
  {
    hide Filter, Sum, Put, BookOf, TotalBalance;
    LookupKeepsBooks(l, did, now);
    if !Has(l.accounts, did) {
      AccountAfterPut(l.accounts, NewAccount(did, now), SYSTEM, 0);
      AccountOfIsStored(l.accounts, did, 0);
    }
  }

  lemma AwardCounts(l: Ledger, did: string, amount: int, reason: string, txId: string, now: int)
    requires Books(l) && FreshId(l, txId)
    ensures var l' := Award(l, did, amount, reason, txId, now);
            && TotalBalance(l'.accounts) == TotalBalance(l.accounts) + amount
            && SystemSpent(l') == SystemSpent(l) && Given(l'.log, SYSTEM) == Given(l.log, SYSTEM) + amount
  {
    AwardKeepsBooks(l, did, amount, reason, txId, now);
    hide Filter, Sum, Put, BookOf, FreshId, TotalBalance, Given, AccountOf;
    AccountOfAnyTime(l.accounts, did, now);
    AccountAfterPut(l.accounts, Credited(AccountOf(l.accounts, did, now), amount, now), SYSTEM, 0);
    LogGrows(l, Transaction(txId, SYSTEM, did, amount, reason, now), SYSTEM);
  }

  lemma TransferCounts(l: Ledger, from: string, to: string, amount: int, reason: string, txId: string, now: int)
    requires Books(l) && FreshId(l, txId) && (from == to ==> amount >= 0)
    ensures var l' := Transfer(l, from, to, amount, reason, txId, now).0;
            && TotalBalance(l'.accounts) == TotalBalance(l.accounts)
            && SystemSpent(l') - Given(l'.log, SYSTEM) == SystemSpent(l) - Given(l.log, SYSTEM)
  {
    TransferKeepsBooks(l, from, to, amount, reason, txId, now);
    NoDebitDropped(l, from, to, amount, reason, txId, now);
    hide Filter, Sum, Put, AccountOf, BookOf, FreshId, TotalBalance, Given, Transfer, DebitIsDropped;
    if Transfer(l, from, to, amount, reason, txId, now).1.Transferred? {
      TransferTotal(l, from, to, amount, reason, txId, now);
      TransferLogs(l, from, to, amount, reason, txId, now, SYSTEM);
      TransferMoves(l, from, to, amount, reason, txId, now, SYSTEM);
    }
  }

  /** An account named "system" agrees with the log exactly when the awards come to nothing. */
  lemma SystemAgreesIff(ops: seq<Op>)
    requires Legal(ops) && forall op :: op in ops ==> Sound(op)
    ensures SystemSpent(Run(ops)) == Given(Run(ops).log, SYSTEM) <==> Awarded(ops) == 0
  {
    RunCountsAwards(ops);
  }

  /** A run after which it does not: 5 credits awarded to "system" itself, which has spent nothing. */
  lemma SystemDisagrees()
    ensures var ops := [AwardOp(SYSTEM, 5, "", "t", 0)];
            && Legal(ops) && Sound(ops[0]) && Has(Run(ops).accounts, SYSTEM)
            && Given(Run(ops).log, SYSTEM) == 5 && SystemSpent(Run(ops)) == 0
  {
    var op := AwardOp(SYSTEM, 5, "", "t", 0);
    var ops := [op];
    assert ops[..0] == [];
    assert Run(ops) == Step(Run([]), op);
    assert Legal([]) && FreshId(Run([]), "t");
    assert Awarded(ops) == 5;
    RunCountsAwards(ops);
    assert Run(ops).log == [Transaction("t", SYSTEM, SYSTEM, 5, "", 0)];
    assert Run(ops).accounts == [Account(SYSTEM, SYSTEM, 5, 0, 5, 0)];
  }

  ghost predicate NoDebts(l: Ledger) {
    forall did :: AccountOf(l.accounts, did, 0).balance >= 0
  }

  /** No balance is ever negative, and together they are what was awarded. */
  lemma {:induction false} RunConservesCredits(ops: seq<Op>)
    requires Legal(ops) && forall op :: op in ops ==> NonNegative(op)
    ensures NoDebts(Run(ops))
    ensures TotalBalance(Run(ops).accounts) == Awarded(ops)
    ensures TotalBalance(Run(ops).accounts) == Given(Run(ops).log, SYSTEM) - SystemSpent(Run(ops))
  {
    RunCountsAwards(ops);
    if ops != [] {
      hide FreshId, Books, TotalBalance, SystemSpent, Given, Step, Awarded;
      var front, op := ops[..|ops| - 1], ops[|ops| - 1];
      assert op in ops;
      assert forall o :: o in front ==> o in ops;
      RunKeepsBooks(front);
      RunConservesCredits(front);
      StepMakesNoDebts(Run(front), op);
    }
  }

  lemma StepMakesNoDebts(l: Ledger, op: Op)
    requires Books(l) && NoDebts(l) && NonNegative(op)
    requires op.LookupOp? || FreshId(l, op.txId)
    ensures NoDebts(Step(l, op))
  {
    hide Filter, Sum, Put, AccountOf, BookOf, FreshId;
    match op {
      case LookupOp(did, now) => LookupKeepsBooks(l, did, now);
      case AwardOp(did, amount, reason, txId, now) => AwardMakesNoDebts(l, did, amount, reason, txId, now);
      case TransferOp(from, to, amount, reason, txId, now) =>
        TransferMakesNoDebts(l, from, to, amount, reason, txId, now);
    }
  }

  lemma AwardMakesNoDebts(l: Ledger, did: string, amount: int, reason: string, txId: string, now: int)
    requires Books(l) && NoDebts(l) && amount >= 0 && FreshId(l, txId)
    ensures NoDebts(Award(l, did, amount, reason, txId, now))
  {
    hide Filter, Sum, Put, AccountOf, BookOf, FreshId;
    AccountOfAnyTime(l.accounts, did, now);
    forall d
      ensures AccountOf(Award(l, did, amount, reason, txId, now).accounts, d, 0).balance >= 0
    {
      AccountAfterPut(l.accounts, Credited(AccountOf(l.accounts, did, now), amount, now), d, 0);
    }
  }

  lemma TransferMakesNoDebts(l: Ledger, from: string, to: string, amount: int, reason: string, txId: string, now: int)
    requires Books(l) && NoDebts(l) && amount >= 0 && FreshId(l, txId)
    ensures NoDebts(Transfer(l, from, to, amount, reason, txId, now).0)
  {
    TransferKeepsBooks(l, from, to, amount, reason, txId, now);
    NoDebitDropped(l, from, to, amount, reason, txId, now);
    hide Filter, Sum, Put, AccountOf, BookOf, FreshId, Transfer, DebitIsDropped;
    var (l', outcome) := Transfer(l, from, to, amount, reason, txId, now);
    if outcome.Transferred? {
      forall d
        ensures AccountOf(l'.accounts, d, 0).balance >= 0
      {
        TransferMoves(l, from, to, amount, reason, txId, now, d);
      }
    }
  }

  /** The dropped debit: "a" is left with -5 credits, though it gave and received the same. */
  lemma NegativeSelfTransferBreaksBooks()
    ensures var (l, outcome) := Transfer(Ledger([], []), "a", "a", -5, "", "t", 0);
            outcome.Transferred? && TotalBalance(l.accounts) == -5 && !Books(l)
  {
    var l0 := Ledger([], []);
    assert forall did :: BookOf(l0, did);
    TransferKeepsBooks(l0, "a", "a", -5, "", "t", 0);
    TransferTotal(l0, "a", "a", -5, "", "t", 0);
  }

  // ---- the handlers ----------------------------------------------------------------------------

  class Credits {
    const creditBalances: JsonStore<Account>
    const creditTransactions: JsonStore<Transaction>

    ghost predicate Valid()
      reads this, creditBalances, creditBalances.items, creditTransactions, creditTransactions.items
    {
      && creditBalances.idOf == AccountId && creditBalances.Valid()
      && creditTransactions.idOf == TransactionId && creditTransactions.Valid()
    }

    ghost function State(): Ledger
      reads creditBalances, creditTransactions
    {
      Ledger(creditBalances.contents, creditTransactions.contents)
    }

    constructor ()
      ensures Valid() && State() == Ledger([], [])
      ensures fresh(creditBalances) && fresh(creditTransactions)
    {
      creditBalances := new JsonStore(AccountId);
      creditTransactions := new JsonStore(TransactionId);
    }

    /** The stored object of this DID, or a new one. */
    method FindOrNew(did: string, now: int) returns (account: Ref<Account>, stored: bool)
      requires Valid()
      ensures stored == Has(creditBalances.contents, did)
      ensures account.it == AccountOf(creditBalances.contents, did, now) && account.it.did == did
      ensures if stored then account in creditBalances.items else fresh(account)
    {
      var existing := creditBalances.Filter(HasDid(did));
      stored := |existing| > 0;
      if stored {
        assert Filter(creditBalances.contents, HasDid(did))[0] in Filter(creditBalances.contents, HasDid(did));
        account := existing[0];
      } else {
        account := new Ref(NewAccount(did, now));
      }
    }

    method GetKnowledgeCreditBalance(did: string, now: int) returns (account: Ref<Account>)
      requires Valid()
      modifies creditBalances
      ensures Valid()
      ensures State() == Lookup(old(State()), did, now)
      ensures account in creditBalances.items && account.it == AccountOf(old(creditBalances.contents), did, now)
    {
      var stored;
      account, stored := FindOrNew(did, now);
      if !stored {
        creditBalances.Add(account);
      }
    }

    method AwardKnowledgeCredits(did: string, amount: int, reason: string, txId: string, now: int)
      returns (balance: Ref<Account>)
      requires Valid()
      modifies creditBalances, creditBalances.items, creditTransactions
      ensures Valid()
      ensures State() == Award(old(State()), did, amount, reason, txId, now)
      ensures balance in creditBalances.items
      ensures balance.it == Credited(AccountOf(old(creditBalances.contents), did, now), amount, now)
    {
      hide Filter, Put, AccountOf;
      var stored;
      balance, stored := FindOrNew(did, now);
      balance.it := Credited(balance.it, amount, now);
      creditBalances.Add(balance);
      var transaction := new Ref(Transaction(txId, SYSTEM, did, amount, reason, now));
      creditTransactions.Add(transaction);
    }

    /** Moves credits between two objects, which may be one, and stores both. */
    method MoveCredits(sender: Ref<Account>, receiver: Ref<Account>, amount: int, now: int)
      requires Valid()
      modifies creditBalances, sender, receiver
      ensures Valid() && creditTransactions.contents == old(creditTransactions.contents)
      ensures var debited := Debited(old(sender.it), amount, now);
              var credited := Credited(if sender == receiver then debited else old(receiver.it), amount, now);
              var first := if sender == receiver then credited else debited;
              var accounts := Put(old(creditBalances.contents), AccountId, first);
              creditBalances.contents == Put(accounts, AccountId, credited)
    {
      hide Put, IndexOfId;
      sender.it := Debited(sender.it, amount, now);
      receiver.it := Credited(receiver.it, amount, now);
      creditBalances.Add(sender, {receiver});
      creditBalances.Add(receiver);
    }

    method TransferKnowledgeCredits(from: string, to: string, amount: int, reason: string, txId: string, now: int)
      returns (outcome: Outcome)
      requires Valid()
      modifies creditBalances, creditBalances.items, creditTransactions
      ensures Valid()
      ensures (State(), outcome) == Transfer(old(State()), from, to, amount, reason, txId, now)
    {
      hide Filter, Put, Debited, Credited;
      var sender, senderStored := FindOrNew(from, now);
      if sender.it.balance < amount {
        return InsufficientCredits;
      }
      var receiver, receiverStored := FindOrNew(to, now);
      if senderStored && receiverStored && from == to {
        creditBalances.SameRecord(sender, receiver);
      }
      assert sender == receiver <==> from == to && senderStored;
      MoveCredits(sender, receiver, amount, now);
      var transaction := new Ref(Transaction(txId, from, to, amount, reason, now));
      creditTransactions.Add(transaction);
      outcome := Transferred(transaction.it);
    }
  }
}
