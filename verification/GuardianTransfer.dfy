/** Transfer of an agent to a new guardian, by consent of agent, old and new guardian. */
module GuardianTransfer {
  import opened Seqs
  import opened JsonStores

  datatype Status = Pending | Approved | Completed | Rejected | Expired

  datatype Consent = Consent(party: string, approved: bool, timestamp: int)

  datatype Transfer = Transfer(id: string, agent: string, current: string, next: string, reason: string,
                               initiatedBy: string, consents: seq<Consent>, status: Status,
                               createdAt: int, completedAt: Option<int>)

  datatype Reply =
    | Initiated(transferId: string)
    | Answered(transfer: Transfer)
    | InvalidFormat
    | TransferExists
    | NotFound
    | InvalidState(status: Status)
    | TimedOut
    | Unauthorized
    | DuplicateConsent

  const TRANSFER_EXPIRY_MS := 90 * 24 * 60 * 60 * 1000

  function TransferId(t: Transfer): string { t.id }

  // ---- the operations on values ------------------------------------------------------------------

  function Ongoing(agent: string): Transfer -> bool {
    (t: Transfer) => t.agent == agent && (t.status == Pending || t.status == Approved)
  }

  function Initiator(agent: string, current: string, next: string, initiatedBy: string): string {
    if initiatedBy == "agent" then agent
    else if initiatedBy == "current_guardian" then current
    else next
  }

  function NewTransfer(id: string, agent: string, current: string, next: string, reason: string,
                       initiatedBy: string, now: int): Transfer
  {
    Transfer(id, agent, current, next, reason, initiatedBy,
             [Consent(Initiator(agent, current, next, initiatedBy), true, now)], Pending, now, None)
  }

  function Initiate(ts: seq<Transfer>, agent: string, current: string, next: string, reason: string,
                    initiatedBy: string, id: string, now: int): (seq<Transfer>, Reply)
  {
    if agent == "" || current == "" || next == "" || reason == "" || initiatedBy == "" then (ts, InvalidFormat)
    else if Filter(ts, Ongoing(agent)) != [] then (ts, TransferExists)
    else
      (Put(ts, TransferId, NewTransfer(id, agent, current, next, reason, initiatedBy, now)), Initiated(id))
  }

  predicate IsParty(t: Transfer, p: string) { p == t.agent || p == t.current || p == t.next }

  predicate HasAnswered(t: Transfer, p: string) {
    exists i :: 0 <= i < |t.consents| && t.consents[i].party == p
  }

  predicate HasApproved(t: Transfer, p: string) {
    exists i :: 0 <= i < |t.consents| && t.consents[i].party == p && t.consents[i].approved
  }

  predicate TooOld(t: Transfer, now: int) { now - t.createdAt > TRANSFER_EXPIRY_MS }

  /** The answer of a party that has not answered yet. */
  function WithConsent(t: Transfer, party: string, approved: bool, now: int): Transfer {
    var u := t.(consents := t.consents + [Consent(party, approved, now)]);
    if !approved then u.(status := Rejected)
    else if HasApproved(u, t.agent) && HasApproved(u, t.current) && HasApproved(u, t.next) then
      u.(status := Completed, completedAt := Some(now))
    else u
  }

  function SubmitConsent(ts: seq<Transfer>, id: string, party: string, approved: Option<bool>, now: int)
    : (seq<Transfer>, Reply)
  {
    if party == "" || approved.None? then (ts, InvalidFormat)
    else
      var found := Find(ts, TransferId, id);
      if found.None? then (ts, NotFound)
      else
        var t := found.value;
        if t.status != Pending then (ts, InvalidState(t.status))
        else if TooOld(t, now) then (Put(ts, TransferId, t.(status := Expired)), TimedOut)
        else if !IsParty(t, party) then (ts, Unauthorized)
        else if HasAnswered(t, party) then (ts, DuplicateConsent)
        else
          var u := WithConsent(t, party, approved.value, now);
          (Put(ts, TransferId, u), Answered(u))
  }

  function GetStatus(ts: seq<Transfer>, id: string, now: int): (seq<Transfer>, Reply) {
    var found := Find(ts, TransferId, id);
    if found.None? then (ts, NotFound)
    else
      var t := found.value;
      if t.status == Pending && TooOld(t, now) then
        (Put(ts, TransferId, t.(status := Expired)), Answered(t.(status := Expired)))
      else (ts, Answered(t))
  }

  // ---- runs ---------------------------------------------------------------------------------------

  datatype Op =
    | InitiateOp(agent: string, current: string, next: string, reason: string, initiatedBy: string, id: string,
                 now: int)
    | ConsentOp(id: string, party: string, approved: Option<bool>, now: int)
    | StatusOp(id: string, now: int)

  function Step(ts: seq<Transfer>, op: Op): seq<Transfer> {
    match op
    case InitiateOp(agent, current, next, reason, initiatedBy, id, now) =>
      Initiate(ts, agent, current, next, reason, initiatedBy, id, now).0
    case ConsentOp(id, party, approved, now) => SubmitConsent(ts, id, party, approved, now).0
    case StatusOp(id, now) => GetStatus(ts, id, now).0
  }

  function Run(ops: seq<Op>): seq<Transfer> {
    if ops == [] then [] else Step(Run(ops[..|ops| - 1]), ops[|ops| - 1])
  }

  /** The clock does not go back, and ids are new when drawn. */
  ghost predicate Legal(ops: seq<Op>) {
    ops == [] ||
    var front, op := ops[..|ops| - 1], ops[|ops| - 1];
    && Legal(front)
    && (front != [] ==> front[|front| - 1].now <= op.now)
    && (op.InitiateOp? ==> Find(Run(front), TransferId, op.id).None?)
  }

  // ---- the invariant ---------------------------------------------------------------------------------

  ghost predicate AllApprove(cs: seq<Consent>) {
    forall i :: 0 <= i < |cs| ==> cs[i].approved
  }

  /** Consents come from distinct parties. */
  ghost predicate ConsentsOk(t: Transfer) {
    && t.consents != []
    && (forall i :: 0 <= i < |t.consents| ==> IsParty(t, t.consents[i].party))
    && (forall i, j :: 0 <= i < j < |t.consents| ==> t.consents[i].party != t.consents[j].party)
  }

  predicate AllAnswered(t: Transfer) {
    HasAnswered(t, t.agent) && HasAnswered(t, t.current) && HasAnswered(t, t.next)
  }

  /** One DID in all three roles. */
  predicate OneParty(t: Transfer) { t.agent == t.current == t.next }

  ghost predicate StatusOk(t: Transfer) {
    match t.status
    case Pending => AllApprove(t.consents) && t.completedAt.None? && (!AllAnswered(t) || OneParty(t))
    case Expired => AllApprove(t.consents) && t.completedAt.None? && (!AllAnswered(t) || OneParty(t))
    case Completed =>
      && AllApprove(t.consents) && AllAnswered(t) && !OneParty(t) && t.completedAt.Some?
      && t.createdAt <= t.completedAt.value <= t.createdAt + TRANSFER_EXPIRY_MS
    case Rejected =>
      && t.consents != [] && AllApprove(t.consents[..|t.consents| - 1]) && t.completedAt.None?
      && !t.consents[|t.consents| - 1].approved && !OneParty(t)
    case Approved => false
  }

  ghost predicate TransferOk(t: Transfer, clock: int) {
    && ConsentsOk(t) && StatusOk(t)
    && t.createdAt <= clock && (t.status == Expired ==> TooOld(t, clock))
    && t.agent != "" && t.current != "" && t.next != ""
  }

  ghost predicate OnePendingPerAgent(ts: seq<Transfer>) {
    forall t, u :: t in ts && u in ts && t.status == Pending && u.status == Pending && t.agent == u.agent ==> t == u
  }

  ghost predicate Inv(ts: seq<Transfer>, clock: int) {
    && DistinctIds(ts, TransferId)
    && OnePendingPerAgent(ts)
    && forall t :: t in ts ==> TransferOk(t, clock)
  }

  /** Closed transfers stay as they are. */
  ghost predicate KeepsClosed(ts: seq<Transfer>, ts': seq<Transfer>) {
    forall t :: t in ts && t.status != Pending ==> t in ts'
  }

  /** A party that answers for the first time: it is not the initiator, so the roles are not all one DID's. */
  lemma MoreConsents(t: Transfer, c: Consent)
    requires ConsentsOk(t) && IsParty(t, c.party) && !HasAnswered(t, c.party)
    ensures ConsentsOk(t.(consents := t.consents + [c]))
    ensures !OneParty(t)
  {
    assert IsParty(t, t.consents[0].party);
  }

  lemma WithConsentOk(t: Transfer, party: string, approved: bool, now: int)
    requires TransferOk(t, now) && t.status == Pending && !TooOld(t, now)
    requires IsParty(t, party) && !HasAnswered(t, party)
    ensures TransferOk(WithConsent(t, party, approved, now), now)
  {
    var c := Consent(party, approved, now);
    var u := t.(consents := t.consents + [c]);
    MoreConsents(t, c);
    if approved {
      assert AllApprove(u.consents);
      ApprovedOk(t, u, c);
    } else {
      assert u.consents[..|u.consents| - 1] == t.consents;
    }
  }

  /** The transfer after an approving consent: completed, when all have approved now. */
  lemma ApprovedOk(t: Transfer, u: Transfer, c: Consent)
    requires u == t.(consents := t.consents + [c]) && t.status == Pending && t.completedAt.None?
    requires AllApprove(u.consents) && !OneParty(t)
    ensures (HasApproved(u, u.agent) && HasApproved(u, u.current) && HasApproved(u, u.next)) <==> AllAnswered(u)
    ensures forall s, d :: AllAnswered(u.(status := s, completedAt := d)) <==> AllAnswered(u)
  {
  }

  lemma AnsweredNext(t: Transfer, c: Consent, p: string)
    ensures HasAnswered(t.(consents := t.consents + [c]), p) <==> HasAnswered(t, p) || p == c.party
  {
    var cs := t.consents + [c];
    if HasAnswered(t, p) {
      var i :| 0 <= i < |t.consents| && t.consents[i].party == p;
      assert cs[i].party == p;
    }
    if p == c.party {
      assert cs[|t.consents|].party == p;
    }
  }

  /** Replacing a pending transfer by a next state of it. */
  lemma ReplaceKeeps(ts: seq<Transfer>, t: Transfer, u: Transfer, clock: int)
    requires Inv(ts, clock) && t in ts && t.status == Pending
    requires u.id == t.id && u.agent == t.agent && TransferOk(u, clock)
    ensures Inv(Put(ts, TransferId, u), clock) && KeepsClosed(ts, Put(ts, TransferId, u))
  {
    hide IndexOfId, Put, TransferOk;
    PutMembers(ts, TransferId, u);
    forall x | x in ts && x.id == u.id
      ensures x == t
    {
      FindMember(ts, TransferId, x);
      FindMember(ts, TransferId, t);
    }
    assert t.agent == u.agent;
  }

  lemma InitiateKeeps(ts: seq<Transfer>, t: Transfer, clock: int)
    requires Inv(ts, clock) && Find(ts, TransferId, t.id).None?
    requires Filter(ts, Ongoing(t.agent)) == [] && t.status == Pending && TransferOk(t, clock)
    ensures Inv(Put(ts, TransferId, t), clock) && KeepsClosed(ts, Put(ts, TransferId, t))
  {
    hide TransferOk;
    PutMembers(ts, TransferId, t);
    forall x | x in ts
      ensures x.id != t.id && !(x.status == Pending && x.agent == t.agent)
    {
      assert x !in Filter(ts, Ongoing(t.agent));
    }
  }

  lemma ExpiredOk(t: Transfer, now: int)
    requires TransferOk(t, now) && t.status == Pending && TooOld(t, now)
    ensures TransferOk(t.(status := Expired), now)
  {
    var u := t.(status := Expired);
    assert forall p :: HasAnswered(u, p) <==> HasAnswered(t, p);
  }

  lemma LaterOk(ts: seq<Transfer>, clock: int, now: int)
    requires Inv(ts, clock) && clock <= now
    ensures Inv(ts, now)
  {
  }

  lemma NewOk(id: string, agent: string, current: string, next: string, reason: string, initiatedBy: string, now: int)
    requires agent != "" && current != "" && next != ""
    ensures TransferOk(NewTransfer(id, agent, current, next, reason, initiatedBy, now), now)
  {
    var t := NewTransfer(id, agent, current, next, reason, initiatedBy, now);
    var p := Initiator(agent, current, next, initiatedBy);
    assert t.consents[0].party == p;
    assert forall x :: HasAnswered(t, x) ==> x == p;
  }

  lemma ConsentKeeps(ts: seq<Transfer>, op: Op)
    requires op.ConsentOp? && Inv(ts, op.now)
    ensures Inv(Step(ts, op), op.now) && KeepsClosed(ts, Step(ts, op))
  {
    var reply := SubmitConsent(ts, op.id, op.party, op.approved, op.now).1;
    hide Inv, KeepsClosed, Put, WithConsent, TransferOk, HasAnswered, IndexOfId, DistinctIds;
    if reply.Answered? || reply.TimedOut? {
      var t := Find(ts, TransferId, op.id).value;
      StoredOk(ts, t, op.now);
      if reply.TimedOut? {
        ExpiredOk(t, op.now);
        ReplaceKeeps(ts, t, t.(status := Expired), op.now);
      } else {
        WithConsentOk(t, op.party, op.approved.value, op.now);
        WithConsentKeepsIds(t, op.party, op.approved.value, op.now);
        ReplaceKeeps(ts, t, WithConsent(t, op.party, op.approved.value, op.now), op.now);
      }
    } else {
      NothingClosed(ts);
    }
  }

  lemma StoredOk(ts: seq<Transfer>, t: Transfer, clock: int)
    requires Inv(ts, clock) && Find(ts, TransferId, t.id) == Some(t)
    ensures t in ts && TransferOk(t, clock)
  {
  }

  lemma NothingClosed(ts: seq<Transfer>)
    ensures KeepsClosed(ts, ts)
  {
  }

  lemma WithConsentKeepsIds(t: Transfer, party: string, approved: bool, now: int)
    ensures var u := WithConsent(t, party, approved, now); u.id == t.id && u.agent == t.agent
  {
  }

  lemma StepKeepsInv(ts: seq<Transfer>, op: Op)
    requires Inv(ts, op.now) && (op.InitiateOp? ==> Find(ts, TransferId, op.id).None?)
    ensures Inv(Step(ts, op), op.now) && KeepsClosed(ts, Step(ts, op))
  {
    hide Inv, KeepsClosed, Put, TransferOk, IndexOfId, DistinctIds, SubmitConsent;
    NothingClosed(ts);
    match op {
      case InitiateOp(agent, current, next, reason, initiatedBy, id, now) =>
        if Initiate(ts, agent, current, next, reason, initiatedBy, id, now).1.Initiated? {
          NewOk(id, agent, current, next, reason, initiatedBy, now);
          InitiateKeeps(ts, NewTransfer(id, agent, current, next, reason, initiatedBy, now), now);
        }
      case ConsentOp(_, _, _, _) =>
        ConsentKeeps(ts, op);
      case StatusOp(id, now) =>
        var found := Find(ts, TransferId, id);
        if found.Some? && found.value.status == Pending && TooOld(found.value, now) {
          StoredOk(ts, found.value, now);
          ExpiredOk(found.value, now);
          ReplaceKeeps(ts, found.value, found.value.(status := Expired), now);
        }
    }
  }

  // ---- the promises ------------------------------------------------------------------------------------

  /**
   * Over every run: an agent has at most one pending transfer; a pending one has only
   * approvals, and somebody has not answered unless all roles are one DID; a completed one
   * has all approvals and took at most 90 days; a rejected one ends in the refusal.
   */
  lemma {:induction false} RunKeepsInv(ops: seq<Op>)
    requires Legal(ops)
    ensures ops == [] ==> Run(ops) == []
    ensures ops != [] ==> Inv(Run(ops), ops[|ops| - 1].now)
  {
    if ops != [] {
      var front, op := ops[..|ops| - 1], ops[|ops| - 1];
      RunKeepsInv(front);
      if front != [] {
        LaterOk(Run(front), front[|front| - 1].now, op.now);
      }
      StepKeepsInv(Run(front), op);
    }
  }

  /** Closed transfers never reopen, nor change in any other way. */
  lemma {:induction false} ClosedIsFinal(ops: seq<Op>, k: nat)
    requires Legal(ops) && k <= |ops|
    ensures KeepsClosed(Run(ops[..k]), Run(ops))
  {
    if k == |ops| {
      assert ops[..k] == ops;
    } else {
      hide Inv, Step;
      var front, op := ops[..|ops| - 1], ops[|ops| - 1];
      assert front[..k] == ops[..k];
      ClosedIsFinal(front, k);
      RunKeepsInv(front);
      if front == [] {
        assert Inv([], op.now) by { EmptyInv(op.now); }
      } else {
        LaterOk(Run(front), front[|front| - 1].now, op.now);
      }
      StepKeepsInv(Run(front), op);
    }
  }

  lemma EmptyInv(clock: int)
    ensures Inv([], clock)
  {
  }

  /** Milliseconds in 90 days. */
  const NINETY_DAYS := 7_776_000_000

  /** Exactly when a transfer is initiated. */
  lemma InitiatedIff(ts: seq<Transfer>, agent: string, current: string, next: string, reason: string,
                     initiatedBy: string, id: string, now: int)
    ensures Initiate(ts, agent, current, next, reason, initiatedBy, id, now).1 == Initiated(id)
            <==> agent != "" && current != "" && next != "" && reason != "" && initiatedBy != ""
                 && forall t :: t in ts && t.agent == agent ==> t.status != Pending && t.status != Approved
  {
    var ongoing := Filter(ts, Ongoing(agent));
    if ongoing != [] {
      assert ongoing[0] in ongoing;
    }
    assert forall t :: t in ongoing <==> t in ts && Ongoing(agent)(t);
  }

  /** Exactly when an answer is taken: from a party that has not answered, on a pending transfer, within 90 days. */
  lemma AnswerIsTakenIff(ts: seq<Transfer>, id: string, party: string, approved: Option<bool>, now: int, t: Transfer)
    requires Find(ts, TransferId, id) == Some(t)
    ensures SubmitConsent(ts, id, party, approved, now).1.Answered?
            <==> party != "" && approved.Some? && t.status == Pending && now <= t.createdAt + NINETY_DAYS
                 && (party == t.agent || party == t.current || party == t.next)
                 && forall c :: c in t.consents ==> c.party != party
    ensures SubmitConsent(ts, id, party, approved, now).1.TimedOut?
            <==> party != "" && approved.Some? && t.status == Pending && now > t.createdAt + NINETY_DAYS
  {
    assert HasAnswered(t, party) <==> exists c :: c in t.consents && c.party == party by {
      if HasAnswered(t, party) {
        var i :| 0 <= i < |t.consents| && t.consents[i].party == party;
        assert t.consents[i] in t.consents;
      }
    }
  }

  // ---- where transfers and consents come from ------------------------------------------------------------

  /** The transfer that an operation initiates: its parties and reason, and the initiator's own consent. */
  ghost predicate InitiatedBy(op: Op, t: Transfer) {
    && op.InitiateOp? && t.id == op.id
    && t.agent == op.agent && t.current == op.current && t.next == op.next
    && t.reason == op.reason && t.initiatedBy == op.initiatedBy && t.createdAt == op.now
    && t.consents != []
    && t.consents[0].approved && t.consents[0].timestamp == op.now
    && t.consents[0].party == InitiatingParty(t)
  }

  /** Whose consent the initiation is. */
  function InitiatingParty(t: Transfer): string {
    match t.initiatedBy
    case "agent" => t.agent
    case "current_guardian" => t.current
    case _ => t.next
  }

  ghost predicate Begun(ops: seq<Op>, t: Transfer) {
    exists i :: 0 <= i < |ops| && InitiatedBy(ops[i], t)
  }

  /** The consent was submitted, as it stands. */
  ghost predicate Submitted(ops: seq<Op>, id: string, c: Consent) {
    exists j :: 0 <= j < |ops| && ops[j] == ConsentOp(id, c.party, Some(c.approved), c.timestamp)
  }

  ghost predicate Accounted(ops: seq<Op>, t: Transfer) {
    && Begun(ops, t)
    && forall k :: 1 <= k < |t.consents| ==> Submitted(ops, t.id, t.consents[k])
  }

  lemma AccountedLater(ops: seq<Op>, op: Op, t: Transfer)
    requires Accounted(ops, t)
    ensures Accounted(ops + [op], t)
  {
    var all := ops + [op];
    var i :| 0 <= i < |ops| && InitiatedBy(ops[i], t);
    assert InitiatedBy(all[i], t);
    forall k | 1 <= k < |t.consents|
      ensures Submitted(all, t.id, t.consents[k])
    {
      var c := t.consents[k];
      assert Submitted(ops, t.id, c);
      var j :| 0 <= j < |ops| && ops[j] == ConsentOp(t.id, c.party, Some(c.approved), c.timestamp);
      assert all[j] == ops[j];
    }
  }

  lemma PutGives(ts: seq<Transfer>, u: Transfer)
    ensures forall t :: t in Put(ts, TransferId, u) ==> t == u || t in ts
  {
    var after := Put(ts, TransferId, u);
    forall t | t in after
      ensures t == u || t in ts
    {
      var k :| 0 <= k < |after| && after[k] == t;
    }
  }

  /** An expiry changes neither parties nor consents. */
  lemma ExpiredIsAccounted(ops: seq<Op>, t: Transfer)
    requires Accounted(ops, t)
    ensures Accounted(ops, t.(status := Expired))
  {
    var i :| 0 <= i < |ops| && InitiatedBy(ops[i], t);
    assert InitiatedBy(ops[i], t.(status := Expired));
  }

  /** An answer adds the consent of its operation. */
  lemma AnsweredIsAccounted(ops: seq<Op>, op: Op, t: Transfer)
    requires Accounted(ops, t) && op.ConsentOp? && op.id == t.id && op.approved.Some?
    ensures Accounted(ops + [op], WithConsent(t, op.party, op.approved.value, op.now))
  {
    var all, u := ops + [op], WithConsent(t, op.party, op.approved.value, op.now);
    AccountedLater(ops, op, t);
    var i :| 0 <= i < |all| && InitiatedBy(all[i], t);
    assert u.consents == t.consents + [Consent(op.party, op.approved.value, op.now)];
    assert InitiatedBy(all[i], u);
    forall k | 1 <= k < |u.consents|
      ensures Submitted(all, u.id, u.consents[k])
    {
      if k < |t.consents| {
        assert u.consents[k] == t.consents[k];
      } else {
        assert all[|ops|] == ConsentOp(u.id, op.party, op.approved, op.now);
      }
    }
  }

  lemma StepAccounts(ops: seq<Op>, op: Op, ts: seq<Transfer>, t: Transfer)
    requires forall x :: x in ts ==> Accounted(ops, x)
    requires t in Step(ts, op) && t !in ts
    ensures Accounted(ops + [op], t)
  {
    hide Accounted, Put, Find, WithConsent, NewTransfer;
    match op {
      case InitiateOp(agent, current, next, reason, initiatedBy, id, now) =>
        PutGives(ts, NewTransfer(id, agent, current, next, reason, initiatedBy, now));
        NewIsAccounted(ops, op);
      case ConsentOp(id, party, approved, now) =>
        var found := Find(ts, TransferId, id);
        if found.Some? {
          FoundIs(ts, id);
          PutGives(ts, found.value.(status := Expired));
          ExpiredIsAccounted(ops, found.value);
          AccountedLater(ops, op, found.value.(status := Expired));
          if approved.Some? {
            PutGives(ts, WithConsent(found.value, party, approved.value, now));
            AnsweredIsAccounted(ops, op, found.value);
          }
        }
      case StatusOp(id, now) =>
        var found := Find(ts, TransferId, id);
        if found.Some? {
          FoundIs(ts, id);
          PutGives(ts, found.value.(status := Expired));
          ExpiredIsAccounted(ops, found.value);
          AccountedLater(ops, op, found.value.(status := Expired));
        }
    }
  }

  lemma FoundIs(ts: seq<Transfer>, id: string)
    requires Find(ts, TransferId, id).Some?
    ensures Find(ts, TransferId, id).value in ts && Find(ts, TransferId, id).value.id == id
  {
  }

  lemma NewIsAccounted(ops: seq<Op>, op: Op)
    requires op.InitiateOp?
    ensures Accounted(ops + [op], NewTransfer(op.id, op.agent, op.current, op.next, op.reason, op.initiatedBy, op.now))
  {
    var all := ops + [op];
    var t := NewTransfer(op.id, op.agent, op.current, op.next, op.reason, op.initiatedBy, op.now);
    assert all[|ops|] == op && InitiatedBy(all[|ops|], t);
  }

  /**
   * Over every run, every transfer is as one operation initiated it, with the initiator's consent
   * first; and every other consent was submitted, by its party, as it stands.
   */
  lemma {:induction false} RunAccounts(ops: seq<Op>)
    ensures forall t :: t in Run(ops) ==> Accounted(ops, t)
    decreases |ops|
  {
    if ops != [] {
      hide Accounted, Step;
      var front, op := ops[..|ops| - 1], ops[|ops| - 1];
      assert ops == front + [op];
      RunAccounts(front);
      forall t | t in Run(ops)
        ensures Accounted(ops, t)
      {
        if t in Run(front) {
          AccountedLater(front, op, t);
        } else {
          StepAccounts(front, op, Run(front), t);
        }
      }
    }
  }

  /** Over every run, a transfer completes only when every party but the initiator has submitted its approval. */
  lemma CompletedByAll(ops: seq<Op>, t: Transfer, p: string)
    requires Legal(ops) && t in Run(ops) && t.status == Completed
    requires IsParty(t, p) && p != InitiatingParty(t)
    ensures exists j :: 0 <= j < |ops| && ops[j].ConsentOp? && ops[j].id == t.id && ops[j].party == p
                        && ops[j].approved == Some(true)
  {
    RunKeepsInv(ops);
    RunAccounts(ops);
    assert TransferOk(t, ops[|ops| - 1].now) && HasAnswered(t, p);
    var i :| 0 <= i < |ops| && InitiatedBy(ops[i], t);
    var k :| 0 <= k < |t.consents| && t.consents[k].party == p;
    var c := t.consents[k];
    assert Submitted(ops, t.id, c);
    var j :| 0 <= j < |ops| && ops[j] == ConsentOp(t.id, c.party, Some(c.approved), c.timestamp);
  }

  /** What the answer of a party decides, in time and for the first time. */
  lemma AnswerDecides(t: Transfer, party: string, approved: bool, now: int)
    requires TransferOk(t, now) && t.status == Pending && !HasAnswered(t, party)
    ensures var u := WithConsent(t, party, approved, now);
            && (u.status == Rejected <==> !approved)
            && (u.status == Completed <==> approved && forall p :: IsParty(t, p) && p != party ==> HasAnswered(t, p))
            && (u.status == Completed ==> u.completedAt == Some(now))
  {
    var c := Consent(party, approved, now);
    var u := t.(consents := t.consents + [c]);
    forall p
      ensures HasAnswered(u, p) <==> HasAnswered(t, p) || p == party
    {
      AnsweredNext(t, c, p);
    }
    if approved {
      assert forall p :: HasAnswered(u, p) <==> HasApproved(u, p);
    }
  }

  /** What is left to a pending transfer: everybody has answered exactly when one DID has all roles. */
  lemma AllAnsweredIffOneParty(t: Transfer, now: int)
    requires TransferOk(t, now) && t.status == Pending
    ensures AllAnswered(t) <==> OneParty(t)
  {
    assert IsParty(t, t.consents[0].party);
  }

  /** In time, somebody can still give an answer exactly when the roles are not all one DID's. */
  lemma SomebodyCanAnswerIff(ts: seq<Transfer>, id: string, now: int, t: Transfer)
    requires Inv(ts, now) && Find(ts, TransferId, id) == Some(t)
    requires t.status == Pending && !TooOld(t, now)
    ensures (exists p, approved :: SubmitConsent(ts, id, p, approved, now).1.Answered?) <==> !OneParty(t)
  {
    hide DistinctIds, IndexOfId, Put, WithConsent;
    assert t in ts && TransferOk(t, now);
    AllAnsweredIffOneParty(t, now);
    if !OneParty(t) {
      var p := if !HasAnswered(t, t.agent) then t.agent else if !HasAnswered(t, t.current) then t.current else t.next;
      assert SubmitConsent(ts, id, p, Some(true), now).1.Answered?;
    }
    if OneParty(t) {
      forall p, approved
        ensures !SubmitConsent(ts, id, p, approved, now).1.Answered?
      {
        OnePartyNeverAnswers(ts, id, p, approved, now, t);
      }
    }
  }

  /** Such a transfer can be initiated: nothing compares the roles. */
  lemma OnePartyCanInitiate()
    ensures var ops := [InitiateOp("d", "d", "d", "r", "agent", "x", 0)];
            Legal(ops) && Run(ops) == [NewTransfer("x", "d", "d", "d", "r", "agent", 0)] && OneParty(Run(ops)[0])
  {
    var ops := [InitiateOp("d", "d", "d", "r", "agent", "x", 0)];
    assert ops[..0] == [] && Legal([]) && Run([]) == [];
    assert Run(ops) == Step([], ops[0]);
  }

  /** Over every run, a transfer with one DID in all roles is pending or expired, never decided. */
  lemma OnePartyOnlyExpires(ops: seq<Op>, t: Transfer)
    requires Legal(ops) && t in Run(ops) && OneParty(t)
    ensures t.status == Pending || t.status == Expired
  {
    RunKeepsInv(ops);
    assert TransferOk(t, ops[|ops| - 1].now);
  }

  /** With one DID in all roles the initiator is the only party: nobody is left to consent. */
  lemma OnePartyNeverAnswers(ts: seq<Transfer>, id: string, party: string, approved: Option<bool>, now: int,
                             t: Transfer)
    requires Inv(ts, now) && Find(ts, TransferId, id) == Some(t) && OneParty(t)
    ensures !SubmitConsent(ts, id, party, approved, now).1.Answered?
  {
    assert t in ts && TransferOk(t, now);
    assert IsParty(t, t.consents[0].party);
    assert HasAnswered(t, t.agent);
  }

  // ---- the handlers -------------------------------------------------------------------------------------

  class Transfers {
    const store: JsonStore<Transfer>

    ghost predicate Valid()
      reads this, store, store.items
    {
      store.idOf == TransferId && store.Valid()
    }

    constructor ()
      ensures Valid() && store.contents == [] && fresh(store)
    {
      store := new JsonStore(TransferId);
    }

    method ProcessInitiateTransfer(agent: string, current: string, next: string, reason: string,
                                   initiatedBy: string, id: string, now: int) returns (reply: Reply)
      requires Valid()
      modifies store
      ensures Valid()
      ensures (store.contents, reply)
              == Initiate(old(store.contents), agent, current, next, reason, initiatedBy, id, now)
    {
      if agent == "" || current == "" || next == "" || reason == "" || initiatedBy == "" {
        return InvalidFormat;
      }
      var existing := store.Filter(Ongoing(agent));
      if |existing| > 0 {
        return TransferExists;
      }
      var transfer := new Ref(NewTransfer(id, agent, current, next, reason, initiatedBy, now));
      store.Add(transfer);
      reply := Initiated(id);
    }

    method Expire(transfer: Ref<Transfer>)
      requires Valid() && transfer in store.items
      modifies store, transfer
      ensures Valid() && transfer.it == old(transfer.it).(status := Expired)
      ensures store.contents == Put(old(store.contents), TransferId, transfer.it)
    {
      transfer.it := transfer.it.(status := Expired);
      store.Add(transfer);
    }

    /** Records the consent and what it decides, and stores the transfer. */
    method RecordConsent(transfer: Ref<Transfer>, party: string, approved: bool, now: int)
      requires Valid() && transfer in store.items
      modifies store, transfer
      ensures Valid() && transfer.it == WithConsent(old(transfer.it), party, approved, now)
      ensures store.contents == Put(old(store.contents), TransferId, transfer.it)
    {
      hide DistinctIds, IndexOfId, Put, HasApproved;
      ghost var was := transfer.it;
      transfer.it := transfer.it.(consents := transfer.it.consents + [Consent(party, approved, now)]);
      if !approved {
        transfer.it := transfer.it.(status := Rejected);
      } else {
        var t := transfer.it;
        if HasApproved(t, t.agent) && HasApproved(t, t.current) && HasApproved(t, t.next) {
          transfer.it := transfer.it.(status := Completed, completedAt := Some(now));
        }
      }
      assert transfer.it == WithConsent(was, party, approved, now);
      store.Add(transfer);
    }

    method ProcessTransferConsent(id: string, party: string, approved: Option<bool>, now: int) returns (reply: Reply)
      requires Valid()
      modifies store, store.items
      ensures Valid()
      ensures (store.contents, reply) == SubmitConsent(old(store.contents), id, party, approved, now)
    {
      if party == "" || approved.None? {
        return InvalidFormat;
      }
      hide Put, IndexOfId, Find, WithConsent, DistinctIds, HasAnswered;
      var found := store.GetById(id);
      if found.None? {
        return NotFound;
      }
      var transfer := found.value;
      if transfer.it.status != Pending {
        return InvalidState(transfer.it.status);
      }
      var elapsed := now - transfer.it.createdAt;
      if elapsed > TRANSFER_EXPIRY_MS {
        Expire(transfer);
        return TimedOut;
      }
      if !IsParty(transfer.it, party) {
        return Unauthorized;
      }
      if HasAnswered(transfer.it, party) {
        return DuplicateConsent;
      }
      RecordConsent(transfer, party, approved.value, now);
      reply := Answered(transfer.it);
    }

    method ProcessGetTransferStatus(id: string, now: int) returns (reply: Reply)
      requires Valid()
      modifies store, store.items
      ensures Valid()
      ensures (store.contents, reply) == GetStatus(old(store.contents), id, now)
    {
      hide Put, IndexOfId, Find, DistinctIds;
      var found := store.GetById(id);
      if found.None? {
        return NotFound;
      }
      var transfer := found.value;
      if transfer.it.status == Pending && TooOld(transfer.it, now) {
        Expire(transfer);
      }
      reply := Answered(transfer.it);
    }
  }
}
