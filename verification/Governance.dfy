/** Network isolation, appeals against it, and the votes that settle an appeal. */
module Governance {
  import opened Seqs
  import opened JsonStores

  datatype Status = Active | Appealed | Lifted

  datatype Isolation = Isolation(id: string, did: string, reason: string, category: string,
                                 flaggedBy: seq<string>, isolatedAt: int, appealPending: bool, status: Status)

  datatype Vote = Uphold | Lift

  datatype Verdict = UpheldVerdict | LiftedVerdict

  datatype Appeal = Appeal(id: string, isolationId: string, guardianDid: string, agentDid: string,
                           justification: string, reviewers: seq<string>, votes: map<string, Vote>,
                           outcome: Option<Verdict>, submittedAt: int, resolvedAt: Option<int>)

  datatype State = State(isolations: seq<Isolation>, appeals: seq<Appeal>)

  datatype Reply =
    | Isolated(isolationId: string, alreadyIsolated: bool)
    | AppealSubmitted(appealId: string)
    | Voted(appeal: Appeal)
    | InvalidFormat
    | NotFound
    | InvalidState
    | ConflictOfInterest

  function IsolationId(r: Isolation): string { r.id }

  function AppealId(a: Appeal): string { a.id }

  // ---- the handlers on values ----------------------------------------------------------------

  function ActiveFor(did: string): Isolation -> bool {
    (r: Isolation) => r.did == did && r.status == Active
  }

  function WithFlagger(r: Isolation, flagger: string): Isolation {
    if flagger in r.flaggedBy then r else r.(flaggedBy := r.flaggedBy + [flagger])
  }

  function NewIsolation(id: string, did: string, reason: string, category: string, flagger: string, now: int)
    : Isolation
  {
    Isolation(id, did, reason, category, [flagger], now, false, Active)
  }

  function Isolate(g: State, did: string, reason: string, category: string, flagger: string, id: string, now: int)
    : (State, Reply)
  {
    if did == "" || reason == "" || category == "" || flagger == "" then (g, InvalidFormat)
    else
      var existing := Filter(g.isolations, ActiveFor(did));
      if existing != [] then
        (g.(isolations := Put(g.isolations, IsolationId, WithFlagger(existing[0], flagger))),
         Isolated(existing[0].id, true))
      else
        (g.(isolations := Put(g.isolations, IsolationId, NewIsolation(id, did, reason, category, flagger, now))),
         Isolated(id, false))
  }

  function NewAppeal(id: string, isolationId: string, guardian: string, agent: string, justification: string, now: int)
    : Appeal
  {
    Appeal(id, isolationId, guardian, agent, justification, [], map[], None, now, None)
  }

  function SubmitAppeal(g: State, isolationId: string, guardian: string, agent: string, justification: string,
                        id: string, now: int): (State, Reply)
  {
    if isolationId == "" || guardian == "" || agent == "" || justification == "" then (g, InvalidFormat)
    else
      var isolation := Find(g.isolations, IsolationId, isolationId);
      if isolation.None? then (g, NotFound)
      else if isolation.value.status != Active then (g, InvalidState)
      else
        var r := isolation.value.(appealPending := true, status := Appealed);
        (State(Put(g.isolations, IsolationId, r),
               Put(g.appeals, AppealId, NewAppeal(id, isolationId, guardian, agent, justification, now))),
         AppealSubmitted(id))
  }

  function ParseVote(vote: string): Option<Vote> {
    if vote == "uphold" then Some(Uphold) else if vote == "lift" then Some(Lift) else None
  }

  function LiftVotes(votes: map<string, Vote>): nat {
    |set r | r in votes && votes[r] == Lift|
  }

  /** The appeal with the vote recorded, and settled once there are three votes. */
  function WithVote(a: Appeal, reviewer: string, vote: Vote, now: int): Appeal {
    var reviewers := if reviewer in a.reviewers then a.reviewers else a.reviewers + [reviewer];
    var votes := a.votes[reviewer := vote];
    var voted := a.(reviewers := reviewers, votes := votes);
    var total := |votes|;
    if total >= 3 then
      var majority := (total + 1) / 2;
      voted.(outcome := Some(if LiftVotes(votes) >= majority then LiftedVerdict else UpheldVerdict),
             resolvedAt := Some(now))
    else voted
  }

  function Settled(r: Isolation, verdict: Verdict): Isolation {
    r.(status := if verdict == LiftedVerdict then Lifted else Active, appealPending := false)
  }

  function CastVote(g: State, appealId: string, reviewer: string, vote: string, now: int): (State, Reply) {
    if reviewer == "" || ParseVote(vote).None? then (g, InvalidFormat)
    else
      var appeal := Find(g.appeals, AppealId, appealId);
      if appeal.None? then (g, NotFound)
      else if appeal.value.outcome.Some? then (g, InvalidState)
      else
        var isolation := Find(g.isolations, IsolationId, appeal.value.isolationId);
        if isolation.Some? && reviewer in isolation.value.flaggedBy then (g, ConflictOfInterest)
        else
          var a := WithVote(appeal.value, reviewer, ParseVote(vote).value, now);
          var isolations :=
            if a.outcome.Some? && isolation.Some? then
              Put(g.isolations, IsolationId, Settled(isolation.value, a.outcome.value))
            else g.isolations;
          (State(isolations, Put(g.appeals, AppealId, a)), Voted(a))
  }

  // ---- runs --------------------------------------------------------------------------------------

  datatype Op =
    | IsolateOp(did: string, reason: string, category: string, flagger: string, id: string, now: int)
    | AppealOp(isolationId: string, guardian: string, agent: string, justification: string, id: string, now: int)
    | VoteOp(appealId: string, reviewer: string, vote: string, now: int)
    // automatic isolation and consensus store new active records
    | OtherSourceOp(record: Isolation)

  function Step(g: State, op: Op): State {
    match op
    case IsolateOp(did, reason, category, flagger, id, now) =>
      Isolate(g, did, reason, category, flagger, id, now).0
    case AppealOp(isolationId, guardian, agent, justification, id, now) =>
      SubmitAppeal(g, isolationId, guardian, agent, justification, id, now).0
    case VoteOp(appealId, reviewer, vote, now) => CastVote(g, appealId, reviewer, vote, now).0
    case OtherSourceOp(record) => g.(isolations := Put(g.isolations, IsolationId, record))
  }

  /** Ids are new when drawn; other sources store fresh active records. */
  predicate Enabled(g: State, op: Op) {
    match op
    case IsolateOp(_, _, _, _, id, _) => Find(g.isolations, IsolationId, id).None?
    case AppealOp(_, _, _, _, id, _) => Find(g.appeals, AppealId, id).None?
    case VoteOp(_, _, _, _) => true
    case OtherSourceOp(record) =>
      Find(g.isolations, IsolationId, record.id).None? && record.status == Active && !record.appealPending
  }

  /** History: for every appeal, who had flagged the isolation when it was submitted. */
  type Flaggers = map<string, seq<string>>

  function Record(g: State, flaggers: Flaggers, op: Op): Flaggers {
    if op.AppealOp?
       && SubmitAppeal(g, op.isolationId, op.guardian, op.agent, op.justification, op.id, op.now).1.AppealSubmitted?
    then flaggers[op.id := Find(g.isolations, IsolationId, op.isolationId).value.flaggedBy]
    else flaggers
  }

  // ---- the invariant ------------------------------------------------------------------------------

  /** Reviewers are distinct, have each one vote, and none had flagged the isolation. */
  ghost predicate VotesOk(a: Appeal, flaggers: Flaggers) {
    && NoRepeats(a.reviewers)
    && (forall r :: r in a.votes <==> r in a.reviewers)
    && a.id in flaggers
    && (forall r :: r in a.reviewers ==> r !in flaggers[a.id])
  }

  /** An open appeal has at most two votes; a resolved one three, and the verdict of two. */
  ghost predicate TallyOk(a: Appeal) {
    match a.outcome
    case None => |a.reviewers| <= 2 && a.resolvedAt.None?
    case Some(verdict) =>
      |a.reviewers| == 3 && a.resolvedAt.Some? && (verdict == LiftedVerdict <==> LiftVotes(a.votes) >= 2)
  }

  ghost predicate AppealOk(a: Appeal, flaggers: Flaggers) {
    VotesOk(a, flaggers) && TallyOk(a)
  }

  predicate Open(a: Appeal) { a.outcome.None? }

  ghost predicate Names(g: State, r: Isolation, a: Appeal) {
    a in g.appeals && Open(a) && a.isolationId == r.id
  }

  /** Appealed, exactly when an appeal is pending, exactly when one open appeal names it. */
  ghost predicate IsolationOk(g: State, r: Isolation) {
    && (r.status == Appealed <==> r.appealPending)
    && (r.status == Appealed <==> exists a :: Names(g, r, a))
    && (forall a, b :: Names(g, r, a) && Names(g, r, b) ==> a == b)
  }

  /** An open appeal names a stored isolation, whose flaggers are those at submission. */
  ghost predicate NamedOk(g: State, a: Appeal, flaggers: Flaggers) {
    exists r :: r in g.isolations && r.id == a.isolationId && a.id in flaggers && r.flaggedBy == flaggers[a.id]
  }

  ghost predicate Inv(g: State, flaggers: Flaggers) {
    && DistinctIds(g.isolations, IsolationId)
    && DistinctIds(g.appeals, AppealId)
    && (forall r :: r in g.isolations ==> IsolationOk(g, r))
    && (forall a :: a in g.appeals ==> AppealOk(a, flaggers))
    && (forall a :: a in g.appeals && Open(a) ==> NamedOk(g, a, flaggers))
  }

  /** What no step may change: lifted isolations, resolved appeals, flaggers under appeal. */
  ghost predicate Preserves(g: State, g': State) {
    && (forall r :: r in g.isolations && r.status == Lifted ==> r in g'.isolations)
    && (forall a :: a in g.appeals && !Open(a) ==> a in g'.appeals)
    && (forall r :: r in g.isolations && r.status == Appealed ==>
          exists r' :: r' in g'.isolations && r'.id == r.id && r'.flaggedBy == r.flaggedBy)
  }

  // ---- votes ---------------------------------------------------------------------------------------

  lemma {:induction false} ReviewersCount(reviewers: seq<string>, keys: set<string>)
    requires NoRepeats(reviewers) && forall r :: r in keys <==> r in reviewers
    ensures |keys| == |reviewers|
  {
    if reviewers == [] {
      assert keys == {};
    } else {
      var n := |reviewers| - 1;
      var front, last := reviewers[..n], reviewers[n];
      assert forall r :: r in reviewers <==> r in front || r == last;
      forall r
        ensures r in keys - {last} <==> r in front
      {
        if r in front {
          var k :| 0 <= k < n && front[k] == r;
          assert reviewers[k] != reviewers[n];
        }
      }
      ReviewersCount(front, keys - {last});
    }
  }

  /** A vote by somebody who had not flagged keeps an open appeal in order. */
  lemma VoteKeepsAppeal(a: Appeal, flaggers: Flaggers, reviewer: string, vote: Vote, now: int)
    requires AppealOk(a, flaggers) && Open(a) && reviewer !in flaggers[a.id]
    ensures AppealOk(WithVote(a, reviewer, vote, now), flaggers)
  {
    var a' := WithVote(a, reviewer, vote, now);
    assert NoRepeats(a'.reviewers);
    assert forall r :: r in a'.reviewers <==> r in a.reviewers || r == reviewer;
    assert VotesOk(a', flaggers);
    ReviewersCount(a'.reviewers, a'.votes.Keys);
  }

  // ---- every step keeps the invariant --------------------------------------------------------------

  lemma FreshIsolationKeeps(g: State, flaggers: Flaggers, r: Isolation)
    requires Inv(g, flaggers) && Find(g.isolations, IsolationId, r.id).None?
    requires r.status == Active && !r.appealPending
    ensures var g' := g.(isolations := Put(g.isolations, IsolationId, r)); Inv(g', flaggers) && Preserves(g, g')
  {
    hide AppealOk, IndexOfId, Put;
    var g' := g.(isolations := Put(g.isolations, IsolationId, r));
    PutMembers(g.isolations, IsolationId, r);
    NotStored(g.isolations, r.id);
    forall x | x in g'.isolations
      ensures IsolationOk(g', x)
    {
      if x == r {
        forall a
          ensures !Names(g', r, a)
        {
          assert Names(g', r, a) ==> NamedOk(g, a, flaggers);
        }
      } else {
        assert IsolationOk(g, x);
        SameNames(g, g', x);
      }
    }
    forall a | a in g'.appeals && Open(a)
      ensures NamedOk(g', a, flaggers)
    {
      assert NamedOk(g, a, flaggers);
    }
  }

  lemma NotStored(isolations: seq<Isolation>, id: string)
    requires Find(isolations, IsolationId, id).None?
    ensures forall r :: r in isolations ==> r.id != id
  {
  }

  /** Whether an isolation is in order depends on the appeals only. */
  lemma SameNames(g: State, g': State, r: Isolation)
    requires g'.appeals == g.appeals && IsolationOk(g, r)
    ensures IsolationOk(g', r)
  {
    assert forall a :: Names(g', r, a) <==> Names(g, r, a);
  }

  /** The isolation that an open appeal names is under appeal. */
  lemma NamedIsAppealed(g: State, flaggers: Flaggers, a: Appeal) returns (r: Isolation)
    requires Inv(g, flaggers) && a in g.appeals && Open(a)
    ensures r in g.isolations && r.id == a.isolationId && r.status == Appealed
    ensures r.flaggedBy == flaggers[a.id]
    ensures Find(g.isolations, IsolationId, a.isolationId) == Some(r)
  {
    assert NamedOk(g, a, flaggers);
    r :| r in g.isolations && r.id == a.isolationId && a.id in flaggers && r.flaggedBy == flaggers[a.id];
    assert IsolationOk(g, r) && Names(g, r, a);
    FindMember(g.isolations, IsolationId, r);
  }

  lemma SameIdSameIsolation(isolations: seq<Isolation>, r: Isolation, s: Isolation)
    requires DistinctIds(isolations, IsolationId) && r in isolations && s in isolations && r.id == s.id
    ensures r == s
  {
    FindMember(isolations, IsolationId, r);
    FindMember(isolations, IsolationId, s);
  }

  lemma FlagKeeps(g: State, flaggers: Flaggers, r: Isolation, flagger: string)
    requires Inv(g, flaggers) && r in g.isolations && r.status == Active
    ensures var g' := g.(isolations := Put(g.isolations, IsolationId, WithFlagger(r, flagger)));
            Inv(g', flaggers) && Preserves(g, g')
  {
    hide AppealOk, IndexOfId, Put;
    var r' := WithFlagger(r, flagger);
    var g' := g.(isolations := Put(g.isolations, IsolationId, r'));
    PutMembers(g.isolations, IsolationId, r');
    forall x | x in g'.isolations
      ensures IsolationOk(g', x)
    {
      assert IsolationOk(g, r);
      if x == r' {
        assert forall a :: Names(g', r', a) <==> Names(g, r, a);
      } else {
        SameNames(g, g', x);
      }
    }
    forall a | a in g'.appeals && Open(a)
      ensures NamedOk(g', a, flaggers)
    {
      var n := NamedIsAppealed(g, flaggers, a);
      OtherStays(g.isolations, g'.isolations, r, r', n);
    }
    forall x | x in g.isolations && x.status != Active
      ensures x in g'.isolations
    {
      OtherStays(g.isolations, g'.isolations, r, r', x);
    }
  }

  /** Replacing one isolation keeps any other record. */
  lemma OtherStays(before: seq<Isolation>, after: seq<Isolation>, r: Isolation, r': Isolation, x: Isolation)
    requires DistinctIds(before, IsolationId) && r in before && x in before && x != r && r'.id == r.id
    requires forall y :: y in after <==> y == r' || (y in before && IsolationId(y) != IsolationId(r'))
    ensures x in after && x.id != r.id
  {
    if x.id == r.id {
      SameIdSameIsolation(before, x, r);
    }
  }

  lemma NewAppealOk(a: Appeal, flaggedBy: seq<string>, flaggers: Flaggers)
    requires Open(a) && a.reviewers == [] && a.votes == map[] && a.resolvedAt.None?
    ensures AppealOk(a, flaggers[a.id := flaggedBy])
  {
  }

  lemma MoreFlaggers(a: Appeal, id: string, flaggedBy: seq<string>, flaggers: Flaggers)
    requires AppealOk(a, flaggers) && a.id != id
    ensures AppealOk(a, flaggers[id := flaggedBy])
  {
  }

  lemma AppealKeeps(g: State, flaggers: Flaggers, r: Isolation, a: Appeal)
    requires Inv(g, flaggers) && r in g.isolations && r.status == Active
    requires Find(g.appeals, AppealId, a.id).None?
    requires a.isolationId == r.id && Open(a) && a.reviewers == [] && a.votes == map[] && a.resolvedAt.None?
    ensures var r' := r.(appealPending := true, status := Appealed);
            var g' := State(Put(g.isolations, IsolationId, r'), Put(g.appeals, AppealId, a));
            Inv(g', flaggers[a.id := r.flaggedBy]) && Preserves(g, g')
  {
    hide IndexOfId, Put, AppealOk;
    var r' := r.(appealPending := true, status := Appealed);
    var g' := State(Put(g.isolations, IsolationId, r'), Put(g.appeals, AppealId, a));
    var flaggers' := flaggers[a.id := r.flaggedBy];
    PutMembers(g.isolations, IsolationId, r');
    PutMembers(g.appeals, AppealId, a);
    NoAppealStored(g.appeals, a.id);
    forall x | x in g'.isolations
      ensures IsolationOk(g', x)
    {
      assert IsolationOk(g, r);
      if x == r' {
        assert forall b :: Names(g', r', b) ==> b == a || Names(g, r, b);
        assert Names(g', r', a);
      } else {
        assert IsolationOk(g, x);
        assert forall b :: Names(g', x, b) <==> Names(g, x, b);
      }
    }
    forall b | b in g'.appeals
      ensures AppealOk(b, flaggers')
    {
      if b == a {
        NewAppealOk(a, r.flaggedBy, flaggers);
      } else {
        MoreFlaggers(b, a.id, r.flaggedBy, flaggers);
      }
    }
    forall b | b in g'.appeals && Open(b)
      ensures NamedOk(g', b, flaggers')
    {
      if b == a {
        assert r' in g'.isolations;
      } else {
        var n := NamedIsAppealed(g, flaggers, b);
        OtherStays(g.isolations, g'.isolations, r, r', n);
      }
    }
    forall x | x in g.isolations && x.status != Active
      ensures x in g'.isolations
    {
      OtherStays(g.isolations, g'.isolations, r, r', x);
    }
  }

  lemma NoAppealStored(appeals: seq<Appeal>, id: string)
    requires Find(appeals, AppealId, id).None?
    ensures forall a :: a in appeals ==> a.id != id
  {
  }

  /** A vote that leaves the appeal open. */
  lemma OpenVoteKeeps(g: State, flaggers: Flaggers, a: Appeal, a': Appeal)
    requires Inv(g, flaggers) && a in g.appeals && Open(a)
    requires a'.id == a.id && a'.isolationId == a.isolationId && Open(a') && AppealOk(a', flaggers)
    ensures var g' := g.(appeals := Put(g.appeals, AppealId, a')); Inv(g', flaggers) && Preserves(g, g')
  {
    hide IndexOfId, Put, AppealOk;
    var g' := g.(appeals := Put(g.appeals, AppealId, a'));
    PutMembers(g.appeals, AppealId, a');
    forall b | b in g.appeals && b.id == a.id
      ensures b == a
    {
      SameIdSameAppeal(g.appeals, a, b);
    }
    forall x | x in g'.isolations
      ensures IsolationOk(g', x)
    {
      assert IsolationOk(g, x);
      assert forall b :: Names(g', x, b) ==> b == a' || Names(g, x, b);
      assert Names(g, x, a) <==> Names(g', x, a');
      assert forall b :: Names(g, x, b) && b != a ==> Names(g', x, b);
    }
    forall b | b in g'.appeals && Open(b)
      ensures NamedOk(g', b, flaggers)
    {
      assert NamedOk(g, if b == a' then a else b, flaggers);
    }
  }

  lemma SameIdSameAppeal(appeals: seq<Appeal>, a: Appeal, b: Appeal)
    requires DistinctIds(appeals, AppealId) && a in appeals && b in appeals && a.id == b.id
    ensures a == b
  {
    FindMember(appeals, AppealId, a);
    FindMember(appeals, AppealId, b);
  }

  /** A vote that resolves the appeal, and with it settles the isolation. */
  lemma LastVoteKeeps(g: State, flaggers: Flaggers, a: Appeal, a': Appeal, r: Isolation)
    requires Inv(g, flaggers) && a in g.appeals && Open(a)
    requires a'.id == a.id && a'.isolationId == a.isolationId && !Open(a') && AppealOk(a', flaggers)
    requires r in g.isolations && r.id == a.isolationId
    ensures var r' := Settled(r, a'.outcome.value);
            var g' := State(Put(g.isolations, IsolationId, r'), Put(g.appeals, AppealId, a'));
            Inv(g', flaggers) && Preserves(g, g')
  {
    hide IndexOfId, Put, AppealOk;
    var r' := Settled(r, a'.outcome.value);
    var g' := State(Put(g.isolations, IsolationId, r'), Put(g.appeals, AppealId, a'));
    PutMembers(g.isolations, IsolationId, r');
    PutMembers(g.appeals, AppealId, a');
    forall b | b in g.appeals && b.id == a.id
      ensures b == a
    {
      SameIdSameAppeal(g.appeals, a, b);
    }
    assert Names(g, r, a) && IsolationOk(g, r);
    forall x | x in g'.isolations
      ensures IsolationOk(g', x)
    {
      if x == r' {
        assert forall b :: Names(g', r', b) ==> Names(g, r, b);
      } else {
        assert IsolationOk(g, x);
        assert forall b :: Names(g', x, b) <==> Names(g, x, b);
      }
    }
    forall b | b in g'.appeals && Open(b)
      ensures NamedOk(g', b, flaggers)
    {
      var n := NamedIsAppealed(g, flaggers, b);
      assert Names(g, n, b);
      OtherStays(g.isolations, g'.isolations, r, r', n);
    }
    PreservedByLastVote(g, g', r, r', a, a');
  }

  lemma PreservedByLastVote(g: State, g': State, r: Isolation, r': Isolation, a: Appeal, a': Appeal)
    requires DistinctIds(g.isolations, IsolationId)
    requires r in g.isolations && r.status == Appealed && r'.id == r.id && r'.flaggedBy == r.flaggedBy
    requires Open(a) && a'.id == a.id && forall b :: b in g.appeals && b.id == a.id ==> b == a
    requires forall y :: y in g'.isolations <==> y == r' || (y in g.isolations && IsolationId(y) != IsolationId(r'))
    requires forall y :: y in g'.appeals <==> y == a' || (y in g.appeals && AppealId(y) != AppealId(a'))
    ensures Preserves(g, g')
  {
    forall x | x in g.isolations && x != r
      ensures x in g'.isolations
    {
      OtherStays(g.isolations, g'.isolations, r, r', x);
    }
    assert r' in g'.isolations;
  }

  lemma VoteStepKeeps(g: State, flaggers: Flaggers, appealId: string, reviewer: string, vote: string, now: int)
    requires Inv(g, flaggers)
    ensures var g' := CastVote(g, appealId, reviewer, vote, now).0; Inv(g', flaggers) && Preserves(g, g')
  {
    var (g', reply) := CastVote(g, appealId, reviewer, vote, now);
    if reply.Voted? {
      var a := Find(g.appeals, AppealId, appealId).value;
      assert a in g.appeals && a.id == appealId;
      var v := ParseVote(vote).value;
      var a' := WithVote(a, reviewer, v, now);
      hide WithVote, IndexOfId, Put, AppealOk, Settled;
      var r := NamedIsAppealed(g, flaggers, a);
      VoteKeepsAppeal(a, flaggers, reviewer, v, now);
      WithVoteKeepsIds(a, reviewer, v, now);
      if Open(a') {
        OpenVoteKeeps(g, flaggers, a, a');
      } else {
        LastVoteKeeps(g, flaggers, a, a', r);
      }
    }
  }

  lemma WithVoteKeepsIds(a: Appeal, reviewer: string, vote: Vote, now: int)
    ensures var a' := WithVote(a, reviewer, vote, now); a'.id == a.id && a'.isolationId == a.isolationId
  {
  }

  lemma StepKeepsInv(g: State, flaggers: Flaggers, op: Op)
    requires Inv(g, flaggers) && Enabled(g, op)
    ensures Inv(Step(g, op), Record(g, flaggers, op)) && Preserves(g, Step(g, op))
  {
    hide Inv, Preserves, Put, CastVote;
    match op {
      case IsolateOp(did, reason, category, flagger, id, now) =>
        IsolateStepKeeps(g, flaggers, op);
      case AppealOp(isolationId, guardian, agent, justification, id, now) =>
        AppealStepKeeps(g, flaggers, op);
      case VoteOp(appealId, reviewer, vote, now) =>
        VoteStepKeeps(g, flaggers, appealId, reviewer, vote, now);
      case OtherSourceOp(record) =>
        FreshIsolationKeeps(g, flaggers, record);
    }
  }

  lemma NothingChanged(g: State)
    ensures Preserves(g, g)
  {
  }

  lemma IsolateStepKeeps(g: State, flaggers: Flaggers, op: Op)
    requires Inv(g, flaggers) && Enabled(g, op) && op.IsolateOp?
    ensures Inv(Step(g, op), flaggers) && Preserves(g, Step(g, op))
  {
    hide Inv, Preserves, Put;
    NothingChanged(g);
    if Isolate(g, op.did, op.reason, op.category, op.flagger, op.id, op.now).1.Isolated? {
      var existing := Filter(g.isolations, ActiveFor(op.did));
      if existing != [] {
        assert existing[0] in existing;
        FlagKeeps(g, flaggers, existing[0], op.flagger);
      } else {
        FreshIsolationKeeps(g, flaggers, NewIsolation(op.id, op.did, op.reason, op.category, op.flagger, op.now));
      }
    }
  }

  lemma AppealStepKeeps(g: State, flaggers: Flaggers, op: Op)
    requires Inv(g, flaggers) && Enabled(g, op) && op.AppealOp?
    ensures Inv(Step(g, op), Record(g, flaggers, op)) && Preserves(g, Step(g, op))
  {
    hide Inv, Preserves, Put;
    NothingChanged(g);
    if SubmitAppeal(g, op.isolationId, op.guardian, op.agent, op.justification, op.id, op.now).1.AppealSubmitted? {
      var r := Find(g.isolations, IsolationId, op.isolationId).value;
      AppealKeeps(g, flaggers, r,
                  NewAppeal(op.id, op.isolationId, op.guardian, op.agent, op.justification, op.now));
    }
  }

  // ---- whole runs ------------------------------------------------------------------------------------

  function Run(ops: seq<Op>): (State, Flaggers) {
    if ops == [] then (State([], []), map[])
    else
      var (g, flaggers) := Run(ops[..|ops| - 1]);
      (Step(g, ops[|ops| - 1]), Record(g, flaggers, ops[|ops| - 1]))
  }

  ghost predicate Legal(ops: seq<Op>) {
    ops == [] || (Legal(ops[..|ops| - 1]) && Enabled(Run(ops[..|ops| - 1]).0, ops[|ops| - 1]))
  }

  /**
   * Over every run: an isolation is appealed exactly when an appeal is pending, exactly when
   * one open appeal names it; reviewers never include who had flagged the isolation; an
   * appeal is settled by exactly three votes, as two of them say.
   */
  lemma {:induction false} RunKeepsInv(ops: seq<Op>)
    requires Legal(ops)
    ensures Inv(Run(ops).0, Run(ops).1)
  {
    if ops != [] {
      hide Inv, Enabled;
      var front, op := ops[..|ops| - 1], ops[|ops| - 1];
      RunKeepsInv(front);
      StepKeepsInv(Run(front).0, Run(front).1, op);
    }
  }

  /** Lifted isolations and resolved appeals stay as they are for the rest of any run. */
  lemma {:induction false} SettledIsFinal(ops: seq<Op>, k: nat)
    requires Legal(ops) && k <= |ops|
    ensures forall r :: r in Run(ops[..k]).0.isolations && r.status == Lifted ==> r in Run(ops).0.isolations
    ensures forall a :: a in Run(ops[..k]).0.appeals && !Open(a) ==> a in Run(ops).0.appeals
  {
    if k == |ops| {
      assert ops[..k] == ops;
    } else {
      var front, op := ops[..|ops| - 1], ops[|ops| - 1];
      assert front[..k] == ops[..k];
      SettledIsFinal(front, k);
      RunKeepsInv(front);
      var g := Run(front).0;
      hide Inv, Enabled, Step;
      StepKeepsInv(g, Run(front).1, op);
      assert Run(ops).0 == Step(g, op);
      assert Preserves(g, Step(g, op));
    }
  }

  // ---- what each operation answers and stores ---------------------------------------------------------------

  /** The answer to a flag, and the record that shows it. */
  lemma FlagIsStored(g: State, did: string, reason: string, category: string, flagger: string, id: string, now: int)
    requires DistinctIds(g.isolations, IsolationId)
    ensures var (g', reply) := Isolate(g, did, reason, category, flagger, id, now);
            && (reply == InvalidFormat <==> did == "" || reason == "" || category == "" || flagger == "")
            && (reply != InvalidFormat ==> reply.Isolated? && g'.appeals == g.appeals)
            && (reply.Isolated? && !reply.alreadyIsolated ==>
                  && !HasActive(g, did) && reply.isolationId == id
                  && Isolation(id, did, reason, category, [flagger], now, false, Active) in g'.isolations)
            && (reply.Isolated? && reply.alreadyIsolated ==>
                  exists r, r' :: r in g.isolations && IsActive(r, did) && r.id == reply.isolationId
                                  && r' in g'.isolations && r' == r.(flaggedBy := r'.flaggedBy)
                                  && r'.flaggedBy == r.flaggedBy + if flagger in r.flaggedBy then [] else [flagger])
  {
    var (g', reply) := Isolate(g, did, reason, category, flagger, id, now);
    if reply.Isolated? {
      hide Put, IndexOfId;
      var existing := Filter(g.isolations, ActiveFor(did));
      ActiveIsInFilter(g, did);
      if existing != [] {
        assert existing[0] in existing;
        PutMembers(g.isolations, IsolationId, WithFlagger(existing[0], flagger));
        assert WithFlagger(existing[0], flagger) in g'.isolations;
      } else {
        PutMembers(g.isolations, IsolationId, NewIsolation(id, did, reason, category, flagger, now));
      }
    }
  }

  /** The answer to an appeal, and what it stores. */
  lemma AppealIsStored(g: State, isolationId: string, guardian: string, agent: string, justification: string,
                       id: string, now: int)
    requires DistinctIds(g.isolations, IsolationId) && DistinctIds(g.appeals, AppealId)
    ensures var (g', reply) := SubmitAppeal(g, isolationId, guardian, agent, justification, id, now);
            var found := Find(g.isolations, IsolationId, isolationId);
            && (reply == InvalidFormat
                <==> isolationId == "" || guardian == "" || agent == "" || justification == "")
            && (reply == NotFound <==> reply != InvalidFormat && found.None?)
            && (reply == InvalidState <==> reply != InvalidFormat && found.Some? && found.value.status != Active)
            && (reply.AppealSubmitted? || reply == InvalidFormat || reply == NotFound || reply == InvalidState)
            && (reply.AppealSubmitted? ==>
                  && reply.appealId == id && found.value.status == Active
                  && found.value.(appealPending := true, status := Appealed) in g'.isolations
                  && Appeal(id, isolationId, guardian, agent, justification, [], map[], None, now, None) in g'.appeals)
  {
    var (g', reply) := SubmitAppeal(g, isolationId, guardian, agent, justification, id, now);
    if reply.AppealSubmitted? {
      hide Put, IndexOfId;
      var r := Find(g.isolations, IsolationId, isolationId).value;
      PutMembers(g.isolations, IsolationId, r.(appealPending := true, status := Appealed));
      PutMembers(g.appeals, AppealId, NewAppeal(id, isolationId, guardian, agent, justification, now));
    }
  }

  /** Exactly when a vote is taken, and how it is refused otherwise. */
  lemma VoteIsTakenIff(g: State, appealId: string, reviewer: string, vote: string, now: int)
    ensures var reply := CastVote(g, appealId, reviewer, vote, now).1;
            var a := Find(g.appeals, AppealId, appealId);
            var r := if a.Some? then Find(g.isolations, IsolationId, a.value.isolationId) else None;
            && (reply == InvalidFormat <==> reviewer == "" || (vote != "uphold" && vote != "lift"))
            && (reply == NotFound <==> reply != InvalidFormat && a.None?)
            && (reply == InvalidState <==> reply != InvalidFormat && a.Some? && a.value.outcome.Some?)
            && (reply == ConflictOfInterest
                <==> reply != InvalidFormat && a.Some? && a.value.outcome.None?
                     && r.Some? && reviewer in r.value.flaggedBy)
            && (reply.Voted?
                <==> reviewer != "" && (vote == "uphold" || vote == "lift") && a.Some? && a.value.outcome.None?
                     && (r.Some? ==> reviewer !in r.value.flaggedBy))
            && (reply.Voted? ==>
                  && reply.appeal.votes == a.value.votes[reviewer := if vote == "lift" then Lift else Uphold]
                  && (reply.appeal.outcome.Some? ==> reply.appeal.resolvedAt == Some(now)))
  {
  }

  /** What a record is about never changes, and flaggers and reviewers are added at the end alone. */
  lemma RecordsKeepTheirFacts(g: State, flaggers: Flaggers, op: Op)
    requires Inv(g, flaggers) && Enabled(g, op)
    ensures forall r :: r in g.isolations ==>
              exists r' :: r' in Step(g, op).isolations && SameIsolation(r, r')
    ensures forall a :: a in g.appeals ==>
              exists a' :: a' in Step(g, op).appeals && SameAppeal(a, a')
  {
    hide Put, IndexOfId, Filter;
    var g' := Step(g, op);
    match op {
      case IsolateOp(did, reason, category, flagger, id, now) =>
        if Isolate(g, did, reason, category, flagger, id, now).1.Isolated? {
          var existing := Filter(g.isolations, ActiveFor(did));
          if existing != [] {
            assert existing[0] in existing;
            IsolationsKept(g.isolations, existing[0], WithFlagger(existing[0], flagger));
          } else {
            NotStored(g.isolations, id);
            PutMembers(g.isolations, IsolationId, NewIsolation(id, did, reason, category, flagger, now));
          }
        }
      case AppealOp(isolationId, guardian, agent, justification, id, now) =>
        if SubmitAppeal(g, isolationId, guardian, agent, justification, id, now).1.AppealSubmitted? {
          var r := Find(g.isolations, IsolationId, isolationId).value;
          IsolationsKept(g.isolations, r, r.(appealPending := true, status := Appealed));
          NoAppealStored(g.appeals, id);
          PutMembers(g.appeals, AppealId, NewAppeal(id, isolationId, guardian, agent, justification, now));
        }
      case VoteOp(_, _, _, _) => VoteKeepsFacts(g, flaggers, op);
      case OtherSourceOp(record) =>
        NotStored(g.isolations, record.id);
        PutMembers(g.isolations, IsolationId, record);
    }
  }

  lemma VoteKeepsFacts(g: State, flaggers: Flaggers, op: Op)
    requires Inv(g, flaggers) && op.VoteOp?
    ensures forall r :: r in g.isolations ==>
              exists r' :: r' in Step(g, op).isolations && SameIsolation(r, r')
    ensures forall a :: a in g.appeals ==>
              exists a' :: a' in Step(g, op).appeals && SameAppeal(a, a')
  {
    hide Put, IndexOfId, WithVote, Find;
    assert forall r :: r in g.isolations ==> SameIsolation(r, r);
    assert forall a :: a in g.appeals ==> SameAppeal(a, a);
    if CastVote(g, op.appealId, op.reviewer, op.vote, op.now).1.Voted? {
      var a := Find(g.appeals, AppealId, op.appealId).value;
      var a' := WithVote(a, op.reviewer, ParseVote(op.vote).value, op.now);
      FoundIs(g.appeals, op.appealId);
      WithVoteKeepsIds(a, op.reviewer, ParseVote(op.vote).value, op.now);
      WithVoteSame(a, op.reviewer, ParseVote(op.vote).value, op.now);
      var r := NamedIsAppealed(g, flaggers, a);
      assert DistinctIds(g.isolations, IsolationId) && DistinctIds(g.appeals, AppealId);
      hide Inv, DistinctIds, SameAppeal, SameIsolation;
      AppealsKept(g.appeals, a, a');
      if a'.outcome.Some? {
        SettledSame(r, a'.outcome.value);
        IsolationsKept(g.isolations, r, Settled(r, a'.outcome.value));
      }
    }
  }

  lemma WithVoteSame(a: Appeal, reviewer: string, vote: Vote, now: int)
    ensures SameAppeal(a, WithVote(a, reviewer, vote, now))
  {
  }

  lemma SettledSame(r: Isolation, verdict: Verdict)
    ensures SameIsolation(r, Settled(r, verdict))
  {
  }

  predicate SameIsolation(r: Isolation, r': Isolation) {
    && r' == r.(flaggedBy := r'.flaggedBy, appealPending := r'.appealPending, status := r'.status)
    && r.flaggedBy <= r'.flaggedBy
  }

  predicate SameAppeal(a: Appeal, a': Appeal) {
    && a' == a.(reviewers := a'.reviewers, votes := a'.votes, outcome := a'.outcome, resolvedAt := a'.resolvedAt)
    && a.reviewers <= a'.reviewers
  }

  lemma IsolationsKept(isolations: seq<Isolation>, r: Isolation, r': Isolation)
    requires DistinctIds(isolations, IsolationId) && r in isolations && SameIsolation(r, r')
    ensures forall x :: x in isolations ==>
              exists x' :: x' in Put(isolations, IsolationId, r') && SameIsolation(x, x')
  {
    hide Put;
    PutMembers(isolations, IsolationId, r');
    forall x | x in isolations
      ensures exists x' :: x' in Put(isolations, IsolationId, r') && SameIsolation(x, x')
    {
      if x.id == r.id {
        SameIdSameIsolation(isolations, r, x);
        assert r' in Put(isolations, IsolationId, r');
      } else {
        assert IsolationId(x) != IsolationId(r') && SameIsolation(x, x);
      }
    }
  }

  lemma AppealsKept(appeals: seq<Appeal>, a: Appeal, a': Appeal)
    requires DistinctIds(appeals, AppealId) && a in appeals && SameAppeal(a, a')
    ensures forall x :: x in appeals ==>
              exists x' :: x' in Put(appeals, AppealId, a') && SameAppeal(x, x')
  {
    hide Put;
    PutMembers(appeals, AppealId, a');
    forall x | x in appeals
      ensures exists x' :: x' in Put(appeals, AppealId, a') && SameAppeal(x, x')
    {
      if x.id == a.id {
        SameIdSameAppeal(appeals, a, x);
        assert a' in Put(appeals, AppealId, a');
      } else {
        assert AppealId(x) != AppealId(a') && SameAppeal(x, x);
      }
    }
  }

  // ---- whose votes an appeal holds ------------------------------------------------------------------------

  /** The operation is a vote on this appeal that is taken. */
  predicate TakesVote(g: State, op: Op, appealId: string) {
    op.VoteOp? && op.appealId == appealId && CastVote(g, op.appealId, op.reviewer, op.vote, op.now).1.Voted?
  }

  predicate IsVote(op: Op, v: Vote) { op.VoteOp? && ParseVote(op.vote) == Some(v) }

  /** Operation `i` was a vote of this reviewer on this appeal, and was taken. */
  ghost predicate Took(ops: seq<Op>, i: int, appealId: string, reviewer: string) {
    0 <= i < |ops| && TakesVote(Run(ops[..i]).0, ops[i], appealId) && ops[i].reviewer == reviewer
  }

  /** The last vote of this reviewer that was taken on this appeal is `v`. */
  ghost predicate LastVote(ops: seq<Op>, appealId: string, reviewer: string, v: Vote) {
    exists i :: Took(ops, i, appealId, reviewer) && IsVote(ops[i], v)
                && forall j :: i < j ==> !Took(ops, j, appealId, reviewer)
  }

  lemma TookNext(ops: seq<Op>, op: Op, i: int, appealId: string, reviewer: string)
    ensures Took(ops + [op], i, appealId, reviewer)
            <==> Took(ops, i, appealId, reviewer)
                 || (i == |ops| && TakesVote(Run(ops).0, op, appealId) && op.reviewer == reviewer)
  {
    hide Run, CastVote;
    var all := ops + [op];
    if 0 <= i < |ops| {
      assert all[..i] == ops[..i] && all[i] == ops[i];
    }
    assert all[..|ops|] == ops;
  }

  lemma LastVoteNext(ops: seq<Op>, op: Op, appealId: string, reviewer: string, v: Vote)
    ensures LastVote(ops + [op], appealId, reviewer, v)
            <==> if TakesVote(Run(ops).0, op, appealId) && op.reviewer == reviewer then IsVote(op, v)
                 else LastVote(ops, appealId, reviewer, v)
  {
    hide Took, CastVote, Run, ParseVote;
    var all := ops + [op];
    forall i
      ensures Took(all, i, appealId, reviewer)
              <==> Took(ops, i, appealId, reviewer)
                   || (i == |ops| && TakesVote(Run(ops).0, op, appealId) && op.reviewer == reviewer)
    {
      TookNext(ops, op, i, appealId, reviewer);
    }
    forall i | Took(ops, i, appealId, reviewer)
      ensures 0 <= i < |ops| && all[i] == ops[i]
    {
      TookInRange(ops, i, appealId, reviewer);
    }
    assert all[|ops|] == op;
    if TakesVote(Run(ops).0, op, appealId) && op.reviewer == reviewer {
      assert Took(all, |ops|, appealId, reviewer);
    } else if LastVote(ops, appealId, reviewer, v) {
      var i :| Took(ops, i, appealId, reviewer) && IsVote(ops[i], v)
               && forall j :: i < j ==> !Took(ops, j, appealId, reviewer);
      TookInRange(ops, i, appealId, reviewer);
      assert Took(all, i, appealId, reviewer);
    }
  }

  lemma TookInRange(ops: seq<Op>, i: int, appealId: string, reviewer: string)
    requires Took(ops, i, appealId, reviewer)
    ensures 0 <= i < |ops|
  {
  }

  /** What a step makes of the appeals: a vote is recorded, one is new, and the others stay. */
  lemma StepAppeals(g: State, op: Op, a': Appeal) returns (a: Appeal)
    requires DistinctIds(g.appeals, AppealId) && Enabled(g, op) && a' in Step(g, op).appeals
    ensures if TakesVote(g, op, a'.id) then
              a in g.appeals && a.id == a'.id && a'.votes == a.votes[op.reviewer := ParseVote(op.vote).value]
            else
              (a == a' && a in g.appeals) || (a'.votes == map[] && forall b :: b in g.appeals ==> b.id != a'.id)
  {
    hide Put, IndexOfId;
    a := a';
    match op {
      case AppealOp(isolationId, guardian, agent, justification, id, now) =>
        PutMembers(g.appeals, AppealId, NewAppeal(id, isolationId, guardian, agent, justification, now));
        NoAppealStored(g.appeals, id);
      case VoteOp(appealId, reviewer, vote, now) =>
        var found := Find(g.appeals, AppealId, appealId);
        if CastVote(g, appealId, reviewer, vote, now).1.Voted? {
          FoundIs(g.appeals, appealId);
          var changed := WithVote(found.value, reviewer, ParseVote(vote).value, now);
          WithVoteKeepsIds(found.value, reviewer, ParseVote(vote).value, now);
          PutMembers(g.appeals, AppealId, changed);
          if a' == changed {
            a := found.value;
          }
        }
      case _ =>
    }
  }

  /** An appeal once stored has its id stored for ever. */
  lemma AppealIdsStay(g: State, op: Op, id: string)
    requires DistinctIds(g.appeals, AppealId) && exists a :: a in g.appeals && a.id == id
    ensures exists a :: a in Step(g, op).appeals && a.id == id
  {
    hide Put, IndexOfId;
    var a :| a in g.appeals && a.id == id;
    match op {
      case AppealOp(isolationId, guardian, agent, justification, newId, now) =>
        PutMembers(g.appeals, AppealId, NewAppeal(newId, isolationId, guardian, agent, justification, now));
        assert NewAppeal(newId, isolationId, guardian, agent, justification, now).id == newId;
        assert AppealId(a) == id;
      case VoteOp(appealId, reviewer, vote, now) =>
        if CastVote(g, appealId, reviewer, vote, now).1.Voted? {
          FoundIs(g.appeals, appealId);
          var found := Find(g.appeals, AppealId, appealId).value;
          var changed := WithVote(found, reviewer, ParseVote(vote).value, now);
          WithVoteKeepsIds(found, reviewer, ParseVote(vote).value, now);
          PutMembers(g.appeals, AppealId, changed);
          assert AppealId(a) == id && AppealId(changed) == changed.id;
        }
      case _ =>
    }
  }

  /** Votes are taken on stored appeals only. */
  lemma {:induction false} TookOnStored(ops: seq<Op>, i: int, appealId: string, reviewer: string)
    requires Legal(ops) && Took(ops, i, appealId, reviewer)
    ensures exists a :: a in Run(ops).0.appeals && a.id == appealId
    decreases |ops|
  {
    TookInRange(ops, i, appealId, reviewer);
    var front, op := ops[..|ops| - 1], ops[|ops| - 1];
    var g := Run(front).0;
    assert ops == front + [op];
    RunStep(front, op);
    RunKeepsInv(front);
    assert DistinctIds(g.appeals, AppealId);
    hide Step, Took, Run, Legal, Inv, DistinctIds, Enabled, CastVote, IndexOfId;
    TookNext(front, op, i, appealId, reviewer);
    if Took(front, i, appealId, reviewer) {
      TookOnStored(front, i, appealId, reviewer);
    } else {
      TakenOnStored(g, op, appealId);
    }
    AppealIdsStay(g, op, appealId);
  }

  lemma TakenOnStored(g: State, op: Op, appealId: string)
    requires TakesVote(g, op, appealId)
    ensures exists a :: a in g.appeals && a.id == appealId
  {
    FoundIs(g.appeals, appealId);
  }

  /** Over every run, an appeal holds each reviewer's last vote that was taken on it, and no other votes. */
  lemma {:induction false} VotesAreTheLast(ops: seq<Op>, a: Appeal, reviewer: string, v: Vote)
    requires Legal(ops) && a in Run(ops).0.appeals
    ensures (reviewer in a.votes && a.votes[reviewer] == v) <==> LastVote(ops, a.id, reviewer, v)
    decreases |ops|
  {
    var front, op := ops[..|ops| - 1], ops[|ops| - 1];
    var g := Run(front).0;
    assert ops == front + [op];
    RunKeepsInv(front);
    assert DistinctIds(g.appeals, AppealId);
    hide Step, Took, TakesVote, LastVote, Run, Legal, Inv, DistinctIds, Enabled;
    LastVoteNext(front, op, a.id, reviewer, v);
    RunStep(front, op);
    var b := StepAppeals(g, op, a);
    if b in g.appeals && b.id == a.id {
      VotesAreTheLast(front, b, reviewer, v);
      TakesParsed(g, op, a.id);
    } else {
      NeverTaken(front, a.id, reviewer, v);
    }
  }

  lemma RunStep(ops: seq<Op>, op: Op)
    requires Legal(ops + [op])
    ensures Legal(ops) && Enabled(Run(ops).0, op) && Run(ops + [op]).0 == Step(Run(ops).0, op)
  {
    var all := ops + [op];
    assert all[..|all| - 1] == ops;
  }

  lemma TakesParsed(g: State, op: Op, appealId: string)
    ensures TakesVote(g, op, appealId) ==> op.VoteOp? && ParseVote(op.vote).Some?
  {
  }

  lemma NeverTaken(ops: seq<Op>, appealId: string, reviewer: string, v: Vote)
    requires Legal(ops) && forall a :: a in Run(ops).0.appeals ==> a.id != appealId
    ensures !LastVote(ops, appealId, reviewer, v)
  {
    hide Took, Run, Legal;
    if i :| Took(ops, i, appealId, reviewer) {
      TookOnStored(ops, i, appealId, reviewer);
    }
  }

  // ---- more than one active isolation --------------------------------------------------------------------

  predicate IsActive(r: Isolation, did: string) { r.status == Active && r.did == did }

  /** A DID has at most one active isolation. */
  ghost predicate OneActive(g: State) {
    forall r, s :: r in g.isolations && s in g.isolations && IsActive(r, r.did) && IsActive(s, r.did) ==> r == s
  }

  predicate HasActive(g: State, did: string) {
    exists r :: r in g.isolations && IsActive(r, did)
  }

  /** The vote is the third on an open appeal, by who may vote, and fewer than two of the three lift. */
  predicate TurnsDown(a: Appeal, r: Isolation, reviewer: string, vote: Vote) {
    && Open(a) && reviewer !in r.flaggedBy
    && |a.votes[reviewer := vote]| == 3 && LiftVotes(a.votes[reviewer := vote]) < 2
  }

  /**
   * The operations that make a second active isolation of a DID: upholding one while another is
   * active, and a new record from another source while one is.
   */
  predicate Doubles(g: State, op: Op) {
    match op
    case IsolateOp(_, _, _, _, _, _) => false
    case AppealOp(_, _, _, _, _, _) => false
    case VoteOp(appealId, reviewer, vote, _) =>
      && reviewer != "" && ParseVote(vote).Some?
      && exists a, r :: a in g.appeals && r in g.isolations && a.id == appealId && r.id == a.isolationId
                        && TurnsDown(a, r, reviewer, ParseVote(vote).value) && HasActive(g, r.did)
    case OtherSourceOp(record) => HasActive(g, record.did)
  }

  lemma OneActivePut(g: State, r: Isolation)
    requires DistinctIds(g.isolations, IsolationId) && OneActive(g)
    ensures OneActive(g.(isolations := Put(g.isolations, IsolationId, r)))
            <==> r.status == Active ==>
                 forall x :: x in g.isolations && IsActive(x, r.did) ==> x.id == r.id
  {
    hide Put, DistinctIds;
    var g' := g.(isolations := Put(g.isolations, IsolationId, r));
    PutMembers(g.isolations, IsolationId, r);
    assert r in g'.isolations;
    if r.status == Active && OneActive(g') {
      forall x | x in g.isolations && IsActive(x, r.did)
        ensures x.id == r.id
      {
        assert x.id != r.id ==> x in g'.isolations;
        assert IsActive(r, r.did);
      }
    }
  }

  lemma ActiveIsInFilter(g: State, did: string)
    ensures HasActive(g, did) <==> Filter(g.isolations, ActiveFor(did)) != []
  {
    var existing := Filter(g.isolations, ActiveFor(did));
    if existing != [] {
      assert existing[0] in existing;
      assert IsActive(existing[0], did);
    }
    if r :| r in g.isolations && IsActive(r, did) {
      assert r in existing;
    }
  }

  /** On an open appeal that is in order, the vote upholds the isolation exactly when it turns the appeal down. */
  lemma UpholdsIff(a: Appeal, flaggers: Flaggers, r: Isolation, reviewer: string, vote: Vote, now: int)
    requires AppealOk(a, flaggers) && Open(a) && reviewer !in r.flaggedBy
    ensures WithVote(a, reviewer, vote, now).outcome == Some(UpheldVerdict) <==> TurnsDown(a, r, reviewer, vote)
  {
    var votes := a.votes[reviewer := vote];
    ReviewersCount(a.reviewers, a.votes.Keys);
    assert |a.votes| == |a.votes.Keys| <= 2;
    assert |votes| == if reviewer in a.votes then |a.votes| else |a.votes| + 1;
  }

  /** Which appeal and isolation a vote is about. */
  lemma VoteDoublesIff(g: State, flaggers: Flaggers, op: Op, a: Appeal, r: Isolation)
    requires Inv(g, flaggers) && op.VoteOp? && a in g.appeals && a.id == op.appealId
    requires r in g.isolations && r.id == a.isolationId
    ensures Doubles(g, op)
            <==> op.reviewer != "" && ParseVote(op.vote).Some?
                 && TurnsDown(a, r, op.reviewer, ParseVote(op.vote).value) && HasActive(g, r.did)
  {
    hide TurnsDown, HasActive, AppealOk, IsolationOk, NamedOk, DistinctIds;
    forall b, s | b in g.appeals && s in g.isolations && b.id == op.appealId && s.id == b.isolationId
      ensures b == a && s == r
    {
      SameIdSameAppeal(g.appeals, a, b);
      SameIdSameIsolation(g.isolations, r, s);
    }
  }

  lemma VoteKeepsOneActive(g: State, flaggers: Flaggers, op: Op)
    requires Inv(g, flaggers) && OneActive(g) && op.VoteOp?
    ensures OneActive(Step(g, op)) <==> !Doubles(g, op)
  {
    var found := Find(g.appeals, AppealId, op.appealId);
    if found.None? {
      NoSuchAppeal(g.appeals, op.appealId);
    } else {
      var a := found.value;
      FoundIs(g.appeals, op.appealId);
      hide Inv, WithVote, Put, IndexOfId, Doubles, OneActive, HasActive, TurnsDown;
      if Open(a) {
        var r := NamedIsAppealed(g, flaggers, a);
        VoteDoublesIff(g, flaggers, op, a, r);
        OpenVoteKeepsOneActive(g, flaggers, op, a, r);
      } else {
        ClosedDoesNotDouble(g, flaggers, op, a);
      }
    }
  }

  lemma NoSuchAppeal(appeals: seq<Appeal>, id: string)
    requires Find(appeals, AppealId, id).None?
    ensures forall a :: a in appeals ==> a.id != id
  {
  }

  lemma FoundIs(appeals: seq<Appeal>, id: string)
    requires Find(appeals, AppealId, id).Some?
    ensures var a := Find(appeals, AppealId, id).value; a in appeals && a.id == id
  {
  }

  lemma ClosedDoesNotDouble(g: State, flaggers: Flaggers, op: Op, a: Appeal)
    requires Inv(g, flaggers) && op.VoteOp? && a in g.appeals && a.id == op.appealId && !Open(a)
    ensures !Doubles(g, op)
  {
    hide HasActive, AppealOk, IsolationOk, NamedOk, DistinctIds;
    forall b | b in g.appeals && b.id == op.appealId
      ensures b == a
    {
      SameIdSameAppeal(g.appeals, a, b);
    }
  }

  lemma OpenVoteKeepsOneActive(g: State, flaggers: Flaggers, op: Op, a: Appeal, r: Isolation)
    requires Inv(g, flaggers) && OneActive(g) && op.VoteOp?
    requires a in g.appeals && Open(a) && Find(g.appeals, AppealId, op.appealId) == Some(a)
    requires r in g.isolations && r.status == Appealed && Find(g.isolations, IsolationId, a.isolationId) == Some(r)
    ensures OneActive(Step(g, op))
            <==> !(op.reviewer != "" && ParseVote(op.vote).Some?
                   && TurnsDown(a, r, op.reviewer, ParseVote(op.vote).value) && HasActive(g, r.did))
  {
    if op.reviewer != "" && ParseVote(op.vote).Some? && op.reviewer !in r.flaggedBy {
      var v := ParseVote(op.vote).value;
      var a' := WithVote(a, op.reviewer, v, op.now);
      assert AppealOk(a, flaggers);
      UpholdsIff(a, flaggers, r, op.reviewer, v, op.now);
      OtherIsActive(g, flaggers, r);
      if a'.outcome.Some? {
        OneActivePut(g, Settled(r, a'.outcome.value));
      }
      hide Inv, WithVote, Put, IndexOfId, TurnsDown;
    }
  }

  /** The isolation under appeal is not itself active. */
  lemma OtherIsActive(g: State, flaggers: Flaggers, r: Isolation)
    requires Inv(g, flaggers) && r in g.isolations && r.status == Appealed
    ensures HasActive(g, r.did) <==> exists x :: x in g.isolations && IsActive(x, r.did) && x.id != r.id
    ensures forall s :: s in g.isolations && s.id == r.id ==> s == r
  {
    forall s | s in g.isolations && s.id == r.id
      ensures s == r
    {
      SameIdSameIsolation(g.isolations, r, s);
    }
    if x :| x in g.isolations && IsActive(x, r.did) {
      assert x.id != r.id;
    }
  }

  /**
   * A step keeps at most one active isolation per DID exactly when it is not one that doubles:
   * flagging and appealing always do, and so do lifting votes.
   */
  lemma OneActiveIff(g: State, flaggers: Flaggers, op: Op)
    requires Inv(g, flaggers) && Enabled(g, op) && OneActive(g)
    ensures OneActive(Step(g, op)) <==> !Doubles(g, op)
  {
    match op {
      case IsolateOp(did, reason, category, flagger, id, now) =>
        var existing := Filter(g.isolations, ActiveFor(did));
        ActiveIsInFilter(g, did);
        hide Inv, Put, Filter;
        if Isolate(g, did, reason, category, flagger, id, now).1.Isolated? {
          if existing != [] {
            assert existing[0] in existing;
            OneActivePut(g, WithFlagger(existing[0], flagger));
          } else {
            OneActivePut(g, NewIsolation(id, did, reason, category, flagger, now));
          }
        }
      case AppealOp(isolationId, guardian, agent, justification, id, now) =>
        hide Inv, Put, Filter;
        if SubmitAppeal(g, isolationId, guardian, agent, justification, id, now).1.AppealSubmitted? {
          var r := Find(g.isolations, IsolationId, isolationId).value;
          OneActivePut(g, r.(appealPending := true, status := Appealed));
        }
      case VoteOp(_, _, _, _) => VoteKeepsOneActive(g, flaggers, op);
      case OtherSourceOp(record) =>
        NotStored(g.isolations, record.id);
        OneActivePut(g, record);
    }
  }

  lemma RunNext(ops: seq<Op>, op: Op)
    requires Legal(ops) && Enabled(Run(ops).0, op)
    ensures Legal(ops + [op]) && Run(ops + [op]).0 == Step(Run(ops).0, op)
  {
    var all := ops + [op];
    assert all[..|all| - 1] == ops;
  }

  function Flagged(id: string): Isolation { NewIsolation(id, "d", "r", "c", "f", 0) }

  function FlagAs(id: string): Op { IsolateOp("d", "r", "c", "f", id, 0) }

  function UnderAppeal(): Isolation { Flagged("1").(appealPending := true, status := Appealed) }

  function FirstAppeal(): Appeal { NewAppeal("a", "1", "g", "d", "j", 0) }

  lemma FirstFlag()
    ensures Enabled(State([], []), FlagAs("1")) && Step(State([], []), FlagAs("1")) == State([Flagged("1")], [])
  {
  }

  lemma FirstSubmission()
    ensures var op, g := AppealOp("1", "g", "d", "j", "a", 0), State([Flagged("1")], []);
            Enabled(g, op) && Step(g, op) == State([UnderAppeal()], [FirstAppeal()])
  {
  }

  lemma SecondFlag()
    ensures var g := State([UnderAppeal()], [FirstAppeal()]);
            Enabled(g, FlagAs("2")) && Step(g, FlagAs("2")) == State([UnderAppeal(), Flagged("2")], [FirstAppeal()])
  {
  }

  /** A run that doubles: "d" is flagged again while under appeal, and then the appeal is turned down. */
  lemma FlaggedTwice() returns (ops: seq<Op>)
    ensures Legal(ops) && !OneActive(Run(ops).0)
  {
    ops := [];
    assert Legal([]) && Run([]).0 == State([], []);
    FirstFlag();
    FirstSubmission();
    SecondFlag();
    hide Run, Legal, Step, Enabled, OneActive;
    RunNext(ops, FlagAs("1"));
    ops := ops + [FlagAs("1")];
    var submit := AppealOp("1", "g", "d", "j", "a", 0);
    RunNext(ops, submit);
    ops := ops + [submit];
    RunNext(ops, FlagAs("2"));
    ops := ops + [FlagAs("2")];
    ops := TurnedDown(ops, UnderAppeal(), Flagged("2"), FirstAppeal());
  }

  /** Three reviewers uphold. */
  lemma TurnedDown(ops: seq<Op>, under: Isolation, other: Isolation, a: Appeal) returns (more: seq<Op>)
    requires Legal(ops) && Run(ops).0 == State([under, other], [a])
    requires a.id == "a" && a.isolationId == under.id && a.reviewers == [] && a.votes == map[] && a.outcome.None?
    requires under.flaggedBy == ["f"] && IsActive(other, under.did) && other.id != under.id
    ensures Legal(more) && !OneActive(Run(more).0)
  {
    hide Run, Legal, OneActive;
    more := ops;
    var b := Upheld(a, "u");
    more := UpheldVote(more, under, other, a, "u");
    var c := Upheld(b, "v");
    more := UpheldVote(more, under, other, b, "v");
    NoLifts(c.votes["w" := Uphold]);
    RunNext(more, VoteOp("a", "w", "uphold", 0));
    more := more + [VoteOp("a", "w", "uphold", 0)];
    assert |c.votes["w" := Uphold]| == 3;
    var settled := Settled(under, UpheldVerdict);
    assert Run(more).0.isolations == [settled, other];
    TwoAreActive(Run(more).0, settled, other);
  }

  lemma TwoAreActive(g: State, r: Isolation, s: Isolation)
    requires g.isolations == [r, s] && r.id != s.id && IsActive(r, r.did) && IsActive(s, r.did)
    ensures !OneActive(g)
  {
    assert g.isolations[0] == r && g.isolations[1] == s;
    assert r in g.isolations && s in g.isolations;
  }

  lemma NoLifts(votes: map<string, Vote>)
    requires forall r :: r in votes ==> votes[r] == Uphold
    ensures LiftVotes(votes) == 0
  {
    assert (set r | r in votes && votes[r] == Lift) == {};
  }

  function Upheld(a: Appeal, reviewer: string): Appeal {
    a.(reviewers := a.reviewers + [reviewer], votes := a.votes[reviewer := Uphold])
  }

  /** A vote that is not yet the third. */
  lemma UpheldVote(ops: seq<Op>, under: Isolation, other: Isolation, a: Appeal, reviewer: string)
    returns (more: seq<Op>)
    requires Legal(ops) && Run(ops).0 == State([under, other], [a])
    requires a.id == "a" && a.isolationId == under.id && a.outcome.None? && |a.votes| <= 1
    requires reviewer != "" && reviewer != "f" && reviewer !in a.reviewers && under.flaggedBy == ["f"]
    ensures Legal(more) && Run(more).0 == State([under, other], [Upheld(a, reviewer)])
  {
    var op := VoteOp("a", reviewer, "uphold", 0);
    hide Run, Legal;
    RunNext(ops, op);
    more := ops + [op];
    assert |a.votes[reviewer := Uphold]| <= 2;
  }

  // ---- the handlers ------------------------------------------------------------------------------------

  class Registry {
    const isolations: JsonStore<Isolation>
    const appeals: JsonStore<Appeal>

    ghost predicate Valid()
      reads this, isolations, isolations.items, appeals, appeals.items
    {
      && isolations.idOf == IsolationId && isolations.Valid()
      && appeals.idOf == AppealId && appeals.Valid()
    }

    ghost function Shown(): State
      reads isolations, appeals
    {
      State(isolations.contents, appeals.contents)
    }

    constructor ()
      ensures Valid() && Shown() == State([], [])
      ensures fresh(isolations) && fresh(appeals)
    {
      isolations := new JsonStore(IsolationId);
      appeals := new JsonStore(AppealId);
    }

    /** Adds the flagger to an existing record. */
    method Flag(record: Ref<Isolation>, flagger: string)
      requires isolations.idOf == IsolationId && isolations.Valid() && record in isolations.items
      modifies isolations, record
      ensures isolations.Valid()
      ensures record.it == WithFlagger(old(record.it), flagger)
      ensures isolations.contents == Put(old(isolations.contents), IsolationId, record.it)
    {
      if flagger !in record.it.flaggedBy {
        record.it := record.it.(flaggedBy := record.it.flaggedBy + [flagger]);
        isolations.Add(record);
      } else {
        PutStored(isolations.contents, IsolationId, record.it);
      }
    }

    /** The answer for a DID that is isolated already. */
    method FlagAgain(record: Ref<Isolation>, flagger: string) returns (reply: Reply)
      requires isolations.idOf == IsolationId && isolations.Valid() && record in isolations.items
      modifies isolations, record
      ensures isolations.Valid() && reply == Isolated(old(record.it.id), true)
      ensures isolations.contents == Put(old(isolations.contents), IsolationId, WithFlagger(old(record.it), flagger))
    {
      Flag(record, flagger);
      reply := Isolated(record.it.id, true);
    }

    method IsolateHandler(did: string, reason: string, category: string, flagger: string, id: string, now: int)
      returns (reply: Reply)
      requires Valid()
      modifies isolations, isolations.items
      ensures Valid()
      ensures (Shown(), reply) == Isolate(old(Shown()), did, reason, category, flagger, id, now)
    {
      if did == "" || reason == "" || category == "" || flagger == "" {
        return InvalidFormat;
      }
      hide Put, IndexOfId, Seqs.Filter, DistinctIds, WithFlagger, NewIsolation, ActiveFor;
      var existing := isolations.Filter(ActiveFor(did));
      if |existing| > 0 {
        assert existing[0] in existing;
        reply := FlagAgain(existing[0], flagger);
        return;
      }
      var record := new Ref(NewIsolation(id, did, reason, category, flagger, now));
      isolations.Add(record);
      reply := Isolated(record.it.id, false);
    }

    method MarkAppealed(isolation: Ref<Isolation>)
      requires isolations.idOf == IsolationId && isolations.Valid() && isolation in isolations.items
      modifies isolations, isolation
      ensures isolations.Valid()
      ensures isolations.contents == Put(old(isolations.contents), IsolationId,
                                         old(isolation.it).(appealPending := true, status := Appealed))
    {
      isolation.it := isolation.it.(appealPending := true);
      isolation.it := isolation.it.(status := Appealed);
      isolations.Add(isolation);
    }

    method AppealHandler(isolationId: string, guardian: string, agent: string, justification: string,
                         id: string, now: int) returns (reply: Reply)
      requires Valid()
      modifies isolations, isolations.items, appeals
      ensures Valid()
      ensures (Shown(), reply) == SubmitAppeal(old(Shown()), isolationId, guardian, agent, justification, id, now)
    {
      if isolationId == "" || guardian == "" || agent == "" || justification == "" {
        return InvalidFormat;
      }
      hide Put, IndexOfId, Find, DistinctIds;
      var found := isolations.GetById(isolationId);
      if found.None? {
        return NotFound;
      }
      var isolation := found.value;
      if isolation.it.status != Active {
        return InvalidState;
      }
      MarkAppealed(isolation);
      var appeal := new Ref(NewAppeal(id, isolationId, guardian, agent, justification, now));
      appeals.Add(appeal);
      reply := AppealSubmitted(id);
    }

    /** Records the vote in the appeal object and, with the third vote, the outcome. */
    method RecordVote(appeal: Ref<Appeal>, reviewer: string, vote: Vote, now: int)
      modifies appeal
      ensures appeal.it == WithVote(old(appeal.it), reviewer, vote, now)
    {
      if reviewer !in appeal.it.reviewers {
        appeal.it := appeal.it.(reviewers := appeal.it.reviewers + [reviewer]);
      }
      appeal.it := appeal.it.(votes := appeal.it.votes[reviewer := vote]);
      var totalVotes := |appeal.it.votes|;
      if totalVotes >= 3 {
        var liftVotes := LiftVotes(appeal.it.votes);
        var majority := (totalVotes + 1) / 2;
        if liftVotes >= majority {
          appeal.it := appeal.it.(outcome := Some(LiftedVerdict));
        } else {
          appeal.it := appeal.it.(outcome := Some(UpheldVerdict));
        }
        appeal.it := appeal.it.(resolvedAt := Some(now));
      }
    }

    method SettleIsolation(isolation: Ref<Isolation>, verdict: Verdict)
      requires isolations.idOf == IsolationId && isolations.Valid() && isolation in isolations.items
      modifies isolations, isolation
      ensures isolations.Valid() && isolations.items == old(isolations.items)
      ensures isolations.contents == Put(old(isolations.contents), IsolationId, Settled(old(isolation.it), verdict))
    {
      isolation.it := isolation.it.(status := if verdict == LiftedVerdict then Lifted else Active);
      isolation.it := isolation.it.(appealPending := false);
      isolations.Add(isolation);
    }

    /** The vote is recorded and its effects are stored. */
    method Review(appeal: Ref<Appeal>, isolation: Option<Ref<Isolation>>, reviewer: string, vote: Vote, now: int)
      requires Valid() && appeal in appeals.items
      requires isolation.Some? ==> isolation.value in isolations.items
      modifies isolations, appeals, appeal, if isolation.Some? then {isolation.value} else {}
      ensures Valid()
      ensures appeal.it == WithVote(old(appeal.it), reviewer, vote, now)
      ensures appeals.contents == Put(old(appeals.contents), AppealId, appeal.it)
      ensures isolations.contents
              == if appeal.it.outcome.Some? && isolation.Some?
                 then Put(old(isolations.contents), IsolationId,
                          Settled(old(isolation.value.it), appeal.it.outcome.value))
                 else old(isolations.contents)
    {
      hide Put, IndexOfId, WithVote, DistinctIds, Settled;
      WithVoteKeepsIds(appeal.it, reviewer, vote, now);
      RecordVote(appeal, reviewer, vote, now);
      if appeal.it.outcome.Some? && isolation.Some? {
        SettleIsolation(isolation.value, appeal.it.outcome.value);
      }
      appeals.Add(appeal);
    }

    method AppealVoteHandler(appealId: string, reviewer: string, vote: string, now: int) returns (reply: Reply)
      requires Valid()
      modifies isolations, isolations.items, appeals, appeals.items
      ensures Valid()
      ensures (Shown(), reply) == CastVote(old(Shown()), appealId, reviewer, vote, now)
    {
      var v := ParseVote(vote);
      if reviewer == "" || v.None? {
        return InvalidFormat;
      }
      hide Put, IndexOfId, Find, WithVote, LiftVotes, DistinctIds, Settled;
      var found := appeals.GetById(appealId);
      if found.None? {
        return NotFound;
      }
      var appeal := found.value;
      if appeal.it.outcome.Some? {
        return InvalidState;
      }
      var isolation := isolations.GetById(appeal.it.isolationId);
      if isolation.Some? && reviewer in isolation.value.it.flaggedBy {
        return ConflictOfInterest;
      }
      Review(appeal, isolation, reviewer, v.value, now);
      reply := Voted(appeal.it);
    }
  }
}
