/**
 * Guardian commands bounded by the agent's autonomy level, and the upgrades of that level.
 */
module GuardianAuthority {
  import opened Seqs

  /** A parameter that may be missing. */
  type Param = Option<string>

  datatype Command =
    | VetoAction(action: Param)
    | ReclassifyMemory
    | RestrictPeer(peerDid: Param)
    | RestrictTopic(topic: Param)
    | EmergencyLockdown
    | LiftRestriction(target: Param, liftLockdown: bool)

  datatype Recorded = Recorded(command: Command, accepted: bool, issuedAt: int)

  datatype Restrictions = Restrictions(blockedPeers: seq<string>, blockedTopics: seq<string>,
                                       lockdown: bool, vetoedActions: seq<string>)

  type Level = n: int | 0 <= n <= 3

  datatype State = State(autonomyLevel: Option<Level>, restrictions: Restrictions, history: seq<Recorded>)

  const Unrestricted := Restrictions([], [], false, [])

  function LevelOf(s: State): Level {
    if s.autonomyLevel.Some? then s.autonomyLevel.value else 0
  }

  // ---- commands on values ---------------------------------------------------------------------

  predicate Accepts(level: Level, command: Command) {
    && (level < 3 || command.EmergencyLockdown?)
    && (level < 2 || !(command.RestrictPeer? || command.RestrictTopic?))
  }

  /** Present and not empty. */
  predicate Given(p: Param) { p.Some? && p.value != "" }

  function Including(s: seq<string>, p: Param): seq<string> {
    if Given(p) && p.value !in s then s + [p.value] else s
  }

  function Except(target: Param): string -> bool {
    (x: string) => Some(x) != target
  }

  function Apply(r: Restrictions, command: Command): Restrictions {
    match command
    case VetoAction(action) => r.(vetoedActions := Including(r.vetoedActions, action))
    case ReclassifyMemory => r
    case RestrictPeer(peerDid) => r.(blockedPeers := Including(r.blockedPeers, peerDid))
    case RestrictTopic(topic) => r.(blockedTopics := Including(r.blockedTopics, topic))
    case EmergencyLockdown => r.(lockdown := true)
    case LiftRestriction(target, liftLockdown) =>
      Restrictions(Filter(r.blockedPeers, Except(target)), Filter(r.blockedTopics, Except(target)),
                   r.lockdown && !liftLockdown, Filter(r.vetoedActions, Except(target)))
  }

  datatype CommandReply = Processed(cmd: Recorded) | Unauthorized

  function Process(s: State, guardian: Option<string>, from: string, command: Command, now: int)
    : (State, CommandReply)
  {
    if guardian != Some(from) then (s, Unauthorized)
    else
      var accepted := Accepts(LevelOf(s), command);
      var cmd := Recorded(command, accepted, now);
      (s.(restrictions := if accepted then Apply(s.restrictions, command) else s.restrictions,
          history := s.history + [cmd]),
       Processed(cmd))
  }

  /** The first topic that is blocked. */
  function FirstBlocked(topics: seq<string>, blocked: seq<string>): Option<string> {
    if topics == [] then None
    else if topics[0] in blocked then Some(topics[0])
    else FirstBlocked(topics[1..], blocked)
  }

  predicate IsActionBlocked(r: Restrictions, action: string, peerDid: Param, topics: Option<seq<string>>) {
    || r.lockdown
    || action in r.vetoedActions
    || (Given(peerDid) && peerDid.value in r.blockedPeers)
    || (topics.Some? && Given(FirstBlocked(topics.value, r.blockedTopics)))
  }

  // ---- autonomy on values ----------------------------------------------------------------------

  datatype Metrics = Metrics(daysAtLevel: real, averageTrust: real, activeRelationships: nat,
                             homecomingReports: nat, anomalies: nat)

  datatype Criteria = Criteria(minDays: real, minTrust: real, minRelationships: nat, minReports: nat,
                               needsApproval: bool, maxAnomalies: nat)

  /** What an upgrade from this level asks for. */
  function CriteriaFrom(level: Level): Criteria
    requires level < 3
  {
    if level == 0 then Criteria(7.0, 0.1, 1, 7, true, 0)
    else if level == 1 then Criteria(14.0, 0.3, 3, 14, true, 2)
    else Criteria(30.0, 0.5, 5, 20, false, 3)
  }

  predicate MetricsMet(c: Criteria, m: Metrics) {
    && m.daysAtLevel >= c.minDays
    && m.averageTrust >= c.minTrust
    && m.activeRelationships >= c.minRelationships
    && m.homecomingReports >= c.minReports
    && m.anomalies <= c.maxAnomalies
  }

  /** Every criterion, required approval being counted as one that is never met here. */
  predicate Eligible(level: Level, m: Metrics) {
    level < 3 && MetricsMet(CriteriaFrom(level), m) && !CriteriaFrom(level).needsApproval
  }

  datatype UpgradeReply = Upgraded(from: Level, to: Level) | ApprovalRequired | CriteriaNotMet

  function Upgrade(s: State, approval: bool, m: Metrics): (State, UpgradeReply) {
    var level := LevelOf(s);
    var needsApproval := level < 3 && CriteriaFrom(level).needsApproval;
    if needsApproval && !approval then (s, ApprovalRequired)
    else if !Eligible(level, m) && !(needsApproval && approval) then (s, CriteriaNotMet)
    else
      var next: Level := level + 1;
      (s.(autonomyLevel := Some(next)), Upgraded(level, next))
  }

  // ---- what stands of the history -----------------------------------------------------------------

  predicate LiftsItem(c: Recorded, item: string) {
    c.accepted && c.command.LiftRestriction? && c.command.target == Some(item)
  }

  predicate LiftsLockdown(c: Recorded) {
    c.accepted && c.command.LiftRestriction? && c.command.liftLockdown
  }

  /** An accepted command at `i` that no later accepted lift covers. */
  ghost predicate StandsAt(h: seq<Recorded>, i: nat, command: Command, item: string) {
    && i < |h| && h[i].accepted && h[i].command == command
    && forall j :: i < j < |h| ==> !LiftsItem(h[j], item)
  }

  ghost predicate VetoStands(h: seq<Recorded>, action: string) {
    action != "" && exists i :: StandsAt(h, i, VetoAction(Some(action)), action)
  }

  ghost predicate PeerStands(h: seq<Recorded>, peer: string) {
    peer != "" && exists i :: StandsAt(h, i, RestrictPeer(Some(peer)), peer)
  }

  ghost predicate TopicStands(h: seq<Recorded>, topic: string) {
    topic != "" && exists i :: StandsAt(h, i, RestrictTopic(Some(topic)), topic)
  }

  ghost predicate LockdownStandsAt(h: seq<Recorded>, i: nat) {
    i < |h| && h[i].accepted && h[i].command.EmergencyLockdown? && forall j :: i < j < |h| ==> !LiftsLockdown(h[j])
  }

  ghost predicate LockdownStands(h: seq<Recorded>) {
    exists i :: LockdownStandsAt(h, i)
  }

  /** The restrictions are what stands of the history. */
  ghost predicate Agrees(s: State) {
    && (forall x :: x in s.restrictions.vetoedActions <==> VetoStands(s.history, x))
    && (forall x :: x in s.restrictions.blockedPeers <==> PeerStands(s.history, x))
    && (forall x :: x in s.restrictions.blockedTopics <==> TopicStands(s.history, x))
    && (s.restrictions.lockdown <==> LockdownStands(s.history))
  }

  // ---- one more command -------------------------------------------------------------------------------

  lemma StandsNext(h: seq<Recorded>, c: Recorded, command: Command, item: string)
    ensures (exists i :: StandsAt(h + [c], i, command, item))
            <==> (c.accepted && c.command == command)
                 || ((exists i :: StandsAt(h, i, command, item)) && !LiftsItem(c, item))
  {
    var h' := h + [c];
    if c.accepted && c.command == command {
      assert StandsAt(h', |h|, command, item);
    }
    if i: nat :| StandsAt(h, i, command, item) {
      if !LiftsItem(c, item) {
        assert StandsAt(h', i, command, item);
      }
    }
    if i: nat :| StandsAt(h', i, command, item) {
      if i < |h| {
        assert forall j :: i < j < |h| ==> h'[j] == h[j];
        assert h'[|h|] == c;
        assert StandsAt(h, i, command, item);
      }
    }
  }

  lemma LockdownNext(h: seq<Recorded>, c: Recorded)
    ensures LockdownStands(h + [c])
            <==> (c.accepted && c.command.EmergencyLockdown?) || (LockdownStands(h) && !LiftsLockdown(c))
  {
    var h' := h + [c];
    if c.accepted && c.command.EmergencyLockdown? {
      assert LockdownStandsAt(h', |h|);
    }
    if i: nat :| LockdownStandsAt(h, i) {
      if !LiftsLockdown(c) {
        assert LockdownStandsAt(h', i);
      }
    }
    if i: nat :| LockdownStandsAt(h', i) {
      if i < |h| {
        assert forall j :: i < j < |h| ==> h'[j] == h[j];
        assert h'[|h|] == c;
        assert LockdownStandsAt(h, i);
      }
    }
  }

  lemma ProcessKeepsAgreement(s: State, guardian: Option<string>, from: string, command: Command, now: int)
    requires Agrees(s)
    ensures Agrees(Process(s, guardian, from, command, now).0)
  {
    var (s', reply) := Process(s, guardian, from, command, now);
    if reply.Processed? {
      hide VetoStands, PeerStands, TopicStands, LockdownStands;
      var c := reply.cmd;
      LockdownNext(s.history, c);
      forall x
        ensures x in s'.restrictions.vetoedActions <==> VetoStands(s'.history, x)
        ensures x in s'.restrictions.blockedPeers <==> PeerStands(s'.history, x)
        ensures x in s'.restrictions.blockedTopics <==> TopicStands(s'.history, x)
      {
        ItemNext(s.history, c, x);
      }
    }
  }

  lemma ItemNext(h: seq<Recorded>, c: Recorded, x: string)
    ensures VetoStands(h + [c], x)
            <==> x != ""
                 && ((c.accepted && c.command == VetoAction(Some(x))) || (VetoStands(h, x) && !LiftsItem(c, x)))
    ensures PeerStands(h + [c], x)
            <==> x != ""
                 && ((c.accepted && c.command == RestrictPeer(Some(x))) || (PeerStands(h, x) && !LiftsItem(c, x)))
    ensures TopicStands(h + [c], x)
            <==> x != ""
                 && ((c.accepted && c.command == RestrictTopic(Some(x))) || (TopicStands(h, x) && !LiftsItem(c, x)))
  {
    StandsNext(h, c, VetoAction(Some(x)), x);
    StandsNext(h, c, RestrictPeer(Some(x)), x);
    StandsNext(h, c, RestrictTopic(Some(x)), x);
  }

  // ---- runs of commands and upgrades -----------------------------------------------------------------

  datatype Event =
    | CommandEvent(from: string, command: Command, now: int)
    | UpgradeEvent(approval: bool, metrics: Metrics)

  function Step(s: State, guardian: Option<string>, e: Event): State {
    match e
    case CommandEvent(from, command, now) => Process(s, guardian, from, command, now).0
    case UpgradeEvent(approval, metrics) => Upgrade(s, approval, metrics).0
  }

  function Run(s: State, guardian: Option<string>, events: seq<Event>): State
    decreases |events|
  {
    if events == [] then s
    else Step(Run(s, guardian, events[..|events| - 1]), guardian, events[|events| - 1])
  }

  /** Over every run, the restrictions equal a replay of the accepted commands. */
  lemma {:induction false} RunKeepsAgreement(level: Option<Level>, guardian: Option<string>, events: seq<Event>)
    ensures Agrees(Run(State(level, Unrestricted, []), guardian, events))
    decreases |events|
  {
    if events != [] {
      hide Agrees;
      var e := events[|events| - 1];
      var s := Run(State(level, Unrestricted, []), guardian, events[..|events| - 1]);
      RunKeepsAgreement(level, guardian, events[..|events| - 1]);
      match e {
        case CommandEvent(from, command, now) => ProcessKeepsAgreement(s, guardian, from, command, now);
        case UpgradeEvent(approval, metrics) => SameRestrictions(s, Upgrade(s, approval, metrics).0);
      }
    }
  }

  predicate Once(s: seq<string>) {
    forall i, j :: 0 <= i < j < |s| ==> s[i] != s[j]
  }

  predicate ListsOnce(r: Restrictions) {
    Once(r.blockedPeers) && Once(r.blockedTopics) && Once(r.vetoedActions)
  }

  lemma {:induction false} FilterOnce(s: seq<string>, p: string -> bool)
    requires Once(s)
    ensures Once(Filter(s, p))
    ensures forall x :: x in Filter(s, p) ==> x in s
  {
    if s != [] {
      assert forall k :: 0 < k < |s| ==> s[k] == s[1..][k - 1];
      FilterOnce(s[1..], p);
    }
  }

  lemma ApplyListsOnce(r: Restrictions, command: Command)
    requires ListsOnce(r)
    ensures ListsOnce(Apply(r, command))
  {
    if command.LiftRestriction? {
      hide Once;
      FilterOnce(r.blockedPeers, Except(command.target));
      FilterOnce(r.blockedTopics, Except(command.target));
      FilterOnce(r.vetoedActions, Except(command.target));
    }
  }

  /** Over every run, no peer, topic or action is listed twice. */
  lemma {:induction false} RunListsOnce(level: Option<Level>, guardian: Option<string>, events: seq<Event>)
    ensures ListsOnce(Run(State(level, Unrestricted, []), guardian, events).restrictions)
    decreases |events|
  {
    if events != [] {
      var front, e := events[..|events| - 1], events[|events| - 1];
      RunListsOnce(level, guardian, front);
      if e.CommandEvent? {
        hide ListsOnce, Apply;
        ApplyListsOnce(Run(State(level, Unrestricted, []), guardian, front).restrictions, e.command);
      }
    }
  }

  lemma SameRestrictions(s: State, s': State)
    requires Agrees(s) && s'.restrictions == s.restrictions && s'.history == s.history
    ensures Agrees(s')
  {
  }

  lemma {:induction false} FirstBlockedFinds(topics: seq<string>, blocked: seq<string>)
    ensures FirstBlocked(topics, blocked).Some? <==> exists t :: t in topics && t in blocked
    ensures FirstBlocked(topics, blocked).Some? ==> FirstBlocked(topics, blocked).value in blocked
  {
    if topics != [] {
      FirstBlockedFinds(topics[1..], blocked);
      assert topics == [topics[0]] + topics[1..];
    }
  }

  /**
   * An action is blocked exactly when an accepted lockdown, veto, peer or topic restriction
   * that applies to it has not been lifted by a later accepted lift.
   */
  lemma BlockedIsWhatStands(level: Option<Level>, guardian: Option<string>, events: seq<Event>,
                            action: string, peerDid: Param, topics: Option<seq<string>>)
    ensures var s := Run(State(level, Unrestricted, []), guardian, events);
            IsActionBlocked(s.restrictions, action, peerDid, topics)
            <==> LockdownStands(s.history)
                 || VetoStands(s.history, action)
                 || (peerDid.Some? && PeerStands(s.history, peerDid.value))
                 || (topics.Some? && exists t :: t in topics.value && TopicStands(s.history, t))
  {
    var s := Run(State(level, Unrestricted, []), guardian, events);
    RunKeepsAgreement(level, guardian, events);
    if topics.Some? {
      FirstBlockedFinds(topics.value, s.restrictions.blockedTopics);
      assert "" !in s.restrictions.blockedTopics;
    }
  }

  /**
   * Which commands are accepted: all below level 2, at level 2 all but restrictions of peers and
   * topics, at level 3 a lockdown alone. Who is not the guardian is not heard at all.
   */
  lemma AcceptedByLevel(s: State, guardian: Option<string>, from: string, command: Command, now: int)
    ensures var (s', reply) := Process(s, guardian, from, command, now);
            var accepted := LevelOf(s) < 2 || (LevelOf(s) == 2 && !command.RestrictPeer? && !command.RestrictTopic?)
                            || (LevelOf(s) == 3 && command.EmergencyLockdown?);
            && s'.autonomyLevel == s.autonomyLevel
            && if guardian == Some(from) then
                 && reply == Processed(Recorded(command, accepted, now))
                 && s'.history == s.history + [Recorded(command, accepted, now)]
                 && (!accepted ==> s'.restrictions == s.restrictions)
               else reply == Unauthorized && s' == s
  {
  }

  /** From level 2 on no peer and no topic is ever restricted that was not before. */
  lemma {:induction false} SocialAgentsGainNoRestriction(s: State, guardian: Option<string>, events: seq<Event>)
    requires LevelOf(s) >= 2
    ensures var r := Run(s, guardian, events).restrictions;
            && (forall p :: p in r.blockedPeers ==> p in s.restrictions.blockedPeers)
            && (forall t :: t in r.blockedTopics ==> t in s.restrictions.blockedTopics)
    decreases |events|
  {
    if events != [] {
      var front, e := events[..|events| - 1], events[|events| - 1];
      SocialAgentsGainNoRestriction(s, guardian, front);
      LevelNeverFalls(s, guardian, front);
      var before := Run(s, guardian, front);
      if e.CommandEvent? {
        AcceptedByLevel(before, guardian, e.from, e.command, e.now);
      }
    }
  }

  /** What a history lists, without the verdicts. */
  function Heard(history: seq<Recorded>): seq<(Command, int)> {
    seq(|history|, i requires 0 <= i < |history| => (history[i].command, history[i].issuedAt))
  }

  /** The guardian's commands. */
  function Sent(events: seq<Event>, guardian: Option<string>): seq<(Command, int)>
    decreases |events|
  {
    if events == [] then []
    else
      var e := events[|events| - 1];
      Sent(events[..|events| - 1], guardian)
      + if e.CommandEvent? && guardian == Some(e.from) then [(e.command, e.now)] else []
  }

  /** Over every run, the history lists the guardian's commands, refused ones too, in order. */
  lemma {:induction false} RunHearsTheGuardian(level: Option<Level>, guardian: Option<string>, events: seq<Event>)
    ensures Heard(Run(State(level, Unrestricted, []), guardian, events).history) == Sent(events, guardian)
    decreases |events|
  {
    if events != [] {
      RunHearsTheGuardian(level, guardian, events[..|events| - 1]);
    }
  }

  /**
   * An upgrade raises the level by one, to at most three. Up to level 2 the guardian's
   * approval alone decides; from level 2 the metrics alone do.
   */
  lemma UpgradeRaisesByOne(s: State, approval: bool, m: Metrics)
    ensures var (s', reply) := Upgrade(s, approval, m);
            && s'.restrictions == s.restrictions && s'.history == s.history
            && (reply.Upgraded?
                <==> (LevelOf(s) < 2 && approval)
                     || (LevelOf(s) == 2 && m.daysAtLevel >= 30.0 && m.averageTrust >= 0.5
                         && m.activeRelationships >= 5 && m.homecomingReports >= 20 && m.anomalies <= 3))
            && (reply.ApprovalRequired? <==> LevelOf(s) < 2 && !approval)
            && LevelOf(s') == (if reply.Upgraded? then LevelOf(s) + 1 else LevelOf(s))
  {
  }

  /** On its first day, with nothing to show and any number of anomalies, an approved agent rises. */
  lemma ApprovalAloneSuffices(anomalies: nat)
    ensures var s, m := State(None, Unrestricted, []), Metrics(0.0, 0.0, 0, 0, anomalies);
            !MetricsMet(CriteriaFrom(0), m) && Upgrade(s, true, m) == (s.(autonomyLevel := Some(1)), Upgraded(0, 1))
  {
  }

  lemma {:induction false} LevelNeverFalls(s: State, guardian: Option<string>, events: seq<Event>)
    ensures LevelOf(s) <= LevelOf(Run(s, guardian, events)) <= LevelOf(s) + |events|
    decreases |events|
  {
    if events != [] {
      LevelNeverFalls(s, guardian, events[..|events| - 1]);
    }
  }

  /** Some event is an accepted lockdown command. */
  predicate IsLockdown(guardian: Option<string>, e: Event) {
    e.CommandEvent? && e.command.EmergencyLockdown? && guardian == Some(e.from)
  }

  /** From level 3 on nothing is ever lifted: all that can change is that a lockdown begins. */
  lemma {:induction false} IndependentAgentsAreNeverFreed(s: State, guardian: Option<string>, events: seq<Event>)
    requires LevelOf(s) == 3
    ensures Run(s, guardian, events).restrictions
            == s.restrictions.(lockdown := s.restrictions.lockdown
                                           || exists e :: e in events && IsLockdown(guardian, e))
    decreases |events|
  {
    if events != [] {
      var front, e := events[..|events| - 1], events[|events| - 1];
      assert events == front + [e];
      IndependentAgentsAreNeverFreed(s, guardian, front);
      LevelNeverFalls(s, guardian, front);
      assert (exists x :: x in events && IsLockdown(guardian, x))
        <==> IsLockdown(guardian, e) || exists x :: x in front && IsLockdown(guardian, x);
    }
  }

  // ---- the handlers --------------------------------------------------------------------------------------

  class Agent {
    const guardian: Option<string>
    var autonomyLevel: Option<Level>
    var blockedPeers: seq<string>
    var blockedTopics: seq<string>
    var lockdown: bool
    var vetoedActions: seq<string>
    var history: seq<Recorded>

    ghost function Shown(): State
      reads this
    {
      State(autonomyLevel, Restrictions(blockedPeers, blockedTopics, lockdown, vetoedActions), history)
    }

    constructor (guardian: Option<string>, level: Option<Level>)
      ensures this.guardian == guardian && Shown() == State(level, Unrestricted, [])
    {
      this.guardian := guardian;
      autonomyLevel := level;
      blockedPeers, blockedTopics, lockdown, vetoedActions, history := [], [], false, [], [];
    }

    method ProcessGuardianCommand(from: string, command: Command, now: int) returns (reply: CommandReply)
      modifies this
      ensures (Shown(), reply) == Process(old(Shown()), guardian, from, command, now)
    {
      if Some(from) != guardian {
        return Unauthorized;
      }
      var level: Level := if autonomyLevel.Some? then autonomyLevel.value else 0;
      if level >= 3 && !command.EmergencyLockdown? {
        var refused := Recorded(command, false, now);
        history := history + [refused];
        return Processed(refused);
      }
      if level >= 2 && (command.RestrictPeer? || command.RestrictTopic?) {
        var refused := Recorded(command, false, now);
        history := history + [refused];
        return Processed(refused);
      }
      match command {
        case VetoAction(action) =>
          if Given(action) && action.value !in vetoedActions {
            vetoedActions := vetoedActions + [action.value];
          }
        case RestrictPeer(peerDid) =>
          if Given(peerDid) && peerDid.value !in blockedPeers {
            blockedPeers := blockedPeers + [peerDid.value];
          }
        case RestrictTopic(topic) =>
          if Given(topic) && topic.value !in blockedTopics {
            blockedTopics := blockedTopics + [topic.value];
          }
        case EmergencyLockdown =>
          lockdown := true;
        case LiftRestriction(target, liftLockdown) =>
          blockedPeers := Filter(blockedPeers, Except(target));
          blockedTopics := Filter(blockedTopics, Except(target));
          vetoedActions := Filter(vetoedActions, Except(target));
          if liftLockdown {
            lockdown := false;
          }
        case ReclassifyMemory =>
      }
      var cmd := Recorded(command, true, now);
      history := history + [cmd];
      reply := Processed(cmd);
    }

    method ProcessAutonomyTransition(approval: bool, metrics: Metrics) returns (reply: UpgradeReply)
      modifies this`autonomyLevel
      ensures (Shown(), reply) == Upgrade(old(Shown()), approval, metrics)
    {
      var level: Level := if autonomyLevel.Some? then autonomyLevel.value else 0;
      var needsApproval := level < 3 && CriteriaFrom(level).needsApproval;
      if needsApproval && !approval {
        return ApprovalRequired;
      }
      if !Eligible(level, metrics) && !(needsApproval && approval) {
        return CriteriaNotMet;
      }
      autonomyLevel := Some(level + 1);
      reply := Upgraded(level, level + 1);
    }
  }
}
