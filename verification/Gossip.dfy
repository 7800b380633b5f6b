/**
 * Gossip of anomaly reports. A node creates a report or forwards a copy it holds; a
 * forwarded copy may reach any node, late, out of order, more than once or never.
 */
module Gossip {
  import opened Seqs

  datatype Report = Report(id: string, reporter: string, subject: string, anomaly: string,
                           hops: int, maxHops: int, seenBy: seq<string>, reportedAt: int)

  const MAX_REPORTS := 1000

  // ---- one node ------------------------------------------------------------------------------

  predicate HoldsId(reports: seq<Report>, id: string) {
    exists i :: 0 <= i < |reports| && reports[i].id == id
  }

  predicate Refuses(reports: seq<Report>, me: string, r: Report) {
    HoldsId(reports, r.id) || r.hops >= r.maxHops || r.subject == me
  }

  function Stamped(r: Report, me: string): Report {
    r.(hops := r.hops + 1, seenBy := r.seenBy + [me])
  }

  /** Keeps the last 1000. */
  function Capped(reports: seq<Report>): seq<Report> {
    if |reports| > MAX_REPORTS then reports[|reports| - MAX_REPORTS..] else reports
  }

  function Receive(reports: seq<Report>, me: string, r: Report): seq<Report> {
    if Refuses(reports, me, r) then reports else Capped(reports + [Stamped(r, me)])
  }

  function NewReport(id: string, me: string, subject: string, anomaly: string, maxHops: int, now: int): Report {
    Report(id, me, subject, anomaly, 0, maxHops, [me], now)
  }

  function Forwardable(): Report -> bool { (r: Report) => r.hops < r.maxHops }

  function PendingForwards(reports: seq<Report>): seq<Report> {
    Filter(reports, Forwardable())
  }

  // ---- the network -----------------------------------------------------------------------------

  datatype Acceptance = Acceptance(node: string, id: string)

  /**
   * What every node holds, and the copies ever forwarded. The rest is history: the reports
   * as created, the acceptances, and whether any node has dropped a report.
   */
  datatype Net = Net(held: map<string, seq<Report>>, wire: seq<Report>,
                     created: map<string, Report>, accepted: seq<Acceptance>, evicted: bool)

  function HeldBy(held: map<string, seq<Report>>, node: string): seq<Report> {
    if node in held then held[node] else []
  }

  datatype Step =
    | Create(node: string, id: string, subject: string, anomaly: string, maxHops: int, now: int)
    | Forward(node: string, k: nat)
    | Deliver(node: string, k: nat)

  /** Ids are new when drawn; only pending copies are forwarded, only forwarded ones delivered. */
  predicate Enabled(net: Net, step: Step) {
    match step
    case Create(_, id, _, _, _, _) => id !in net.created
    case Forward(node, k) => k < |PendingForwards(HeldBy(net.held, node))|
    case Deliver(_, k) => k < |net.wire|
  }

  function Next(net: Net, step: Step): Net
    requires Enabled(net, step)
  {
    match step
    case Create(node, id, subject, anomaly, maxHops, now) =>
      var r := NewReport(id, node, subject, anomaly, maxHops, now);
      net.(held := net.held[node := HeldBy(net.held, node) + [r]], created := net.created[id := r])
    case Forward(node, k) =>
      net.(wire := net.wire + [PendingForwards(HeldBy(net.held, node))[k]])
    case Deliver(node, k) =>
      var reports, r := HeldBy(net.held, node), net.wire[k];
      if Refuses(reports, node, r) then net
      else
        net.(held := net.held[node := Receive(reports, node, r)],
             accepted := net.accepted + [Acceptance(node, r.id)],
             evicted := net.evicted || |reports| >= MAX_REPORTS)
  }

  const Empty := Net(map[], [], map[], [], false)

  ghost predicate Legal(steps: seq<Step>)
    decreases |steps|, 0
  {
    steps == [] ||
    var front, step := steps[..|steps| - 1], steps[|steps| - 1];
    Legal(front) && Enabled(Run(front), step)
  }

  ghost function Run(steps: seq<Step>): Net
    requires Legal(steps)
    decreases |steps|, 1
  {
    if steps == [] then Empty else Next(Run(steps[..|steps| - 1]), steps[|steps| - 1])
  }

  // ---- what every copy is ------------------------------------------------------------------------

  /** A copy of a created report that has come to `holder`. */
  ghost predicate CopyAt(r: Report, holder: string, created: map<string, Report>) {
    && r.id in created
    && r == created[r.id].(hops := r.hops, seenBy := r.seenBy)
    && r.hops >= 0 && |r.seenBy| == r.hops + 1
    && r.seenBy[0] == r.reporter && r.seenBy[r.hops] == holder
    && (r.hops == 0 || (r.hops <= r.maxHops && r.subject != holder))
  }

  ghost predicate DistinctReports(reports: seq<Report>) {
    forall i, j :: 0 <= i < j < |reports| ==> reports[i].id != reports[j].id
  }

  ghost predicate NodeOk(reports: seq<Report>, node: string, created: map<string, Report>) {
    && DistinctReports(reports)
    && forall i :: 0 <= i < |reports| ==> CopyAt(reports[i], node, created)
  }

  ghost predicate OnWire(r: Report, created: map<string, Report>) {
    r.seenBy != [] && CopyAt(r, r.seenBy[|r.seenBy| - 1], created) && r.hops < r.maxHops
  }

  ghost predicate CopiesOk(net: Net) {
    && (forall node :: NodeOk(HeldBy(net.held, node), node, net.created))
    && (forall i :: 0 <= i < |net.wire| ==> OnWire(net.wire[i], net.created))
  }

  lemma CappedKeeps(reports: seq<Report>, node: string, created: map<string, Report>)
    requires NodeOk(reports, node, created)
    ensures NodeOk(Capped(reports), node, created)
  {
  }

  lemma DeliverOk(reports: seq<Report>, node: string, r: Report, created: map<string, Report>)
    requires NodeOk(reports, node, created) && OnWire(r, created)
    ensures NodeOk(Receive(reports, node, r), node, created)
  {
    if !Refuses(reports, node, r) {
      var s := Stamped(r, node);
      assert CopyAt(s, node, created);
      assert NodeOk(reports + [s], node, created);
      CappedKeeps(reports + [s], node, created);
    }
  }

  /** A created report joins the creator's list, and no copy elsewhere is of it. */
  lemma NodeCreateOk(reports: seq<Report>, node: string, created: map<string, Report>, id: string, c: Report)
    requires NodeOk(reports, node, created) && id !in created
    ensures NodeOk(reports, node, created[id := c])
    ensures c.id == id && CopyAt(c, node, created[id := c]) ==> NodeOk(reports + [c], node, created[id := c])
  {
    forall i | 0 <= i < |reports|
      ensures CopyAt(reports[i], node, created[id := c]) && reports[i].id != id
    {
      assert CopyAt(reports[i], node, created);
    }
  }

  lemma CreateOk(net: Net, step: Step)
    requires CopiesOk(net) && step.Create? && Enabled(net, step)
    ensures CopiesOk(Next(net, step))
  {
    var net' := Next(net, step);
    var r := net'.created[step.id];
    forall node
      ensures NodeOk(HeldBy(net'.held, node), node, net'.created)
    {
      assert NodeOk(HeldBy(net.held, node), node, net.created);
      assert CopyAt(r, step.node, net'.created);
      hide NodeOk, CopyAt;
      NodeCreateOk(HeldBy(net.held, node), node, net.created, step.id, r);
    }
  }

  lemma StepKeepsCopies(net: Net, step: Step)
    requires CopiesOk(net) && Enabled(net, step)
    ensures CopiesOk(Next(net, step))
  {
    var net' := Next(net, step);
    match step {
      case Create(_, _, _, _, _, _) => CreateOk(net, step);
      case Forward(node, k) =>
        var reports := HeldBy(net.held, node);
        var r := PendingForwards(reports)[k];
        assert r in PendingForwards(reports);
        assert NodeOk(reports, node, net.created);
        assert OnWire(r, net.created);
      case Deliver(node, k) =>
        DeliverOk(HeldBy(net.held, node), node, net.wire[k], net.created);
        forall n
          ensures NodeOk(HeldBy(net'.held, n), n, net'.created)
        {
          assert NodeOk(HeldBy(net.held, n), n, net.created);
        }
    }
  }

  /**
   * Over every run: each held copy has travelled at most maxHops hops, lists the nodes of its
   * way from the reporter to the holder, and is otherwise what was created; a copy that
   * travelled is not about its holder; and no node holds an id twice.
   */
  lemma {:induction false} RunKeepsCopies(steps: seq<Step>)
    requires Legal(steps)
    ensures CopiesOk(Run(steps))
  {
    if steps != [] {
      RunKeepsCopies(steps[..|steps| - 1]);
      StepKeepsCopies(Run(steps[..|steps| - 1]), steps[|steps| - 1]);
    }
  }

  /** Report `c` is what the step asked for. */
  ghost predicate AsAsked(step: Step, c: Report) {
    step.Create? && c == Report(step.id, step.node, step.subject, step.anomaly, 0, step.maxHops, [step.node], step.now)
  }

  /** Over every run, the reports on record are those of the creating steps, as these asked for them. */
  lemma {:induction false} RunCreatesAsAsked(steps: seq<Step>)
    requires Legal(steps)
    ensures forall i :: 0 <= i < |steps| && steps[i].Create? ==>
              steps[i].id in Run(steps).created && AsAsked(steps[i], Run(steps).created[steps[i].id])
    ensures forall id :: id in Run(steps).created ==>
              exists i :: 0 <= i < |steps| && AsAsked(steps[i], Run(steps).created[id])
    decreases |steps|
  {
    if steps != [] {
      var n := |steps| - 1;
      var front, step := steps[..n], steps[n];
      var before, after := Run(front).created, Run(steps).created;
      RunCreatesAsAsked(front);
      CreatedNext(Run(front), step);
      hide Legal, Run, AsAsked;
      forall i | 0 <= i < |steps| && steps[i].Create?
        ensures steps[i].id in after && AsAsked(steps[i], after[steps[i].id])
      {
        assert i < n ==> front[i] == steps[i];
      }
      forall id | id in after
        ensures exists i :: 0 <= i < |steps| && AsAsked(steps[i], after[id])
      {
        if step.Create? && id == step.id {
          assert AsAsked(steps[n], after[id]);
        } else {
          var i :| 0 <= i < |front| && AsAsked(front[i], before[id]);
          assert steps[i] == front[i];
        }
      }
    }
  }

  lemma CreatedNext(net: Net, step: Step)
    requires Enabled(net, step)
    ensures var before, after := net.created, Next(net, step).created;
            if step.Create? then
              step.id !in before && after == before[step.id := after[step.id]] && AsAsked(step, after[step.id])
            else after == before
  {
  }

  /**
   * Over every run, a held or forwarded copy with the id of a creating step says what that step
   * asked for, and has travelled no further than it allowed.
   */
  lemma CopiesAreAsAsked(steps: seq<Step>, i: nat, r: Report, node: string)
    requires Legal(steps) && i < |steps| && steps[i].Create? && r.id == steps[i].id
    requires r in HeldBy(Run(steps).held, node) || r in Run(steps).wire
    ensures r.reporter == steps[i].node && r.subject == steps[i].subject && r.anomaly == steps[i].anomaly
    ensures r.maxHops == steps[i].maxHops && r.reportedAt == steps[i].now
    ensures r.hops == 0 || r.hops <= steps[i].maxHops
  {
    RunCreatesAsAsked(steps);
    RunKeepsCopies(steps);
    var net := Run(steps);
    assert NodeOk(HeldBy(net.held, node), node, net.created);
    if r in HeldBy(net.held, node) {
      var k :| 0 <= k < |HeldBy(net.held, node)| && HeldBy(net.held, node)[k] == r;
      assert CopyAt(r, node, net.created);
    } else {
      var k :| 0 <= k < |net.wire| && net.wire[k] == r;
      assert OnWire(net.wire[k], net.created);
    }
  }

  // ---- while nobody has dropped a report -------------------------------------------------------

  /** The way of a copy crosses no node twice, and every node on it holds the report. */
  ghost predicate Seen(held: map<string, seq<Report>>, r: Report) {
    && NoRepeats(r.seenBy)
    && forall i :: 0 <= i < |r.seenBy| ==> HoldsId(HeldBy(held, r.seenBy[i]), r.id)
  }

  ghost predicate AllSeen(held: map<string, seq<Report>>, reports: seq<Report>) {
    forall i :: 0 <= i < |reports| ==> Seen(held, reports[i])
  }

  /** An acceptance by another node than the reporter, which holds the report since. */
  ghost predicate Settled(net: Net, a: Acceptance) {
    && HoldsId(HeldBy(net.held, a.node), a.id)
    && a.id in net.created && net.created[a.id].reporter != a.node
  }

  ghost predicate Spread(net: Net) {
    && (forall node :: AllSeen(net.held, HeldBy(net.held, node)))
    && AllSeen(net.held, net.wire)
    && NoRepeats(net.accepted)
    && (forall i :: 0 <= i < |net.accepted| ==> Settled(net, net.accepted[i]))
  }

  /** One node's list grew at the end by `r`. */
  ghost predicate Grew(held: map<string, seq<Report>>, held': map<string, seq<Report>>, node: string, r: Report) {
    held' == held[node := HeldBy(held, node) + [r]]
  }

  lemma GrewHolds(held: map<string, seq<Report>>, held': map<string, seq<Report>>, node: string, r: Report,
                  n: string, id: string)
    requires Grew(held, held', node, r)
    ensures HoldsId(HeldBy(held', n), id) <==> HoldsId(HeldBy(held, n), id) || (n == node && id == r.id)
  {
    var a, b := HeldBy(held, n), HeldBy(held', n);
    if HoldsId(a, id) {
      var i :| 0 <= i < |a| && a[i].id == id;
      assert b[i].id == id;
    }
    if n == node && id == r.id {
      assert b[|a|].id == id;
    }
  }

  lemma GrewSeen(held: map<string, seq<Report>>, held': map<string, seq<Report>>, node: string, r: Report, s: Report)
    requires Grew(held, held', node, r) && Seen(held, s)
    ensures Seen(held', s)
  {
    forall i | 0 <= i < |s.seenBy|
      ensures HoldsId(HeldBy(held', s.seenBy[i]), s.id)
    {
      GrewHolds(held, held', node, r, s.seenBy[i], s.id);
    }
  }

  lemma GrewAllSeen(held: map<string, seq<Report>>, held': map<string, seq<Report>>, node: string, r: Report,
                    reports: seq<Report>)
    requires Grew(held, held', node, r) && AllSeen(held, reports)
    ensures AllSeen(held', reports)
  {
    forall i | 0 <= i < |reports|
      ensures Seen(held', reports[i])
    {
      GrewSeen(held, held', node, r, reports[i]);
    }
  }

  /** All lists and the wire stay seen when a node's list grows by a seen copy. */
  lemma GrewSpread(net: Net, held': map<string, seq<Report>>, node: string, r: Report)
    requires Spread(net) && Grew(net.held, held', node, r) && Seen(held', r)
    ensures forall n :: AllSeen(held', HeldBy(held', n))
    ensures AllSeen(held', net.wire)
  {
    hide Seen;
    GrewAllSeen(net.held, held', node, r, net.wire);
    forall n
      ensures AllSeen(held', HeldBy(held', n))
    {
      assert AllSeen(net.held, HeldBy(net.held, n));
      GrewAllSeen(net.held, held', node, r, HeldBy(net.held, n));
    }
  }

  lemma GrewSettled(net: Net, net': Net, node: string, r: Report, a: Acceptance)
    requires Grew(net.held, net'.held, node, r) && Settled(net, a)
    requires a.id in net'.created && net'.created[a.id] == net.created[a.id]
    ensures Settled(net', a)
  {
    GrewHolds(net.held, net'.held, node, r, a.node, a.id);
  }

  lemma CreateSpreads(net: Net, step: Step)
    requires Spread(net) && step.Create? && Enabled(net, step)
    ensures Spread(Next(net, step))
  {
    hide Seen;
    var net' := Next(net, step);
    var node, r := step.node, net'.created[step.id];
    assert Seen(net'.held, r) by { NewSeen(net.held, net'.held, node, r); }
    GrewSpread(net, net'.held, node, r);
    forall i | 0 <= i < |net.accepted|
      ensures Settled(net', net.accepted[i])
    {
      GrewSettled(net, net', node, r, net.accepted[i]);
    }
  }

  lemma NewSeen(held: map<string, seq<Report>>, held': map<string, seq<Report>>, node: string, r: Report)
    requires Grew(held, held', node, r) && r.seenBy == [node]
    ensures Seen(held', r)
  {
    GrewHolds(held, held', node, r, node, r.id);
  }

  /** The new holder was not on the way: it did not hold the report. */
  lemma StampedSeen(held: map<string, seq<Report>>, held': map<string, seq<Report>>, node: string, r: Report)
    requires Seen(held, r) && Grew(held, held', node, Stamped(r, node))
    requires !HoldsId(HeldBy(held, node), r.id)
    ensures Seen(held', Stamped(r, node))
    ensures node !in r.seenBy
  {
    var s := Stamped(r, node);
    forall i | 0 <= i < |s.seenBy|
      ensures HoldsId(HeldBy(held', s.seenBy[i]), s.id)
    {
      GrewHolds(held, held', node, s, s.seenBy[i], s.id);
    }
  }

  lemma DeliverSpreads(net: Net, step: Step)
    requires Spread(net) && CopiesOk(net) && step.Deliver? && Enabled(net, step)
    requires !Next(net, step).evicted
    ensures Spread(Next(net, step))
  {
    var net' := Next(net, step);
    var node, r := step.node, net.wire[step.k];
    if !Refuses(HeldBy(net.held, node), node, r) {
      hide Seen;
      var s, a := Stamped(r, node), Acceptance(node, r.id);
      assert Grew(net.held, net'.held, node, s);
      assert Seen(net.held, r);
      StampedSeen(net.held, net'.held, node, r);
      GrewSpread(net, net'.held, node, s);
      forall i | 0 <= i < |net.accepted|
        ensures Settled(net', net.accepted[i]) && net.accepted[i] != a
      {
        GrewSettled(net, net', node, s, net.accepted[i]);
      }
      GrewHolds(net.held, net'.held, node, s, node, r.id);
      assert OnWire(r, net.created);
      assert Settled(net', a);
    }
  }

  lemma ForwardSpreads(net: Net, step: Step)
    requires Spread(net) && step.Forward? && Enabled(net, step)
    ensures Spread(Next(net, step))
  {
    hide Seen;
    var net' := Next(net, step);
    var reports := HeldBy(net.held, step.node);
    var r := PendingForwards(reports)[step.k];
    assert r in PendingForwards(reports);
    assert AllSeen(net.held, reports);
    forall i | 0 <= i < |net.accepted|
      ensures Settled(net', net.accepted[i])
    {
      assert Settled(net, net.accepted[i]);
    }
  }

  /**
   * As long as no node has dropped a report, no copy crosses a node twice and every report
   * is accepted at most once by every node, and never by its reporter.
   */
  lemma {:induction false} RunSpreads(steps: seq<Step>)
    requires Legal(steps) && !Run(steps).evicted
    ensures Spread(Run(steps))
  {
    if steps != [] {
      hide Spread, CopiesOk;
      var front, step := steps[..|steps| - 1], steps[|steps| - 1];
      RunSpreads(front);
      RunKeepsCopies(front);
      match step {
        case Create(_, _, _, _, _, _) => CreateSpreads(Run(front), step);
        case Forward(_, _) => ForwardSpreads(Run(front), step);
        case Deliver(_, _) => DeliverSpreads(Run(front), step);
      }
    } else {
      assert Spread(Empty);
    }
  }

  // ---- what dropping does ------------------------------------------------------------------------

  /**
   * After an acceptance a node holds the accepted report and, of its others, those among the
   * last 999; a node that created beyond the limit drops several at once.
   */
  lemma AcceptanceForgets(reports: seq<Report>, me: string, r: Report, id: string)
    requires !Refuses(reports, me, r)
    ensures HoldsId(Receive(reports, me, r), id)
            <==> id == r.id
                 || exists i :: 0 <= i < |reports| && i >= |reports| - 999 && reports[i].id == id
  {
    var grown, after := reports + [Stamped(r, me)], Receive(reports, me, r);
    var n := if |grown| > MAX_REPORTS then |grown| - MAX_REPORTS else 0;
    assert after == grown[n..];
    assert after[|after| - 1].id == r.id;
    forall i | 0 <= i < |reports| && i >= |reports| + 1 - MAX_REPORTS
      ensures HoldsId(after, reports[i].id)
    {
      assert after[i - n] == reports[i];
    }
    if HoldsId(after, id) {
      var k :| 0 <= k < |after| && after[k].id == id;
      assert after[k] == grown[n + k];
    }
  }

  lemma RunNext(steps: seq<Step>, step: Step)
    requires Legal(steps) && Enabled(Run(steps), step)
    ensures Legal(steps + [step]) && Run(steps + [step]) == Next(Run(steps), step)
  {
    var all := steps + [step];
    assert all[..|all| - 1] == steps;
  }

  /** An id of `n` letters. */
  function Id(n: nat): (id: string)
    ensures |id| == n
  {
    seq(n, _ => 'i')
  }

  function Filler(node: string, n: nat): Report { NewReport(Id(n + 2), node, "s", "", 3, 0) }

  function FillerStep(node: string, n: nat): Step { Create(node, Id(n + 2), "s", "", 3, 0) }

  function Fillers(node: string, n: nat): (reports: seq<Report>)
    ensures |reports| == n && forall i :: 0 <= i < n ==> reports[i] == Filler(node, i)
  {
    seq(n, i requires 0 <= i < n => Filler(node, i))
  }

  /** The net after the node has created `n` reports of its own, with ids of two letters and more. */
  ghost predicate Filled(before: Net, net: Net, node: string, n: nat) {
    && net == before.(held := net.held, created := net.created)
    && net.held == before.held[node := HeldBy(before.held, node) + Fillers(node, n)]
    && (forall id :: id in net.created ==> |id| < n + 2)
    && |net.created| == |before.created| + n
  }

  lemma OneMoreFiller(before: Net, net: Net, node: string, n: nat)
    requires Filled(before, net, node, n)
    ensures var step := FillerStep(node, n);
            Enabled(net, step) && Filled(before, Next(net, step), node, n + 1)
  {
    var own := HeldBy(before.held, node);
    assert Fillers(node, n + 1) == Fillers(node, n) + [Filler(node, n)];
    assert (own + Fillers(node, n)) + [Filler(node, n)] == own + Fillers(node, n + 1);
  }

  lemma {:induction false} CreatesMany(steps: seq<Step>, node: string, n: nat) returns (more: seq<Step>)
    requires Legal(steps) && Filled(Run(steps), Run(steps), node, 0)
    ensures Legal(more) && Filled(Run(steps), Run(more), node, n)
    decreases n
  {
    if n == 0 {
      more := steps;
    } else {
      hide Run, Legal, Filled, Next, Enabled, FillerStep;
      var fewer := CreatesMany(steps, node, n - 1);
      var step := FillerStep(node, n - 1);
      OneMoreFiller(Run(steps), Run(fewer), node, n - 1);
      RunNext(fewer, step);
      more := fewer + [step];
    }
  }

  function Original(id: string): Report { NewReport(id, "a", "s", "", 3, 0) }

  /** What a node sends that holds one report, with hops left. */
  lemma OnlyPending(r: Report)
    requires r.hops < r.maxHops
    ensures PendingForwards([r]) == [r]
  {
    FilterAll([r], Forwardable());
  }

  /** Node "a" creates and forwards two reports. */
  lemma TwoForwarded() returns (steps: seq<Step>)
    ensures Legal(steps)
    ensures var net, x, y := Run(steps), Original("x"), Original("y");
            net == Net(map["a" := [x, y]], [x, y], map["x" := x, "y" := y], [], false)
  {
    var x, y := Original("x"), Original("y");
    assert Legal([]) && Run([]) == Empty;
    hide Run, Legal;
    OnlyPending(x);
    FilterAll([x, y], Forwardable());
    steps := [];
    RunNext(steps, Create("a", "x", "s", "", 3, 0));
    steps := steps + [Create("a", "x", "s", "", 3, 0)];
    assert HeldBy(Run(steps).held, "a") == [x];
    RunNext(steps, Forward("a", 0));
    steps := steps + [Forward("a", 0)];
    RunNext(steps, Create("a", "y", "s", "", 3, 0));
    steps := steps + [Create("a", "y", "s", "", 3, 0)];
    assert HeldBy(Run(steps).held, "a") == [x, y];
    RunNext(steps, Forward("a", 1));
    steps := steps + [Forward("a", 1)];
  }

  /** The first report has gone from "a" over "b" to "c", and "c" has forwarded it. */
  lemma FirstTravels() returns (steps: seq<Step>)
    ensures Legal(steps)
    ensures var net, x, y := Run(steps), Original("x"), Original("y");
            var x1 := Stamped(x, "b");
            && net.wire == [x, y, x1, Stamped(x1, "c")]
            && net.accepted == [Acceptance("b", "x"), Acceptance("c", "x")]
            && HeldBy(net.held, "b") == [x1]
            && net.created == map["x" := x, "y" := y]
  {
    steps := TwoForwarded();
    hide Run, Legal, PendingForwards;
    var x1 := Stamped(Original("x"), "b");
    var x2 := Stamped(x1, "c");
    OnlyPending(x1);
    OnlyPending(x2);
    RunNext(steps, Deliver("b", 0));
    steps := steps + [Deliver("b", 0)];
    assert HeldBy(Run(steps).held, "b") == [x1];
    RunNext(steps, Forward("b", 0));
    steps := steps + [Forward("b", 0)];
    RunNext(steps, Deliver("c", 2));
    steps := steps + [Deliver("c", 2)];
    assert HeldBy(Run(steps).held, "c") == [x2];
    RunNext(steps, Forward("c", 0));
    steps := steps + [Forward("c", 0)];
  }

  /** No copy that a node holds has crossed a node twice. */
  ghost predicate RoutesOk(net: Net) {
    forall node, r :: r in HeldBy(net.held, node) ==> NoRepeats(r.seenBy)
  }

  /**
   * A run of 1001 reports in which a node accepts one of them twice: it has come and gone on,
   * 999 of the node's own and another accepted one follow, and then it comes back.
   */
  lemma AcceptedTwice() returns (steps: seq<Step>)
    ensures Legal(steps) && |Run(steps).created| == 1001
    ensures !NoRepeats(Run(steps).accepted) && !RoutesOk(Run(steps))
  {
    steps := FirstTravels();
    var start := Run(steps);
    NothingFilled(start, "b");
    steps := CreatesMany(steps, "b", MAX_REPORTS - 1);
    hide Run, Legal, Refuses, NoRepeats, RoutesOk, Stamped, Fillers, Filled, Next;
    SecondArrives(start, Run(steps));
    RunNext(steps, Deliver("b", 1));
    steps := steps + [Deliver("b", 1)];
    ReturnRepeats(Run(steps));
    RunNext(steps, Deliver("b", 3));
    steps := steps + [Deliver("b", 3)];
  }

  /** "b", full of its own reports, accepts the second one and forgets the first. */
  lemma SecondArrives(start: Net, net: Net)
    requires Filled(start, net, "b", MAX_REPORTS - 1)
    requires var x1 := Stamped(Original("x"), "b");
             && start.wire == [Original("x"), Original("y"), x1, Stamped(x1, "c")]
             && start.accepted == [Acceptance("b", "x"), Acceptance("c", "x")]
             && HeldBy(start.held, "b") == [x1] && |start.created| == 2
    ensures Enabled(net, Deliver("b", 1))
    ensures var net' := Next(net, Deliver("b", 1));
            && net'.wire == start.wire && |net'.created| == MAX_REPORTS + 1
            && net'.accepted == [Acceptance("b", "x"), Acceptance("c", "x"), Acceptance("b", "y")]
            && !Refuses(HeldBy(net'.held, "b"), "b", net'.wire[3])
  {
    hide Refuses, Stamped, Fillers;
    SecondIsAccepted(HeldBy(net.held, "b"), net.wire[1], net.wire[3]);
  }

  lemma NothingFilled(net: Net, node: string)
    requires node in net.held && forall id :: id in net.created ==> |id| < 2
    ensures Filled(net, net, node, 0)
  {
    assert net.held[node] + Fillers(node, 0) == net.held[node];
  }

  /** "b" holds 1000 reports, the first of which returns after another was accepted. */
  lemma SecondIsAccepted(reports: seq<Report>, y: Report, back: Report)
    requires reports == [Stamped(Original("x"), "b")] + Fillers("b", MAX_REPORTS - 1)
    requires y == Original("y") && back == Stamped(Stamped(Original("x"), "b"), "c")
    ensures !Refuses(reports, "b", y)
    ensures !Refuses(Receive(reports, "b", y), "b", back)
  {
    assert forall i :: 1 <= i < |reports| ==> reports[i] == Filler("b", i - 1);
    assert forall i :: 1 <= i < |reports| ==> |reports[i].id| >= 2;
    assert reports[0].id == "x";
    AcceptanceForgets(reports, "b", y, "x");
  }

  /** The report that returns to "b" is accepted again, and has crossed "b" twice. */
  lemma ReturnRepeats(net: Net)
    requires |net.wire| == 4 && net.wire[3] == Stamped(Stamped(Original("x"), "b"), "c")
    requires !Refuses(HeldBy(net.held, "b"), "b", net.wire[3])
    requires net.accepted == [Acceptance("b", "x"), Acceptance("c", "x"), Acceptance("b", "y")]
    ensures Enabled(net, Deliver("b", 3))
    ensures var net' := Next(net, Deliver("b", 3));
            !NoRepeats(net'.accepted) && !RoutesOk(net') && net'.created == net.created
  {
    var net' := Next(net, Deliver("b", 3));
    assert net'.accepted[0] == net'.accepted[3];
    var reports, back := HeldBy(net'.held, "b"), Stamped(net.wire[3], "b");
    assert reports[|reports| - 1] == back;
    assert back.seenBy[1] == back.seenBy[3];
    assert back in reports && !NoRepeats(back.seenBy);
  }

  // ---- how many reports it takes ------------------------------------------------------------------

  /** Distinct reports are no more than their ids. */
  lemma {:induction false} ReportsCount(reports: seq<Report>, ids: set<string>)
    requires DistinctReports(reports) && forall r :: r in reports ==> r.id in ids
    ensures |reports| <= |ids|
    decreases |reports|
  {
    if reports != [] {
      var rest := reports[1..];
      assert forall k :: 0 <= k < |rest| ==> rest[k] == reports[k + 1];
      forall r | r in rest
        ensures r in reports && r.id != reports[0].id
      {
        var k :| 0 <= k < |rest| && rest[k] == r;
        assert reports[k + 1] == r;
      }
      assert reports[0] in reports;
      ReportsCount(rest, ids - {reports[0].id});
    }
  }

  /** A node that accepts a created report holds fewer than were created. */
  lemma AcceptorHasRoom(net: Net, node: string, k: nat)
    requires CopiesOk(net) && k < |net.wire| && !Refuses(HeldBy(net.held, node), node, net.wire[k])
    ensures |HeldBy(net.held, node)| < |net.created|
  {
    var reports, r := HeldBy(net.held, node), net.wire[k];
    assert NodeOk(reports, node, net.created) && OnWire(r, net.created);
    forall s | s in reports
      ensures s.id in net.created.Keys - {r.id}
    {
      var i :| 0 <= i < |reports| && reports[i] == s;
      assert CopyAt(reports[i], node, net.created);
    }
    ReportsCount(reports, net.created.Keys - {r.id});
  }

  lemma CreatedGrows(net: Net, step: Step)
    requires Enabled(net, step)
    ensures |net.created| <= |Next(net, step).created|
  {
  }

  /** As long as at most 1000 reports are created in the whole network, nobody drops one. */
  lemma {:induction false} FewReportsNeverEvict(steps: seq<Step>)
    requires Legal(steps) && |Run(steps).created| <= 1000
    ensures !Run(steps).evicted
  {
    if steps != [] {
      var front, step := steps[..|steps| - 1], steps[|steps| - 1];
      var net := Run(front);
      hide CopiesOk, Refuses, Receive;
      CreatedGrows(net, step);
      FewReportsNeverEvict(front);
      RunKeepsCopies(front);
      if step.Deliver? && !Refuses(HeldBy(net.held, step.node), step.node, net.wire[step.k]) {
        AcceptorHasRoom(net, step.node, step.k);
      }
    }
  }

  /** What holds while nobody has dropped a report, hence in every run of at most 1000 reports. */
  lemma FewReportsSpread(steps: seq<Step>)
    requires Legal(steps) && |Run(steps).created| <= 1000
    ensures Spread(Run(steps)) && RoutesOk(Run(steps))
  {
    FewReportsNeverEvict(steps);
    RunSpreads(steps);
    var net := Run(steps);
    forall node, r | r in HeldBy(net.held, node)
      ensures NoRepeats(r.seenBy)
    {
      assert AllSeen(net.held, HeldBy(net.held, node));
      var i :| 0 <= i < |HeldBy(net.held, node)| && HeldBy(net.held, node)[i] == r;
      assert Seen(net.held, HeldBy(net.held, node)[i]);
    }
  }

  /**
   * With `n` reports in the whole network, every node accepts each at most once and no copy
   * crosses a node twice, whatever the run, exactly when `n` is at most 1000.
   */
  lemma AtMostOnceIff(n: nat)
    ensures (forall steps :: Legal(steps) && |Run(steps).created| <= n ==> NoRepeats(Run(steps).accepted))
            <==> n <= 1000
    ensures (forall steps :: Legal(steps) && |Run(steps).created| <= n ==> RoutesOk(Run(steps))) <==> n <= 1000
  {
    hide Run, Legal, NoRepeats, RoutesOk;
    if n <= MAX_REPORTS {
      forall steps | Legal(steps) && |Run(steps).created| <= n
        ensures NoRepeats(Run(steps).accepted) && RoutesOk(Run(steps))
      {
        FewReportsSpread(steps);
      }
    } else {
      var steps := AcceptedTwice();
      assert Legal(steps) && |Run(steps).created| <= n;
    }
  }

  // ---- flooding stops --------------------------------------------------------------------------

  function OfReport(id: string): Acceptance -> bool { (a: Acceptance) => a.id == id }

  lemma {:induction false} AcceptersCount(log: seq<Acceptance>, id: string, nodes: set<string>)
    requires NoRepeats(log)
    requires forall i :: 0 <= i < |log| && log[i].id == id ==> log[i].node in nodes
    ensures |Filter(log, OfReport(id))| <= |nodes|
    decreases |log|
  {
    if log != [] {
      var rest := log[1..];
      assert forall i :: 0 <= i < |rest| ==> rest[i] == log[i + 1];
      if log[0].id == id {
        AcceptersCount(rest, id, nodes - {log[0].node});
      } else {
        AcceptersCount(rest, id, nodes);
      }
    }
  }

  ghost predicate AcceptedIn(net: Net, nodes: set<string>) {
    forall i :: 0 <= i < |net.accepted| ==> net.accepted[i].node in nodes
  }

  lemma {:induction false} AcceptersDelivered(steps: seq<Step>, nodes: set<string>)
    requires Legal(steps)
    requires forall i :: 0 <= i < |steps| && steps[i].Deliver? ==> steps[i].node in nodes
    ensures AcceptedIn(Run(steps), nodes)
  {
    if steps != [] {
      AcceptersDelivered(steps[..|steps| - 1], nodes);
    }
  }

  /** In a network of `nodes`, a report is accepted fewer times than there are nodes. */
  lemma FloodingStops(steps: seq<Step>, nodes: set<string>, id: string)
    requires Legal(steps) && !Run(steps).evicted
    requires forall i :: 0 <= i < |steps| && steps[i].Deliver? ==> steps[i].node in nodes
    requires id in Run(steps).created && Run(steps).created[id].reporter in nodes
    ensures |Filter(Run(steps).accepted, OfReport(id))| <= |nodes| - 1
  {
    var net := Run(steps);
    RunSpreads(steps);
    AcceptersDelivered(steps, nodes);
    AcceptersCount(net.accepted, id, nodes - {net.created[id].reporter});
  }

  /** So in every run of at most 1000 reports. */
  lemma FewReportsStop(steps: seq<Step>, nodes: set<string>, id: string)
    requires Legal(steps) && |Run(steps).created| <= 1000
    requires forall i :: 0 <= i < |steps| && steps[i].Deliver? ==> steps[i].node in nodes
    requires id in Run(steps).created && Run(steps).created[id].reporter in nodes
    ensures |Filter(Run(steps).accepted, OfReport(id))| <= |nodes| - 1
  {
    FewReportsNeverEvict(steps);
    FloodingStops(steps, nodes, id);
  }

  // ---- the handlers ----------------------------------------------------------------------------

  datatype Answer = Answer(accepted: bool, shouldForward: bool)

  class ReportBook {
    var sharedReports: map<string, seq<Report>>

    constructor ()
      ensures sharedReports == map[]
    {
      sharedReports := map[];
    }

    method ReceiveAnomalyReport(me: string, report: Report) returns (answer: Answer)
      modifies this
      ensures forall n :: n != me ==> HeldBy(sharedReports, n) == HeldBy(old(sharedReports), n)
      ensures HeldBy(sharedReports, me) == Receive(HeldBy(old(sharedReports), me), me, report)
      ensures answer.accepted
              <==> report.hops < report.maxHops && report.subject != me
                   && forall r :: r in HeldBy(old(sharedReports), me) ==> r.id != report.id
      ensures answer.shouldForward <==> answer.accepted && report.hops + 1 < report.maxHops
    {
      var reports := GetNodeReports(me);
      var existing := HasSeen(reports, report.id);
      if existing {
        return Answer(false, false);
      }
      if report.hops >= report.maxHops || report.subject == me {
        return Answer(false, false);
      }
      var updated := report.(hops := report.hops + 1, seenBy := report.seenBy + [me]);
      reports := reports + [updated];
      if |reports| > MAX_REPORTS {
        reports := reports[|reports| - MAX_REPORTS..];
      }
      sharedReports := sharedReports[me := reports];
      answer := Answer(true, updated.hops < updated.maxHops);
    }

    /** Looks for a report with this id. */
    method HasSeen(reports: seq<Report>, id: string) returns (seen: bool)
      ensures seen <==> HoldsId(reports, id)
    {
      for i := 0 to |reports|
        invariant forall k :: 0 <= k < i ==> reports[k].id != id
      {
        if reports[i].id == id {
          return true;
        }
      }
      seen := false;
    }

    /** The node's list, made on first use. */
    method GetNodeReports(me: string) returns (reports: seq<Report>)
      modifies this
      ensures reports == HeldBy(old(sharedReports), me)
      ensures me in sharedReports
      ensures forall n :: HeldBy(sharedReports, n) == HeldBy(old(sharedReports), n)
    {
      if me !in sharedReports {
        sharedReports := sharedReports[me := []];
      }
      reports := sharedReports[me];
    }

    method CreateAnomalyReport(me: string, id: string, subject: string, anomaly: string, maxHops: int, now: int)
      returns (report: Report)
      modifies this
      ensures report == Report(id, me, subject, anomaly, 0, maxHops, [me], now)
      ensures forall n :: n != me ==> HeldBy(sharedReports, n) == HeldBy(old(sharedReports), n)
      ensures HeldBy(sharedReports, me) == HeldBy(old(sharedReports), me) + [report]
    {
      report := NewReport(id, me, subject, anomaly, maxHops, now);
      var reports := GetNodeReports(me);
      sharedReports := sharedReports[me := reports + [report]];
    }

    method GetPendingForwards(me: string) returns (pending: seq<Report>)
      modifies this
      ensures pending == PendingForwards(HeldBy(old(sharedReports), me))
      ensures forall r :: r in pending <==> r in HeldBy(old(sharedReports), me) && r.hops < r.maxHops
      ensures forall n :: HeldBy(sharedReports, n) == HeldBy(old(sharedReports), n)
    {
      var reports := GetNodeReports(me);
      pending := Filter(reports, Forwardable());
    }
  }
}
