/**
 * Backup shards kept for other agents: for each agent and shard type, the highest version
 * received. Deliveries may be reordered and repeated.
 */
module Backup {
  import opened Seqs

  datatype ShardType = Persona | Will | Memories | Relationships

  datatype Shard = Shard(agentDid: string, senderDid: string, kind: ShardType, encryptedData: string,
                         checksum: string, version: int)

  /** A shard as held. */
  datatype Held = Held(shard: Shard, receivedAt: int, expiresAt: int)

  datatype Reply = Kept(held: Held) | AlreadyHeld(held: Held) | MissingField

  const NINETY_DAYS_MS := 90 * 24 * 60 * 60 * 1000

  predicate Complete(s: Shard) { s.agentDid != "" && s.senderDid != "" && s.encryptedData != "" }

  predicate SameSlot(s: Shard, t: Shard) { s.agentDid == t.agentDid && s.kind == t.kind }

  function Entry(s: Shard, now: int): Held { Held(s, now, now + NINETY_DAYS_MS) }

  /** `findIndex` by agent and type. */
  function SlotOf(backups: seq<Held>, s: Shard): (i: int)
    ensures -1 <= i < |backups|
    ensures i >= 0 ==> SameSlot(backups[i].shard, s)
    ensures forall k :: 0 <= k < (if i >= 0 then i else |backups|) ==> !SameSlot(backups[k].shard, s)
    decreases |backups|
  {
    if backups == [] then -1
    else
      var n := |backups| - 1;
      var i := SlotOf(backups[..n], s);
      if i >= 0 then i else if SameSlot(backups[n].shard, s) then n else -1
  }

  function Receive(backups: seq<Held>, s: Shard, now: int): (seq<Held>, Reply) {
    if !Complete(s) then (backups, MissingField)
    else
      var i := SlotOf(backups, s);
      if i >= 0 then
        if s.version <= backups[i].shard.version then (backups, AlreadyHeld(backups[i]))
        else (backups[i := Entry(s, now)], Kept(Entry(s, now)))
      else (backups + [Entry(s, now)], Kept(Entry(s, now)))
  }

  function NotExpired(now: int): Held -> bool { (h: Held) => h.expiresAt > now }

  function Prune(backups: seq<Held>, now: int): seq<Held> { Filter(backups, NotExpired(now)) }

  // ---- deliveries ---------------------------------------------------------------------------------

  datatype Delivery = Delivery(shard: Shard, now: int)

  function Run(ds: seq<Delivery>): seq<Held> {
    if ds == [] then []
    else
      var last := ds[|ds| - 1];
      Receive(Run(ds[..|ds| - 1]), last.shard, last.now).0
  }

  /** Every agent and type is held at most once. */
  ghost predicate OnePerSlot(backups: seq<Held>) {
    forall i, j :: 0 <= i < j < |backups| ==> !SameSlot(backups[i].shard, backups[j].shard)
  }

  /** Delivery `i` is a complete shard for the slot of `s`. */
  predicate Fits(ds: seq<Delivery>, i: int, s: Shard) {
    0 <= i < |ds| && Complete(ds[i].shard) && SameSlot(ds[i].shard, s)
  }

  /** Delivery `i` is the first of the highest version for the slot of `s`. */
  ghost predicate Wins(ds: seq<Delivery>, i: int, s: Shard) {
    && Fits(ds, i, s)
    && (forall j :: Fits(ds, j, s) ==> ds[j].shard.version <= ds[i].shard.version)
    && (forall j :: Fits(ds, j, s) && ds[j].shard.version == ds[i].shard.version ==> i <= j)
  }

  /** What is held for the slot of `s`: the winning delivery, when there is any. */
  ghost predicate SlotHolds(ds: seq<Delivery>, backups: seq<Held>, s: Shard) {
    var k := SlotOf(backups, s);
    if k >= 0 then exists i :: Wins(ds, i, s) && backups[k] == Entry(ds[i].shard, ds[i].now)
    else forall i :: !Fits(ds, i, s)
  }

  lemma FitsNext(ds: seq<Delivery>, d: Delivery, i: int, s: Shard)
    ensures Fits(ds + [d], i, s) <==> Fits(ds, i, s) || (i == |ds| && Complete(d.shard) && SameSlot(d.shard, s))
  {
  }

  /** A later delivery wins exactly when it fits and beats the winner so far. */
  lemma WinsNext(ds: seq<Delivery>, d: Delivery, i: int, s: Shard)
    requires Wins(ds, i, s)
    ensures if Complete(d.shard) && SameSlot(d.shard, s) && d.shard.version > ds[i].shard.version
            then Wins(ds + [d], |ds|, s) else Wins(ds + [d], i, s)
  {
    forall j
      ensures Fits(ds + [d], j, s) <==> Fits(ds, j, s) || (j == |ds| && Complete(d.shard) && SameSlot(d.shard, s))
    {
      FitsNext(ds, d, j, s);
    }
  }

  lemma FirstWins(ds: seq<Delivery>, d: Delivery, s: Shard)
    requires Complete(d.shard) && SameSlot(d.shard, s) && forall i :: !Fits(ds, i, s)
    ensures Wins(ds + [d], |ds|, s)
  {
    forall j
      ensures Fits(ds + [d], j, s) ==> j == |ds|
    {
      FitsNext(ds, d, j, s);
    }
  }

  /** Where a slot is found after a reception. */
  lemma SlotNext(backups: seq<Held>, d: Shard, now: int, s: Shard)
    requires OnePerSlot(backups)
    ensures var after := Receive(backups, d, now).0;
            && OnePerSlot(after)
            && if Receive(backups, d, now).1.Kept? && SameSlot(d, s)
               then SlotOf(after, s) >= 0 && after[SlotOf(after, s)] == Entry(d, now)
               else SlotOf(after, s) == SlotOf(backups, s)
                    && (SlotOf(after, s) >= 0 ==> after[SlotOf(after, s)] == backups[SlotOf(backups, s)])
  {
    hide SlotOf;
    var after := Receive(backups, d, now).0;
    assert OnePerSlot(after);
    var k, m, i := SlotOf(backups, s), SlotOf(after, s), SlotOf(backups, d);
    SlotIs(after, s, m);
    if Receive(backups, d, now).1.Kept? && SameSlot(d, s) {
      assert SameSlot(after[if i >= 0 then i else |backups|].shard, s);
    } else {
      assert forall j :: 0 <= j < |backups| ==> SameSlot(after[j].shard, backups[j].shard);
      assert k >= 0 ==> after[k] == backups[k] && SameSlot(after[k].shard, s);
    }
  }

  /** In a list with one entry per slot, the entry found is the only one. */
  lemma SlotIs(backups: seq<Held>, s: Shard, i: int)
    requires OnePerSlot(backups) && i == SlotOf(backups, s)
    ensures forall k :: 0 <= k < |backups| && SameSlot(backups[k].shard, s) ==> k == i
  {
  }

  lemma KeptIff(backups: seq<Held>, d: Shard, now: int, s: Shard)
    requires OnePerSlot(backups) && SameSlot(d, s)
    ensures var k := SlotOf(backups, s);
            Receive(backups, d, now).1.Kept? <==>
            Complete(d) && (k >= 0 ==> d.version > backups[k].shard.version)
  {
    var i := SlotOf(backups, d);
    SlotIs(backups, s, SlotOf(backups, s));
    SlotIs(backups, d, i);
  }

  lemma StepHolds(ds: seq<Delivery>, d: Delivery, backups: seq<Held>, s: Shard)
    requires OnePerSlot(backups) && SlotHolds(ds, backups, s)
    ensures SlotHolds(ds + [d], Receive(backups, d.shard, d.now).0, s)
  {
    SlotNext(backups, d.shard, d.now, s);
    if SameSlot(d.shard, s) {
      KeptIff(backups, d.shard, d.now, s);
    }
    hide Receive, OnePerSlot, Complete, SameSlot;
    var k := SlotOf(backups, s);
    if k >= 0 {
      var i :| Wins(ds, i, s) && backups[k] == Entry(ds[i].shard, ds[i].now);
      WinsNext(ds, d, i, s);
      assert (ds + [d])[i] == ds[i] && (ds + [d])[|ds|] == d;
    } else if Complete(d.shard) && SameSlot(d.shard, s) {
      FirstWins(ds, d, s);
      assert (ds + [d])[|ds|] == d;
    } else {
      forall j
        ensures !Fits(ds + [d], j, s)
      {
        FitsNext(ds, d, j, s);
      }
    }
  }

  /**
   * After any deliveries, each agent and type is held at most once, and for any slot what is
   * held is the first-arrived shard of the highest version delivered.
   */
  lemma {:induction false} HoldsTheWinner(ds: seq<Delivery>, s: Shard)
    ensures OnePerSlot(Run(ds)) && SlotHolds(ds, Run(ds), s)
    decreases |ds|
  {
    if ds != [] {
      hide SlotHolds, Receive;
      var front, d := ds[..|ds| - 1], ds[|ds| - 1];
      assert ds == front + [d];
      HoldsTheWinner(front, s);
      StepHolds(front, d, Run(front), s);
      SlotNext(Run(front), d.shard, d.now, s);
    }
  }

  // ---- convergence ----------------------------------------------------------------------------------

  ghost predicate Delivered(ds: seq<Delivery>, s: Shard) {
    exists i :: 0 <= i < |ds| && ds[i].shard == s
  }

  ghost predicate SameShards(ds: seq<Delivery>, es: seq<Delivery>) {
    forall s :: Delivered(ds, s) <==> Delivered(es, s)
  }

  function VersionOf(backups: seq<Held>, s: Shard): Option<int> {
    var k := SlotOf(backups, s);
    if k >= 0 then Some(backups[k].shard.version) else None
  }

  /** A delivery that fits in one node has one of the same shard in the other. */
  lemma FitsThere(ds: seq<Delivery>, es: seq<Delivery>, i: int, s: Shard) returns (j: int)
    requires SameShards(ds, es) && Fits(ds, i, s)
    ensures Fits(es, j, s) && es[j].shard == ds[i].shard
  {
    assert Delivered(ds, ds[i].shard);
    assert Delivered(es, ds[i].shard);
    j :| 0 <= j < |es| && es[j].shard == ds[i].shard;
  }

  /**
   * Two nodes that were given the same shards, in whatever order and however often, hold the
   * same versions; and the same shards, if no two shards of a slot share a version.
   */
  lemma {:induction false} ReplicasConverge(ds: seq<Delivery>, es: seq<Delivery>, s: Shard)
    requires SameShards(ds, es)
    ensures VersionOf(Run(ds), s) == VersionOf(Run(es), s)
    ensures (forall i, j :: Fits(ds, i, s) && Fits(ds, j, s) && ds[i].shard.version == ds[j].shard.version
                            ==> ds[i].shard == ds[j].shard)
            && SlotOf(Run(ds), s) >= 0 && SlotOf(Run(es), s) >= 0
            ==> Run(ds)[SlotOf(Run(ds), s)].shard == Run(es)[SlotOf(Run(es), s)].shard
  {
    hide Run, SlotOf;
    if SlotOf(Run(ds), s) >= 0 {
      var i := WinnerOf(ds, s);
      var j := FitsThere(ds, es, i, s);
      HeldIfFits(es, j, s);
      var k := WinnerOf(es, s);
      var m := FitsThere(es, ds, k, s);
    } else if SlotOf(Run(es), s) >= 0 {
      var k := WinnerOf(es, s);
      var m := FitsThere(es, ds, k, s);
      HeldIfFits(ds, m, s);
    }
  }

  /** The delivery that a held slot comes from. */
  lemma WinnerOf(ds: seq<Delivery>, s: Shard) returns (i: int)
    requires SlotOf(Run(ds), s) >= 0
    ensures Fits(ds, i, s) && Run(ds)[SlotOf(Run(ds), s)].shard == ds[i].shard
    ensures forall j :: Fits(ds, j, s) ==> ds[j].shard.version <= ds[i].shard.version
  {
    HoldsTheWinner(ds, s);
    i :| Wins(ds, i, s) && Run(ds)[SlotOf(Run(ds), s)] == Entry(ds[i].shard, ds[i].now);
  }

  lemma HeldIfFits(ds: seq<Delivery>, i: int, s: Shard)
    requires Fits(ds, i, s)
    ensures SlotOf(Run(ds), s) >= 0
  {
    HoldsTheWinner(ds, s);
  }

  /** Pruning keeps one entry per slot, and exactly the entries that are not expired. */
  lemma {:induction false} PruneKeepsOnePerSlot(backups: seq<Held>, now: int)
    requires OnePerSlot(backups)
    ensures OnePerSlot(Prune(backups, now))
    ensures forall h :: h in Prune(backups, now) <==> h in backups && h.expiresAt > now
  {
    if backups != [] {
      var rest := backups[1..];
      assert forall k :: 0 <= k < |rest| ==> rest[k] == backups[k + 1];
      PruneKeepsOnePerSlot(rest, now);
      var p := Prune(rest, now);
      forall k | 0 <= k < |p|
        ensures !SameSlot(backups[0].shard, p[k].shard)
      {
        assert p[k] in p;
        var m :| 0 <= m < |rest| && rest[m] == p[k];
        assert backups[m + 1] == p[k];
      }
    }
  }

  // ---- deliveries and prunes --------------------------------------------------------------------------

  datatype Event = Deliver(d: Delivery) | PruneAt(now: int)

  function After(backups: seq<Held>, e: Event): seq<Held> {
    match e
    case Deliver(d) => Receive(backups, d.shard, d.now).0
    case PruneAt(now) => Prune(backups, now)
  }

  function RunAll(events: seq<Event>): seq<Held> {
    if events == [] then [] else After(RunAll(events[..|events| - 1]), events[|events| - 1])
  }

  /**
   * Event `i` delivered `h` complete; since then, no delivery for its slot had a higher version,
   * and no prune found it expired.
   */
  ghost predicate LatestOf(events: seq<Event>, i: int, h: Held) {
    && 0 <= i < |events| && events[i].Deliver? && Complete(events[i].d.shard)
    && h == Entry(events[i].d.shard, events[i].d.now)
    && forall j :: i < j < |events| ==> !Replaces(events[j], h)
  }

  /** The event puts an end to `h` being held. */
  predicate Replaces(e: Event, h: Held) {
    match e
    case Deliver(d) => Complete(d.shard) && SameSlot(d.shard, h.shard) && d.shard.version > h.shard.version
    case PruneAt(now) => h.expiresAt <= now
  }

  /** Also with prunes in between, each agent and type is held at most once, as the latest of its deliveries. */
  lemma {:induction false} OnePerSlotAlways(events: seq<Event>)
    ensures OnePerSlot(RunAll(events))
    ensures forall h :: h in RunAll(events) ==> exists i :: LatestOf(events, i, h)
    decreases |events|
  {
    if events != [] {
      hide Receive, Prune, SlotOf;
      var n := |events| - 1;
      var front, e := events[..n], events[n];
      var before := RunAll(front);
      OnePerSlotAlways(front);
      assert events == front + [e];
      match e {
        case Deliver(d) =>
          SlotNext(before, d.shard, d.now, d.shard);
          ReceivedFrom(before, d.shard, d.now);
        case PruneAt(now) => PruneKeepsOnePerSlot(before, now);
      }
      forall h | h in RunAll(events)
        ensures exists i :: LatestOf(events, i, h)
      {
        if h in before && !Replaces(e, h) {
          var i :| LatestOf(front, i, h);
          StillLatest(front, e, i, h);
        } else {
          assert LatestOf(events, n, h);
        }
      }
    }
  }

  /** The event leaves a shard that is kept from `since` on where it is. */
  predicate Spares(e: Event, s: Shard, since: int) {
    match e
    case Deliver(d) => !SameSlot(d.shard, s) || d.shard.version <= s.version
    case PruneAt(now) => now < since + 7_776_000_000
  }

  lemma {:induction false} StaysHeld(events: seq<Event>, k: nat, n: nat, h: Held)
    requires k <= n <= |events| && h in RunAll(events[..k])
    requires h.expiresAt == h.receivedAt + 7_776_000_000
    requires forall j :: k <= j < |events| ==> Spares(events[j], h.shard, h.receivedAt)
    ensures h in RunAll(events[..n])
    decreases n
  {
    hide *;
    if n > k {
      var front := events[..n - 1];
      StaysHeld(events, k, n - 1, h);
      OnePerSlotAlways(front);
      SparedIsHeld(RunAll(front), events[n - 1], h);
      assert events[..n] == front + [events[n - 1]];
      RunAllNext(front, events[n - 1]);
    }
  }

  /** A shard that was kept is held for 90 days, unless a higher version takes its place. */
  lemma HeldForNinetyDays(events: seq<Event>, k: nat, d: Delivery)
    requires k < |events| && events[k] == Deliver(d)
    requires Receive(RunAll(events[..k]), d.shard, d.now).1.Kept?
    requires forall j :: k < j < |events| ==> Spares(events[j], d.shard, d.now)
    ensures Held(d.shard, d.now, d.now + 7_776_000_000) in RunAll(events)
  {
    hide RunAll, Receive, Spares, After;
    assert events[..k + 1] == events[..k] + [events[k]];
    RunAllNext(events[..k], events[k]);
    DeliverIs(RunAll(events[..k]), d);
    KeptIsHeld(RunAll(events[..k]), d.shard, d.now);
    StaysHeld(events, k + 1, |events|, Held(d.shard, d.now, d.now + 7_776_000_000));
    assert events[..|events|] == events;
  }

  lemma RunAllNext(events: seq<Event>, e: Event)
    ensures RunAll(events + [e]) == After(RunAll(events), e)
  {
    assert (events + [e])[..|events|] == events;
  }

  lemma DeliverIs(backups: seq<Held>, d: Delivery)
    ensures After(backups, Deliver(d)) == Receive(backups, d.shard, d.now).0
  {
  }

  lemma KeptIsHeld(backups: seq<Held>, s: Shard, now: int)
    requires Receive(backups, s, now).1.Kept?
    ensures Held(s, now, now + 7_776_000_000) in Receive(backups, s, now).0
  {
    var after, i := Receive(backups, s, now).0, SlotOf(backups, s);
    assert after[if i >= 0 then i else |backups|] == Held(s, now, now + 7_776_000_000);
  }

  lemma SparedIsHeld(backups: seq<Held>, e: Event, h: Held)
    requires OnePerSlot(backups) && h in backups && Spares(e, h.shard, h.receivedAt)
    requires h.expiresAt == h.receivedAt + 7_776_000_000
    ensures h in After(backups, e)
  {
    match e {
      case Deliver(d) =>
        var after, i := After(backups, e), SlotOf(backups, d.shard);
        var k :| 0 <= k < |backups| && backups[k] == h;
        if SameSlot(h.shard, d.shard) {
          SlotIs(backups, d.shard, i);
        }
        assert after[k] == h;
      case PruneAt(now) =>
    }
  }

  /** Exactly how a delivery is answered. */
  lemma ReceptionAnswers(backups: seq<Held>, s: Shard, now: int)
    requires OnePerSlot(backups)
    ensures var reply := Receive(backups, s, now).1;
            && (reply.MissingField? <==> s.agentDid == "" || s.senderDid == "" || s.encryptedData == "")
            && (reply.AlreadyHeld?
                <==> !reply.MissingField?
                     && exists h :: h in backups && h.shard.agentDid == s.agentDid && h.shard.kind == s.kind
                                    && s.version <= h.shard.version)
            && (reply.AlreadyHeld? ==> reply.held in backups && SameSlot(reply.held.shard, s))
  {
    var i := SlotOf(backups, s);
    if h :| h in backups && h.shard.agentDid == s.agentDid && h.shard.kind == s.kind {
      var k :| 0 <= k < |backups| && backups[k] == h;
      SlotIs(backups, s, i);
    }
    if i >= 0 {
      assert backups[i] in backups;
    }
  }

  lemma StillLatest(events: seq<Event>, e: Event, i: int, h: Held)
    requires LatestOf(events, i, h) && !Replaces(e, h)
    ensures LatestOf(events + [e], i, h)
  {
    var all := events + [e];
    assert all[i] == events[i];
    forall j | i < j < |all|
      ensures !Replaces(all[j], h)
    {
      assert all[j] == if j < |events| then events[j] else e;
    }
  }

  /** After a reception: what was held and is not replaced, and the shard itself. */
  lemma ReceivedFrom(backups: seq<Held>, s: Shard, now: int)
    requires OnePerSlot(backups)
    ensures forall h :: h in Receive(backups, s, now).0 ==>
              (h in backups && !Replaces(Deliver(Delivery(s, now)), h)) || (Complete(s) && h == Entry(s, now))
  {
    var after, i := Receive(backups, s, now).0, SlotOf(backups, s);
    forall h | h in after
      ensures (h in backups && !Replaces(Deliver(Delivery(s, now)), h)) || (Complete(s) && h == Entry(s, now))
    {
      var k :| 0 <= k < |after| && after[k] == h;
      if k < |backups| && after[k] == backups[k] && SameSlot(s, h.shard) {
        SlotIs(backups, s, i);
        assert SameSlot(backups[k].shard, s);
      }
    }
  }

  // ---- the handlers ----------------------------------------------------------------------------------

  class BackupHolder {
    var backupStore: map<string, seq<Held>>

    constructor ()
      ensures backupStore == map[]
    {
      backupStore := map[];
    }

    ghost function HeldBy(node: string): seq<Held>
      reads this
    {
      if node in backupStore then backupStore[node] else []
    }

    method GetBackups(node: string) returns (backups: seq<Held>)
      modifies this
      ensures backups == old(HeldBy(node)) && node in backupStore
      ensures forall n :: HeldBy(n) == old(HeldBy(n))
    {
      if node !in backupStore {
        backupStore := backupStore[node := []];
      }
      backups := backupStore[node];
    }

    method ReceiveBackupShard(node: string, shard: Shard, now: int) returns (reply: Reply)
      modifies this
      ensures (HeldBy(node), reply) == Receive(old(HeldBy(node)), shard, now)
      ensures forall n :: n != node ==> HeldBy(n) == old(HeldBy(n))
    {
      if shard.agentDid == "" || shard.senderDid == "" || shard.encryptedData == "" {
        return MissingField;
      }
      var backups := GetBackups(node);
      var i := 0;
      while i < |backups| && !SameSlot(backups[i].shard, shard)
        invariant 0 <= i <= |backups|
        invariant forall k :: 0 <= k < i ==> !SameSlot(backups[k].shard, shard)
      {
        i := i + 1;
      }
      var entry := Entry(shard, now);
      if i < |backups| {
        if shard.version <= backups[i].shard.version {
          return AlreadyHeld(backups[i]);
        }
        backups := backups[i := entry];
      } else {
        backups := backups + [entry];
      }
      backupStore := backupStore[node := backups];
      reply := Kept(entry);
    }

    method PruneExpiredBackups(node: string, now: int) returns (pruned: nat)
      modifies this
      ensures HeldBy(node) == Prune(old(HeldBy(node)), now)
      ensures pruned == |old(HeldBy(node))| - |Prune(old(HeldBy(node)), now)|
      ensures forall n :: n != node ==> HeldBy(n) == old(HeldBy(n))
    {
      var backups := GetBackups(node);
      var filtered := Filter(backups, NotExpired(now));
      backupStore := backupStore[node := filtered];
      pruned := |backups| - |filtered|;
    }
  }
}
