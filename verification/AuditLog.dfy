/**
 * The audit log: entries chained by the hash of the entry before. The hash of an entry's
 * other fields is a parameter.
 */
module AuditLog {
  import opened Seqs

  datatype Body = Body(index: nat, timestamp: int, category: string, action: string, actorDid: string,
                       targetDid: Option<string>, details: string, previousHash: string)

  datatype Entry = Entry(body: Body, hash: string)

  type Digest = Body -> string

  /** Sixty-four zeros. */
  const GENESIS := Repeated('0', 64)

  function Repeated(c: char, n: nat): (s: string)
    ensures |s| == n && forall i :: 0 <= i < n ==> s[i] == c
  {
    seq(n, _ => c)
  }

  /** What an entry at position `i` must name as the hash before it. */
  function HashBefore(log: seq<Entry>, i: nat): string
    requires i <= |log|
  {
    if i == 0 then GENESIS else log[i - 1].hash
  }

  predicate EntryOk(digest: Digest, log: seq<Entry>, i: nat)
    requires i < |log|
  {
    log[i].body.previousHash == HashBefore(log, i) && digest(log[i].body) == log[i].hash
  }

  ghost predicate Intact(digest: Digest, log: seq<Entry>) {
    forall i :: 0 <= i < |log| ==> EntryOk(digest, log, i)
  }

  datatype Verification = Sound | Broken(at: nat, expected: string, actual: string)

  /** The first broken entry, its link being looked at before its own hash. */
  ghost predicate Reports(digest: Digest, log: seq<Entry>, v: Verification) {
    match v
    case Sound => Intact(digest, log)
    case Broken(at, expected, actual) =>
      && at < |log| && Intact(digest, log[..at]) && !EntryOk(digest, log, at)
      && if log[at].body.previousHash != HashBefore(log, at)
         then expected == HashBefore(log, at) && actual == log[at].body.previousHash
         else expected == digest(log[at].body) && actual == log[at].hash
  }

  /** No two entries have one hash. */
  ghost predicate CollisionFree(digest: Digest) {
    forall x, y :: digest(x) == digest(y) ==> x == y
  }

  ghost predicate AvoidsGenesis(digest: Digest) {
    forall x :: digest(x) != GENESIS
  }

  function Next(digest: Digest, log: seq<Entry>, category: string, action: string, actorDid: string,
                details: string, targetDid: Option<string>, now: int): Entry
  {
    var body := Body(|log|, now, category, action, actorDid, targetDid, details, HashBefore(log, |log|));
    Entry(body, digest(body))
  }

  // ---- the promises -------------------------------------------------------------------------------

  /** A verification report is determined by the log. */
  lemma ReportIsUnique(digest: Digest, log: seq<Entry>, v: Verification, w: Verification)
    requires Reports(digest, log, v) && Reports(digest, log, w)
    ensures v == w
  {
    if v.Broken? && w.Broken? {
      if v.at < w.at {
        PrefixEntry(digest, log, w.at, v.at);
      } else if w.at < v.at {
        PrefixEntry(digest, log, v.at, w.at);
      }
    }
  }

  lemma PrefixEntry(digest: Digest, log: seq<Entry>, k: nat, i: nat)
    requires i < k <= |log| && Intact(digest, log[..k])
    ensures EntryOk(digest, log, i)
  {
    assert EntryOk(digest, log[..k], i);
  }

  lemma AppendKeepsIntact(digest: Digest, log: seq<Entry>, e: Entry)
    requires Intact(digest, log)
    requires e.body.previousHash == HashBefore(log, |log|) && e.hash == digest(e.body)
    ensures Intact(digest, log + [e])
  {
    var log' := log + [e];
    forall i | 0 <= i < |log'|
      ensures EntryOk(digest, log', i)
    {
      if i < |log| {
        assert EntryOk(digest, log, i);
      }
    }
  }

  /** Dropping entries at the end is not noticed by verification. */
  lemma PrefixVerifies(digest: Digest, log: seq<Entry>, k: nat)
    requires Intact(digest, log) && k <= |log|
    ensures Intact(digest, log[..k])
  {
    forall i | 0 <= i < k
      ensures EntryOk(digest, log[..k], i)
    {
      assert EntryOk(digest, log, i);
    }
  }

  /** Entries that link up and hash rightly, when the hash before them is `before`. */
  predicate Chained(digest: Digest, before: string, tail: seq<Entry>)
    decreases |tail|
  {
    tail == [] ||
    (&& tail[0].body.previousHash == before && digest(tail[0].body) == tail[0].hash
     && Chained(digest, tail[0].hash, tail[1..]))
  }

  /** What verification lets pass after an intact log: exactly what is chained to it. */
  lemma {:induction false} IntactIffChained(digest: Digest, log: seq<Entry>, tail: seq<Entry>)
    requires Intact(digest, log)
    ensures Intact(digest, log + tail) <==> Chained(digest, HashBefore(log, |log|), tail)
    decreases |tail|
  {
    if tail == [] {
      assert log + tail == log;
    } else {
      var all, next := log + tail, log + [tail[0]];
      assert all == next + tail[1..];
      assert all[..|next|] == next;
      if tail[0].body.previousHash == HashBefore(log, |log|) && digest(tail[0].body) == tail[0].hash {
        AppendKeepsIntact(digest, log, tail[0]);
        IntactIffChained(digest, next, tail[1..]);
      } else {
        assert HashBefore(all, |log|) == HashBefore(log, |log|);
        assert !EntryOk(digest, all, |log|);
      }
    }
  }

  /** Bodies made into entries, each with the link and the hash that verification expects. */
  function Rechained(digest: Digest, before: string, bodies: seq<Body>): seq<Entry>
    decreases |bodies|
  {
    if bodies == [] then []
    else
      var body := bodies[0].(previousHash := before);
      [Entry(body, digest(body))] + Rechained(digest, digest(body), bodies[1..])
  }

  lemma {:induction false} RechainedIsChained(digest: Digest, before: string, bodies: seq<Body>)
    ensures Chained(digest, before, Rechained(digest, before, bodies))
    decreases |bodies|
  {
    if bodies != [] {
      RechainedIsChained(digest, digest(bodies[0].(previousHash := before)), bodies[1..]);
    }
  }

  /**
   * Tampering from entry `k` on passes verification exactly when it was rechained, and any
   * bodies, be their contents and positions what they may, can be.
   */
  lemma RechainedTamperingPasses(digest: Digest, log: seq<Entry>, k: nat, tail: seq<Entry>, bodies: seq<Body>)
    requires Intact(digest, log) && k <= |log|
    ensures Intact(digest, log[..k] + tail) <==> Chained(digest, HashBefore(log, k), tail)
    ensures Intact(digest, log[..k] + Rechained(digest, HashBefore(log, k), bodies))
  {
    PrefixVerifies(digest, log, k);
    assert HashBefore(log[..k], k) == HashBefore(log, k);
    IntactIffChained(digest, log[..k], tail);
    RechainedIsChained(digest, HashBefore(log, k), bodies);
    IntactIffChained(digest, log[..k], Rechained(digest, HashBefore(log, k), bodies));
  }

  /** The hash of the last entry; the genesis value for the empty log. */
  function Head(log: seq<Entry>): string { HashBefore(log, |log|) }

  /** Verified logs with the same head are equal, entry for entry and in length. */
  lemma {:induction false} HeadIdentifiesLog(digest: Digest, a: seq<Entry>, b: seq<Entry>)
    requires CollisionFree(digest) && AvoidsGenesis(digest)
    requires Intact(digest, a) && Intact(digest, b)
    ensures Head(a) == Head(b) <==> a == b
    decreases |a|
  {
    hide Head, HashBefore, Intact, EntryOk;
    if Head(a) == Head(b) {
      if a == [] || b == [] {
        EmptyHasGenesis(digest, a);
        EmptyHasGenesis(digest, b);
      } else {
        LastEntryLinks(digest, a);
        LastEntryLinks(digest, b);
        var front, front' := a[..|a| - 1], b[..|b| - 1];
        HeadIdentifiesLog(digest, front, front');
        assert a == front + [a[|a| - 1]] && b == front' + [b[|b| - 1]];
      }
    }
  }

  lemma EmptyHasGenesis(digest: Digest, log: seq<Entry>)
    requires AvoidsGenesis(digest) && Intact(digest, log)
    ensures Head(log) == GENESIS <==> log == []
  {
    assert log != [] ==> EntryOk(digest, log, |log| - 1);
  }

  lemma LastEntryLinks(digest: Digest, log: seq<Entry>)
    requires Intact(digest, log) && log != []
    ensures var front, last := log[..|log| - 1], log[|log| - 1];
            && Intact(digest, front)
            && last == Entry(last.body, Head(log)) && Head(log) == digest(last.body)
            && last.body.previousHash == Head(front)
  {
    assert EntryOk(digest, log, |log| - 1);
    PrefixVerifies(digest, log, |log| - 1);
  }

  /**
   * A changed log that still verifies has another head, be it truncated or rechained; so who
   * knows the head notices, and only who does.
   */
  lemma TamperingShowsInTheHead(digest: Digest, log: seq<Entry>, tampered: seq<Entry>)
    requires CollisionFree(digest) && AvoidsGenesis(digest)
    requires Intact(digest, log) && tampered != log
    ensures !Intact(digest, tampered) || Head(tampered) != Head(log)
    ensures forall k :: 0 <= k < |log| && tampered == log[..k] ==>
              Intact(digest, tampered) && Head(tampered) != Head(log)
  {
    if Intact(digest, tampered) {
      HeadIdentifiesLog(digest, log, tampered);
    }
    forall k | 0 <= k < |log| && tampered == log[..k]
      ensures Intact(digest, tampered) && Head(tampered) != Head(log)
    {
      PrefixVerifies(digest, log, k);
      HeadIdentifiesLog(digest, log, tampered);
    }
  }

  // ---- what a log says ----------------------------------------------------------------------------

  datatype Event = Event(category: string, action: string, actorDid: string, details: string,
                         targetDid: Option<string>, now: int)

  /** The log of events appended in order. */
  function LogOf(digest: Digest, events: seq<Event>): seq<Entry>
    decreases |events|
  {
    if events == [] then []
    else
      var log, e := LogOf(digest, events[..|events| - 1]), events[|events| - 1];
      log + [Next(digest, log, e.category, e.action, e.actorDid, e.details, e.targetDid, e.now)]
  }

  /** Entry `i` says what event `i` was, at index `i`, after the entry before it. */
  ghost predicate Tells(digest: Digest, log: seq<Entry>, i: nat, e: Event)
    requires i < |log|
  {
    && log[i].body == Body(i, e.now, e.category, e.action, e.actorDid, e.targetDid, e.details, HashBefore(log, i))
    && log[i].hash == digest(log[i].body)
  }

  /** Over every sequence of appends, the log verifies and tells the events, each at its index. */
  lemma {:induction false} LogTellsTheEvents(digest: Digest, events: seq<Event>)
    ensures var log := LogOf(digest, events);
            && |log| == |events| && Intact(digest, log)
            && forall i :: 0 <= i < |events| ==> Tells(digest, log, i, events[i])
    decreases |events|
  {
    if events != [] {
      var n := |events| - 1;
      var log, before := LogOf(digest, events), LogOf(digest, events[..n]);
      LogTellsTheEvents(digest, events[..n]);
      AppendKeepsIntact(digest, before, log[n]);
      forall i | 0 <= i < |events|
        ensures Tells(digest, log, i, events[i])
      {
        if i < n {
          assert Tells(digest, before, i, events[..n][i]);
        }
      }
    }
  }

  // ---- the log ------------------------------------------------------------------------------------

  class AuditLog {
    const digest: Digest
    var entries: seq<Entry>

    constructor (digest: Digest)
      ensures this.digest == digest && entries == []
    {
      this.digest := digest;
      entries := [];
    }

    method Append(category: string, action: string, actorDid: string, details: string,
                  targetDid: Option<string>, now: int) returns (e: Entry)
      modifies this`entries
      ensures e == Next(digest, old(entries), category, action, actorDid, details, targetDid, now)
      ensures e.body == Body(|old(entries)|, now, category, action, actorDid, targetDid, details,
                             HashBefore(old(entries), |old(entries)|))
      ensures entries == old(entries) + [e]
      ensures old(Intact(digest, entries)) ==> Intact(digest, entries)
    {
      var previousHash := if |entries| > 0 then entries[|entries| - 1].hash else GENESIS;
      var body := Body(|entries|, now, category, action, actorDid, targetDid, details, previousHash);
      e := Entry(body, digest(body));
      if Intact(digest, entries) {
        AppendKeepsIntact(digest, entries, e);
      }
      entries := entries + [e];
    }

    /** Reports the first broken entry. */
    method Verify() returns (v: Verification)
      ensures Reports(digest, entries, v)
    {
      var i := 0;
      while i < |entries|
        invariant 0 <= i <= |entries|
        invariant Intact(digest, entries[..i])
      {
        var entry := entries[i];
        if i == 0 {
          if entry.body.previousHash != GENESIS {
            return Broken(0, GENESIS, entry.body.previousHash);
          }
        } else {
          if entry.body.previousHash != entries[i - 1].hash {
            return Broken(i, entries[i - 1].hash, entry.body.previousHash);
          }
        }
        var computed := digest(entry.body);
        if computed != entry.hash {
          return Broken(i, computed, entry.hash);
        }
        AppendKeepsIntact(digest, entries[..i], entry);
        assert entries[..i + 1] == entries[..i] + [entry];
        i := i + 1;
      }
      assert entries[..i] == entries;
      v := Sound;
    }
  }
}
