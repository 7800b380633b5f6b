/** Store-and-forward mailboxes for recipients that are offline. */
module Relay {
  import opened Seqs
  import opened JsonStores

  datatype Message = Message(id: string, recipientDid: string, encryptedPayload: string, senderDid: string,
                             storedAt: int, expiresAt: int)

  const DEFAULT_TTL_DAYS := 7
  const MAX_RELAY_PER_DID := 100

  function MessageId(m: Message): string { m.id }

  function For(did: string): Message -> bool { (m: Message) => m.recipientDid == did }

  function NotFor(did: string): Message -> bool { (m: Message) => m.recipientDid != did }

  function Expired(now: int): Message -> bool { (m: Message) => m.expiresAt < now }

  function Unexpired(now: int): Message -> bool { (m: Message) => m.expiresAt >= now }

  datatype StoreReply = Stored(id: string, expiresAt: int) | InvalidFormat | MailboxFull

  datatype RetrieveReply = Messages(messages: seq<Message>) | AccessDenied

  // ---- the operations on values --------------------------------------------------------------------

  function NewMessage(recipient: string, payload: string, sender: string, id: string, now: int): Message {
    Message(id, recipient, payload, sender, now, now + DEFAULT_TTL_DAYS * 86_400_000)
  }

  function Store(held: seq<Message>, recipient: string, payload: string, sender: string, id: string, now: int)
    : (seq<Message>, StoreReply)
  {
    if recipient == "" || payload == "" || sender == "" then (held, InvalidFormat)
    else if |Filter(held, For(recipient))| >= MAX_RELAY_PER_DID then (held, MailboxFull)
    else
      var m := NewMessage(recipient, payload, sender, id, now);
      (Put(held, MessageId, m), Stored(id, m.expiresAt))
  }

  function Purge(held: seq<Message>, now: int): seq<Message> {
    Filter(held, Unexpired(now))
  }

  /** A missing sender is the empty string. */
  function Retrieve(held: seq<Message>, did: string, sender: string, now: int): (seq<Message>, RetrieveReply) {
    if sender == "" || sender != did then (held, AccessDenied)
    else
      var live := Purge(held, now);
      (Filter(live, NotFor(did)), Messages(Filter(live, For(did))))
  }

  // ---- runs -------------------------------------------------------------------------------------------

  /** The relay, and the history: everything ever stored, the ids delivered and purged. */
  datatype Mail = Mail(held: seq<Message>, stored: seq<Message>, delivered: set<string>, purged: set<string>)

  datatype Op =
    | StoreOp(recipient: string, payload: string, sender: string, id: string, now: int)
    | RetrieveOp(did: string, sender: string, now: int)
    | PurgeOp(now: int)

  function Ids(ms: seq<Message>): set<string> { set m | m in ms :: m.id }

  function Step(mail: Mail, op: Op): Mail {
    match op
    case StoreOp(recipient, payload, sender, id, now) =>
      var (held, reply) := Store(mail.held, recipient, payload, sender, id, now);
      if reply.Stored? then
        mail.(held := held, stored := mail.stored + [NewMessage(recipient, payload, sender, id, now)])
      else mail
    case RetrieveOp(did, sender, now) =>
      var (held, reply) := Retrieve(mail.held, did, sender, now);
      if reply.AccessDenied? then mail
      else
        mail.(held := held,
              purged := mail.purged + Ids(Filter(mail.held, Expired(now))),
              delivered := mail.delivered + Ids(reply.messages))
    case PurgeOp(now) =>
      mail.(held := Purge(mail.held, now), purged := mail.purged + Ids(Filter(mail.held, Expired(now))))
  }

  function Run(ops: seq<Op>): Mail {
    if ops == [] then Mail([], [], {}, {}) else Step(Run(ops[..|ops| - 1]), ops[|ops| - 1])
  }

  /** Message ids are new when drawn. */
  ghost predicate Legal(ops: seq<Op>) {
    ops == [] ||
    var front, op := ops[..|ops| - 1], ops[|ops| - 1];
    Legal(front) && (op.StoreOp? ==> op.id !in Ids(Run(front).stored))
  }

  function NotIn(gone: set<string>): Message -> bool { (m: Message) => m.id !in gone }

  /**
   * Held, in storing order, is what was stored and neither delivered nor purged; nothing is
   * both delivered and purged; no mailbox is over its limit.
   */
  ghost predicate Inv(mail: Mail) {
    && DistinctIds(mail.stored, MessageId)
    && mail.held == Filter(mail.stored, NotIn(mail.delivered + mail.purged))
    && mail.delivered !! mail.purged
    && mail.delivered + mail.purged <= Ids(mail.stored)
    && forall did :: |Filter(mail.held, For(did))| <= 100
  }

  lemma SameIdSameMessage(stored: seq<Message>, m: Message, n: Message)
    requires DistinctIds(stored, MessageId) && m in stored && n in stored && m.id == n.id
    ensures m == n
  {
    FindMember(stored, MessageId, m);
    FindMember(stored, MessageId, n);
  }

  /** Taking out the held messages that satisfy `q`: what stays, and that their ids are new. */
  lemma {:induction false} TakeOut(stored: seq<Message>, gone: set<string>, p: Message -> bool, q: Message -> bool)
    requires DistinctIds(stored, MessageId)
    requires forall m :: p(m) <==> !q(m)
    ensures var held := Filter(stored, NotIn(gone));
            var out := Ids(Filter(held, q));
            && Filter(held, p) == Filter(stored, NotIn(gone + out))
            && out !! gone && out <= Ids(stored)
  {
    var held := Filter(stored, NotIn(gone));
    var out := Ids(Filter(held, q));
    forall m | m in stored
      ensures NotIn(gone + out)(m) <==> NotIn(gone)(m) && p(m)
    {
      if m.id in out && m.id !in gone {
        var n :| n in Filter(held, q) && n.id == m.id;
        SameIdSameMessage(stored, m, n);
      }
      if NotIn(gone)(m) && q(m) {
        assert m in Filter(held, q);
      }
    }
    FilterFilter(stored, NotIn(gone), p, NotIn(gone + out));
  }

  lemma PurgeStep(mail: Mail, now: int)
    requires Inv(mail)
    ensures Inv(Step(mail, PurgeOp(now)))
  {
    var mail' := Step(mail, PurgeOp(now));
    var gone, out := mail.delivered + mail.purged, Ids(Filter(mail.held, Expired(now)));
    TakeOut(mail.stored, gone, Unexpired(now), Expired(now));
    assert mail'.delivered + mail'.purged == gone + out;
    forall did
      ensures |Filter(mail'.held, For(did))| <= MAX_RELAY_PER_DID
    {
      FilterShrinks(mail.held, Unexpired(now), For(did));
    }
  }

  /** Retrieval is a purge, and then the recipient's messages are delivered. */
  lemma RetrieveStep(mail: Mail, did: string, sender: string, now: int)
    requires Inv(mail)
    ensures Inv(Step(mail, RetrieveOp(did, sender, now)))
  {
    if sender != "" && sender == did {
      var mail' := Step(mail, RetrieveOp(did, sender, now));
      var live := Step(mail, PurgeOp(now));
      PurgeStep(mail, now);
      var gone, out := live.delivered + live.purged, Ids(Filter(live.held, For(did)));
      TakeOut(live.stored, gone, NotFor(did), For(did));
      assert mail'.delivered + mail'.purged == gone + out;
      forall d
        ensures |Filter(mail'.held, For(d))| <= MAX_RELAY_PER_DID
      {
        FilterShrinks(live.held, NotFor(did), For(d));
      }
    }
  }

  lemma StoreStep(mail: Mail, recipient: string, payload: string, sender: string, id: string, now: int)
    requires Inv(mail) && id !in Ids(mail.stored)
    ensures Inv(Step(mail, StoreOp(recipient, payload, sender, id, now)))
  {
    if Store(mail.held, recipient, payload, sender, id, now).1.Stored? {
      hide Filter, Put, Ids, IndexOfId;
      var m := NewMessage(recipient, payload, sender, id, now);
      var mail' := Step(mail, StoreOp(recipient, payload, sender, id, now));
      var gone := mail.delivered + mail.purged;
      StoredNext(mail.stored, m);
      assert forall x :: x in mail.held ==> x in mail.stored;
      NotHeld(mail.held, m);
      FilterConcat(mail.stored, [m], NotIn(gone));
      FilterAll([m], NotIn(gone));
      assert mail'.held == mail.held + [m];
      forall did
        ensures |Filter(mail'.held, For(did))| <= MAX_RELAY_PER_DID
      {
        FilterConcat(mail.held, [m], For(did));
        if did == recipient {
          FilterAll([m], For(did));
        } else {
          FilterNone([m], For(did));
        }
      }
    }
  }

  lemma StoredNext(stored: seq<Message>, m: Message)
    requires DistinctIds(stored, MessageId) && m.id !in Ids(stored)
    ensures DistinctIds(stored + [m], MessageId)
    ensures Ids(stored) <= Ids(stored + [m])
    ensures forall x :: x in stored ==> x.id != m.id
  {
    forall k | 0 <= k < |stored|
      ensures stored[k].id in Ids(stored) && stored[k] in stored + [m]
    {
      assert (stored + [m])[k] == stored[k];
    }
  }

  lemma NotHeld(held: seq<Message>, m: Message)
    requires forall x :: x in held ==> x.id != m.id
    ensures Put(held, MessageId, m) == held + [m]
  {
  }

  /** The invariant holds over every run. */
  lemma {:induction false} RunKeepsInv(ops: seq<Op>)
    requires Legal(ops)
    ensures Inv(Run(ops))
  {
    if ops != [] {
      hide Inv, Step;
      var mail := Run(ops[..|ops| - 1]);
      RunKeepsInv(ops[..|ops| - 1]);
      match ops[|ops| - 1] {
        case StoreOp(recipient, payload, sender, id, now) => StoreStep(mail, recipient, payload, sender, id, now);
        case RetrieveOp(did, sender, now) => RetrieveStep(mail, did, sender, now);
        case PurgeOp(now) => PurgeStep(mail, now);
      }
    }
  }

  /**
   * Over every run: the ids ever stored are the disjoint union of those held, delivered and
   * purged.
   */
  lemma {:induction false} IdsArePartitioned(ops: seq<Op>)
    requires Legal(ops)
    ensures var mail := Run(ops);
            && Ids(mail.stored) == Ids(mail.held) + mail.delivered + mail.purged
            && Ids(mail.held) !! mail.delivered && Ids(mail.held) !! mail.purged
            && mail.delivered !! mail.purged
  {
    RunKeepsInv(ops);
    var mail := Run(ops);
    forall id | id in Ids(mail.stored)
      ensures id in Ids(mail.held) || id in mail.delivered || id in mail.purged
    {
      var m :| m in mail.stored && m.id == id;
      if id !in mail.delivered && id !in mail.purged {
        assert m in mail.held;
      }
    }
  }

  /**
   * A retrieval hands over, in storing order, what was stored for the recipient, was not yet
   * delivered or purged, and has not expired; so nothing is delivered twice.
   */
  lemma RetrievalDelivers(ops: seq<Op>, did: string, now: int, due: Message -> bool)
    requires Legal(ops) && did != ""
    requires forall m :: due(m) <==> m.recipientDid == did && m.expiresAt >= now
                                     && m.id !in Run(ops).delivered && m.id !in Run(ops).purged
    ensures Retrieve(Run(ops).held, did, did, now).1 == Messages(Filter(Run(ops).stored, due))
    ensures forall m :: m in Retrieve(Run(ops).held, did, did, now).0
                        <==> m in Run(ops).held && m.recipientDid != did && m.expiresAt >= now
  {
    RunKeepsInv(ops);
    var mail := Run(ops);
    var gone := mail.delivered + mail.purged;
    var live := (m: Message) => m.id !in gone && m.expiresAt >= now;
    FilterFilter(mail.stored, NotIn(gone), Unexpired(now), live);
    FilterFilter(mail.stored, live, For(did), due);
  }

  // ---- what is stored, and until when --------------------------------------------------------------------

  /** Milliseconds in seven days. */
  const SEVEN_DAYS := 604_800_000

  /** The message of a storing operation. */
  ghost predicate StoredBy(op: Op, m: Message) {
    op.StoreOp? && m == Message(op.id, op.recipient, op.payload, op.sender, op.now, op.now + SEVEN_DAYS)
  }

  /** Over every run, what was stored is what storing operations asked for, and expires after seven days. */
  lemma {:induction false} RunStoresAsAsked(ops: seq<Op>)
    ensures forall m :: m in Run(ops).stored ==> exists i :: 0 <= i < |ops| && StoredBy(ops[i], m)
    decreases |ops|
  {
    if ops != [] {
      hide Store, Retrieve, Purge;
      var n := |ops| - 1;
      var front, op := ops[..n], ops[n];
      RunStoresAsAsked(front);
      forall m | m in Run(ops).stored
        ensures exists i :: 0 <= i < |ops| && StoredBy(ops[i], m)
      {
        if m in Run(front).stored {
          var i :| 0 <= i < |front| && StoredBy(front[i], m);
          assert ops[i] == front[i];
        } else {
          assert StoredBy(ops[n], m);
        }
      }
    }
  }

  /** Over every run, a complete message is refused exactly when a hundred are held for its recipient. */
  lemma RefusedIffFull(ops: seq<Op>, recipient: string, payload: string, sender: string, id: string, now: int)
    requires Legal(ops)
    ensures var reply := Store(Run(ops).held, recipient, payload, sender, id, now).1;
            && (reply == InvalidFormat <==> recipient == "" || payload == "" || sender == "")
            && (reply == MailboxFull
                <==> reply != InvalidFormat && |Filter(Run(ops).held, For(recipient))| == 100)
            && (reply.Stored? ==> reply == Stored(id, now + SEVEN_DAYS))
  {
    RunKeepsInv(ops);
  }

  /** The operation leaves a message for `did` that is good until `end` where it is. */
  predicate Spares(op: Op, did: string, end: int) {
    match op
    case StoreOp(_, _, _, _, _) => true
    case RetrieveOp(d, sender, now) => sender != d || (d != did && now <= end)
    case PurgeOp(now) => now <= end
  }

  lemma StepSpares(mail: Mail, op: Op, m: Message)
    requires m in mail.held && Spares(op, m.recipientDid, m.expiresAt)
    requires op.StoreOp? ==> forall x :: x in mail.held ==> x.id != op.id
    ensures m in Step(mail, op).held
  {
    if op.StoreOp? {
      hide Filter;
      NotHeld(mail.held, NewMessage(op.recipient, op.payload, op.sender, op.id, op.now));
    }
  }

  /** Held, while the operations spare it. */
  lemma {:induction false} StaysHeld(ops: seq<Op>, k: nat, m: Message)
    requires Legal(ops) && k <= |ops| && m in Run(ops[..k]).held
    requires forall j :: k <= j < |ops| ==> Spares(ops[j], m.recipientDid, m.expiresAt)
    ensures m in Run(ops).held
    decreases |ops|
  {
    if k == |ops| {
      assert ops[..k] == ops;
    } else {
      hide Step, Spares;
      var front, op := ops[..|ops| - 1], ops[|ops| - 1];
      assert front[..k] == ops[..k];
      assert forall j :: k <= j < |front| ==> front[j] == ops[j];
      StaysHeld(front, k, m);
      RunKeepsInv(front);
      NewIds(Run(front));
      assert Run(ops) == Step(Run(front), op);
      StepSpares(Run(front), op, m);
    }
  }

  lemma NewIds(mail: Mail)
    requires Inv(mail)
    ensures forall x :: x in mail.held ==> x.id in Ids(mail.stored)
  {
  }

  /**
   * A message that the relay took at step `k` is handed over, as it was given, by the recipient's
   * next retrieval within seven days, if no operation in between comes later than these are over.
   */
  lemma StoredIsDelivered(ops: seq<Op>, k: nat, now: int)
    requires Legal(ops) && k < |ops| && ops[k].StoreOp? && now <= ops[k].now + SEVEN_DAYS
    requires var s := ops[k]; Store(Run(ops[..k]).held, s.recipient, s.payload, s.sender, s.id, s.now).1.Stored?
    requires forall j :: k < j < |ops| ==> Spares(ops[j], ops[k].recipient, ops[k].now + SEVEN_DAYS)
    ensures var s := ops[k];
            var m := Message(s.id, s.recipient, s.payload, s.sender, s.now, s.now + SEVEN_DAYS);
            var reply := Retrieve(Run(ops).held, s.recipient, s.recipient, now).1;
            reply.Messages? && m in reply.messages
  {
    var s := ops[k];
    var m := NewMessage(s.recipient, s.payload, s.sender, s.id, s.now);
    hide Filter, Inv, Step, Legal, Run, Retrieve, IndexOfId, Put;
    StoredIsHeld(ops, k);
    StaysHeld(ops, k + 1, m);
    HandedOver(Run(ops).held, m, now);
  }

  lemma StoredIsHeld(ops: seq<Op>, k: nat)
    requires Legal(ops) && k < |ops| && ops[k].StoreOp?
    requires var s := ops[k]; Store(Run(ops[..k]).held, s.recipient, s.payload, s.sender, s.id, s.now).1.Stored?
    ensures var s := ops[k]; NewMessage(s.recipient, s.payload, s.sender, s.id, s.now) in Run(ops[..k + 1]).held
  {
    hide Step, Inv, Store, Filter, Put, IndexOfId;
    var s := ops[k];
    var before, upTo := ops[..k], ops[..k + 1];
    assert upTo[..|upTo| - 1] == before && upTo[|upTo| - 1] == s;
    LegalPrefix(ops, k + 1);
    RunKeepsInv(before);
    StoreHolds(Run(before), s.recipient, s.payload, s.sender, s.id, s.now);
  }

  lemma StoreHolds(mail: Mail, recipient: string, payload: string, sender: string, id: string, now: int)
    requires Inv(mail) && id !in Ids(mail.stored)
    requires Store(mail.held, recipient, payload, sender, id, now).1.Stored?
    ensures NewMessage(recipient, payload, sender, id, now)
            in Step(mail, StoreOp(recipient, payload, sender, id, now)).held
  {
    hide Filter, Put, IndexOfId;
    NewIds(mail);
    NotHeld(mail.held, NewMessage(recipient, payload, sender, id, now));
  }

  lemma HandedOver(held: seq<Message>, m: Message, now: int)
    requires m in held && m.recipientDid != "" && now <= m.expiresAt
    ensures var reply := Retrieve(held, m.recipientDid, m.recipientDid, now).1; reply.Messages? && m in reply.messages
  {
  }

  lemma {:induction false} LegalPrefix(ops: seq<Op>, k: nat)
    requires Legal(ops) && k <= |ops|
    ensures Legal(ops[..k])
    decreases |ops|
  {
    if k == |ops| {
      assert ops[..k] == ops;
    } else {
      var front := ops[..|ops| - 1];
      assert front[..k] == ops[..k];
      LegalPrefix(front, k);
    }
  }

  // ---- the handlers ------------------------------------------------------------------------------------

  class RelayNode {
    const relay: JsonStore<Message>

    ghost predicate Valid()
      reads this, relay, relay.items
    {
      relay.idOf == MessageId && relay.Valid()
    }

    constructor ()
      ensures Valid() && relay.contents == [] && fresh(relay)
    {
      relay := new JsonStore(MessageId);
    }

    method ProcessRelayStore(recipient: string, payload: string, sender: string, id: string, now: int)
      returns (reply: StoreReply)
      requires Valid()
      modifies relay
      ensures Valid()
      ensures (relay.contents, reply) == Store(old(relay.contents), recipient, payload, sender, id, now)
    {
      hide Put, Filter, IndexOfId, DistinctIds;
      if recipient == "" || payload == "" || sender == "" {
        return InvalidFormat;
      }
      var existing := relay.Filter(For(recipient));
      if |existing| >= MAX_RELAY_PER_DID {
        return MailboxFull;
      }
      var relayMessage := new Ref(NewMessage(recipient, payload, sender, id, now));
      relay.Add(relayMessage);
      reply := Stored(relayMessage.it.id, relayMessage.it.expiresAt);
    }

    /** Removes found messages from the store, one by one. */
    method RemoveAll(found: seq<Ref<Message>>, ghost q: Message -> bool, ghost p: Message -> bool)
      requires Valid() && Shows(found, Filter(relay.contents, q))
      requires forall m :: p(m) <==> !q(m)
      modifies relay
      ensures Valid()
      ensures relay.contents == Filter(old(relay.contents), p)
    {
      hide Filter, Without, DistinctIds, IndexOfId;
      ghost var was, out := relay.contents, Filter(relay.contents, q);
      ghost var gone: set<string> := {};
      FilterAll(was, NotIn({}));
      var i := 0;
      while i < |found|
        invariant 0 <= i <= |found|
        invariant Valid()
        invariant gone == Ids(out[..i])
        invariant relay.contents == Filter(was, NotIn(gone))
      {
        var id := found[i].it.id;
        RemoveNext(was, gone, id);
        IdsNext(out, i);
        var _ := relay.Remove(id);
        gone := gone + {id};
        i := i + 1;
      }
      assert out[..i] == out;
      RemovedAll(was, q, p);
    }

    /** `NodeStores.purgeExpiredRelay`. */
    method PurgeExpiredRelay(now: int) returns (purged: nat)
      requires Valid()
      modifies relay
      ensures Valid()
      ensures relay.contents == Purge(old(relay.contents), now)
      ensures purged == |Filter(old(relay.contents), Expired(now))|
    {
      var expired := relay.Filter(Expired(now));
      RemoveAll(expired, Expired(now), Unexpired(now));
      purged := |expired|;
    }

    /** Hands over the recipient's messages and removes them. */
    method ProcessRelayRetrieve(did: string, sender: string, now: int) returns (reply: RetrieveReply)
      requires Valid()
      modifies relay
      ensures Valid()
      ensures (relay.contents, reply) == Retrieve(old(relay.contents), did, sender, now)
    {
      hide Filter, DistinctIds;
      if sender == "" || sender != did {
        return AccessDenied;
      }
      var _ := PurgeExpiredRelay(now);
      var found := relay.Filter(For(did));
      var messages := seq(|found|, i requires 0 <= i < |found| reads found => found[i].it);
      assert messages == Filter(relay.contents, For(did));
      RemoveAll(found, For(did), NotFor(did));
      reply := Messages(messages);
    }
  }

  lemma {:induction false} RemoveNext(was: seq<Message>, gone: set<string>, id: string)
    requires DistinctIds(Filter(was, NotIn(gone)), MessageId)
    ensures Without(Filter(was, NotIn(gone)), MessageId, id) == Filter(was, NotIn(gone + {id}))
  {
    hide Filter, Without, DistinctIds;
    WithoutIsFilter(Filter(was, NotIn(gone)), MessageId, id);
    FilterFilter(was, NotIn(gone), OtherThan(MessageId, id), NotIn(gone + {id}));
  }

  lemma IdsNext(ms: seq<Message>, i: nat)
    requires i < |ms|
    ensures Ids(ms[..i + 1]) == Ids(ms[..i]) + {ms[i].id}
  {
    assert ms[..i + 1] == ms[..i] + [ms[i]];
  }

  lemma {:induction false} RemovedAll(was: seq<Message>, q: Message -> bool, p: Message -> bool)
    requires DistinctIds(was, MessageId) && forall m :: p(m) <==> !q(m)
    ensures Filter(was, NotIn(Ids(Filter(was, q)))) == Filter(was, p)
  {
    FilterAll(was, NotIn({}));
    TakeOut(was, {}, p, q);
    assert {} + Ids(Filter(was, q)) == Ids(Filter(was, q));
  }
}
