/** What becomes of a message: kept when it cannot be delivered, forgotten once
    it was, and accounted for all along. */
module OutboxDelivery {
  import opened Prelude
  import opened Outbox
  import opened OutboxRestart

  // ----- A message that cannot be delivered -----

  ghost predicate HasEntry(s: seq<Entry>, id: MsgId) { exists i :: 0 <= i < |s| && s[i].id == id }

  /** The queue with the message behind everything else, unless its id is there. */
  ghost predicate Appended(before: seq<Entry>, after: seq<Entry>, id: MsgId, msg: Message) {
    after == if HasEntry(before, id) then before else before + [Entry(id, msg, false)]
  }

  ghost predicate FlaggedEntry(s: seq<Entry>, id: MsgId) {
    exists i :: 0 <= i < |s| && s[i].id == id && s[i].persisted
  }

  /** A new message whose peer is not reachable, or whose send throws, is behind
      all others in its peer's queue afterwards, other queues are as they were,
      and nothing counts as handed over. A chat with an id whose entry is not yet
      flagged has asked last of all for its record to be written. */
  lemma {:induction false} UndeliverableIsKept(s: State, t: nat, throws: bool)
    requires Enabled(s, Resume(t, throws)) && Inv(s)
    requires var k := s.tasks[t]; !k.fromQueue && (k.peer !in s.open || throws)
    ensures var k := s.tasks[t]; var s' := Apply(s, Resume(t, throws));
      && Appended(QueueOf(s.queue, k.peer), QueueOf(s'.queue, k.peer), k.id, k.msg)
      && (forall p :: p != k.peer ==> QueueOf(s'.queue, p) == QueueOf(s.queue, p))
      && s'.handed == s.handed && s'.store == s.store
      && s'.ops == s.ops +
           if k.msg.chat && k.msg.tracked && !FlaggedEntry(QueueOf(s.queue, k.peer), k.id)
           then [Put(t, Record(k.id, k.peer, k.msg))] else []
  {
    var k := s.tasks[t];
    if k.peer in s.queue { assert QueueOfOk(s.queue[k.peer], k.peer, s.sent, s.written); }
    KeepAppends(s, t);
  }

  lemma {:induction false} KeepAppends(s: State, t: nat)
    requires t in s.tasks && UniqueIds(QueueOf(s.queue, s.tasks[t].peer))
    ensures var k, s' := s.tasks[t], Keep(s, t);
      && Appended(QueueOf(s.queue, k.peer), QueueOf(s'.queue, k.peer), k.id, k.msg)
      && (forall p :: p != k.peer ==> QueueOf(s'.queue, p) == QueueOf(s.queue, p))
      && s'.handed == s.handed && s'.store == s.store
      && s'.ops == s.ops +
           if Worthy(k.msg) && !FlaggedEntry(QueueOf(s.queue, k.peer), k.id)
           then [Put(t, Record(k.id, k.peer, k.msg))] else []
  {
    var k := s.tasks[t];
    EnqueueAppends(s.queue, k.peer, k.id, k.msg);
    FinishQuiet(s.(queue := Enqueue(s.queue, k.peer, k.id, k.msg, false)), t);
  }

  /** The end of a call changes nothing but the calls. */
  lemma {:induction false} FinishQuiet(s: State, t: nat)
    requires t in s.tasks
    ensures Finish(s, t) == s.(tasks := Finish(s, t).tasks)
  {
  }

  lemma {:induction false} EnqueueAppends(q: Queues, p: PeerId, id: MsgId, msg: Message)
    requires UniqueIds(QueueOf(q, p))
    ensures var s, q' := QueueOf(q, p), Enqueue(q, p, id, msg, false);
      && Appended(s, QueueOf(q', p), id, msg)
      && (forall r :: r != p ==> QueueOf(q', r) == QueueOf(q, r))
      && Position(QueueOf(q', p), id) != -1
      && (QueueOf(q', p)[Position(QueueOf(q', p), id)].persisted <==> FlaggedEntry(s, id))
  {
    var s, q' := QueueOf(q, p), Enqueue(q, p, id, msg, false);
    OnlyEntry(s, id);
    var s' := QueueOf(q', p);
    if Position(s, id) == -1 { assert s'[|s|] == Entry(id, msg, false); }
  }

  lemma {:induction false} OnlyEntry(s: seq<Entry>, id: MsgId)
    requires UniqueIds(s)
    ensures HasEntry(s, id) <==> Position(s, id) != -1
    ensures FlaggedEntry(s, id) <==> Position(s, id) != -1 && s[Position(s, id)].persisted
  {
  }

  /** While a peer's channel is closed, what is sent to it waits behind everything
      queued before, whatever kind of message it is. */
  lemma {:induction false} OfflineMessageWaits(s: State, p: PeerId, id: MsgId, msg: Message)
    requires Inv(s) && (Worthy(msg) ==> id !in s.sent)
    ensures var evs := [Closed(p), Send(p, id, msg), Resume(s.nextTask, false)];
      && IsRun(s, evs)
      && Appended(QueueOf(s.queue, p), QueueOf(Exec(s, evs).queue, p), id, msg)
      && Exec(s, evs).handed == s.handed
  {
    var closed := Apply(s, Closed(p));
    InvStep(s, Closed(p));
    InvStep(closed, Send(p, id, msg));
    var sent := Apply(closed, Send(p, id, msg));
    UndeliverableIsKept(sent, s.nextTask, false);
    ThreeSteps(s, Closed(p), Send(p, id, msg), Resume(s.nextTask, false));
  }

  lemma {:induction false} ThreeSteps(s: State, a: Event, b: Event, c: Event)
    requires Enabled(s, a) && Enabled(Apply(s, a), b) && Enabled(Apply(Apply(s, a), b), c)
    ensures IsRun(s, [a, b, c]) && Exec(s, [a, b, c]) == Apply(Apply(Apply(s, a), b), c)
  {
    var s1 := Apply(s, a);
    FirstStep(Apply(s1, b), c, []);
    FirstStep(s1, b, [c]);
    FirstStep(s, a, [b, c]);
    assert [c] + [] == [c] && [b] + [c] == [b, c] && [a] + [b, c] == [a, b, c];
  }

  /** A message from the queue whose peer is still unreachable stays queued,
      nothing else happens to the queues, the store or its requests, and the
      drain goes on with the next one. */
  lemma {:induction false} UndeliveredStaysQueued(s: State, t: nat, throws: bool)
    requires Enabled(s, Resume(t, throws))
    requires s.tasks[t].fromQueue && (s.tasks[t].peer !in s.open || throws)
    ensures var s' := Apply(s, Resume(t, throws));
      && s'.queue == s.queue && s'.store == s.store && s'.ops == s.ops && s'.handed == s.handed
      && Advanced(s.tasks[t], s', t)
  {
    FinishAdvances(s, t);
  }

  /** A failing cipher changes neither queues nor store, and a drain goes on. */
  lemma {:induction false} FailedCipherSkips(s: State, t: nat)
    requires Enabled(s, CipherFails(t))
    ensures var s' := Apply(s, CipherFails(t));
      && s'.queue == s.queue && s'.store == s.store && s'.ops == s.ops && s'.handed == s.handed
      && Advanced(s.tasks[t], s', t)
  {
    FinishAdvances(s, t);
  }

  /** A refused request is forgotten: queues and store are as before. */
  lemma {:induction false} RefusedRequest(s: State)
    requires Enabled(s, Refuse)
    ensures var s' := Apply(s, Refuse);
      s'.queue == s.queue && s'.store == s.store && s'.handed == s.handed && [s.ops[0]] + s'.ops == s.ops
  {
  }

  /** A teardown or a crash empties every queue and closes every channel, and the
      store keeps what it has. */
  lemma {:induction false} OnlyTheStoreSurvives(s: State, ev: Event)
    requires ev.Destroy? || ev.Crash?
    ensures var s' := Apply(s, ev);
      s'.store == s.store && s'.handed == s.handed && forall p :: QueueOf(s'.queue, p) == [] && p !in s'.open
  {
  }

  // ----- A message that was delivered -----

  /** The queue without the entries of an id, the others in their order. */
  function Without(s: seq<Entry>, id: MsgId): seq<Entry> {
    if s == [] then [] else (if s[0].id == id then [] else [s[0]]) + Without(s[1..], id)
  }

  lemma {:induction false} NothingWithout(s: seq<Entry>, id: MsgId)
    requires !HasEntry(s, id)
    ensures Without(s, id) == s
  {
    if s != [] {
      assert s[0].id != id;
      assert !HasEntry(s[1..], id) by { assert forall i :: 0 <= i < |s| - 1 ==> s[1..][i] == s[i + 1]; }
      NothingWithout(s[1..], id);
    }
  }

  lemma {:induction false} RemoveIsWithout(s: seq<Entry>, id: MsgId, i: nat)
    requires UniqueIds(s) && i < |s| && s[i].id == id
    ensures RemoveAt(s, i) == Without(s, id)
  {
    var rest := s[1..];
    assert forall j :: 0 <= j < |rest| ==> rest[j] == s[j + 1];
    if i == 0 {
      assert !HasEntry(rest, id);
      NothingWithout(rest, id);
      assert RemoveAt(s, 0) == rest;
    } else {
      RemoveIsWithout(rest, id, i - 1);
      assert RemoveAt(s, i) == [s[0]] + RemoveAt(rest, i - 1);
    }
  }

  lemma {:induction false} DequeueIsWithout(q: Queues, p: PeerId, id: MsgId)
    requires UniqueIds(QueueOf(q, p))
    ensures QueueOf(Dequeue(q, p, id), p) == Without(QueueOf(q, p), id)
    ensures forall r :: r != p ==> QueueOf(Dequeue(q, p, id), r) == QueueOf(q, r)
  {
    var s := QueueOf(q, p);
    var i := Position(s, id);
    if i == -1 { NothingWithout(s, id); } else { RemoveIsWithout(s, id, i); }
  }

  /** A send on an open channel: a chat with an id counts as handed over and asks
      last of all for its record to be deleted, its queue entry still there; any
      other message leaves its peer's queue, the rest of which stays in order. */
  lemma {:induction false} DeliveredIsHandedOver(s: State, t: nat)
    requires Enabled(s, Resume(t, false)) && Inv(s) && s.tasks[t].peer in s.open
    ensures var k := s.tasks[t]; var s' := Apply(s, Resume(t, false));
      if k.msg.chat && k.msg.tracked then
        s'.handed == s.handed + {k.id} && s'.ops == s.ops + [Remove(t, k.id)] && s'.queue == s.queue
      else
        && s'.handed == s.handed && s'.ops == s.ops
        && QueueOf(s'.queue, k.peer) == Without(QueueOf(s.queue, k.peer), k.id)
        && forall p :: p != k.peer ==> QueueOf(s'.queue, p) == QueueOf(s.queue, p)
  {
    var k := s.tasks[t];
    if k.peer in s.queue { assert QueueOfOk(s.queue[k.peer], k.peer, s.sent, s.written); }
    if !(k.msg.chat && k.msg.tracked) { DequeueIsWithout(s.queue, k.peer, k.id); }
  }

  /** What is sent over an open channel is handed over at once; only a chat still
      waits for its record to be deleted. */
  lemma {:induction false} OnlineMessageGoesOut(s: State, p: PeerId, id: MsgId, msg: Message)
    requires Inv(s) && (Worthy(msg) ==> id !in s.sent)
    ensures var evs := [Opened(p), Send(p, id, msg), Resume(s.nextTask, false)];
      && IsRun(s, evs)
      && var end := Exec(s, evs);
         && (Worthy(msg) ==> id in end.handed && end.ops == s.ops + [Remove(s.nextTask, id)])
         && (!Worthy(msg) ==> QueueOf(end.queue, p) == Without(QueueOf(s.queue, p), id))
  {
    var ready := Apply(s, Opened(p));
    InvStep(s, Opened(p));
    InvStep(ready, Send(p, id, msg));
    DeliveredIsHandedOver(Apply(ready, Send(p, id, msg)), s.nextTask);
    ThreeSteps(s, Opened(p), Send(p, id, msg), Resume(s.nextTask, false));
  }

  /** A settled request does to the store what it says, and nothing else. */
  lemma {:induction false} SettledRequest(s: State, order: seq<MsgId>)
    requires Enabled(s, Settle(order))
    ensures var s' := Apply(s, Settle(order));
      && s'.queue == s.queue && s'.ops == s.ops[1..]
      && match s.ops[0]
         case Put(_, rec) => s'.store == s.store[rec.id := rec]
         case Remove(_, id) => s'.store == s.store - {id}
         case ReadAll => s'.store == s.store && s'.restored.Some? && |s'.restored.value| == |order|
                         && forall i :: 0 <= i < |order| ==> s'.restored.value[i] == s.store[order[i]]
  {
  }

  /** Once the record is written the entry, if still queued, is flagged. */
  lemma {:induction false} WrittenIsFlagged(s: State, t: nat)
    requires Enabled(s, Continue(t)) && s.tasks[t].stage.Saved?
    ensures var k := s.tasks[t]; var q, q' := QueueOf(s.queue, k.peer), QueueOf(Apply(s, Continue(t)).queue, k.peer);
      && |q'| == |q|
      && (forall i :: 0 <= i < |q| ==> q'[i].id == q[i].id && q'[i].msg == q[i].msg)
      && (HasEntry(q, k.id) ==> FlaggedEntry(q', k.id))
  {
    var k := s.tasks[t];
    var q := QueueOf(s.queue, k.peer);
    var i := Position(q, k.id);
    if i >= 0 { assert QueueOf(MarkPersisted(s.queue, k.peer, k.id), k.peer)[i].persisted; }
  }

  /** After the status update the chat leaves its queue, the others in order. */
  lemma {:induction false} UpdatedLeavesQueue(s: State, t: nat)
    requires Enabled(s, Continue(t)) && Inv(s) && s.tasks[t].stage.Updating?
    ensures var k := s.tasks[t];
      QueueOf(Apply(s, Continue(t)).queue, k.peer) == Without(QueueOf(s.queue, k.peer), k.id)
  {
    var k := s.tasks[t];
    if k.peer in s.queue { assert QueueOfOk(s.queue[k.peer], k.peer, s.sent, s.written); }
    DequeueIsWithout(s.queue, k.peer, k.id);
  }

  lemma {:induction false} WithoutHasNone(s: seq<Entry>, id: MsgId)
    ensures !HasEntry(Without(s, id), id)
  {
    if s != [] {
      WithoutHasNone(s[1..], id);
      var head := if s[0].id == id then [] else [s[0]];
      forall i | 0 <= i < |Without(s, id)| ensures Without(s, id)[i].id != id {
        if i >= |head| { assert Without(s, id)[i] == Without(s[1..], id)[i - |head|]; }
      }
    }
  }

  /** A chat handed over with nothing else in the way is soon forgotten: neither
      a queue entry nor a record of it remains. */
  lemma {:induction false} DeliveredIsForgotten(s: State, t: nat)
    requires Enabled(s, Resume(t, false)) && Inv(s) && s.tasks[t].peer in s.open && s.ops == []
    requires s.tasks[t].msg.chat && s.tasks[t].msg.tracked
    ensures var evs := [Resume(t, false), Settle([]), Continue(t), Continue(t)];
      && IsRun(s, evs)
      && s.tasks[t].id !in Exec(s, evs).store
      && !HasEntry(QueueOf(Exec(s, evs).queue, s.tasks[t].peer), s.tasks[t].id)
  {
    var k := s.tasks[t];
    DeliveredIsHandedOver(s, t);
    ResumeKeeps(s, t, false);
    var s1 := Apply(s, Resume(t, false));
    assert s1.ops == [Remove(t, k.id)] && s1.tasks[t] == k.(stage := Deleting);
    SettledRequest(s1, []);
    SettleKeeps(s1, []);
    var s2 := Apply(s1, Settle([]));
    assert s2.tasks[t] == k.(stage := Deleted);
    ContinueKeeps(s2, t);
    var s3 := Apply(s2, Continue(t));
    UpdatedLeavesQueue(s3, t);
    WithoutHasNone(QueueOf(s3.queue, k.peer), k.id);
    WrittenOnlyBySettle(s2, Continue(t));
    WrittenOnlyBySettle(s3, Continue(t));
    FourSteps(s, Resume(t, false), Settle([]), Continue(t), Continue(t));
  }

  // ----- A drain -----

  /** What a call still has to send, in order. */
  function Ahead(k: Task): seq<(MsgId, Message)> {
    [(k.id, k.msg)] + seq(|k.rest|, i requires 0 <= i < |k.rest| => (k.rest[i].id, k.rest[i].msg))
  }

  /** A key exchange sets out to send everything queued for the peer, in order. */
  lemma {:induction false} DrainTakesAll(s: State, p: PeerId)
    requires Enabled(s, KeyExchange(p))
    ensures var s' := Apply(s, KeyExchange(p)); var q := QueueOf(s.queue, p);
      && s'.queue == s.queue && s.nextTask in s'.tasks
      && var k := s'.tasks[s.nextTask];
         && k.peer == p && k.fromQueue && k.stage.Encrypting? && |Ahead(k)| == |q|
         && forall i :: 0 <= i < |q| ==> Ahead(k)[i] == (q[i].id, q[i].msg)
  {
  }

  /** One message less to send: the call is over or begins with the next. */
  ghost predicate Advanced(k: Task, s': State, t: nat) {
    if |Ahead(k)| == 1 then t !in s'.tasks
    else
      && t in s'.tasks && Ahead(s'.tasks[t]) == Ahead(k)[1..]
      && s'.tasks[t].peer == k.peer && s'.tasks[t].fromQueue && s'.tasks[t].stage.Encrypting?
  }

  lemma {:induction false} FinishAdvances(s: State, t: nat)
    requires t in s.tasks
    ensures Advanced(s.tasks[t], Finish(s, t), t)
  {
    var k := s.tasks[t];
    if k.rest != [] { assert Ahead(Finish(s, t).tasks[t]) == Ahead(k)[1..]; }
  }

  /** How many answers a call still waits for with its present message, at most. */
  function AnswersLeft(stage: Stage): nat {
    match stage
    case Encrypting => 4
    case Deleting => 3
    case Saving => 3
    case Deleted => 2
    case Saved => 2
    case SaveFailed => 2
    case Updating => 1
  }

  /** The call goes on to its next message, or gets nearer to the end of this one. */
  ghost predicate Nearer(k: Task, s': State, t: nat) {
    || Advanced(k, s', t)
    || (t in s'.tasks && s'.tasks[t] == k.(stage := s'.tasks[t].stage)
        && AnswersLeft(s'.tasks[t].stage) < AnswersLeft(k.stage))
  }

  lemma {:induction false} HandOverNearer(s: State, t: nat)
    requires t in s.tasks && s.tasks[t].stage.Encrypting?
    ensures Nearer(s.tasks[t], HandOver(s, t), t)
  {
    var k := s.tasks[t];
    FinishAdvances(s.(queue := Dequeue(s.queue, k.peer, k.id)), t);
  }

  lemma {:induction false} KeepNearer(s: State, t: nat)
    requires t in s.tasks && s.tasks[t].stage.Encrypting?
    ensures Nearer(s.tasks[t], Keep(s, t), t)
  {
    var k := s.tasks[t];
    FinishAdvances(s.(queue := Enqueue(s.queue, k.peer, k.id, k.msg, false)), t);
  }

  lemma {:induction false} ResumeNearer(s: State, t: nat, throws: bool)
    requires Enabled(s, Resume(t, throws))
    ensures Nearer(s.tasks[t], Apply(s, Resume(t, throws)), t)
  {
    if s.tasks[t].peer in s.open && !throws { HandOverNearer(s, t); }
    else if s.tasks[t].fromQueue { FinishAdvances(s, t); }
    else { KeepNearer(s, t); }
  }

  lemma {:induction false} ContinueNearer(s: State, t: nat)
    requires Enabled(s, Continue(t))
    ensures Nearer(s.tasks[t], Apply(s, Continue(t)), t)
  {
    var k := s.tasks[t];
    FinishAdvances(s, t);
    FinishAdvances(s.(queue := Dequeue(s.queue, k.peer, k.id)), t);
    FinishAdvances(s.(queue := MarkPersisted(s.queue, k.peer, k.id)), t);
  }

  lemma {:induction false} AnswerNearer(s: State, ev: Event, t: nat)
    requires Inv(s) && Enabled(s, ev) && (ev.Settle? || ev.Refuse?)
    requires !s.ops[0].ReadAll? && s.ops[0].task == t && t in s.tasks
    ensures Nearer(s.tasks[t], Apply(s, ev), t)
  {
    assert s.ops[0] in s.ops && OpOk(s, s.ops[0]);
  }

  /** Whatever answers a call brings it nearer to its end, and a failure with one
      message never keeps a drain from the ones behind it. */
  lemma {:induction false} EveryAnswerAdvances(s: State, ev: Event, t: nat)
    requires Inv(s) && Enabled(s, ev) && t in s.tasks
    requires
      || ev in {Resume(t, true), Resume(t, false), CipherFails(t), Continue(t)}
      || ((ev.Settle? || ev.Refuse?) && !s.ops[0].ReadAll? && s.ops[0].task == t)
    ensures Nearer(s.tasks[t], Apply(s, ev), t)
  {
    match ev
    case Resume(_, throws) => ResumeNearer(s, t, throws);
    case CipherFails(_) => FinishAdvances(s, t);
    case Continue(_) => ContinueNearer(s, t);
    case _ => AnswerNearer(s, ev, t);
  }

  // ----- Every chat is accounted for -----

  /** Its record is written, or is about to be. */
  ghost predicate Recorded(s: State, id: MsgId) {
    id in s.written || exists op :: op in s.ops && op.Put? && op.rec.id == id
  }

  ghost predicate BeingSent(s: State, id: MsgId) {
    exists t :: t in s.tasks && s.tasks[t].id == id && s.tasks[t].stage.Encrypting? && !s.tasks[t].fromQueue
  }

  /** Handed over, or on its first way through the cipher, or queued for its peer
      and on record. */
  ghost predicate Accounted(s: State, id: MsgId) {
    id in s.sent
    && (id in s.handed || BeingSent(s, id) || (Holds(s.queue, s.sent[id].peer, id) && Recorded(s, id)))
  }

  /** The events that may lose track of a chat: the page goes, the cipher fails on
      its first send, or the store refuses its record. */
  ghost predicate Loses(s: State, ev: Event, id: MsgId) {
    match ev
    case Crash => true
    case Destroy => true
    case CipherFails(t) => t in s.tasks && s.tasks[t].id == id && !s.tasks[t].fromQueue
    case Refuse => s.ops != [] && s.ops[0].Put? && s.ops[0].rec.id == id
    case _ => false
  }

  lemma {:induction false} SendIsAccounted(s: State, p: PeerId, id: MsgId, msg: Message)
    requires Inv(s) && Enabled(s, Send(p, id, msg)) && Worthy(msg)
    ensures Accounted(Apply(s, Send(p, id, msg)), id)
    ensures Apply(s, Send(p, id, msg)).sent[id] == Record(id, p, msg)
  {
    assert Apply(s, Send(p, id, msg)).tasks[s.nextTask].id == id;
  }

  lemma {:induction false} WrittenGrows(s: State, ev: Event, id: MsgId)
    requires Inv(s) && Enabled(s, ev) && !Loses(s, ev, id) && Recorded(s, id)
    ensures Recorded(Apply(s, ev), id)
  {
    if id in s.written {
      WrittenKept(s, ev, id);
    } else {
      var op :| op in s.ops && op.Put? && op.rec.id == id;
      if (ev.Settle? || ev.Refuse?) && op == s.ops[0] {
        assert ev.Settle?;
      } else {
        RequestStays(s, ev, op);
      }
    }
  }

  lemma {:induction false} RequestStays(s: State, ev: Event, op: Op)
    requires Enabled(s, ev) && op in s.ops && !ev.Crash?
    requires ev.Settle? || ev.Refuse? ==> op != s.ops[0]
    ensures op in Apply(s, ev).ops
  {
    match ev
    case Resume(t, throws) => ResumeRequests(s, t, throws);
    case Continue(t) =>
    case Settle(_) => assert forall i :: 0 < i < |s.ops| ==> s.ops[1..][i - 1] == s.ops[i];
    case Refuse => assert forall i :: 0 < i < |s.ops| ==> s.ops[1..][i - 1] == s.ops[i];
    case _ =>
  }

  lemma {:induction false} ResumeRequests(s: State, t: nat, throws: bool)
    requires Enabled(s, Resume(t, throws))
    ensures forall op :: op in s.ops ==> op in Apply(s, Resume(t, throws)).ops
  {
  }

  /** The first send of a chat ends handed over, or queued and on record. */
  lemma {:induction false} FirstSendEnds(s: State, t: nat, throws: bool, id: MsgId)
    requires Inv(s) && Enabled(s, Resume(t, throws)) && id in s.sent
    requires s.tasks[t].id == id && !s.tasks[t].fromQueue && Worthy(s.tasks[t].msg)
    ensures Accounted(Apply(s, Resume(t, throws)), id)
  {
    var k, s' := s.tasks[t], Apply(s, Resume(t, throws));
    assert TaskOk(s, k);
    if k.peer in s.open && !throws {
      DeliveredIsHandedOver(s, t);
    } else {
      UndeliverableIsKept(s, t, throws);
      EnqueueHolds(s.queue, k.peer, k.id, k.msg, false);
      var q := QueueOf(s.queue, k.peer);
      if FlaggedEntry(q, id) {
        assert QueueOfOk(q, k.peer, s.sent, s.written);
        var i :| 0 <= i < |q| && q[i].id == id && q[i].persisted;
        assert EntryOk(q[i], k.peer, s.sent, s.written);
        WrittenOnlyBySettle(s, Resume(t, throws));
      } else {
        assert Put(t, Record(k.id, k.peer, k.msg)) in s'.ops;
      }
    }
  }

  lemma {:induction false} BeingSentStays(s: State, ev: Event, id: MsgId, t: nat)
    requires Inv(s) && Enabled(s, ev) && !Loses(s, ev, id)
    requires t in s.tasks && s.tasks[t].id == id && s.tasks[t].stage.Encrypting? && !s.tasks[t].fromQueue
    requires !(ev.Resume? && ev.task == t)
    ensures SameTask(s, Apply(s, ev), t)
  {
    match ev
    case Resume(u, throws) => OtherTaskStays(s, u, throws, t);
    case Continue(u) => OtherContinueStays(s, u, t);
    case CipherFails(u) => FinishLeaves(s, u, t);
    case Settle(_) => AnswerLeaves(s, ev, t);
    case Refuse => AnswerLeaves(s, ev, t);
    case _ =>
  }

  lemma {:induction false} AnswerLeaves(s: State, ev: Event, t: nat)
    requires Inv(s) && Enabled(s, ev) && (ev.Settle? || ev.Refuse?) && t in s.tasks && s.tasks[t].stage.Encrypting?
    ensures SameTask(s, Apply(s, ev), t)
  {
    assert s.ops[0] in s.ops && OpOk(s, s.ops[0]);
  }

  lemma {:induction false} OtherContinueStays(s: State, u: nat, t: nat)
    requires Enabled(s, Continue(u)) && t in s.tasks && s.tasks[t].stage.Encrypting?
    ensures SameTask(s, Apply(s, Continue(u)), t)
  {
    var k := s.tasks[u];
    FinishLeaves(s, u, t);
    FinishLeaves(s.(queue := Dequeue(s.queue, k.peer, k.id)), u, t);
    FinishLeaves(s.(queue := MarkPersisted(s.queue, k.peer, k.id)), u, t);
  }

  ghost predicate SameTask(s: State, s': State, t: nat) {
    t in s.tasks && t in s'.tasks && s'.tasks[t] == s.tasks[t]
  }

  lemma {:induction false} FinishLeaves(s: State, u: nat, t: nat)
    requires u in s.tasks && t in s.tasks && t != u
    ensures SameTask(s, Finish(s, u), t)
  {
  }

  lemma {:induction false} KeepLeaves(s: State, u: nat, t: nat)
    requires u in s.tasks && t in s.tasks && t != u
    ensures SameTask(s, Keep(s, u), t)
  {
    var k := s.tasks[u];
    FinishLeaves(s.(queue := Enqueue(s.queue, k.peer, k.id, k.msg, false)), u, t);
  }

  lemma {:induction false} HandOverLeaves(s: State, u: nat, t: nat)
    requires u in s.tasks && t in s.tasks && t != u
    ensures SameTask(s, HandOver(s, u), t)
  {
    FinishLeaves(s.(queue := Dequeue(s.queue, s.tasks[u].peer, s.tasks[u].id)), u, t);
  }

  lemma {:induction false} OtherTaskStays(s: State, u: nat, throws: bool, t: nat)
    requires Enabled(s, Resume(u, throws)) && t in s.tasks && t != u
    ensures SameTask(s, Apply(s, Resume(u, throws)), t)
  {
    if s.tasks[u].peer in s.open && !throws { HandOverLeaves(s, u, t); }
    else if s.tasks[u].fromQueue { FinishLeaves(s, u, t); }
    else { KeepLeaves(s, u, t); }
  }

  lemma {:induction false} AccountedStep(s: State, ev: Event, chats: set<MsgId>, id: MsgId)
    requires Inv(s) && AllApart(s, chats) && Enabled(s, ev) && !Loses(s, ev, id) && Accounted(s, id)
    ensures Accounted(Apply(s, ev), id) && Apply(s, ev).sent[id] == s.sent[id]
  {
    SentKept(s, ev, id);
    if id in s.handed {
      HandedStays(s, ev, id);
    } else if Holds(s.queue, s.sent[id].peer, id) && Recorded(s, id) {
      SafeStep(s, ev, chats, id);
      WrittenGrows(s, ev, id);
    } else {
      var t :| t in s.tasks && s.tasks[t].id == id && s.tasks[t].stage.Encrypting? && !s.tasks[t].fromQueue;
      if ev.Resume? && ev.task == t {
        assert TaskApart(s.tasks[t], chats);
        FirstSendEnds(s, t, ev.throws, id);
      } else {
        BeingSentStays(s, ev, id, t);
      }
    }
  }

  lemma {:induction false} HandedStays(s: State, ev: Event, id: MsgId)
    requires Enabled(s, ev) && id in s.handed
    ensures id in Apply(s, ev).handed
  {
    match ev
    case Resume(t, throws) => ResumeHands(s, t, throws);
    case Settle(_) =>
    case Refuse =>
    case Continue(t) =>
    case _ =>
  }

  lemma {:induction false} KeepHands(s: State, t: nat)
    requires t in s.tasks
    ensures Keep(s, t).handed == s.handed
  {
  }

  lemma {:induction false} ResumeHands(s: State, t: nat, throws: bool)
    requires Enabled(s, Resume(t, throws))
    ensures s.handed <= Apply(s, Resume(t, throws)).handed
  {
    KeepHands(s, t);
  }

  /** Chats and other messages use different ids, and nothing loses track of id. */
  ghost predicate Tracked(s: State, evs: seq<Event>, chats: set<MsgId>, id: MsgId)
    requires IsRun(s, evs)
    decreases |evs|
  {
    evs != [] ==>
      SendsApart(evs[0], chats) && !Loses(s, evs[0], id) && Tracked(Apply(s, evs[0]), evs[1..], chats, id)
  }

  lemma {:induction false} AccountedOverRuns(s: State, evs: seq<Event>, chats: set<MsgId>, id: MsgId)
    requires Inv(s) && AllApart(s, chats) && Accounted(s, id) && IsRun(s, evs) && Tracked(s, evs, chats, id)
    ensures var end := Exec(s, evs);
      Inv(end) && AllApart(end, chats) && Accounted(end, id) && end.sent[id] == s.sent[id]
    decreases |evs|
  {
    if evs != [] {
      InvStep(s, evs[0]);
      ApartStep(s, evs[0], chats);
      AccountedStep(s, evs[0], chats, id);
      AccountedOverRuns(Apply(s, evs[0]), evs[1..], chats, id);
    }
  }

  /** A chat that is sent in any state: after any run that does not lose track of
      it, it is on its first way through the cipher, or was handed to an open
      channel, or waits in its peer's queue, and then its record is stored or its
      writing was asked for. */
  lemma {:induction false} SentChatIsKept(
    s: State, p: PeerId, id: MsgId, msg: Message, evs: seq<Event>, chats: set<MsgId>)
    requires Inv(s) && AllApart(s, chats) && Enabled(s, Send(p, id, msg)) && msg.chat && msg.tracked && id in chats
    requires IsRun(Apply(s, Send(p, id, msg)), evs) && Tracked(Apply(s, Send(p, id, msg)), evs, chats, id)
    ensures var end := Exec(Apply(s, Send(p, id, msg)), evs);
      || id in end.handed
      || BeingSent(end, id)
      || (&& (exists e :: e in QueueOf(end.queue, p) && e.id == id && e.msg == msg)
          && (|| (id in end.store && end.store[id] == Record(id, p, msg))
              || exists op :: op in end.ops && op.Put? && op.rec == Record(id, p, msg)))
  {
    var sent := Apply(s, Send(p, id, msg));
    InvStep(s, Send(p, id, msg));
    ApartStep(s, Send(p, id, msg), chats);
    SendIsAccounted(s, p, id, msg);
    AccountedOverRuns(sent, evs, chats, id);
    var end := Exec(sent, evs);
    if id !in end.handed && !BeingSent(end, id) {
      HeldAsSent(end, chats, p, id, msg);
      if id !in end.written {
        var op :| op in end.ops && op.Put? && op.rec.id == id;
        assert OpOk(end, op);
      }
    }
  }

  lemma {:induction false} HeldAsSent(s: State, chats: set<MsgId>, p: PeerId, id: MsgId, msg: Message)
    requires Inv(s) && AllApart(s, chats) && id in s.sent && s.sent[id] == Record(id, p, msg) && Holds(s.queue, p, id)
    ensures exists e :: e in QueueOf(s.queue, p) && e.id == id && e.msg == msg
  {
    var e :| e in QueueOf(s.queue, p) && e.id == id;
    assert QueueOfOk(s.queue[p], p, s.sent, s.written);
    assert EntryOk(e, p, s.sent, s.written);
  }
}
