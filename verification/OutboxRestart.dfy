/** What a restart of the page brings back into the queues. */
module OutboxRestart {
  import opened Prelude
  import opened Outbox

  // ----- Chats and other messages under different ids -----

  /** `chats` holds the ids of the chats, and of nothing else. */
  predicate IdFits(chats: set<MsgId>, id: MsgId, msg: Message) { Worthy(msg) <==> id in chats }

  ghost predicate Apart(q: Queues, chats: set<MsgId>) {
    forall p, e :: p in q && e in q[p] ==> IdFits(chats, e.id, e.msg)
  }

  ghost predicate TaskApart(k: Task, chats: set<MsgId>) {
    IdFits(chats, k.id, k.msg) && forall e :: e in k.rest ==> IdFits(chats, e.id, e.msg)
  }

  ghost predicate AllApart(s: State, chats: set<MsgId>) {
    && Apart(s.queue, chats)
    && (forall t :: t in s.tasks ==> TaskApart(s.tasks[t], chats))
    && s.sent.Keys <= chats
  }

  predicate SendsApart(ev: Event, chats: set<MsgId>) { ev.Send? ==> IdFits(chats, ev.id, ev.msg) }

  lemma {:induction false} EnqueueApart(
    q: Queues, p: PeerId, id: MsgId, msg: Message, persisted: bool, chats: set<MsgId>)
    requires Apart(q, chats) && IdFits(chats, id, msg)
    ensures Apart(Enqueue(q, p, id, msg, persisted), chats)
  {
    var s, q' := QueueOf(q, p), Enqueue(q, p, id, msg, persisted);
    forall e | e in QueueOf(q', p) ensures IdFits(chats, e.id, e.msg) {
      var k :| 0 <= k < |q'[p]| && q'[p][k] == e;
      if k < |s| { assert s[k] in q[p]; }
    }
  }

  lemma {:induction false} DequeueApart(q: Queues, p: PeerId, id: MsgId, chats: set<MsgId>)
    requires Apart(q, chats)
    ensures Apart(Dequeue(q, p, id), chats)
  {
    var q' := Dequeue(q, p, id);
    forall e | e in QueueOf(q', p) ensures IdFits(chats, e.id, e.msg) {
      assert e in QueueOf(q, p);
    }
  }

  lemma {:induction false} MarkApart(q: Queues, p: PeerId, id: MsgId, chats: set<MsgId>)
    requires Apart(q, chats)
    ensures Apart(MarkPersisted(q, p, id), chats)
  {
    var s, q' := QueueOf(q, p), MarkPersisted(q, p, id);
    forall e | e in QueueOf(q', p) ensures IdFits(chats, e.id, e.msg) {
      var k :| 0 <= k < |q'[p]| && q'[p][k] == e;
      assert s[k] in q[p];
    }
  }

  lemma {:induction false} EnqueueAllApart(q: Queues, records: seq<Record>, chats: set<MsgId>)
    requires Apart(q, chats) && forall r :: r in records ==> IdFits(chats, r.id, r.msg)
    ensures Apart(EnqueueAll(q, records), chats)
    decreases |records|
  {
    if records != [] {
      var r := records[0];
      EnqueueApart(q, r.peer, r.id, r.msg, true, chats);
      EnqueueAllApart(Enqueue(q, r.peer, r.id, r.msg, true), records[1..], chats);
    }
  }

  lemma {:induction false} FinishApart(s: State, t: nat, chats: set<MsgId>)
    requires AllApart(s, chats) && t in s.tasks
    ensures AllApart(Finish(s, t), chats)
  {
    var k := s.tasks[t];
    if k.rest != [] { assert k.rest[0] in k.rest && forall e :: e in k.rest[1..] ==> e in k.rest; }
  }

  lemma {:induction false} KeepApart(s: State, t: nat, chats: set<MsgId>)
    requires AllApart(s, chats) && t in s.tasks
    ensures AllApart(Keep(s, t), chats)
  {
    var k := s.tasks[t];
    EnqueueApart(s.queue, k.peer, k.id, k.msg, false, chats);
    FinishApart(s.(queue := Enqueue(s.queue, k.peer, k.id, k.msg, false)), t, chats);
  }

  lemma {:induction false} HandOverApart(s: State, t: nat, chats: set<MsgId>)
    requires AllApart(s, chats) && t in s.tasks
    ensures AllApart(HandOver(s, t), chats)
  {
    var k := s.tasks[t];
    DequeueApart(s.queue, k.peer, k.id, chats);
    FinishApart(s.(queue := Dequeue(s.queue, k.peer, k.id)), t, chats);
  }

  lemma {:induction false} ContinueApart(s: State, t: nat, chats: set<MsgId>)
    requires AllApart(s, chats) && Enabled(s, Continue(t))
    ensures AllApart(Apply(s, Continue(t)), chats)
  {
    var k := s.tasks[t];
    match k.stage
    case Deleted =>
    case Updating =>
      DequeueApart(s.queue, k.peer, k.id, chats);
      FinishApart(s.(queue := Dequeue(s.queue, k.peer, k.id)), t, chats);
    case Saved =>
      MarkApart(s.queue, k.peer, k.id, chats);
      FinishApart(s.(queue := MarkPersisted(s.queue, k.peer, k.id)), t, chats);
    case _ => FinishApart(s, t, chats);
  }

  lemma {:induction false} RestoredApart(s: State, chats: set<MsgId>)
    requires Inv(s) && AllApart(s, chats) && s.restored.Some?
    ensures AllApart(Apply(s, Restored), chats)
  {
    EnqueueAllApart(s.queue, s.restored.value, chats);
  }

  lemma {:induction false} ResumeApart(s: State, t: nat, throws: bool, chats: set<MsgId>)
    requires AllApart(s, chats) && Enabled(s, Resume(t, throws))
    ensures AllApart(Apply(s, Resume(t, throws)), chats)
  {
    if s.tasks[t].peer in s.open && !throws { HandOverApart(s, t, chats); }
    else if s.tasks[t].fromQueue { FinishApart(s, t, chats); }
    else { KeepApart(s, t, chats); }
  }

  lemma {:induction false} StageApart(s: State, t: nat, stage: Stage, chats: set<MsgId>)
    requires AllApart(s, chats)
    ensures AllApart(SetStage(s, t, stage), chats)
  {
  }

  lemma {:induction false} AnsweredApart(s: State, ev: Event, chats: set<MsgId>)
    requires AllApart(s, chats) && Enabled(s, ev) && (ev.Settle? || ev.Refuse?)
    ensures AllApart(Apply(s, ev), chats)
  {
    var op := s.ops[0];
    if !op.ReadAll? {
      StageApart(s, op.task, if ev.Refuse? && op.Put? then SaveFailed else if op.Put? then Saved else Deleted, chats);
    }
  }

  lemma {:induction false} SendApart(s: State, p: PeerId, id: MsgId, msg: Message, chats: set<MsgId>)
    requires AllApart(s, chats) && Enabled(s, Send(p, id, msg)) && IdFits(chats, id, msg)
    ensures AllApart(Apply(s, Send(p, id, msg)), chats)
  {
  }

  /** Channels, teardown, crash, and the request for all records. */
  predicate Outer(ev: Event) { ev.Opened? || ev.Closed? || ev.Destroy? || ev.Crash? || ev.Restore? }

  lemma {:induction false} OuterApart(s: State, ev: Event, chats: set<MsgId>)
    requires AllApart(s, chats) && Enabled(s, ev) && Outer(ev)
    ensures AllApart(Apply(s, ev), chats)
  {
  }

  lemma {:induction false} ApartStep(s: State, ev: Event, chats: set<MsgId>)
    requires Inv(s) && AllApart(s, chats) && Enabled(s, ev) && SendsApart(ev, chats)
    ensures AllApart(Apply(s, ev), chats)
  {
    match ev
    case Send(p, id, msg) => SendApart(s, p, id, msg, chats);
    case KeyExchange(p) => DrainApart(s, p, chats);
    case Resume(t, throws) => ResumeApart(s, t, throws, chats);
    case CipherFails(t) => FinishApart(s, t, chats);
    case Settle(_) => AnsweredApart(s, ev, chats);
    case Refuse => AnsweredApart(s, ev, chats);
    case Continue(t) => ContinueApart(s, t, chats);
    case Restored => RestoredApart(s, chats);
    case _ => OuterApart(s, ev, chats);
  }

  lemma {:induction false} DrainApart(s: State, p: PeerId, chats: set<MsgId>)
    requires AllApart(s, chats) && Enabled(s, KeyExchange(p))
    ensures AllApart(Apply(s, KeyExchange(p)), chats)
  {
    var all := QueueOf(s.queue, p);
    assert all[0] in all && forall e :: e in all[1..] ==> e in all;
  }

  // ----- What is held in a queue stays there until it is handed over -----

  ghost predicate Holds(q: Queues, p: PeerId, id: MsgId) { exists e :: e in QueueOf(q, p) && e.id == id }

  /** Handed over, or in the queue of its peer. */
  ghost predicate Safe(s: State, id: MsgId) {
    id in s.handed || (id in s.sent && Holds(s.queue, s.sent[id].peer, id))
  }

  lemma {:induction false} EnqueueHolds(q: Queues, p: PeerId, id: MsgId, msg: Message, persisted: bool)
    ensures Holds(Enqueue(q, p, id, msg, persisted), p, id)
    ensures forall peer, i :: Holds(q, peer, i) ==> Holds(Enqueue(q, p, id, msg, persisted), peer, i)
  {
    var q' := Enqueue(q, p, id, msg, persisted);
    var at := Position(QueueOf(q, p), id);
    assert QueueOf(q', p)[if at == -1 then |QueueOf(q, p)| else at].id == id;
    forall peer, i | Holds(q, peer, i) ensures Holds(q', peer, i) {
      var k :| 0 <= k < |QueueOf(q, peer)| && QueueOf(q, peer)[k].id == i;
      assert QueueOf(q', peer)[k].id == i;
    }
  }

  lemma {:induction false} DequeueHolds(q: Queues, p: PeerId, id: MsgId, peer: PeerId, i: MsgId)
    requires Holds(q, peer, i) && i != id
    ensures Holds(Dequeue(q, p, id), peer, i)
  {
    var s, at := QueueOf(q, p), Position(QueueOf(q, p), id);
    var k :| 0 <= k < |QueueOf(q, peer)| && QueueOf(q, peer)[k].id == i;
    if peer == p && at >= 0 {
      var left := RemoveAt(s, at);
      assert left[if k < at then k else k - 1] == s[k];
      assert QueueOf(Dequeue(q, p, id), p) == left;
    } else {
      assert QueueOf(Dequeue(q, p, id), peer)[k].id == i;
    }
  }

  lemma {:induction false} MarkHolds(q: Queues, p: PeerId, id: MsgId, peer: PeerId, i: MsgId)
    requires Holds(q, peer, i)
    ensures Holds(MarkPersisted(q, p, id), peer, i)
  {
    var k :| 0 <= k < |QueueOf(q, peer)| && QueueOf(q, peer)[k].id == i;
    assert QueueOf(MarkPersisted(q, p, id), peer)[k].id == i;
  }

  lemma {:induction false} EnqueueAllHolds(q: Queues, records: seq<Record>, peer: PeerId, i: MsgId)
    requires Holds(q, peer, i)
    ensures Holds(EnqueueAll(q, records), peer, i)
    decreases |records|
  {
    if records != [] {
      var r := records[0];
      EnqueueHolds(q, r.peer, r.id, r.msg, true);
      EnqueueAllHolds(Enqueue(q, r.peer, r.id, r.msg, true), records[1..], peer, i);
    }
  }

  lemma {:induction false} HandOverSafe(s: State, t: nat, chats: set<MsgId>, id: MsgId)
    requires AllApart(s, chats) && t in s.tasks && id in s.sent && Safe(s, id)
    ensures Safe(HandOver(s, t), id)
  {
    var k := s.tasks[t];
    if id !in s.handed && !Worthy(k.msg) {
      assert k.id != id;
      DequeueHolds(s.queue, k.peer, k.id, s.sent[id].peer, id);
    }
  }

  lemma {:induction false} KeepSafe(s: State, t: nat, id: MsgId)
    requires t in s.tasks && id in s.sent && Safe(s, id)
    ensures Safe(Keep(s, t), id)
  {
    var k := s.tasks[t];
    EnqueueHolds(s.queue, k.peer, k.id, k.msg, false);
  }

  lemma {:induction false} ResumeSafe(s: State, t: nat, throws: bool, chats: set<MsgId>, id: MsgId)
    requires AllApart(s, chats) && Enabled(s, Resume(t, throws)) && id in s.sent && Safe(s, id)
    ensures Safe(Apply(s, Resume(t, throws)), id)
  {
    if s.tasks[t].peer in s.open && !throws { HandOverSafe(s, t, chats, id); }
    else if !s.tasks[t].fromQueue { KeepSafe(s, t, id); }
  }

  lemma {:induction false} UpdatedSafe(s: State, t: nat, id: MsgId)
    requires Inv(s) && t in s.tasks && s.tasks[t].stage.Updating? && id in s.sent && Safe(s, id)
    ensures Safe(s.(queue := Dequeue(s.queue, s.tasks[t].peer, s.tasks[t].id)), id)
  {
    var k := s.tasks[t];
    assert TaskOk(s, k);
    if id !in s.handed { DequeueHolds(s.queue, k.peer, k.id, s.sent[id].peer, id); }
  }

  lemma {:induction false} SavedSafe(s: State, k: Task, id: MsgId)
    requires id in s.sent && Safe(s, id)
    ensures Safe(s.(queue := MarkPersisted(s.queue, k.peer, k.id)), id)
  {
    if id !in s.handed { MarkHolds(s.queue, k.peer, k.id, s.sent[id].peer, id); }
  }

  lemma {:induction false} ContinueSafe(s: State, t: nat, id: MsgId)
    requires Inv(s) && Enabled(s, Continue(t)) && id in s.sent && Safe(s, id)
    ensures Safe(Apply(s, Continue(t)), id)
  {
    match s.tasks[t].stage
    case Updating => UpdatedSafe(s, t, id);
    case Saved => SavedSafe(s, s.tasks[t], id);
    case _ =>
  }

  lemma {:induction false} SentKept(s: State, ev: Event, id: MsgId)
    requires Enabled(s, ev) && id in s.sent
    ensures id in Apply(s, ev).sent && Apply(s, ev).sent[id] == s.sent[id]
  {
    match ev
    case Send(_, _, _) =>
    case Resume(t, throws) =>
    case Continue(t) =>
    case _ =>
  }

  predicate Touches(ev: Event) {
    ev.Resume? || ev.Continue? || ev.Restored? || ev.Crash? || ev.Destroy?
  }

  lemma {:induction false} QueueKept(s: State, ev: Event)
    requires Enabled(s, ev) && !Touches(ev)
    ensures Apply(s, ev).queue == s.queue && Apply(s, ev).handed == s.handed
  {
    match ev
    case Settle(_) =>
    case Refuse =>
    case _ =>
  }

  /** Only a crash or a teardown empties a queue. */
  lemma {:induction false} SafeStep(s: State, ev: Event, chats: set<MsgId>, id: MsgId)
    requires Inv(s) && AllApart(s, chats) && Enabled(s, ev) && !ev.Crash? && !ev.Destroy?
    requires id in s.sent && Safe(s, id)
    ensures Safe(Apply(s, ev), id)
  {
    match ev
    case Resume(t, throws) => ResumeSafe(s, t, throws, chats, id);
    case Continue(t) => ContinueSafe(s, t, id);
    case Restored => if id !in s.handed { EnqueueAllHolds(s.queue, s.restored.value, s.sent[id].peer, id); }
    case _ =>
      QueueKept(s, ev);
      SentKept(s, ev, id);
  }

  // ----- Recovering after a crash -----

  ghost predicate PutsSafe(s: State) {
    forall op :: op in s.ops && op.Put? ==> Safe(s, op.rec.id)
  }

  ghost predicate StoreSafe(s: State) { forall id :: id in s.store ==> Safe(s, id) }

  ghost predicate ReadCovers(s: State) {
    s.restored.Some? ==> forall id :: id in s.store ==>
      Safe(s, id) || exists r :: r in s.restored.value && r.id == id
  }

  ghost predicate Recovering(s: State, chats: set<MsgId>, done: bool) {
    Inv(s) && AllApart(s, chats) && PutsSafe(s) && ReadCovers(s) && (done ==> StoreSafe(s))
  }

  lemma {:induction false} PutsSafeStep(s: State, ev: Event, chats: set<MsgId>)
    requires Inv(s) && AllApart(s, chats) && PutsSafe(s) && Enabled(s, ev) && !ev.Crash? && !ev.Destroy?
    ensures PutsSafe(Apply(s, ev))
  {
    var s' := Apply(s, ev);
    forall op | op in s'.ops && op.Put? ensures Safe(s', op.rec.id) {
      if op in s.ops {
        assert OpOk(s, op);
        SafeStep(s, ev, chats, op.rec.id);
      } else {
        NewPut(s, ev, op);
      }
    }
  }

  lemma {:induction false} RequestsFrom(s: State, ev: Event)
    requires Enabled(s, ev) && !ev.Resume?
    ensures forall op :: op in Apply(s, ev).ops ==> op in s.ops || op.ReadAll?
  {
    match ev
    case Settle(_) =>
    case Refuse =>
    case Continue(t) =>
    case _ =>
  }

  /** Only keeping a chat asks for a write, and it has queued the chat before. */
  lemma {:induction false} NewPut(s: State, ev: Event, op: Op)
    requires Inv(s) && Enabled(s, ev) && op in Apply(s, ev).ops && op !in s.ops && op.Put?
    ensures Safe(Apply(s, ev), op.rec.id)
  {
    if ev.Resume? {
      KeptPut(s, ev.task, ev.throws, op);
    } else {
      RequestsFrom(s, ev);
    }
  }

  lemma {:induction false} KeptPut(s: State, t: nat, throws: bool, op: Op)
    requires Inv(s) && Enabled(s, Resume(t, throws))
    requires op in Apply(s, Resume(t, throws)).ops && op !in s.ops && op.Put?
    ensures Safe(Apply(s, Resume(t, throws)), op.rec.id)
  {
    if s.tasks[t].peer in s.open && !throws {
      NoPutHandedOver(s, t);
      assert false;
    } else if s.tasks[t].fromQueue {
      assert false;
    } else {
      PutOfKeep(s, t, op);
    }
  }

  lemma {:induction false} NoPutHandedOver(s: State, t: nat)
    requires t in s.tasks
    ensures forall op :: op in HandOver(s, t).ops ==> op in s.ops || op.Remove?
  {
  }

  lemma {:induction false} PutOfKeep(s: State, t: nat, op: Op)
    requires Inv(s) && t in s.tasks && op in Keep(s, t).ops && op !in s.ops
    ensures op.Put? && Safe(Keep(s, t), op.rec.id)
  {
    var k := s.tasks[t];
    assert TaskOk(s, k);
    EnqueueHolds(s.queue, k.peer, k.id, k.msg, false);
  }

  lemma {:induction false} StoredComesFrom(s: State, ev: Event, id: MsgId)
    requires Inv(s) && Enabled(s, ev) && id in Apply(s, ev).store && id !in s.store
    ensures ev.Settle? && s.ops[0].Put? && s.ops[0].rec.id == id
  {
    if !ev.Settle? { WrittenOnlyBySettle(s, ev); }
  }

  lemma {:induction false} StoredSafe(s: State, ev: Event, chats: set<MsgId>, id: MsgId)
    requires Inv(s) && AllApart(s, chats) && PutsSafe(s) && Enabled(s, ev) && !ev.Crash? && !ev.Destroy?
    requires id in Apply(s, ev).store && (id in s.store ==> Safe(s, id))
    ensures Safe(Apply(s, ev), id)
  {
    if id !in s.store {
      StoredComesFrom(s, ev, id);
      assert s.ops[0] in s.ops && OpOk(s, s.ops[0]);
    }
    SafeStep(s, ev, chats, id);
  }

  lemma {:induction false} RestoredSafe(s: State, chats: set<MsgId>)
    requires Inv(s) && AllApart(s, chats) && s.restored.Some? && ReadCovers(s)
    ensures StoreSafe(Apply(s, Restored))
  {
    RestoredKeeps(s);
    var s' := Apply(s, Restored);
    forall id | id in s'.store ensures Safe(s', id) {
      if Safe(s, id) {
        SafeStep(s, Restored, chats, id);
      } else {
        var r :| r in s.restored.value && r.id == id;
        assert Flagged(s'.queue, r.peer, id);
      }
    }
  }

  lemma {:induction false} ReadStep(s: State, ev: Event, chats: set<MsgId>)
    requires Inv(s) && AllApart(s, chats) && PutsSafe(s) && ReadCovers(s) && Enabled(s, ev) && !ev.Crash? &&
      !ev.Destroy?
    ensures ReadCovers(Apply(s, ev))
  {
    var s' := Apply(s, ev);
    if s'.restored.Some? {
      if ev.Settle? && s.ops[0].ReadAll? {
        ReadAllCovers(s, ev.order);
      } else {
        RestoredKept(s, ev);
        forall id | id in s'.store ensures Safe(s', id) || exists r :: r in s'.restored.value && r.id == id {
          if id !in s.store || Safe(s, id) { StoredSafe(s, ev, chats, id); }
        }
      }
    }
  }

  lemma {:induction false} ReadAllCovers(s: State, order: seq<MsgId>)
    requires Inv(s) && Enabled(s, Settle(order)) && s.ops[0].ReadAll?
    ensures ReadCovers(Apply(s, Settle(order)))
  {
    var s' := Apply(s, Settle(order));
    forall id | id in s'.store ensures exists r :: r in s'.restored.value && r.id == id {
      var i :| 0 <= i < |order| && order[i] == id;
      assert Records(s.store, order)[i].id == id;
      assert Records(s.store, order)[i] in s'.restored.value;
    }
  }

  lemma {:induction false} RestoredKept(s: State, ev: Event)
    requires Enabled(s, ev) && Apply(s, ev).restored.Some? && !(ev.Settle? && s.ops[0].ReadAll?)
    ensures Apply(s, ev).restored == s.restored
  {
    match ev
    case Resume(t, throws) => ResumeKeepsRead(s, t, throws);
    case Continue(t) => ContinueKeepsRead(s, t);
    case Settle(_) => AnswerKeepsRead(s, ev);
    case Refuse => AnswerKeepsRead(s, ev);
    case _ =>
  }

  lemma {:induction false} ContinueKeepsRead(s: State, t: nat)
    requires Enabled(s, Continue(t))
    ensures Apply(s, Continue(t)).restored == s.restored
  {
  }

  lemma {:induction false} AnswerKeepsRead(s: State, ev: Event)
    requires Enabled(s, ev) && (ev.Refuse? || (ev.Settle? && !s.ops[0].ReadAll?))
    ensures Apply(s, ev).restored == s.restored
  {
  }

  lemma {:induction false} ResumeKeepsRead(s: State, t: nat, throws: bool)
    requires Enabled(s, Resume(t, throws))
    ensures Apply(s, Resume(t, throws)).restored == s.restored
  {
  }

  lemma {:induction false} RecoveringStep(s: State, ev: Event, chats: set<MsgId>, done: bool)
    requires Recovering(s, chats, done) && Enabled(s, ev) && !ev.Crash? && !ev.Destroy? && SendsApart(ev, chats)
    ensures Recovering(Apply(s, ev), chats, done || ev.Restored?)
  {
    InvStep(s, ev);
    ApartStep(s, ev, chats);
    PutsSafeStep(s, ev, chats);
    ReadStep(s, ev, chats);
    var s' := Apply(s, ev);
    if ev.Restored? {
      RestoredSafe(s, chats);
    } else if done {
      forall id | id in s'.store ensures Safe(s', id) { StoredSafe(s, ev, chats, id); }
    }
  }

  /** Events between a crash and the next, without a teardown; chats and other
      messages use different ids. */
  ghost predicate Ordinary(evs: seq<Event>, chats: set<MsgId>) {
    forall i :: 0 <= i < |evs| ==> !evs[i].Crash? && !evs[i].Destroy? && SendsApart(evs[i], chats)
  }

  ghost predicate Brought(evs: seq<Event>) { exists i :: 0 <= i < |evs| && evs[i].Restored? }

  lemma {:induction false} RecoveringOverRuns(s: State, evs: seq<Event>, chats: set<MsgId>, done: bool)
    requires Recovering(s, chats, done) && IsRun(s, evs) && Ordinary(evs, chats)
    ensures Recovering(Exec(s, evs), chats, done || Brought(evs))
    decreases |evs|
  {
    if evs != [] {
      RecoveringStep(s, evs[0], chats, done);
      RecoveringOverRuns(Apply(s, evs[0]), evs[1..], chats, done || evs[0].Restored?);
      if Brought(evs) && !evs[0].Restored? {
        var i :| 0 <= i < |evs| && evs[i].Restored?;
        assert evs[1..][i - 1].Restored?;
      }
    }
  }

  ghost predicate Queued(q: Queues, r: Record) {
    exists e :: e in QueueOf(q, r.peer) && e.id == r.id && e.msg == r.msg
  }

  lemma {:induction false} SafeIsQueued(s: State, chats: set<MsgId>, id: MsgId)
    requires Inv(s) && AllApart(s, chats) && id in s.store && Safe(s, id) && id !in s.handed
    ensures Queued(s.queue, s.store[id])
  {
    var p := s.sent[id].peer;
    var e :| e in QueueOf(s.queue, p) && e.id == id;
    assert QueueOfOk(s.queue[p], p, s.sent, s.written);
    assert EntryOk(e, p, s.sent, s.written);
  }

  /** After a crash, once the pending records have been put back, whatever else
      is sent, drained, saved or deleted meanwhile and afterwards: every stored
      chat is in the queue of its peer or was handed over, and no queue holds an
      id twice. */
  lemma {:induction false} RestartKeepsEverythingQueued(s: State, evs: seq<Event>, chats: set<MsgId>)
    requires Inv(s) && s.sent.Keys <= chats
    requires IsRun(Apply(s, Crash), evs) && Ordinary(evs, chats) && Brought(evs)
    ensures var end := Exec(Apply(s, Crash), evs);
      && (forall id :: id in end.store ==> id in end.handed || Queued(end.queue, end.store[id]))
      && (forall p :: p in end.queue ==> UniqueIds(end.queue[p]))
  {
    CrashKeeps(s);
    var crashed := Apply(s, Crash);
    RecoveringOverRuns(crashed, evs, chats, false);
    var end := Exec(crashed, evs);
    forall id | id in end.store && id !in end.handed ensures Queued(end.queue, end.store[id]) {
      SafeIsQueued(end, chats, id);
    }
    forall p | p in end.queue ensures UniqueIds(end.queue[p]) {
      assert QueueOfOk(end.queue[p], p, end.sent, end.written);
    }
  }

  // ----- An uninterrupted restart -----

  ghost predicate QueuedAs(q: Queues, r: Record) {
    exists e :: e in QueueOf(q, r.peer) && e == Entry(r.id, r.msg, true)
  }

  /** From the crash to the moment all records have been read. */
  lemma {:induction false} AllRead(s: State, order: seq<MsgId>) returns (read: State)
    requires Inv(s) && Distinct(order) && forall id :: id in order <==> id in s.store
    ensures var crashed := Apply(s, Crash); var asked := Apply(crashed, Restore);
      Enabled(asked, Settle(order)) && read == Apply(asked, Settle(order))
    ensures Inv(read) && AllApart(read, read.sent.Keys)
    ensures read.store == s.store && read.restored == Some(Records(s.store, order))
  {
    var crashed := Apply(s, Crash);
    var asked := Apply(crashed, Restore);
    CrashKeeps(s);
    ReadKeeps(crashed);
    assert asked.ops == [ReadAll];
    SettleRead(asked, order);
    read := Apply(asked, Settle(order));
  }

  lemma {:induction false} AllQueued(s: State, order: seq<MsgId>)
    requires Inv(s) && AllApart(s, s.sent.Keys)
    requires (forall id :: id in order <==> id in s.store) && s.restored == Some(Records(s.store, order))
    ensures var end := Apply(s, Restored);
      && end.store == s.store
      && (forall id :: id in s.store ==> QueuedAs(end.queue, s.store[id]))
      && (forall p :: p in end.queue ==> UniqueIds(end.queue[p]))
  {
    RestoredKeeps(s);
    RestoredApart(s, s.sent.Keys);
    var end := Apply(s, Restored);
    forall id | id in s.store ensures QueuedAs(end.queue, s.store[id]) {
      var i :| 0 <= i < |order| && order[i] == id;
      var r := s.store[id];
      assert Records(s.store, order)[i] == r;
      var e :| e in QueueOf(end.queue, r.peer) && e.id == r.id && e.persisted;
      assert QueueOfOk(end.queue[r.peer], r.peer, end.sent, end.written);
      assert EntryOk(e, r.peer, end.sent, end.written);
    }
    forall p | p in end.queue ensures UniqueIds(end.queue[p]) {
      assert QueueOfOk(end.queue[p], p, end.sent, end.written);
    }
  }

  /** Right after a restart every stored record is back in its peer's queue,
      flagged, and no queue holds an id twice. */
  lemma {:induction false} RestartRestoresEverything(s: State, order: seq<MsgId>)
    requires Inv(s) && Distinct(order) && forall id :: id in order <==> id in s.store
    ensures IsRun(s, [Crash, Restore, Settle(order), Restored])
    ensures var end := Exec(s, [Crash, Restore, Settle(order), Restored]);
      && end.store == s.store
      && (forall id :: id in s.store ==> QueuedAs(end.queue, s.store[id]))
      && (forall p :: p in end.queue ==> UniqueIds(end.queue[p]))
  {
    var read := AllRead(s, order);
    AllQueued(read, order);
    FourSteps(s, Crash, Restore, Settle(order), Restored);
  }

  lemma {:induction false} FourSteps(s: State, a: Event, b: Event, c: Event, d: Event)
    requires Enabled(s, a) && Enabled(Apply(s, a), b) && Enabled(Apply(Apply(s, a), b), c)
    requires Enabled(Apply(Apply(Apply(s, a), b), c), d)
    ensures IsRun(s, [a, b, c, d]) && Exec(s, [a, b, c, d]) == Apply(Apply(Apply(Apply(s, a), b), c), d)
  {
    var s1 := Apply(s, a);
    var s2 := Apply(s1, b);
    var s3 := Apply(s2, c);
    FirstStep(s3, d, []);
    FirstStep(s2, c, [d]);
    FirstStep(s1, b, [c, d]);
    FirstStep(s, a, [b, c, d]);
    assert [d] + [] == [d] && [c] + [d] == [c, d] && [b] + [c, d] == [b, c, d] && [a] + [b, c, d] == [a, b, c, d];
  }

  lemma {:induction false} FirstStep(s: State, ev: Event, rest: seq<Event>)
    requires Enabled(s, ev) && IsRun(Apply(s, ev), rest)
    ensures IsRun(s, [ev] + rest) && Exec(s, [ev] + rest) == Exec(Apply(s, ev), rest)
  {
    assert ([ev] + rest)[1..] == rest;
  }
}
