/** The crash-safe chat outbox: an in-memory queue per peer, a persistent store of
    pending messages, and calls that interleave at every await. */
module Outbox {
  import opened Prelude

  type MsgId = string

  /** `tracked`: the message carries a messageId, so a chat is worth persisting. */
  datatype Message = Message(chat: bool, tracked: bool, body: string)
  datatype Entry = Entry(id: MsgId, msg: Message, persisted: bool)
  datatype Record = Record(id: MsgId, peer: PeerId, msg: Message)

  type Queues = map<PeerId, seq<Entry>>

  // ----- The queue -----

  function QueueOf(q: Queues, p: PeerId): seq<Entry> { if p in q then q[p] else [] }

  /** `findIndex`, from a place on; -1 when there is none. */
  function PositionFrom(s: seq<Entry>, id: MsgId, from: nat): (i: int)
    requires from <= |s|
    ensures i == -1 || from <= i < |s|
    ensures i >= 0 ==> s[i].id == id && forall j :: from <= j < i ==> s[j].id != id
    ensures i == -1 <==> forall j :: from <= j < |s| ==> s[j].id != id
    decreases |s| - from
  {
    if from == |s| then -1 else if s[from].id == id then from else PositionFrom(s, id, from + 1)
  }

  function Position(s: seq<Entry>, id: MsgId): (i: int)
    ensures -1 <= i < |s|
    ensures i >= 0 ==> s[i].id == id && forall j :: 0 <= j < i ==> s[j].id != id
    ensures i == -1 <==> forall j :: 0 <= j < |s| ==> s[j].id != id
  {
    PositionFrom(s, id, 0)
  }

  function RemoveAt(s: seq<Entry>, i: nat): seq<Entry>
    requires i < |s|
  {
    seq(|s| - 1, j requires 0 <= j < |s| - 1 => if j < i then s[j] else s[j + 1])
  }

  /** Adds an entry unless the id is queued already; then only the flag can rise. */
  function Enqueue(q: Queues, p: PeerId, id: MsgId, msg: Message, persisted: bool): Queues {
    var s := QueueOf(q, p);
    var i := Position(s, id);
    if i == -1 then q[p := s + [Entry(id, msg, persisted)]]
    else if persisted then q[p := s[i := s[i].(persisted := true)]]
    else q
  }

  function Dequeue(q: Queues, p: PeerId, id: MsgId): Queues {
    var s := QueueOf(q, p);
    var i := Position(s, id);
    if i == -1 then q
    else
      var left := RemoveAt(s, i);
      if left == [] then q - {p} else q[p := left]
  }

  function MarkPersisted(q: Queues, p: PeerId, id: MsgId): Queues {
    var s := QueueOf(q, p);
    var i := Position(s, id);
    if i == -1 then q else q[p := s[i := s[i].(persisted := true)]]
  }

  function EnqueueAll(q: Queues, records: seq<Record>): Queues
    decreases |records|
  {
    if records == [] then q
    else EnqueueAll(Enqueue(q, records[0].peer, records[0].id, records[0].msg, true), records[1..])
  }

  // ----- Calls in progress -----

  datatype Stage =
    | Encrypting   // awaiting the cipher
    | Deleting     // handed over; awaiting the deletion of the stored record
    | Deleted      // the deletion was settled
    | Updating     // awaiting the status update
    | Saving       // queued; awaiting the write of the record
    | Saved        // the record is written
    | SaveFailed   // the write was refused

  /** A call of sendToPeer. A drain awaits its sends one by one: `rest` is what
      it still has to send after this one. */
  datatype Task = Task(peer: PeerId, id: MsgId, msg: Message, fromQueue: bool, stage: Stage, rest: seq<Entry>)

  /** Requests on the pending store; they take effect in the order of issue. */
  datatype Op = Put(task: nat, rec: Record) | Remove(task: nat, id: MsgId) | ReadAll

  /** `sent` (the chat that took each id), `written` (every record ever stored) and
      `handed` (ids of the chats given to an open channel) are history. */
  datatype State = State(
    queue: Queues, open: set<PeerId>, tasks: map<nat, Task>, nextTask: nat,
    ops: seq<Op>, store: map<MsgId, Record>, restored: Option<seq<Record>>,
    sent: map<MsgId, Record>, written: map<MsgId, Record>, handed: set<MsgId>)

  datatype Event =
    | Send(peer: PeerId, id: MsgId, msg: Message)   // a chat takes a fresh id
    | KeyExchange(peer: PeerId)                     // starts a drain of the peer's queue
    | Resume(task: nat, throws: bool)               // the cipher answered; the channel may throw
    | CipherFails(task: nat)
    | Settle(order: seq<MsgId>)                     // the oldest store request succeeds
    | Refuse                                        // the oldest store request fails
    | Continue(task: nat)                           // a call goes on after its await
    | Opened(peer: PeerId)
    | Closed(peer: PeerId)
    | Destroy
    | Crash
    | Restore                                       // restorePendingMessages asks for all records
    | Restored                                      // ... and puts them into the queue

  function Finish(s: State, t: nat): (s': State)
    requires t in s.tasks
    ensures s'.written == s.written && s'.store == s.store && s'.restored == s.restored && s'.sent == s.sent
  {
    var k := s.tasks[t];
    if k.rest == [] then s.(tasks := s.tasks - {t})
    else s.(tasks := s.tasks[t := Task(k.peer, k.rest[0].id, k.rest[0].msg, true, Encrypting, k.rest[1..])])
  }

  function Worthy(msg: Message): bool { msg.chat && msg.tracked }

  /** enqueueMessage, then persistQueuedChatMessage up to its await. */
  function Keep(s: State, t: nat): (s': State)
    requires t in s.tasks
    ensures s'.written == s.written && s'.store == s.store && s'.restored == s.restored && s'.sent == s.sent
  {
    var k := s.tasks[t];
    var q := Enqueue(s.queue, k.peer, k.id, k.msg, false);
    var queued := s.(queue := q);
    var i := Position(QueueOf(q, k.peer), k.id);
    if !Worthy(k.msg) || i == -1 || QueueOf(q, k.peer)[i].persisted then Finish(queued, t)
    else queued.(ops := s.ops + [Put(t, Record(k.id, k.peer, k.msg))], tasks := s.tasks[t := k.(stage := Saving)])
  }

  function HandOver(s: State, t: nat): (s': State)
    requires t in s.tasks
    ensures s'.written == s.written && s'.store == s.store && s'.restored == s.restored && s'.sent == s.sent
  {
    var k := s.tasks[t];
    if Worthy(k.msg) then
      s.(handed := s.handed + {k.id}, ops := s.ops + [Remove(t, k.id)],
         tasks := s.tasks[t := k.(stage := Deleting)])
    else Finish(s.(queue := Dequeue(s.queue, k.peer, k.id)), t)
  }

  function SetStage(s: State, t: nat, stage: Stage): (s': State)
    ensures s' == s.(tasks := s'.tasks)
  {
    if t in s.tasks then s.(tasks := s.tasks[t := s.tasks[t].(stage := stage)]) else s
  }

  ghost predicate Enabled(s: State, ev: Event) {
    match ev
    case Send(_, id, msg) => Worthy(msg) ==> id !in s.sent
    case KeyExchange(p) => QueueOf(s.queue, p) != []
    case Resume(t, throws) => t in s.tasks && s.tasks[t].stage.Encrypting? && (throws ==> s.tasks[t].peer in s.open)
    case CipherFails(t) => t in s.tasks && s.tasks[t].stage.Encrypting?
    case Settle(order) => s.ops != [] && (s.ops[0].ReadAll? ==>
        Distinct(order) && forall id :: id in order <==> id in s.store)
    case Refuse => s.ops != []
    case Continue(t) => t in s.tasks && s.tasks[t].stage in {Deleted, Updating, Saved, SaveFailed}
    case Restored => s.restored.Some?
    case _ => true
  }

  function Records(store: map<MsgId, Record>, order: seq<MsgId>): seq<Record>
    requires forall id :: id in order ==> id in store
  {
    seq(|order|, i requires 0 <= i < |order| => store[order[i]])
  }

  ghost function Apply(s: State, ev: Event): State
    requires Enabled(s, ev)
  {
    match ev
    case Send(p, id, msg) =>
      s.(tasks := s.tasks[s.nextTask := Task(p, id, msg, false, Encrypting, [])], nextTask := s.nextTask + 1,
         sent := if Worthy(msg) then s.sent[id := Record(id, p, msg)] else s.sent)
    case KeyExchange(p) =>
      var all := QueueOf(s.queue, p);
      s.(tasks := s.tasks[s.nextTask := Task(p, all[0].id, all[0].msg, true, Encrypting, all[1..])],
         nextTask := s.nextTask + 1)
    case Resume(t, throws) =>
      if s.tasks[t].peer in s.open && !throws then HandOver(s, t)
      else if s.tasks[t].fromQueue then Finish(s, t)
      else Keep(s, t)
    case CipherFails(t) => Finish(s, t)
    case Settle(order) =>
      var rest := s.(ops := s.ops[1..]);
      (match s.ops[0]
       case Put(t, rec) =>
         SetStage(rest.(store := s.store[rec.id := rec], written := s.written[rec.id := rec]), t, Saved)
       case Remove(t, id) => SetStage(rest.(store := s.store - {id}), t, Deleted)
       case ReadAll => rest.(restored := Some(Records(s.store, order))))
    case Refuse =>
      var rest := s.(ops := s.ops[1..]);
      (match s.ops[0]
       case Put(t, _) => SetStage(rest, t, SaveFailed)
       case Remove(t, _) => SetStage(rest, t, Deleted)
       case ReadAll => rest)
    case Continue(t) =>
      var k := s.tasks[t];
      (match k.stage
       case Deleted => SetStage(s, t, Updating)
       case Updating => Finish(s.(queue := Dequeue(s.queue, k.peer, k.id)), t)
       case Saved => Finish(s.(queue := MarkPersisted(s.queue, k.peer, k.id)), t)
       case _ => Finish(s, t))
    case Opened(p) => s.(open := s.open + {p})
    case Closed(p) => s.(open := s.open - {p})
    case Destroy => s.(queue := map[], open := {})
    case Crash => s.(queue := map[], open := {}, tasks := map[], ops := [], restored := None)
    case Restore => s.(ops := s.ops + [ReadAll])
    case Restored => s.(queue := EnqueueAll(s.queue, s.restored.value), restored := None)
  }

  ghost predicate IsRun(s: State, evs: seq<Event>)
    decreases |evs|
  {
    evs != [] ==> Enabled(s, evs[0]) && IsRun(Apply(s, evs[0]), evs[1..])
  }

  ghost function Exec(s: State, evs: seq<Event>): State
    requires IsRun(s, evs)
    decreases |evs|
  {
    if evs == [] then s else Exec(Apply(s, evs[0]), evs[1..])
  }

  ghost predicate Fresh(s: State) {
    s.queue == map[] && s.tasks == map[] && s.ops == [] && s.store == map[] && s.restored == None
    && s.sent == map[] && s.written == map[] && s.handed == {}
  }

  // ----- The invariant -----

  ghost predicate UniqueIds(s: seq<Entry>) {
    forall i, j :: 0 <= i < j < |s| ==> s[i].id != s[j].id
  }

  type Book = map<MsgId, Record>

  /** A chat that is waiting somewhere is the one that took its id. */
  ghost predicate IsSent(sent: Book, p: PeerId, id: MsgId, msg: Message) {
    Worthy(msg) ==> id in sent && sent[id] == Record(id, p, msg)
  }

  /** A queued chat is the one that took its id; what is flagged was written. */
  ghost predicate EntryOk(e: Entry, p: PeerId, sent: Book, written: Book) {
    IsSent(sent, p, e.id, e.msg) && (e.persisted ==> e.id in written)
  }

  ghost predicate QueueOk(q: Queues, sent: Book, written: Book) {
    forall p :: p in q ==> QueueOfOk(q[p], p, sent, written)
  }

  ghost predicate QueueOfOk(s: seq<Entry>, p: PeerId, sent: Book, written: Book) {
    UniqueIds(s) && forall i :: 0 <= i < |s| ==> EntryOk(s[i], p, sent, written)
  }

  ghost predicate TaskOk(s: State, k: Task) {
    && IsSent(s.sent, k.peer, k.id, k.msg)
    && (k.stage in {Deleting, Deleted, Updating} ==> k.id in s.handed)
    && (k.stage.Saved? ==> k.id in s.written)
    && (forall e :: e in k.rest ==> IsSent(s.sent, k.peer, e.id, e.msg))
  }

  ghost predicate OpOk(s: State, op: Op) {
    match op
    case Put(t, rec) =>
      && rec.id in s.sent && s.sent[rec.id] == rec
      && (t in s.tasks ==> s.tasks[t].id == rec.id && s.tasks[t].stage.Saving?)
    case Remove(t, id) =>
      id in s.handed && (t in s.tasks ==> s.tasks[t].id == id && s.tasks[t].stage.Deleting?)
    case ReadAll => true
  }

  /** Every record ever written is stored unchanged or was handed over. */
  ghost predicate NothingLost(s: State) {
    forall id :: id in s.written ==> (id in s.store && s.store[id] == s.written[id]) || id in s.handed
  }

  ghost predicate SentOk(s: State) {
    forall id :: id in s.sent ==> s.sent[id].id == id && Worthy(s.sent[id].msg)
  }

  ghost predicate StoreOk(s: State) {
    && (forall id :: id in s.store ==> id in s.written && s.store[id] == s.written[id])
    && (forall id :: id in s.written ==> id in s.sent && s.written[id] == s.sent[id] && s.written[id].id == id)
    && (s.restored.Some? ==> forall r :: r in s.restored.value ==> r.id in s.written && r == s.written[r.id])
  }

  ghost predicate TasksOk(s: State) {
    && (forall t :: t in s.tasks ==> t < s.nextTask && TaskOk(s, s.tasks[t]))
    && (forall op :: op in s.ops ==> OpOk(s, op) && (op.ReadAll? || op.task < s.nextTask))
    && (forall i, j :: 0 <= i < j < |s.ops| && !s.ops[i].ReadAll? && !s.ops[j].ReadAll? ==>
          s.ops[i].task != s.ops[j].task)
  }

  ghost predicate Inv(s: State) {
    QueueOk(s.queue, s.sent, s.written) && TasksOk(s) && SentOk(s) && StoreOk(s) && NothingLost(s)
  }

  // ----- The queue operations keep it -----

  lemma {:induction false} QueueGrows(q: Queues, sent: Book, written: Book, sent': Book, written': Book)
    requires QueueOk(q, sent, written)
    requires forall id :: id in sent ==> id in sent' && sent'[id] == sent[id]
    requires forall id :: id in written ==> id in written'
    ensures QueueOk(q, sent', written')
  {
    forall p | p in q ensures QueueOfOk(q[p], p, sent', written') {
      assert QueueOfOk(q[p], p, sent, written);
    }
  }

  lemma {:induction false} EnqueueOk(
    q: Queues, p: PeerId, id: MsgId, msg: Message, persisted: bool, sent: Book, written: Book)
    requires QueueOk(q, sent, written) && EntryOk(Entry(id, msg, persisted), p, sent, written)
    ensures QueueOk(Enqueue(q, p, id, msg, persisted), sent, written)
    ensures exists e :: e in QueueOf(Enqueue(q, p, id, msg, persisted), p) && e.id == id && (persisted ==> e.persisted)
  {
    var s := QueueOf(q, p);
    assert QueueOfOk(s, p, sent, written);
    var i := Position(s, id);
    var s' := QueueOf(Enqueue(q, p, id, msg, persisted), p);
    if i == -1 {
      assert s'[|s|] == Entry(id, msg, persisted);
    } else {
      assert s'[i].id == id && EntryOk(s[i], p, sent, written);
      assert s'[i] in s';
    }
    assert QueueOfOk(s', p, sent, written);
  }

  lemma {:induction false} DequeueOk(q: Queues, p: PeerId, id: MsgId, sent: Book, written: Book)
    requires QueueOk(q, sent, written)
    ensures QueueOk(Dequeue(q, p, id), sent, written)
    ensures forall e :: e in QueueOf(Dequeue(q, p, id), p) ==> e.id != id
  {
    var s := QueueOf(q, p);
    assert QueueOfOk(s, p, sent, written);
    var i := Position(s, id);
    if i >= 0 {
      var left := RemoveAt(s, i);
      assert QueueOfOk(left, p, sent, written);
      assert forall j :: 0 <= j < |left| ==> left[j].id != id;
    }
  }

  lemma {:induction false} MarkOk(q: Queues, p: PeerId, id: MsgId, sent: Book, written: Book)
    requires QueueOk(q, sent, written) && id in written
    ensures QueueOk(MarkPersisted(q, p, id), sent, written)
  {
    var s := QueueOf(q, p);
    assert QueueOfOk(s, p, sent, written);
    var i := Position(s, id);
    if i >= 0 {
      assert EntryOk(s[i], p, sent, written);
      assert QueueOfOk(s[i := s[i].(persisted := true)], p, sent, written);
    }
  }

  /** The peer's queue has an entry of this id, flagged as persisted. */
  ghost predicate Flagged(q: Queues, p: PeerId, id: MsgId) {
    exists e :: e in QueueOf(q, p) && e.id == id && e.persisted
  }

  lemma {:induction false} EnqueueKeepsFlagged(q: Queues, r: Record, peer: PeerId, id: MsgId)
    requires Flagged(q, peer, id)
    ensures Flagged(Enqueue(q, r.peer, r.id, r.msg, true), peer, id)
  {
    var e :| e in QueueOf(q, peer) && e.id == id && e.persisted;
    var s, q' := QueueOf(q, peer), Enqueue(q, r.peer, r.id, r.msg, true);
    var k :| 0 <= k < |s| && s[k] == e;
    var s' := QueueOf(q', peer);
    assert s'[k].id == id && s'[k].persisted;
    assert s'[k] in s';
  }

  lemma {:induction false} EnqueueAllOk(q: Queues, records: seq<Record>, sent: Book, written: Book)
    requires QueueOk(q, sent, written)
    requires forall r :: r in records ==> r.id in sent && sent[r.id] == r && r.id in written
    ensures QueueOk(EnqueueAll(q, records), sent, written)
    ensures forall p, id :: Flagged(q, p, id) ==> Flagged(EnqueueAll(q, records), p, id)
    ensures forall r :: r in records ==> Flagged(EnqueueAll(q, records), r.peer, r.id)
    decreases |records|
  {
    if records != [] {
      var r := records[0];
      var q1 := Enqueue(q, r.peer, r.id, r.msg, true);
      EnqueueOk(q, r.peer, r.id, r.msg, true, sent, written);
      EnqueueAllOk(q1, records[1..], sent, written);
      assert Flagged(q1, r.peer, r.id);
      forall p, id | Flagged(q, p, id) ensures Flagged(q1, p, id) { EnqueueKeepsFlagged(q, r, p, id); }
    }
  }

  // ----- Every event keeps the invariant -----

  ghost predicate Waiting(s: State, t: nat) {
    t in s.tasks && s.tasks[t].stage in {Saving, Deleting}
  }

  lemma {:induction false} NoOpFor(s: State, t: nat)
    requires TasksOk(s) && t in s.tasks && !Waiting(s, t)
    ensures forall op :: op in s.ops && !op.ReadAll? ==> op.task != t
  {
    forall op | op in s.ops && !op.ReadAll? ensures op.task != t {
      assert OpOk(s, op);
    }
  }

  lemma {:induction false} FinishOk(s: State, t: nat)
    requires TasksOk(s) && t in s.tasks && !Waiting(s, t)
    ensures TasksOk(Finish(s, t))
  {
    NoOpFor(s, t);
    var s' := Finish(s, t);
    var k := s.tasks[t];
    forall u | u in s'.tasks ensures u < s'.nextTask && TaskOk(s', s'.tasks[u]) {
      if u == t { assert k.rest[0] in k.rest; }
    }
    forall op | op in s'.ops ensures OpOk(s', op) && (op.ReadAll? || op.task < s'.nextTask) {
      assert OpOk(s, op);
    }
  }

  /** One more request, by a task that had none. */
  lemma {:induction false} IssueOk(s: State, t: nat, op: Op, stage: Stage)
    requires TasksOk(s) && t in s.tasks && !Waiting(s, t) && Worthy(s.tasks[t].msg)
    requires (op.Put? && op.task == t && op.rec.id == s.tasks[t].id && op.rec.id in s.sent
              && op.rec == s.sent[op.rec.id] && stage == Saving)
          || (op.Remove? && op.task == t && op.id == s.tasks[t].id && op.id in s.handed && stage == Deleting)
    ensures TasksOk(s.(ops := s.ops + [op], tasks := s.tasks[t := s.tasks[t].(stage := stage)]))
  {
    NoOpFor(s, t);
    var s' := s.(ops := s.ops + [op], tasks := s.tasks[t := s.tasks[t].(stage := stage)]);
    forall o | o in s'.ops ensures OpOk(s', o) && (o.ReadAll? || o.task < s'.nextTask) {
      if o in s.ops { assert OpOk(s, o); }
    }
    forall i, j | 0 <= i < j < |s'.ops| && !s'.ops[i].ReadAll? && !s'.ops[j].ReadAll?
      ensures s'.ops[i].task != s'.ops[j].task
    {
      assert s.ops[i] in s.ops;
    }
  }

  /** Tasks and requests stay sound when the histories grow and the queue, the
      store or the channels change. */
  lemma {:induction false} TasksCarry(s: State, s': State)
    requires TasksOk(s) && s'.tasks == s.tasks && s'.ops == s.ops && s'.nextTask >= s.nextTask
    requires forall id :: id in s.sent ==> id in s'.sent && s'.sent[id] == s.sent[id]
    requires s.handed <= s'.handed && s.written.Keys <= s'.written.Keys
    ensures TasksOk(s')
  {
    forall u | u in s'.tasks ensures u < s'.nextTask && TaskOk(s', s'.tasks[u]) { assert TaskOk(s, s.tasks[u]); }
    forall op | op in s'.ops ensures OpOk(s', op) && (op.ReadAll? || op.task < s'.nextTask) { assert OpOk(s, op); }
  }

  lemma {:induction false} HandOverKeeps(s: State, t: nat)
    requires Inv(s) && t in s.tasks && s.tasks[t].stage.Encrypting?
    ensures Inv(HandOver(s, t))
  {
    var k := s.tasks[t];
    if Worthy(k.msg) {
      var given := s.(handed := s.handed + {k.id});
      TasksCarry(s, given);
      IssueOk(given, t, Remove(t, k.id), Deleting);
    } else {
      DequeueOk(s.queue, k.peer, k.id, s.sent, s.written);
      RequeuedKeeps(s, t, Dequeue(s.queue, k.peer, k.id));
    }
  }

  lemma {:induction false} KeepKeeps(s: State, t: nat)
    requires Inv(s) && t in s.tasks && s.tasks[t].stage.Encrypting?
    ensures Inv(Keep(s, t))
  {
    var k := s.tasks[t];
    assert TaskOk(s, k);
    EnqueueOk(s.queue, k.peer, k.id, k.msg, false, s.sent, s.written);
    var queued := s.(queue := Enqueue(s.queue, k.peer, k.id, k.msg, false));
    TasksCarry(s, queued);
    FinishOk(queued, t);
    if Worthy(k.msg) { IssueOk(queued, t, Put(t, Record(k.id, k.peer, k.msg)), Saving); }
  }

  lemma {:induction false} SetStageOk(s: State, t: nat, stage: Stage)
    requires TasksOk(s)
    requires t in s.tasks && Waiting(s, t) ==> forall op :: op in s.ops && !op.ReadAll? ==> op.task != t
    requires t in s.tasks ==>
      && stage !in {Saving, Deleting}
      && (stage in {Deleted, Updating} ==> s.tasks[t].id in s.handed)
      && (stage.Saved? ==> s.tasks[t].id in s.written)
    ensures TasksOk(SetStage(s, t, stage))
  {
    if t in s.tasks {
      if !Waiting(s, t) { NoOpFor(s, t); }
      var s' := SetStage(s, t, stage);
      forall u | u in s'.tasks ensures TaskOk(s', s'.tasks[u]) { assert TaskOk(s, s.tasks[u]); }
      forall op | op in s'.ops ensures OpOk(s', op) { assert OpOk(s, op); }
    }
  }

  /** The oldest request leaves the line; its task has no other. */
  lemma {:induction false} PopOk(s: State)
    requires TasksOk(s) && s.ops != []
    ensures TasksOk(s.(ops := s.ops[1..]))
    ensures !s.ops[0].ReadAll? ==> forall op :: op in s.ops[1..] && !op.ReadAll? ==> op.task != s.ops[0].task
  {
    var s' := s.(ops := s.ops[1..]);
    assert forall i :: 0 <= i < |s'.ops| ==> s'.ops[i] == s.ops[i + 1];
    forall u | u in s'.tasks ensures TaskOk(s', s'.tasks[u]) { assert TaskOk(s, s.tasks[u]); }
    forall op | op in s'.ops ensures OpOk(s', op) && (op.ReadAll? || op.task < s'.nextTask) {
      assert op in s.ops && OpOk(s, op);
    }
  }

  lemma {:induction false} SettlePut(s: State, t: nat, rec: Record)
    requires Inv(s) && s.ops != [] && s.ops[0] == Put(t, rec)
    ensures Inv(Apply(s, Settle([])))
  {
    PopOk(s);
    var rest := s.(ops := s.ops[1..]);
    var put := rest.(store := s.store[rec.id := rec], written := s.written[rec.id := rec]);
    assert s.ops[0] in s.ops && OpOk(s, s.ops[0]);
    TasksCarry(rest, put);
    SetStageOk(put, t, Saved);
    QueueGrows(s.queue, s.sent, s.written, s.sent, put.written);
  }

  lemma {:induction false} SettleRemove(s: State, t: nat, id: MsgId)
    requires Inv(s) && s.ops != [] && s.ops[0] == Remove(t, id)
    ensures Inv(Apply(s, Settle([])))
  {
    PopOk(s);
    var rest := s.(ops := s.ops[1..]);
    var removed := rest.(store := s.store - {id});
    assert s.ops[0] in s.ops && OpOk(s, s.ops[0]);
    TasksCarry(rest, removed);
    SetStageOk(removed, t, Deleted);
  }

  lemma {:induction false} RecordsWritten(s: State, order: seq<MsgId>)
    requires StoreOk(s) && forall id :: id in order ==> id in s.store
    ensures forall r :: r in Records(s.store, order) ==>
      r.id in s.written && r == s.written[r.id] && r.id in s.sent && s.sent[r.id] == r
  {
  }

  lemma {:induction false} SettleRead(s: State, order: seq<MsgId>)
    requires Inv(s) && s.ops != [] && s.ops[0] == ReadAll && Enabled(s, Settle(order))
    ensures Inv(Apply(s, Settle(order)))
  {
    PopOk(s);
    var rest := s.(ops := s.ops[1..]);
    RecordsWritten(s, order);
    TasksCarry(rest, rest.(restored := Some(Records(s.store, order))));
  }

  lemma {:induction false} RefuseKeeps(s: State)
    requires Inv(s) && Enabled(s, Refuse)
    ensures Inv(Apply(s, Refuse))
  {
    PopOk(s);
    var rest := s.(ops := s.ops[1..]);
    assert s.ops[0] in s.ops && OpOk(s, s.ops[0]);
    if s.ops[0].Put? { SetStageOk(rest, s.ops[0].task, SaveFailed); }
    if s.ops[0].Remove? { SetStageOk(rest, s.ops[0].task, Deleted); }
  }

  lemma {:induction false} ContinueKeeps(s: State, t: nat)
    requires Inv(s) && Enabled(s, Continue(t))
    ensures Inv(Apply(s, Continue(t)))
  {
    match s.tasks[t].stage
    case Deleted => SetStageOk(s, t, Updating) by { assert TaskOk(s, s.tasks[t]); }
    case Updating => DequeuedKeeps(s, t);
    case Saved => MarkedKeeps(s, t);
    case _ => FinishOk(s, t);
  }

  /** A task ends (or moves on) after it rewrote the queue. */
  lemma {:induction false} RequeuedKeeps(s: State, t: nat, q: Queues)
    requires Inv(s) && t in s.tasks && !Waiting(s, t) && QueueOk(q, s.sent, s.written)
    ensures Inv(Finish(s.(queue := q), t))
  {
    var s1 := s.(queue := q);
    TasksCarry(s, s1);
    FinishOk(s1, t);
  }

  lemma {:induction false} DequeuedKeeps(s: State, t: nat)
    requires Inv(s) && t in s.tasks && s.tasks[t].stage.Updating?
    ensures Inv(Apply(s, Continue(t)))
  {
    var k := s.tasks[t];
    DequeueOk(s.queue, k.peer, k.id, s.sent, s.written);
    RequeuedKeeps(s, t, Dequeue(s.queue, k.peer, k.id));
  }

  lemma {:induction false} MarkedKeeps(s: State, t: nat)
    requires Inv(s) && t in s.tasks && s.tasks[t].stage.Saved?
    ensures Inv(Apply(s, Continue(t)))
  {
    var k := s.tasks[t];
    assert TaskOk(s, k);
    MarkOk(s.queue, k.peer, k.id, s.sent, s.written);
    RequeuedKeeps(s, t, MarkPersisted(s.queue, k.peer, k.id));
  }

  lemma {:induction false} StartKeeps(s: State, k: Task)
    requires TasksOk(s) && TaskOk(s, k) && k.stage.Encrypting?
    ensures TasksOk(s.(tasks := s.tasks[s.nextTask := k], nextTask := s.nextTask + 1))
  {
    var s' := s.(tasks := s.tasks[s.nextTask := k], nextTask := s.nextTask + 1);
    forall u | u in s'.tasks ensures u < s'.nextTask &&
      TaskOk(s', s'.tasks[u]) { if u != s.nextTask { assert TaskOk(s, s.tasks[u]); } }
    forall op | op in s'.ops ensures OpOk(s', op) && (op.ReadAll? || op.task < s'.nextTask) { assert OpOk(s, op); }
  }

  lemma {:induction false} NotedKeeps(s: State, r: Record)
    requires Inv(s) && r.id !in s.sent && Worthy(r.msg)
    ensures Inv(s.(sent := s.sent[r.id := r]))
  {
    var noted := s.(sent := s.sent[r.id := r]);
    TasksCarry(s, noted);
    QueueGrows(s.queue, s.sent, s.written, noted.sent, s.written);
  }

  lemma {:induction false} SendKeeps(s: State, p: PeerId, id: MsgId, msg: Message)
    requires Inv(s) && Enabled(s, Send(p, id, msg))
    ensures Inv(Apply(s, Send(p, id, msg)))
  {
    if Worthy(msg) {
      NotedKeeps(s, Record(id, p, msg));
      StartKeeps(s.(sent := s.sent[id := Record(id, p, msg)]), Task(p, id, msg, false, Encrypting, []));
    } else {
      StartKeeps(s, Task(p, id, msg, false, Encrypting, []));
    }
  }

  lemma {:induction false} DrainKeeps(s: State, p: PeerId)
    requires Inv(s) && Enabled(s, KeyExchange(p))
    ensures Inv(Apply(s, KeyExchange(p)))
  {
    var all := QueueOf(s.queue, p);
    assert QueueOfOk(all, p, s.sent, s.written);
    forall e | e in all ensures EntryOk(e, p, s.sent, s.written) { }
    StartKeeps(s, Task(p, all[0].id, all[0].msg, true, Encrypting, all[1..]));
  }

  lemma {:induction false} RestoredKeeps(s: State)
    requires Inv(s) && s.restored.Some?
    ensures Inv(Apply(s, Restored))
    ensures forall r :: r in s.restored.value ==> Flagged(Apply(s, Restored).queue, r.peer, r.id)
  {
    EnqueueAllOk(s.queue, s.restored.value, s.sent, s.written);
    TasksCarry(s, Apply(s, Restored));
  }

  lemma {:induction false} ResumeKeeps(s: State, t: nat, throws: bool)
    requires Inv(s) && Enabled(s, Resume(t, throws))
    ensures Inv(Apply(s, Resume(t, throws)))
  {
    if s.tasks[t].peer in s.open && !throws { HandOverKeeps(s, t); }
    else if s.tasks[t].fromQueue { FinishKeeps(s, t); }
    else { KeepKeeps(s, t); }
  }

  lemma {:induction false} FinishKeeps(s: State, t: nat)
    requires Inv(s) && t in s.tasks && !Waiting(s, t)
    ensures Inv(Finish(s, t))
  {
    FinishOk(s, t);
  }

  lemma {:induction false} SettleKeeps(s: State, order: seq<MsgId>)
    requires Inv(s) && Enabled(s, Settle(order))
    ensures Inv(Apply(s, Settle(order)))
  {
    match s.ops[0]
    case Put(t, rec) => SettlePut(s, t, rec);
    case Remove(t, id) => SettleRemove(s, t, id);
    case ReadAll => SettleRead(s, order);
  }

  /** What touches neither store nor tasks, and the queue at most by emptying it. */
  lemma {:induction false} QuietKeeps(s: State, ev: Event)
    requires Inv(s) && (ev.Opened? || ev.Closed? || ev.Destroy?)
    ensures Inv(Apply(s, ev))
  {
    TasksCarry(s, Apply(s, ev));
  }

  lemma {:induction false} CrashKeeps(s: State)
    requires Inv(s)
    ensures Inv(Apply(s, Crash))
  {
  }

  lemma {:induction false} InvStep(s: State, ev: Event)
    requires Inv(s) && Enabled(s, ev)
    ensures Inv(Apply(s, ev))
  {
    match ev
    case Send(p, id, msg) => SendKeeps(s, p, id, msg);
    case KeyExchange(p) => DrainKeeps(s, p);
    case Resume(t, throws) => ResumeKeeps(s, t, throws);
    case CipherFails(t) => FinishKeeps(s, t);
    case Settle(order) => SettleKeeps(s, order);
    case Refuse => RefuseKeeps(s);
    case Continue(t) => ContinueKeeps(s, t);
    case Opened(p) => QuietKeeps(s, ev);
    case Closed(p) => QuietKeeps(s, ev);
    case Destroy => QuietKeeps(s, ev);
    case Crash => CrashKeeps(s);
    case Restore => ReadKeeps(s);
    case Restored => RestoredKeeps(s);
  }

  lemma {:induction false} ReadKeeps(s: State)
    requires Inv(s)
    ensures Inv(Apply(s, Restore))
  {
    var s' := Apply(s, Restore);
    forall u | u in s'.tasks ensures TaskOk(s', s'.tasks[u]) { assert TaskOk(s, s.tasks[u]); }
    forall op | op in s'.ops ensures OpOk(s', op) { if op in s.ops { assert OpOk(s, op); } }
  }

  // ----- Whole runs, crashes included -----

  lemma {:induction false} InvOverRuns(s: State, evs: seq<Event>)
    requires Inv(s) && IsRun(s, evs)
    ensures Inv(Exec(s, evs))
    decreases |evs|
  {
    if evs != [] {
      InvStep(s, evs[0]);
      InvOverRuns(Apply(s, evs[0]), evs[1..]);
    }
  }

  /** In every run from an empty outbox, whatever interleaves and however often
      the page crashes: a record that was ever written is still stored unchanged,
      or its message was handed to an open channel; and a queue entry flagged as
      persisted is in the store or was handed over. */
  lemma {:induction false} NoWrittenChatIsLost(s: State, evs: seq<Event>)
    requires Fresh(s) && IsRun(s, evs)
    ensures var end := Exec(s, evs);
      && (forall id :: id in end.written ==>
        (id in end.store && id in end.sent && end.store[id] == end.sent[id]) || id in end.handed)
      && (forall p, e :: p in end.queue && e in end.queue[p] && e.persisted ==> e.id in end.store || e.id in end.handed)
  {
    InvOverRuns(s, evs);
    var end := Exec(s, evs);
    forall p, e | p in end.queue && e in end.queue[p] && e.persisted
      ensures e.id in end.store || e.id in end.handed
    {
      assert QueueOfOk(end.queue[p], p, end.sent, end.written);
    }
  }

  /** A record leaves the store only after its message was handed over, and is
      never changed while it stays. */
  lemma {:induction false} RecordLeavesOnlyHanded(s: State, ev: Event, id: MsgId)
    requires Inv(s) && Enabled(s, ev) && id in s.store
    ensures var s' := Apply(s, ev);
      if id in s'.store then s'.store[id] == s.store[id] else id in s'.handed
  {
    InvStep(s, ev);
    WrittenKept(s, ev, id);
    assert s.store[id] == s.written[id];
  }

  lemma {:induction false} WrittenOnlyBySettle(s: State, ev: Event)
    requires Enabled(s, ev) && !ev.Settle?
    ensures Apply(s, ev).written == s.written && Apply(s, ev).store == s.store
  {
    match ev
    case Resume(t, throws) =>
    case Refuse =>
    case Continue(t) =>
    case _ =>
  }

  lemma {:induction false} WrittenKept(s: State, ev: Event, id: MsgId)
    requires Inv(s) && Enabled(s, ev) && id in s.written
    ensures id in Apply(s, ev).written && Apply(s, ev).written[id] == s.written[id]
  {
    if ev.Settle? {
      if s.ops[0].Put? { assert s.ops[0] in s.ops && OpOk(s, s.ops[0]); }
    } else {
      WrittenOnlyBySettle(s, ev);
    }
  }

  // ----- The queue as PeerService updates it -----

  class MessageQueue {
    var messageQueue: Queues

    constructor ()
      ensures messageQueue == map[]
    {
      messageQueue := map[];
    }

    method FindIndex(queue: seq<Entry>, id: MsgId) returns (idx: int)
      ensures idx == Position(queue, id)
    {
      idx := 0;
      while idx < |queue|
        invariant 0 <= idx <= |queue|
        invariant forall j :: 0 <= j < idx ==> queue[j].id != id
      {
        if queue[idx].id == id { return; }
        idx := idx + 1;
      }
      idx := -1;
    }

    method EnqueueMessage(peer: PeerId, id: MsgId, msg: Message, persisted: bool)
      modifies this
      ensures messageQueue == Enqueue(old(messageQueue), peer, id, msg, persisted)
    {
      var queue := QueueOf(messageQueue, peer);
      var idx := FindIndex(queue, id);
      if idx == -1 {
        messageQueue := messageQueue[peer := queue + [Entry(id, msg, persisted)]];
      } else if persisted {
        messageQueue := messageQueue[peer := queue[idx := queue[idx].(persisted := true)]];
      }
    }

    method RemoveQueuedMessage(peer: PeerId, id: MsgId)
      modifies this
      ensures messageQueue == Dequeue(old(messageQueue), peer, id)
    {
      if peer !in messageQueue { return; }
      var queue := messageQueue[peer];
      var idx := FindIndex(queue, id);
      if idx == -1 { return; }
      assert queue[..idx] + queue[idx + 1..] == RemoveAt(queue, idx);
      queue := queue[..idx] + queue[idx + 1..];
      messageQueue := if queue == [] then messageQueue - {peer} else messageQueue[peer := queue];
    }

    /** The part of destroy that concerns the queue. */
    method Destroy()
      modifies this
      ensures messageQueue == map[]
    {
      messageQueue := map[];
    }

    /** The part of restorePendingMessages after the records were read. */
    method RestoreAll(pending: seq<Record>)
      modifies this
      ensures messageQueue == EnqueueAll(old(messageQueue), pending)
    {
      var i := 0;
      while i < |pending|
        invariant 0 <= i <= |pending|
        invariant EnqueueAll(messageQueue, pending[i..]) == EnqueueAll(old(messageQueue), pending)
      {
        assert pending[i..][1..] == pending[i + 1..];
        EnqueueMessage(pending[i].peer, pending[i].id, pending[i].msg, true);
        i := i + 1;
      }
    }
  }
}
