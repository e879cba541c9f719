/** The message and conversation stores: saving, deleting, and keeping each
    conversation's last message in step. */
module Conversations {
  import opened Prelude

  type MsgId = string

  datatype Msg = Msg(id: MsgId, conversation: PeerId, sender: PeerId, ts: int, content: string)
  datatype Conversation = Conversation(last: Msg, unread: nat, updatedAt: int)

  /** The three object stores, whole operations apart. */
  datatype Db = Db(messages: map<MsgId, Msg>, conversations: map<PeerId, Conversation>, blobs: set<MsgId>)

  /** Order of string keys in an IndexedDB index. */
  predicate Precedes(a: MsgId, b: MsgId) {
    b != "" && (a == "" || a[0] < b[0] || (a[0] == b[0] && Precedes(a[1..], b[1..])))
  }

  /** The keys agree up to k, where a ends or has the smaller character. */
  ghost predicate Undercuts(a: MsgId, b: MsgId, k: nat) {
    k < |b| && k <= |a| && a[..k] == b[..k] && (k == |a| || a[k] < b[k])
  }

  lemma {:induction false} UndercutsLater(a: MsgId, b: MsgId, k: nat)
    requires a != "" && b != "" && a[0] == b[0]
    ensures Undercuts(a, b, k + 1) <==> Undercuts(a[1..], b[1..], k)
  {
    if k <= |a| - 1 && k < |b| - 1 {
      assert a[..k + 1] == [a[0]] + a[1..][..k] && b[..k + 1] == [b[0]] + b[1..][..k];
    }
  }

  /** The first place where the keys differ decides; a beginning comes first. */
  lemma {:induction false} PrecedesIff(a: MsgId, b: MsgId)
    ensures Precedes(a, b) <==> exists k: nat :: Undercuts(a, b, k)
  {
    if a != "" && b != "" && a[0] == b[0] {
      PrecedesIff(a[1..], b[1..]);
      if k: nat :| Undercuts(a[1..], b[1..], k) { UndercutsLater(a, b, k); }
      if k: nat :| Undercuts(a, b, k) {
        assert k > 0;
        UndercutsLater(a, b, k - 1);
      }
    } else {
      assert Precedes(a, b) ==> Undercuts(a, b, 0);
      forall k: nat | k > 0 ensures !Undercuts(a, b, k) {
        if k <= |a| && k <= |b| { assert a[..k][0] == a[0] && b[..k][0] == b[0]; }
      }
    }
  }

  lemma {:induction false} PrecedesTotal(a: MsgId, b: MsgId)
    requires a != b
    ensures Precedes(a, b) || Precedes(b, a)
  {
    if a != "" && b != "" && a[0] == b[0] {
      assert a == [a[0]] + a[1..] && b == [b[0]] + b[1..];
      PrecedesTotal(a[1..], b[1..]);
    }
  }

  lemma {:induction false} PrecedesTransitive(a: MsgId, b: MsgId, c: MsgId)
    requires Precedes(a, b) && Precedes(b, c)
    ensures Precedes(a, c)
  {
    if a != "" && a[0] == b[0] && b[0] == c[0] { PrecedesTransitive(a[1..], b[1..], c[1..]); }
  }

  function In(db: Db, c: PeerId): set<MsgId> {
    set id | id in db.messages && db.messages[id].conversation == c
  }

  /** A newest message of the conversation. */
  ghost predicate Newest(db: Db, c: PeerId, m: Msg) {
    && m.id in db.messages && db.messages[m.id] == m && m.conversation == c
    && forall id :: id in In(db, c) ==> db.messages[id].ts <= m.ts
  }

  /** The newest message that a descending sort of the index puts first: among
      equal timestamps the one with the smallest id. */
  ghost predicate First(db: Db, c: PeerId, m: Msg) {
    && Newest(db, c, m)
    && forall id :: id in In(db, c) && db.messages[id].ts == m.ts && id != m.id ==> Precedes(m.id, id)
  }

  /** Descending timestamps, then ascending ids. */
  predicate SortsBefore(a: Msg, b: Msg) {
    a.ts > b.ts || (a.ts == b.ts && Precedes(a.id, b.id))
  }

  lemma {:induction false} SortsTransitive(a: Msg, b: Msg, c: Msg)
    requires SortsBefore(a, b) && SortsBefore(b, c)
    ensures SortsBefore(a, c)
  {
    if a.ts == b.ts && b.ts == c.ts { PrecedesTransitive(a.id, b.id, c.id); }
  }

  lemma {:induction false} SortsTotal(a: Msg, b: Msg)
    requires a.id != b.id
    ensures SortsBefore(a, b) || SortsBefore(b, a)
  {
    PrecedesTotal(a.id, b.id);
  }

  // ----- The operations -----

  function Saved(db: Db, m: Msg, now: int): Db {
    var c := m.conversation;
    var unread := (if c in db.conversations then db.conversations[c].unread else 0) + if m.sender == c then 1 else 0;
    db.(messages := db.messages[m.id := m], conversations := db.conversations[c := Conversation(m, unread, now)])
  }

  ghost predicate Refreshed(db: Db, db': Db, c: PeerId) {
    && db'.messages == db.messages && db'.blobs == db.blobs
    && if c !in db.conversations then db'.conversations == db.conversations
       else if In(db, c) == {} then db'.conversations == db.conversations - {c}
       else exists last ::
         First(db, c, last)
         && db'.conversations == db.conversations[c := Conversation(last, db.conversations[c].unread, last.ts)]
  }

  function Dropped(db: Db, ids: set<MsgId>): Db {
    db.(messages := db.messages - ids, blobs := db.blobs - ids)
  }

  function Marked(db: Db, c: PeerId, read: Option<Conversation>): Db {
    if read.None? then db else db.(conversations := db.conversations[c := read.value.(unread := 0)])
  }

  datatype Event =
    | Save(m: Msg, now: int)
    | SaveBlob(id: MsgId)
    | Delete(id: MsgId)
    | DeleteAll(c: PeerId)
    | MarkRead(c: PeerId, read: Option<Conversation>)   // writes back what an earlier transaction read

  ghost predicate Step(db: Db, ev: Event, db': Db) {
    match ev
    case Save(m, now) => db' == Saved(db, m, now)
    case SaveBlob(id) => db' == db.(blobs := db.blobs + {id})
    case Delete(id) =>
      // An empty conversation id is falsy, so nothing is refreshed for it.
      if id in db.messages && db.messages[id].conversation != [] then
        Refreshed(Dropped(db, {id}), db', db.messages[id].conversation)
      else db' == Dropped(db, {id})
    case DeleteAll(c) => Refreshed(Dropped(db, In(db, c)), db', c)
    case MarkRead(c, read) => db' == Marked(db, c, read)
  }

  // ----- The invariant -----

  ghost predicate Keyed(db: Db) {
    forall id :: id in db.messages ==> db.messages[id].id == id
  }

  /** A conversation exists iff it has a stored message, and its last message is
      one of them. */
  ghost predicate InStep(db: Db) {
    && Keyed(db)
    && (forall id :: id in db.messages ==> db.messages[id].conversation in db.conversations)
    && (forall c :: c in db.conversations ==> LastStored(db, c))
  }

  ghost predicate LastStored(db: Db, c: PeerId)
    requires c in db.conversations
  {
    var last := db.conversations[c].last;
    last.id in db.messages && db.messages[last.id] == last && last.conversation == c
  }

  /** The last message is a newest one. */
  ghost predicate LastIsNewest(db: Db) {
    forall c :: c in db.conversations ==> Newest(db, c, db.conversations[c].last)
  }

  lemma {:induction false} ExistsIffHasMessage(db: Db, c: PeerId)
    requires InStep(db)
    ensures c in db.conversations <==> In(db, c) != {}
  {
    if c in db.conversations {
      assert LastStored(db, c);
      assert db.conversations[c].last.id in In(db, c);
    }
  }

  lemma {:induction false} RefreshKeeps(db: Db, db': Db, c: PeerId)
    requires Refreshed(db, db', c) && Keyed(db)
    requires forall id :: id in db.messages ==> db.messages[id].conversation in db.conversations
    requires forall d :: d in db.conversations && d != c ==> LastStored(db, d)
    ensures InStep(db')
    ensures (forall d :: d in db.conversations && d != c ==> Newest(db, d, db.conversations[d].last)) ==>
      LastIsNewest(db')
  {
    forall id | id in db'.messages ensures db'.messages[id].conversation in db'.conversations {
      if db'.messages[id].conversation == c { assert id in In(db, c); }
    }
    forall d | d in db'.conversations ensures LastStored(db', d) {
      if d != c { assert LastStored(db, d); }
    }
    if forall d :: d in db.conversations && d != c ==> Newest(db, d, db.conversations[d].last) {
      forall d | d in db'.conversations ensures Newest(db', d, db'.conversations[d].last) {
        assert In(db', d) == In(db, d);
      }
    }
  }

  /** Deleting this message takes the last one of the nameless conversation away
      without a refresh. */
  ghost predicate Unrefreshed(db: Db, ev: Event) {
    && ev.Delete? && ev.id in db.messages && db.messages[ev.id].conversation == []
    && [] in db.conversations && db.conversations[[]].last.id == ev.id
  }

  lemma {:induction false} DropKeepsOthers(db: Db, ids: set<MsgId>, c: PeerId, d: PeerId)
    requires InStep(db) && d in db.conversations && d != c
    requires ids <= In(db, c)
    ensures LastStored(Dropped(db, ids), d)
    ensures Newest(db, d, db.conversations[d].last) ==> Newest(Dropped(db, ids), d, db.conversations[d].last)
  {
    assert LastStored(db, d);
    assert In(Dropped(db, ids), d) == In(db, d);
  }

  /** Deleting an unknown id, or a message of the nameless conversation other
      than its last. */
  lemma {:induction false} QuietDeletionKeeps(db: Db, id: MsgId, db': Db)
    requires InStep(db) && db' == Dropped(db, {id}) && !Unrefreshed(db, Delete(id))
    requires id !in db.messages || db.messages[id].conversation == []
    ensures InStep(db')
    ensures LastIsNewest(db) ==> LastIsNewest(db')
  {
    forall d | d in db'.conversations
      ensures LastStored(db', d) && (Newest(db, d, db.conversations[d].last) ==>
        Newest(db', d, db'.conversations[d].last))
    {
      assert LastStored(db, d);
      assert In(db', d) == In(db, d) - {id};
    }
  }

  /** Dropping messages of one conversation and refreshing it. */
  lemma {:induction false} RefreshedDeletionKeeps(db: Db, ids: set<MsgId>, c: PeerId, db': Db)
    requires InStep(db) && ids <= In(db, c) && Refreshed(Dropped(db, ids), db', c)
    ensures InStep(db')
    ensures LastIsNewest(db) ==> LastIsNewest(db')
  {
    var mid := Dropped(db, ids);
    forall d | d in mid.conversations && d != c
      ensures LastStored(mid, d) && (Newest(db, d, db.conversations[d].last) ==>
        Newest(mid, d, mid.conversations[d].last))
    {
      DropKeepsOthers(db, ids, c, d);
    }
    RefreshKeeps(mid, db', c);
  }

  /** A deletion keeps the conversations in step exactly when the one it touches
      is refreshed or keeps its last message; the newest stay newest then. */
  lemma {:induction false} DeletionKeepsIff(db: Db, ev: Event, db': Db)
    requires InStep(db) && Step(db, ev, db') && (ev.Delete? || ev.DeleteAll?)
    ensures InStep(db') <==> !Unrefreshed(db, ev)
    ensures LastIsNewest(db) && !Unrefreshed(db, ev) ==> LastIsNewest(db')
  {
    if Unrefreshed(db, ev) {
      assert !LastStored(db', []);
    } else if ev.DeleteAll? {
      RefreshedDeletionKeeps(db, In(db, ev.c), ev.c, db');
    } else if ev.id in db.messages && db.messages[ev.id].conversation != [] {
      RefreshedDeletionKeeps(db, {ev.id}, db.messages[ev.id].conversation, db');
    } else {
      QuietDeletionKeeps(db, ev.id, db');
    }
  }

  /** Saving takes the last message of another conversation away by reusing its id. */
  ghost predicate TakesAway(db: Db, m: Msg) {
    && m.id in db.messages && db.messages[m.id].conversation != m.conversation
    && db.messages[m.id].conversation in db.conversations
    && db.conversations[db.messages[m.id].conversation].last.id == m.id
  }

  lemma {:induction false} SaveKeepsIff(db: Db, m: Msg, now: int)
    requires InStep(db)
    ensures InStep(Saved(db, m, now)) <==> !TakesAway(db, m)
  {
    var db' := Saved(db, m, now);
    if TakesAway(db, m) {
      var d := db.messages[m.id].conversation;
      assert d in db'.conversations && !LastStored(db', d);
    } else {
      forall d | d in db'.conversations ensures LastStored(db', d) {
        if d != m.conversation { assert LastStored(db, d); }
      }
    }
  }

  lemma {:induction false} SaveKeepsOthersNewest(db: Db, m: Msg, now: int, d: PeerId)
    requires InStep(db) && m.id !in db.messages && d in db.conversations && d != m.conversation
    requires Newest(db, d, db.conversations[d].last)
    ensures Newest(Saved(db, m, now), d, db.conversations[d].last)
  {
    assert In(Saved(db, m, now), d) == In(db, d);
  }

  lemma {:induction false} SavedIsNewestIff(db: Db, m: Msg, now: int)
    requires InStep(db) && LastIsNewest(db) && m.id !in db.messages
    ensures Newest(Saved(db, m, now), m.conversation, m) <==>
      (m.conversation in db.conversations ==> db.conversations[m.conversation].last.ts <= m.ts)
  {
    var db', c := Saved(db, m, now), m.conversation;
    ExistsIffHasMessage(db, c);
    assert In(db', c) == In(db, c) + {m.id};
    if c in db.conversations {
      var last := db.conversations[c].last;
      assert Newest(db, c, last) && last.id in In(db', c);
      assert db'.messages[last.id] == last;
      if last.ts <= m.ts {
        forall id | id in In(db', c) ensures db'.messages[id].ts <= m.ts {
          if id != m.id { assert db.messages[id].ts <= last.ts; }
        }
      }
    }
  }

  /** With a fresh id, the last message stays the newest exactly when the saved
      one is not older than what its conversation showed as last. */
  lemma {:induction false} SaveKeepsNewestIff(db: Db, m: Msg, now: int)
    requires InStep(db) && LastIsNewest(db) && m.id !in db.messages
    ensures LastIsNewest(Saved(db, m, now)) <==>
      (m.conversation in db.conversations ==> db.conversations[m.conversation].last.ts <= m.ts)
  {
    var db' := Saved(db, m, now);
    SavedIsNewestIff(db, m, now);
    assert db'.conversations[m.conversation].last == m;
    forall d | d in db'.conversations && d != m.conversation ensures Newest(db', d, db'.conversations[d].last) {
      SaveKeepsOthersNewest(db, m, now, d);
    }
  }

  // ----- Marking a conversation as read -----

  /** The record that is written back shows a last message that is stored no more. */
  ghost predicate Outdated(db: Db, c: PeerId, read: Option<Conversation>) {
    read.Some? && var last := read.value.last;
      !(last.id in db.messages && db.messages[last.id] == last && last.conversation == c)
  }

  /** Reading and writing back are two transactions. Whatever came between them,
      the tables stay in step exactly when the last message that was read is
      still there, and the last messages stay newest exactly when it is a newest. */
  lemma {:induction false} MarkKeepsIff(db: Db, c: PeerId, read: Option<Conversation>)
    requires InStep(db)
    ensures InStep(Marked(db, c, read)) <==> !Outdated(db, c, read)
    ensures LastIsNewest(db) ==>
      (LastIsNewest(Marked(db, c, read)) <==> (read.Some? ==> Newest(db, c, read.value.last)))
  {
    var db' := Marked(db, c, read);
    if Outdated(db, c, read) {
      assert c in db'.conversations && !LastStored(db', c);
    } else {
      forall d | d in db'.conversations ensures LastStored(db', d) {
        if d != c { assert LastStored(db, d); }
      }
    }
    assert forall d :: In(db', d) == In(db, d);
    assert forall d, m :: Newest(db', d, m) <==> Newest(db, d, m);
    if read.Some? { assert db'.conversations[c].last == read.value.last; }
  }

  /** A message that arrives between the two transactions is stored, and yet its
      conversation shows an older last message and nothing unread. */
  lemma {:induction false} ArrivalWhileMarking(db: Db, c: PeerId, m: Msg, now: int)
    requires InStep(db) && c in db.conversations && m.conversation == c && m.sender == c && m.id !in db.messages
    ensures var read := db.conversations[c]; var db' := Marked(Saved(db, m, now), c, Some(read));
      && InStep(db') && m.id in In(db', c)
      && db'.conversations[c].last == read.last != m && db'.conversations[c].unread == 0
  {
    assert LastStored(db, c);
    SaveKeepsIff(db, m, now);
    MarkKeepsIff(Saved(db, m, now), c, Some(db.conversations[c]));
  }

  /** A conversation deleted between the two transactions comes back empty. */
  lemma {:induction false} DeletionWhileMarking(db: Db, c: PeerId, gone: Db)
    requires InStep(db) && c in db.conversations && Step(db, DeleteAll(c), gone)
    ensures var db' := Marked(gone, c, Some(db.conversations[c]));
      c in db'.conversations && In(db', c) == {} && !InStep(db')
  {
    assert LastStored(db, c);
    DeletedConversationIsGone(db, c, gone);
    DeletionKeepsIff(db, DeleteAll(c), gone);
    assert db.conversations[c].last.id in In(db, c);
    MarkKeepsIff(gone, c, Some(db.conversations[c]));
    assert In(Marked(gone, c, Some(db.conversations[c])), c) == In(gone, c);
  }

  // ----- Whole runs -----

  ghost predicate IsRun(dbs: seq<Db>, evs: seq<Event>) {
    |dbs| == |evs| + 1 && forall i :: 0 <= i < |evs| ==> Step(dbs[i], evs[i], dbs[i + 1])
  }

  /** The step takes the last message of a conversation away without a refresh, or
      writes back one that is gone. */
  ghost predicate Breaks(db: Db, ev: Event) {
    match ev
    case Save(m, _) => TakesAway(db, m)
    case Delete(_) => Unrefreshed(db, ev)
    case MarkRead(c, read) => Outdated(db, c, read)
    case _ => false
  }

  lemma {:induction false} StepKeepsIff(db: Db, ev: Event, db': Db)
    requires InStep(db) && Step(db, ev, db')
    ensures InStep(db') <==> !Breaks(db, ev)
  {
    match ev
    case Save(m, now) => SaveKeepsIff(db, m, now);
    case SaveBlob(_) => assert forall c :: c in db.conversations ==> LastStored(db, c);
    case MarkRead(c, read) => MarkKeepsIff(db, c, read);
    case _ => DeletionKeepsIff(db, ev, db');
  }

  lemma {:induction false} InStepUpTo(dbs: seq<Db>, evs: seq<Event>, i: nat)
    requires IsRun(dbs, evs) && InStep(dbs[0]) && i <= |evs|
    requires forall j :: 0 <= j < i ==> !Breaks(dbs[j], evs[j])
    ensures InStep(dbs[i])
  {
    if i > 0 {
      InStepUpTo(dbs, evs, i - 1);
      StepKeepsIff(dbs[i - 1], evs[i - 1], dbs[i]);
    }
  }

  /** Over every sequence of whole operations the tables are in step all along
      exactly when no operation takes a last message away. Timestamps play no
      part. */
  lemma {:induction false} InStepThroughoutIff(dbs: seq<Db>, evs: seq<Event>)
    requires IsRun(dbs, evs) && InStep(dbs[0])
    ensures (forall i :: 0 <= i <= |evs| ==> InStep(dbs[i])) <==>
      (forall i :: 0 <= i < |evs| ==> !Breaks(dbs[i], evs[i]))
  {
    if forall i :: 0 <= i < |evs| ==> !Breaks(dbs[i], evs[i]) {
      forall i | 0 <= i <= |evs| ensures InStep(dbs[i]) { InStepUpTo(dbs, evs, i); }
    }
    if forall i :: 0 <= i <= |evs| ==> InStep(dbs[i]) {
      forall i | 0 <= i < |evs| ensures !Breaks(dbs[i], evs[i]) { StepKeepsIff(dbs[i], evs[i], dbs[i + 1]); }
    }
  }

  /** A saved id is new, or was used in the same conversation; no message of the
      nameless conversation is deleted by itself; marking writes back a last message
      that is still the last. */
  ghost predicate Proper(db: Db, ev: Event) {
    match ev
    case Save(m, _) => m.id in db.messages ==> db.messages[m.id].conversation == m.conversation
    case Delete(id) => id in db.messages ==> db.messages[id].conversation != []
    case MarkRead(c, read) => read.Some? ==> c in db.conversations && db.conversations[c].last == read.value.last
    case _ => true
  }

  lemma {:induction false} ProperUpTo(dbs: seq<Db>, evs: seq<Event>, i: nat)
    requires IsRun(dbs, evs) && InStep(dbs[0]) && i <= |evs|
    requires forall j :: 0 <= j < |evs| ==> Proper(dbs[j], evs[j])
    ensures InStep(dbs[i])
  {
    if i > 0 {
      ProperUpTo(dbs, evs, i - 1);
      var ev := evs[i - 1];
      if ev.MarkRead? && ev.read.Some? { assert LastStored(dbs[i - 1], ev.c); }
      StepKeepsIff(dbs[i - 1], ev, dbs[i]);
    }
  }

  /** After every such sequence a conversation exists iff it has a stored
      message, and its last message is one of its own. */
  lemma {:induction false} InStepOverRuns(dbs: seq<Db>, evs: seq<Event>, c: PeerId)
    requires IsRun(dbs, evs) && InStep(dbs[0]) && forall i :: 0 <= i < |evs| ==> Proper(dbs[i], evs[i])
    ensures c in dbs[|evs|].conversations <==> In(dbs[|evs|], c) != {}
    ensures c in dbs[|evs|].conversations ==> LastStored(dbs[|evs|], c)
  {
    ProperUpTo(dbs, evs, |evs|);
    ExistsIffHasMessage(dbs[|evs|], c);
  }

  // ----- The newest message -----

  /** A saved message is not older than what its conversation shows as last, and
      marking writes back a newest one. */
  ghost predicate NotOlder(db: Db, ev: Event) {
    match ev
    case Save(m, _) => m.conversation in db.conversations ==> db.conversations[m.conversation].last.ts <= m.ts
    case MarkRead(c, read) => read.Some? ==> Newest(db, c, read.value.last)
    case _ => true
  }

  ghost predicate FreshSave(db: Db, ev: Event) { ev.Save? ==> ev.m.id !in db.messages }

  lemma {:induction false} StepKeepsNewestIff(db: Db, ev: Event, db': Db)
    requires Step(db, ev, db') && InStep(db) && LastIsNewest(db) && !Breaks(db, ev) && FreshSave(db, ev)
    ensures LastIsNewest(db') <==> NotOlder(db, ev)
  {
    match ev
    case Save(m, now) => SaveKeepsNewestIff(db, m, now);
    case SaveBlob(_) =>
      forall c | c in db.conversations ensures Newest(db', c, db'.conversations[c].last) {
        assert In(db', c) == In(db, c);
      }
    case MarkRead(c, read) => MarkKeepsIff(db, c, read);
    case _ => DeletionKeepsIff(db, ev, db');
  }

  lemma {:induction false} NewestUpTo(dbs: seq<Db>, evs: seq<Event>, i: nat)
    requires IsRun(dbs, evs) && InStep(dbs[0]) && LastIsNewest(dbs[0]) && i <= |evs|
    requires forall j :: 0 <= j < i ==> !Breaks(dbs[j], evs[j]) && FreshSave(dbs[j], evs[j]) && NotOlder(dbs[j], evs[j])
    ensures LastIsNewest(dbs[i])
  {
    if i > 0 {
      NewestUpTo(dbs, evs, i - 1);
      InStepUpTo(dbs, evs, i - 1);
      StepKeepsNewestIff(dbs[i - 1], evs[i - 1], dbs[i]);
    }
  }

  /** With fresh ids, the last message of every conversation is its newest all
      along exactly when every save comes in timestamp order and no marking writes
      an older last message back. */
  lemma {:induction false} NewestThroughoutIff(dbs: seq<Db>, evs: seq<Event>)
    requires IsRun(dbs, evs) && InStep(dbs[0]) && LastIsNewest(dbs[0])
    requires forall i :: 0 <= i < |evs| ==> !Breaks(dbs[i], evs[i]) && FreshSave(dbs[i], evs[i])
    ensures (forall i :: 0 <= i <= |evs| ==> LastIsNewest(dbs[i]))
       <==> (forall i :: 0 <= i < |evs| ==> NotOlder(dbs[i], evs[i]))
  {
    if forall i :: 0 <= i < |evs| ==> NotOlder(dbs[i], evs[i]) {
      forall i | 0 <= i <= |evs| ensures LastIsNewest(dbs[i]) { NewestUpTo(dbs, evs, i); }
    }
    if forall i :: 0 <= i <= |evs| ==> LastIsNewest(dbs[i]) {
      forall i | 0 <= i < |evs| ensures NotOlder(dbs[i], evs[i]) {
        InStepUpTo(dbs, evs, i);
        StepKeepsNewestIff(dbs[i], evs[i], dbs[i + 1]);
      }
    }
  }

  // ----- The unread count -----

  function Unread(db: Db, c: PeerId): nat {
    if c in db.conversations then db.conversations[c].unread else 0
  }

  /** How many messages the partner of the conversation wrote. */
  function Incoming(evs: seq<Event>, c: PeerId): nat {
    if evs == [] then 0
    else
      var ev := evs[|evs| - 1];
      Incoming(evs[..|evs| - 1], c) + if ev.Save? && ev.m.conversation == c && ev.m.sender == c then 1 else 0
  }

  predicate Marks(ev: Event, c: PeerId) { ev.MarkRead? && ev.c == c && ev.read.Some? }

  lemma {:induction false} UnreadStep(db: Db, ev: Event, db': Db, c: PeerId)
    requires Step(db, ev, db') && (c in db.conversations ==> c in db'.conversations)
    ensures Unread(db', c) == if Marks(ev, c) then 0 else Unread(db, c) + Incoming([ev], c)
  {
    assert [ev][..0] == [];
  }

  /** As long as a conversation does not vanish and is not marked as read, its
      unread count grows by one for every message its partner wrote and by nothing
      else: own messages, deletions and files leave it as it is. */
  lemma {:induction false} UnreadAddsUp(dbs: seq<Db>, evs: seq<Event>, c: PeerId)
    requires IsRun(dbs, evs)
    requires forall i :: 0 <= i < |evs| && c in dbs[i].conversations ==> c in dbs[i + 1].conversations
    requires forall i :: 0 <= i < |evs| ==> !Marks(evs[i], c)
    ensures Unread(dbs[|evs|], c) == Unread(dbs[0], c) + Incoming(evs, c)
  {
    if evs != [] {
      var n := |evs| - 1;
      assert IsRun(dbs[..n + 1], evs[..n]);
      UnreadAddsUp(dbs[..n + 1], evs[..n], c);
      UnreadStep(dbs[n], evs[n], dbs[n + 1], c);
      assert [evs[n]][..0] == [];
    }
  }

  /** After a conversation was marked as read it counts what arrived since. */
  lemma {:induction false} UnreadSinceMark(dbs: seq<Db>, evs: seq<Event>, c: PeerId)
    requires IsRun(dbs, evs) && evs != [] && Marks(evs[0], c)
    requires forall i :: 0 <= i < |evs| && c in dbs[i].conversations ==> c in dbs[i + 1].conversations
    requires forall i :: 0 < i < |evs| ==> !Marks(evs[i], c)
    ensures Unread(dbs[|evs|], c) == Incoming(evs[1..], c)
  {
    UnreadStep(dbs[0], evs[0], dbs[1], c);
    UnreadAddsUp(dbs[1..], evs[1..], c);
  }

  // ----- Inputs that break it -----

  /** A conversation "q" whose only message is saved again under another one. */
  lemma {:induction false} ReusedIdBreaks(p: PeerId, q: PeerId, id: MsgId)
    requires p != q
    ensures var db := Saved(Db(map[], map[], {}), Msg(id, q, q, 0, "first"), 0);
      InStep(db) && !InStep(Saved(db, Msg(id, p, p, 1, "second"), 1))
  {
    var none := Db(map[], map[], {});
    SaveKeepsIff(none, Msg(id, q, q, 0, "first"), 0);
    var db := Saved(none, Msg(id, q, q, 0, "first"), 0);
    SaveKeepsIff(db, Msg(id, p, p, 1, "second"), 1);
  }

  /** The nameless conversation outlives its only message. */
  lemma {:induction false} NamelessConversationStays(id: MsgId)
    ensures var db := Saved(Db(map[], map[], {}), Msg(id, [], [], 0, "only"), 0); var db' := Dropped(db, {id});
      InStep(db) && Step(db, Delete(id), db') && !InStep(db')
  {
    var none := Db(map[], map[], {});
    SaveKeepsIff(none, Msg(id, [], [], 0, "only"), 0);
    var db := Saved(none, Msg(id, [], [], 0, "only"), 0);
    DeletionKeepsIff(db, Delete(id), Dropped(db, {id}));
  }

  /** Deleting a conversation leaves none of its messages or their blobs, and
      touches nobody else's. */
  lemma {:induction false} DeletedConversationIsGone(db: Db, c: PeerId, db': Db)
    requires InStep(db) && Step(db, DeleteAll(c), db')
    ensures c !in db'.conversations && In(db', c) == {}
    ensures forall id :: id in In(db, c) ==> id !in db'.messages && id !in db'.blobs
    ensures forall id :: id in db.messages && id !in In(db, c) ==>
      id in db'.messages && db'.messages[id] == db.messages[id]
    ensures forall d :: d != c && d in db.conversations ==>
      d in db'.conversations && db'.conversations[d] == db.conversations[d]
  {
    assert In(Dropped(db, In(db, c)), c) == {};
  }

  // ----- The service -----

  class Store {
    var messages: map<MsgId, Msg>
    var conversations: map<PeerId, Conversation>
    var fileBlobs: set<MsgId>

    function Contents(): Db
      reads this
    {
      Db(messages, conversations, fileBlobs)
    }

    constructor ()
      ensures Contents() == Db(map[], map[], {})
    {
      messages, conversations, fileBlobs := map[], map[], {};
    }

    method SaveMessage(m: Msg, now: int)
      modifies this
      ensures Step(old(Contents()), Save(m, now), Contents())
      ensures messages == old(messages)[m.id := m] && fileBlobs == old(fileBlobs)
      ensures conversations.Keys == old(conversations).Keys + {m.conversation}
      ensures forall d :: d in old(conversations) && d != m.conversation ==> conversations[d] == old(conversations)[d]
      ensures var here := conversations[m.conversation];
        && here.last == m && here.updatedAt == now
        && here.unread == Unread(old(Contents()), m.conversation) + if m.sender == m.conversation then 1 else 0
    {
      var c := m.conversation;
      var unread := if c in conversations then conversations[c].unread else 0;
      if m.sender == c { unread := unread + 1; }
      conversations := conversations[c := Conversation(m, unread, now)];
      messages := messages[m.id := m];
    }

    method SaveFileBlob(id: MsgId)
      modifies this
      ensures Step(old(Contents()), SaveBlob(id), Contents())
    {
      fileBlobs := fileBlobs + {id};
    }

    method GetConversation(c: PeerId) returns (found: Option<Conversation>)
      ensures found == if c in conversations then Some(conversations[c]) else None
    {
      if c in conversations { return Some(conversations[c]); }
      return None;
    }

    /** The second transaction of markConversationAsRead. */
    method PutRead(c: PeerId, conv: Option<Conversation>)
      modifies this`conversations
      ensures Step(old(Contents()), MarkRead(c, conv), Contents())
    {
      if conv.None? { return; }
      conversations := conversations[c := conv.value.(unread := 0)];
    }

    /** Nothing comes between the two transactions. */
    method MarkConversationAsRead(c: PeerId)
      modifies this`conversations
      ensures conversations.Keys == old(conversations).Keys
      ensures forall d :: d in conversations ==>
        conversations[d] == if d == c then old(conversations)[d].(unread := 0) else old(conversations)[d]
    {
      var conv := GetConversation(c);
      PutRead(c, conv);
    }

    /** The message that comes first when the conversation's are sorted by
        descending timestamp, from the order of their ids. */
    method FindLast(c: PeerId) returns (last: Option<Msg>)
      requires Keyed(Contents())
      ensures last.None? <==> In(Contents(), c) == {}
      ensures last.Some? ==> First(Contents(), c, last.value)
    {
      last := None;
      var left := messages.Keys;
      while left != {}
        invariant left <= messages.Keys
        invariant last.None? <==> forall id :: id in messages.Keys - left ==> messages[id].conversation != c
        invariant last.Some? ==>
          && last.value.id in messages && messages[last.value.id] == last.value && last.value.conversation == c
          && forall id :: id in messages.Keys - left && messages[id].conversation == c && id != last.value.id ==>
               SortsBefore(last.value, messages[id])
        decreases left
      {
        var id :| id in left;
        left := left - {id};
        if messages[id].conversation == c {
          if last.None? || SortsBefore(messages[id], last.value) {
            ghost var displaced := last;
            last := Some(messages[id]);
            if displaced.Some? {
              forall i | i in messages.Keys - left && messages[i].conversation == c && i != id
                ensures SortsBefore(messages[id], messages[i])
              {
                if i != displaced.value.id { SortsTransitive(messages[id], displaced.value, messages[i]); }
              }
            }
          } else if id != last.value.id {
            SortsTotal(messages[id], last.value);
          }
        }
      }
      if last.None? { assert In(Contents(), c) == {}; } else { assert last.value.id in In(Contents(), c); }
    }

    method RefreshConversationAfterDelete(c: PeerId)
      requires Keyed(Contents())
      modifies this`conversations
      ensures Refreshed(old(Contents()), Contents(), c)
      ensures conversations - {c} == old(conversations) - {c}
      ensures c in conversations <==> c in old(conversations) && In(old(Contents()), c) != {}
      ensures c in conversations ==> var here := conversations[c];
        && here.last.id in In(old(Contents()), c) && messages[here.last.id] == here.last
        && here.unread == old(conversations)[c].unread && here.updatedAt == here.last.ts
        && forall id :: id in In(old(Contents()), c) && id != here.last.id ==>
             || messages[id].ts < here.last.ts
             || (messages[id].ts == here.last.ts && Precedes(here.last.id, id))
    {
      var last := FindLast(c);
      if c !in conversations { return; }
      if last.None? {
        conversations := conversations - {c};
      } else {
        conversations := conversations[c := Conversation(last.value, conversations[c].unread, last.value.ts)];
      }
    }

    method DeleteMessage(id: MsgId)
      requires Keyed(Contents())
      modifies this
      ensures Step(old(Contents()), Delete(id), Contents())
    {
      var msg := if id in messages then Some(messages[id]) else None;
      messages := messages - {id};
      fileBlobs := fileBlobs - {id};
      if msg.Some? && msg.value.conversation != [] { RefreshConversationAfterDelete(msg.value.conversation); }
    }

    /** Walks the conversation's index, deleting each message and its blob. */
    method DeleteConversation(c: PeerId)
      requires Keyed(Contents())
      modifies this
      ensures Step(old(Contents()), DeleteAll(c), Contents())
    {
      var cursor := In(Contents(), c);
      while cursor != {}
        modifies this`messages, this`fileBlobs
        invariant cursor <= In(old(Contents()), c)
        invariant messages == old(messages) - (In(old(Contents()), c) - cursor)
        invariant fileBlobs == old(fileBlobs) - (In(old(Contents()), c) - cursor)
        decreases cursor
      {
        var id :| id in cursor;
        fileBlobs := fileBlobs - {id};
        messages := messages - {id};
        cursor := cursor - {id};
      }
      RefreshConversationAfterDelete(c);
    }
  }
}
