/** One peer's part in the public room: what it does with each event, as a
    function of its state. PublicPeer carries this out by updating fields. */
module PublicNode {
  import opened Prelude
  import Rooms

  type MsgId = string

  datatype PublicMsg = PublicMsg(id: MsgId, room: string, origin: PeerId, ts: int, ttl: nat, text: string)
  datatype Send = Send(dst: PeerId, msg: PublicMsg)

  /** `open` holds the peers whose public data channel is in state "open". */
  datatype Node = Node(
    room: Option<string>, seen: seq<MsgId>, neighbors: seq<PeerId>, open: set<PeerId>, blocked: set<PeerId>)

  datatype NodeEvent =
    | Received(src: PeerId, msg: PublicMsg)
    | Composed(id: MsgId, ts: int, text: string)
    | Listed(room: string, neighbors: seq<PeerId>)
    | Channels(open: set<PeerId>)
    | Blocks(blocked: set<PeerId>)

  datatype Reaction = Reaction(node: Node, shown: Option<PublicMsg>, sends: seq<Send>)

  const ORIGIN_TTL: nat := 6
  const SEEN_LIMIT: nat := 2048
  const WORLD_ROOM := "group:public:world"

  /** The insertion-ordered seen set without its oldest entries beyond the limit. */
  function Trim(seen: seq<MsgId>, limit: nat): seq<MsgId> {
    if |seen| <= limit then seen else seen[|seen| - limit..]
  }

  function Targets(neighbors: seq<PeerId>, open: set<PeerId>, skip: set<PeerId>): seq<PeerId> {
    if neighbors == [] then []
    else
      (if neighbors[0] in open && neighbors[0] !in skip then [neighbors[0]] else [])
      + Targets(neighbors[1..], open, skip)
  }

  function SendAll(dsts: seq<PeerId>, msg: PublicMsg): seq<Send> {
    seq(|dsts|, i requires 0 <= i < |dsts| => Send(dsts[i], msg))
  }

  predicate Accepts(n: Node, src: PeerId, msg: PublicMsg) {
    && src !in n.blocked
    && Rooms.Displays(n.room, msg.room)
    && msg.origin !in n.blocked
    && msg.id !in n.seen
  }

  function Receive(n: Node, src: PeerId, msg: PublicMsg): Reaction {
    if !Accepts(n, src, msg) then Reaction(n, None, [])
    else
      var node := n.(seen := Trim(n.seen + [msg.id], SEEN_LIMIT));
      var sends :=
        if msg.ttl > 0 then SendAll(Targets(n.neighbors, n.open, {src, msg.origin}), msg.(ttl := msg.ttl - 1))
        else [];
      Reaction(node, Some(msg), sends)
  }

  function Compose(me: PeerId, n: Node, id: MsgId, ts: int, text: string): Reaction {
    if n.room.None? || n.room.value == "" then Reaction(n, None, [])
    else
      var msg := PublicMsg(id, n.room.value, me, ts, ORIGIN_TTL, text);
      Reaction(n.(seen := SetAdd(n.seen, id)), Some(msg), SendAll(Targets(n.neighbors, n.open, {}), msg))
  }

  function Enlist(n: Node, room: string, neighbors: seq<PeerId>): Node {
    if room == WORLD_ROOM then n
    else n.(room := Some(room), seen := if n.room == Some(room) then n.seen else [], neighbors := neighbors)
  }

  function React(me: PeerId, n: Node, ev: NodeEvent): Reaction {
    match ev
    case Received(src, msg) => Receive(n, src, msg)
    case Composed(id, ts, text) => Compose(me, n, id, ts, text)
    case Listed(room, neighbors) => Reaction(Enlist(n, room, neighbors), None, [])
    case Channels(open) => Reaction(n.(open := open), None, [])
    case Blocks(blocked) => Reaction(n.(blocked := blocked), None, [])
  }

  // ----- The seen window -----

  predicate Switches(n: Node, ev: NodeEvent) {
    ev.Listed? && ev.room != WORLD_ROOM && n.room != Some(ev.room)
  }

  /** Ids shown since the last room switch, after one more event. */
  function ShownAfter(me: PeerId, n: Node, ev: NodeEvent, shown: seq<MsgId>): seq<MsgId> {
    if Switches(n, ev) then []
    else
      var r := React(me, n, ev);
      if r.shown.Some? then shown + [r.shown.value.id] else shown
  }

  /** An id is shown again only with at least 2048 others in between. */
  ghost predicate Spaced(shown: seq<MsgId>) {
    forall i, j :: 0 <= i < j < |shown| && shown[i] == shown[j] ==> j - i > SEEN_LIMIT
  }

  /** The first is an end piece of the second. Stated by position: an equation
      with a slice would let the verifier slice an empty sequence for ever. */
  ghost predicate IsSuffix(a: seq<MsgId>, b: seq<MsgId>) {
    |a| <= |b| && forall i :: 0 <= i < |a| ==> a[i] == b[|b| - |a| + i]
  }

  ghost predicate Window(seen: seq<MsgId>, shown: seq<MsgId>) {
    && IsSuffix(seen, shown)
    && (|seen| < |shown| ==> |seen| >= SEEN_LIMIT)
    && Distinct(seen)
    && Spaced(shown)
  }

  lemma {:induction false} AcceptKeepsSpaced(seen: seq<MsgId>, shown: seq<MsgId>, id: MsgId)
    requires Window(seen, shown) && id !in seen
    ensures Spaced(shown + [id])
  {
    var after, cut := shown + [id], |shown| - |seen|;
    forall i | cut <= i < |shown| ensures shown[i] != id { assert seen[i - cut] == shown[cut + (i - cut)]; }
    forall i, j | 0 <= i < j < |after| && after[i] == after[j] ensures j - i > SEEN_LIMIT {
      if j < |shown| { assert shown[i] == shown[j]; }
    }
  }

  lemma {:induction false} AcceptKeepsWindow(seen: seq<MsgId>, shown: seq<MsgId>, id: MsgId)
    requires Window(seen, shown) && id !in seen
    ensures Window(seen + [id], shown + [id])
  {
    AcceptKeepsSpaced(seen, shown, id);
    var now, after := seen + [id], shown + [id];
    forall i | 0 <= i < |now| ensures now[i] == after[|after| - |now| + i] {
      if i < |seen| { assert seen[i] == shown[|shown| - |seen| + i]; }
    }
  }

  lemma {:induction false} TrimKeepsWindow(seen: seq<MsgId>, shown: seq<MsgId>)
    requires Window(seen, shown)
    ensures Window(Trim(seen, SEEN_LIMIT), shown) && |Trim(seen, SEEN_LIMIT)| <= SEEN_LIMIT
  {
  }

  /** Every event keeps the seen set a suffix of what was shown since the last
      switch, cut only beyond 2048 entries; a reception leaves at most 2048. A
      composed message takes an id that is not in the window (a fresh uuid). */
  lemma {:induction false} ReactKeepsWindow(me: PeerId, n: Node, ev: NodeEvent, shown: seq<MsgId>)
    requires Window(n.seen, shown)
    requires ev.Composed? ==> ev.id !in n.seen
    ensures Window(React(me, n, ev).node.seen, ShownAfter(me, n, ev, shown))
    ensures ev.Received? && React(me, n, ev).shown.Some? ==> |React(me, n, ev).node.seen| <= SEEN_LIMIT
  {
    if ev.Received? && Accepts(n, ev.src, ev.msg) {
      AcceptKeepsWindow(n.seen, shown, ev.msg.id);
      TrimKeepsWindow(n.seen + [ev.msg.id], shown + [ev.msg.id]);
    } else if ev.Composed? {
      AcceptKeepsWindow(n.seen, shown, ev.id);
    }
  }

  function RunNode(me: PeerId, n: Node, evs: seq<NodeEvent>): Node
    decreases |evs|
  {
    if evs == [] then n else RunNode(me, React(me, n, evs[0]).node, evs[1..])
  }

  function ShownOver(me: PeerId, n: Node, evs: seq<NodeEvent>, shown: seq<MsgId>): seq<MsgId>
    decreases |evs|
  {
    if evs == [] then shown
    else ShownOver(me, React(me, n, evs[0]).node, evs[1..], ShownAfter(me, n, evs[0], shown))
  }

  ghost predicate FreshComposed(me: PeerId, n: Node, evs: seq<NodeEvent>)
    decreases |evs|
  {
    evs != [] ==>
      && (evs[0].Composed? ==> evs[0].id !in n.seen)
      && FreshComposed(me, React(me, n, evs[0]).node, evs[1..])
  }

  /** Over a whole life of a peer: two displays of one id since the last switch
      have at least 2048 other displays between them. */
  lemma {:induction false} WindowOverRuns(me: PeerId, n: Node, evs: seq<NodeEvent>, shown: seq<MsgId>)
    requires Window(n.seen, shown) && FreshComposed(me, n, evs)
    ensures Window(RunNode(me, n, evs).seen, ShownOver(me, n, evs, shown))
    decreases |evs|
  {
    if evs != [] {
      ReactKeepsWindow(me, n, evs[0], shown);
      WindowOverRuns(me, React(me, n, evs[0]).node, evs[1..], ShownAfter(me, n, evs[0], shown));
    }
  }

  // ----- Facts about sends -----

  lemma {:induction false} TargetsAre(neighbors: seq<PeerId>, open: set<PeerId>, skip: set<PeerId>)
    ensures forall p :: p in Targets(neighbors, open, skip) <==> p in neighbors && p in open && p !in skip
    ensures Distinct(neighbors) ==> Distinct(Targets(neighbors, open, skip))
  {
    if neighbors != [] {
      TargetsAre(neighbors[1..], open, skip);
      assert neighbors == [neighbors[0]] + neighbors[1..];
    }
  }

  // ----- What a reception and a composition come to -----

  /** Neither the sender nor the author is blocked, the peer's room displays the
      message's, and the id is not in the window. */
  predicate Welcome(n: Node, src: PeerId, msg: PublicMsg) {
    && !(src in n.blocked || msg.origin in n.blocked)
    && (n.room == Some(msg.room) || Rooms.Displays(n.room, msg.room))
    && forall i :: 0 <= i < |n.seen| ==> n.seen[i] != msg.id
  }

  /** A message is shown exactly when it is welcome, as it came; nothing but the
      window changes, which keeps the newest 2048. A refused one changes and
      sends nothing. */
  lemma {:induction false} ReceptionShows(n: Node, src: PeerId, msg: PublicMsg)
    ensures var r := Receive(n, src, msg);
      if Welcome(n, src, msg) then
        && r.shown == Some(msg)
        && r.node == n.(seen := r.node.seen)
        && IsSuffix(r.node.seen, n.seen + [msg.id])
        && |r.node.seen| == (if |n.seen| >= 2048 then 2048 else |n.seen| + 1)
      else
        r.shown == None && r.node == n && r.sends == []
  {
    if Welcome(n, src, msg) {
      var all := n.seen + [msg.id];
      if |all| > SEEN_LIMIT {
        assert Trim(all, SEEN_LIMIT) == all[|all| - SEEN_LIMIT..];
      }
    } else if n.room == Some(msg.room) || Rooms.Displays(n.room, msg.room) {
      assert src in n.blocked || msg.origin in n.blocked || msg.id in n.seen;
    }
  }

  ghost predicate SentTo(sends: seq<Send>, p: PeerId) { exists s :: s in sends && s.dst == p }

  /** A welcome message with ttl left goes on, its ttl one less and all else as
      it was, to exactly the neighbours with an open channel other than the
      sender and the author, once each. */
  lemma {:induction false} ReceptionForwards(n: Node, src: PeerId, msg: PublicMsg)
    requires Welcome(n, src, msg)
    ensures var r := Receive(n, src, msg);
      && (forall s :: s in r.sends ==>
            msg.ttl > 0 && s.msg == PublicMsg(msg.id, msg.room, msg.origin, msg.ts, msg.ttl - 1, msg.text))
      && (forall p :: SentTo(r.sends, p) <==>
            msg.ttl > 0 && p in n.neighbors && p in n.open && p != src && p != msg.origin)
      && (Distinct(n.neighbors) ==>
            forall i, j :: 0 <= i < j < |r.sends| ==> r.sends[i].dst != r.sends[j].dst)
  {
    var r := Receive(n, src, msg);
    assert Accepts(n, src, msg);
    if msg.ttl > 0 {
      var dsts := Targets(n.neighbors, n.open, {src, msg.origin});
      TargetsAre(n.neighbors, n.open, {src, msg.origin});
      SendAllTo(dsts, msg.(ttl := msg.ttl - 1));
    }
  }

  lemma {:induction false} SendAllTo(dsts: seq<PeerId>, msg: PublicMsg)
    ensures forall s :: s in SendAll(dsts, msg) ==> s.msg == msg
    ensures forall p :: SentTo(SendAll(dsts, msg), p) <==> p in dsts
  {
    forall p | p in dsts ensures SentTo(SendAll(dsts, msg), p) {
      var i :| 0 <= i < |dsts| && dsts[i] == p;
      assert SendAll(dsts, msg)[i].dst == p;
      assert SendAll(dsts, msg)[i] in SendAll(dsts, msg);
    }
  }

  /** A composed message carries the given id, time and text, the author's room
      and ttl 6; the author shows it, remembers it, and sends it to exactly the
      neighbours with an open channel. Without a room nothing happens. */
  lemma {:induction false} CompositionSends(me: PeerId, n: Node, id: MsgId, ts: int, text: string)
    ensures var r := Compose(me, n, id, ts, text);
      if n.room in {None, Some("")} then
        r.shown == None && r.node == n && r.sends == []
      else
        var msg := PublicMsg(id, n.room.value, me, ts, 6, text);
        && r.shown == Some(msg)
        && r.node == n.(seen := if id in n.seen then n.seen else n.seen + [id])
        && (forall s :: s in r.sends ==> s.msg == msg)
        && (forall p :: SentTo(r.sends, p) <==> p in n.neighbors && p in n.open)
  {
    if n.room !in {None, Some("")} {
      TargetsAre(n.neighbors, n.open, {});
      SendAllTo(Targets(n.neighbors, n.open, {}), PublicMsg(id, n.room.value, me, ts, 6, text));
    }
  }
}
