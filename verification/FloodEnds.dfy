/** The flood dies out by its ttl alone: with evictions, room switches and
    changing overlays as well. */
module FloodEnds {
  import opened Prelude
  import opened PublicNode
  import opened Flood

  /** Copies that one copy can still cause, itself included, when nobody has
      more than `degree` neighbours. */
  function Weight(degree: nat, ttl: nat): (w: nat)
    ensures w >= 1
  {
    if ttl == 0 then 1 else 1 + degree * Weight(degree, ttl - 1)
  }

  /** The weight of everything in flight. */
  ghost function Load(degree: nat, flight: multiset<Copy>): nat
    decreases |flight|
  {
    if flight == multiset{} then 0
    else
      var c :| c in flight;
      Weight(degree, c.msg.ttl) + Load(degree, flight - multiset{c})
  }

  lemma {:induction false} LoadWithout(degree: nat, flight: multiset<Copy>, c: Copy)
    requires c in flight
    ensures Load(degree, flight) == Weight(degree, c.msg.ttl) + Load(degree, flight - multiset{c})
    decreases |flight|
  {
    var d :| d in flight && Load(degree, flight) == Weight(degree, d.msg.ttl) + Load(degree, flight - multiset{d});
    if d != c {
      LoadWithout(degree, flight - multiset{d}, c);
      LoadWithout(degree, flight - multiset{c}, d);
      assert flight - multiset{d} - multiset{c} == flight - multiset{c} - multiset{d};
    }
  }

  lemma {:induction false} LoadWith(degree: nat, flight: multiset<Copy>, copies: seq<Copy>, ttl: nat)
    requires forall c :: c in copies ==> c.msg.ttl == ttl
    ensures Load(degree, flight + multiset(copies)) == Load(degree, flight) + |copies| * Weight(degree, ttl)
  {
    if copies == [] {
      assert flight + multiset(copies) == flight;
    } else {
      var c, rest := copies[0], copies[1..];
      assert copies == [c] + rest;
      assert (flight + multiset(copies)) - multiset{c} == flight + multiset(rest);
      assert c in copies && forall d :: d in rest ==> d in copies;
      LoadWithout(degree, flight + multiset(copies), c);
      LoadWith(degree, flight, rest, ttl);
      Distribute(|rest|, Weight(degree, ttl));
    }
  }

  lemma {:induction false} Distribute(n: nat, w: nat)
    ensures (n + 1) * w == n * w + w
  {
  }

  lemma {:induction false} AtMost(n: nat, degree: nat, w: nat)
    requires n <= degree
    ensures n * w <= degree * w
  {
  }

  lemma {:induction false} TargetsBounded(neighbors: seq<PeerId>, open: set<PeerId>, skip: set<PeerId>)
    ensures |Targets(neighbors, open, skip)| <= |neighbors|
  {
    if neighbors != [] { TargetsBounded(neighbors[1..], open, skip); }
  }

  /** Nobody has more than so many neighbours. */
  ghost predicate Degrees(net: Net, degree: nat) {
    forall p :: p in net.peers ==> |net.peers[p].neighbors| <= degree
  }

  lemma {:induction false} ForwardedLoad(degree: nat, flight: multiset<Copy>, c: Copy, dsts: seq<PeerId>)
    requires c.msg.ttl > 0 && |dsts| <= degree
    ensures var copies := Copies(c.dst, SendAll(dsts, c.msg.(ttl := c.msg.ttl - 1)), c.hops + 1);
      Load(degree, flight + multiset(copies)) < Load(degree, flight) + Weight(degree, c.msg.ttl)
  {
    var out := c.msg.(ttl := c.msg.ttl - 1);
    var copies := Copies(c.dst, SendAll(dsts, out), c.hops + 1);
    LoadWith(degree, flight, copies, out.ttl);
    AtMost(|copies|, degree, Weight(degree, out.ttl));
  }

  lemma {:induction false} ReactionLoad(degree: nat, n: Node, left: multiset<Copy>, c: Copy)
    requires |n.neighbors| <= degree
    ensures Load(degree, left + multiset(Copies(c.dst, Receive(n, c.src, c.msg).sends, c.hops + 1)))
          < Load(degree, left) + Weight(degree, c.msg.ttl)
  {
    if Accepts(n, c.src, c.msg) && c.msg.ttl > 0 {
      TargetsBounded(n.neighbors, n.open, {c.src, c.msg.origin});
      ForwardedLoad(degree, left, c, Targets(n.neighbors, n.open, {c.src, c.msg.origin}));
    } else {
      assert Copies(c.dst, Receive(n, c.src, c.msg).sends, c.hops + 1) == [];
      assert left + multiset([]) == left;
    }
  }

  ghost function FlightAfter(net: Net, c: Copy): multiset<Copy>
    requires c.dst in net.peers
  {
    net.flight - multiset{c} + multiset(Copies(c.dst, Receive(net.peers[c.dst], c.src, c.msg).sends, c.hops + 1))
  }

  lemma {:induction false} DeliveredFlight(net: Net, c: Copy)
    requires Enabled(net, Deliver(c))
    ensures Apply(net, Deliver(c)).flight == FlightAfter(net, c)
  {
  }

  lemma {:induction false} Lighter(degree: nat, flight: multiset<Copy>, c: Copy, added: multiset<Copy>)
    requires c in flight
    requires Load(degree, flight - multiset{c} + added) < Load(degree, flight - multiset{c}) + Weight(degree, c.msg.ttl)
    ensures Load(degree, flight - multiset{c} + added) < Load(degree, flight)
  {
    LoadWithout(degree, flight, c);
  }

  lemma {:induction false} DeliveryLowersLoad(net: Net, c: Copy, degree: nat)
    requires Enabled(net, Deliver(c)) && Degrees(net, degree)
    ensures Load(degree, Apply(net, Deliver(c)).flight) < Load(degree, net.flight)
  {
    var sends := Receive(net.peers[c.dst], c.src, c.msg).sends;
    DeliveredFlight(net, c);
    ReactionLoad(degree, net.peers[c.dst], net.flight - multiset{c}, c);
    Lighter(degree, net.flight, c, multiset(Copies(c.dst, sends, c.hops + 1)));
  }

  /** In any state whatever, a delivery or a loss lowers the load. */
  lemma {:induction false} LoadShrinks(net: Net, ev: Event, degree: nat)
    requires Enabled(net, ev) && (ev.Deliver? || ev.Lose?) && Degrees(net, degree)
    ensures Load(degree, Apply(net, ev).flight) < Load(degree, net.flight)
  {
    if ev.Deliver? {
      DeliveryLowersLoad(net, ev.copy, degree);
    } else {
      LoadWithout(degree, net.flight, ev.copy);
    }
  }

  // ----- Runs without new messages -----

  /** No message is composed, and no list gives anybody too many neighbours. */
  ghost predicate Silent(evs: seq<Event>, degree: nat) {
    forall i :: 0 <= i < |evs| ==>
      !evs[i].Write? && (evs[i].Local? && evs[i].change.Listed? ==> |evs[i].change.neighbors| <= degree)
  }

  function Moves(evs: seq<Event>): nat {
    if evs == [] then 0 else (if evs[0].Deliver? || evs[0].Lose? then 1 else 0) + Moves(evs[1..])
  }

  lemma {:induction false} SilentStep(net: Net, ev: Event, degree: nat)
    requires Enabled(net, ev) && Degrees(net, degree) && !ev.Write?
    requires ev.Local? && ev.change.Listed? ==> |ev.change.neighbors| <= degree
    ensures Degrees(Apply(net, ev), degree)
    ensures ev.Local? ==> Apply(net, ev).flight == net.flight
  {
    match ev
    case Deliver(c) =>
    case Lose(c) =>
    case Local(p, change) =>
      assert React(p, net.peers[p], change).sends == [];
      assert net.flight + multiset(Copies(p, [], 1)) == net.flight;
  }

  /** However copies are lost or reordered, and whatever rooms, lists, channels
      and evictions do in between, no run without new messages makes more
      deliveries and losses than the load it starts with. */
  lemma {:induction false} BoundedMoves(net: Net, evs: seq<Event>, degree: nat)
    requires IsRun(net, evs) && Degrees(net, degree) && Silent(evs, degree)
    ensures Moves(evs) + Load(degree, Exec(net, evs).flight) <= Load(degree, net.flight)
    decreases |evs|
  {
    if evs != [] {
      var ev, rest := evs[0], evs[1..];
      assert Silent(rest, degree) by { assert forall i :: 0 <= i < |rest| ==> rest[i] == evs[i + 1]; }
      SilentStep(net, ev, degree);
      BoundedMoves(Apply(net, ev), rest, degree);
      if ev.Deliver? || ev.Lose? { LoadShrinks(net, ev, degree); }
    }
  }
}
