/** From the peers' own neighbour computations to the ring the flood runs on. */
module Overlay {
  import opened Prelude
  import opened PublicNode
  import opened Flood
  import opened FloodOnce
  import opened FloodRing
  import PublicPeer
  import Ring
  import StableSort

  /** Every peer holds the same members, each in its own insertion order, and has
      computed its neighbours from them. */
  ghost predicate Agreed(net: Net, lists: map<PeerId, seq<PeerId>>) {
    forall p :: p in net.peers ==>
      && p in lists
      && StableSort.Enumerates(lists[p], net.peers.Keys)
      && PublicPeer.IsNeighborhood(PublicPeer.HashOrder(lists[p]), p, net.peers[p].neighbors)
  }

  /** With distinct hashes the separate computations fit together into one ring:
      the same order for everyone, and links that hold in both directions. */
  lemma {:induction false} AgreedOverlayIsRing(
    net: Net, lists: map<PeerId, seq<PeerId>>, first: PeerId) returns (order: seq<PeerId>)
    requires Agreed(net, lists) && first in net.peers
    requires StableSort.InjectiveOn(PublicPeer.HashKey, net.peers.Keys)
    ensures IsRing(net, order) && WellListed(net)
    ensures forall p, q :: p in net.peers && q in net.peers ==>
      (q in net.peers[p].neighbors <==> p in net.peers[q].neighbors)
  {
    order := PublicPeer.HashOrder(lists[first]);
    StableSort.SortEnumerates(PublicPeer.HashKey, lists[first], net.peers.Keys);
    forall p | p in net.peers
      ensures PublicPeer.IsNeighborhood(order, p, net.peers[p].neighbors)
    {
      SameOrder(lists[first], lists[p], net.peers.Keys);
    }
    forall i, j | 0 <= i < |order| && 0 <= j < |order|
      ensures order[j] in net.peers[order[i]].neighbors <==> Ring.Adjacent(|order|, i, j)
    {
      PlaceUnique(order, i);
      PlaceUnique(order, j);
      assert PublicPeer.IsNeighborhood(order, order[i], net.peers[order[i]].neighbors);
    }
    forall p, q | p in net.peers && q in net.peers
      ensures q in net.peers[p].neighbors <==> p in net.peers[q].neighbors
    {
      Ring.AdjacentSymmetric(|order|, IndexOf(order, p), IndexOf(order, q));
    }
  }

  lemma {:induction false} SameOrder(a: seq<PeerId>, b: seq<PeerId>, members: set<PeerId>)
    requires StableSort.Enumerates(a, members) && StableSort.Enumerates(b, members)
    requires StableSort.InjectiveOn(PublicPeer.HashKey, members)
    ensures PublicPeer.HashOrder(a) == PublicPeer.HashOrder(b)
  {
    StableSort.OrderIndependentIffInjective(PublicPeer.HashKey, members);
  }

  const FJ: PeerId := [0x66, 0x6a]
  const EIGHT_T: PeerId := [0x38, 0x74]

  lemma {:induction false} EndsCollide()
    ensures PublicPeer.StrHash(FJ) == PublicPeer.StrHash(EIGHT_T)
  {
    assert FJ[1..] == [0x6a] && EIGHT_T[1..] == [0x74];
    assert FJ[1..][1..] == [] && EIGHT_T[1..][1..] == [];
    assert FJ[0] == 0x66 && EIGHT_T[0] == 0x38;
    assert PublicPeer.StrHash([]) == 5381;
    assert PublicPeer.StrHash([0x6a]) == (5381 * 33) ^ 0x6a;
    assert PublicPeer.StrHash([0x74]) == (5381 * 33) ^ 0x74;
  }

  /** The hash folds from the last character, so equal endings stay equal. */
  lemma {:induction false} PrefixKeepsCollision(x: PeerId, a: PeerId, b: PeerId)
    requires PublicPeer.StrHash(a) == PublicPeer.StrHash(b)
    ensures PublicPeer.StrHash(x + a) == PublicPeer.StrHash(x + b)
  {
    if x == [] {
      assert x + a == a && x + b == b;
    } else {
      PrefixKeepsCollision(x[1..], a, b);
      assert (x + a)[1..] == x[1..] + a && (x + b)[1..] == x[1..] + b;
      assert (x + a)[0] == (x + b)[0];
    }
  }

  /** Ids of any length can share a hash: whatever comes before, an id that ends
      in "fj" collides with the one that ends in "8t". In a room with such a pair
      the order a peer computes depends on the order in which it learned the ids. */
  lemma {:induction false} SharedHashBreaksAgreement(x: PeerId, members: set<PeerId>)
    requires x + FJ in members && x + EIGHT_T in members
    ensures x + FJ != x + EIGHT_T && PublicPeer.StrHash(x + FJ) == PublicPeer.StrHash(x + EIGHT_T)
    ensures !StableSort.OrderIndependent(PublicPeer.HashKey, members)
  {
    EndsCollide();
    PrefixKeepsCollision(x, FJ, EIGHT_T);
    assert (x + FJ)[|x|] == 0x66 && (x + EIGHT_T)[|x|] == 0x38;
    assert PublicPeer.HashKey(x + FJ) == PublicPeer.HashKey(x + EIGHT_T);
    StableSort.OrderIndependentIffInjective(PublicPeer.HashKey, members);
  }

  /** The least length of a device id that the server admits. */
  const MIN_ID_LENGTH: nat := 6

  /** Two ids that the server admits, "peerfj" and "peer8t". */
  lemma {:induction false} AdmittedIdsBreakAgreement() returns (a: PeerId, b: PeerId)
    ensures |a| >= MIN_ID_LENGTH && |b| >= MIN_ID_LENGTH && a != b
    ensures PublicPeer.StrHash(a) == PublicPeer.StrHash(b)
    ensures !StableSort.OrderIndependent(PublicPeer.HashKey, {a, b})
  {
    var x: PeerId := [0x70, 0x65, 0x65, 0x72];
    a, b := x + FJ, x + EIGHT_T;
    SharedHashBreaksAgreement(x, {a, b});
  }
}
