/** The ring overlay: n peers in one circular order, each linked to the peers at
    most three places away on either side. Peers are named by their position. */
module Ring {
  /** Neighbours on each side: half of K_NEIGHBORS = 7, rounded down. */
  const SIDE: nat := 3

  /** Distance around the circle, the shorter way. */
  function Gap(n: nat, i: nat, j: nat): nat
    requires i < n && j < n
  {
    var d := if i <= j then j - i else i - j;
    if d <= n - d then d else n - d
  }

  predicate Adjacent(n: nat, i: nat, j: nat)
    requires i < n && j < n
  {
    1 <= Gap(n, i, j) <= SIDE
  }

  ghost predicate IsPath(n: nat, path: seq<nat>) {
    && path != []
    && (forall k :: 0 <= k < |path| ==> path[k] < n)
    && (forall k :: 0 <= k < |path| - 1 ==> Adjacent(n, path[k], path[k + 1]))
  }

  ghost predicate Joins(n: nat, path: seq<nat>, i: nat, j: nat) {
    IsPath(n, path) && path[0] == i && path[|path| - 1] == j
  }

  lemma {:induction false} GapTriangle(n: nat, i: nat, j: nat, k: nat)
    requires i < n && j < n && k < n
    ensures Gap(n, i, k) <= Gap(n, i, j) + Gap(n, j, k)
  {
  }

  lemma {:induction false} PathCoversAtMostThreePerHop(n: nat, path: seq<nat>)
    requires IsPath(n, path)
    ensures Gap(n, path[0], path[|path| - 1]) <= SIDE * (|path| - 1)
  {
    if |path| > 1 {
      var rest := path[1..];
      assert forall k :: 0 <= k < |rest| ==> rest[k] == path[k + 1];
      PathCoversAtMostThreePerHop(n, rest);
      assert Adjacent(n, path[0], path[1]);
      GapTriangle(n, path[0], path[1], path[|path| - 1]);
    }
  }

  /** The position three places from i towards j. */
  function Towards(n: nat, i: nat, j: nat): (m: nat)
    requires i < n && j < n && Gap(n, i, j) > SIDE
    ensures m < n && Adjacent(n, i, m) && Gap(n, m, j) == Gap(n, i, j) - SIDE
  {
    var forward := if i <= j then j - i else j + n - i;
    if forward <= n - forward then
      if i + SIDE < n then i + SIDE else i + SIDE - n
    else
      if i >= SIDE then i - SIDE else i + n - SIDE
  }

  lemma {:induction false} DirectPath(n: nat, i: nat, j: nat) returns (path: seq<nat>)
    requires i < n && j < n
    ensures Joins(n, path, i, j)
    ensures |path| - 1 == (Gap(n, i, j) + SIDE - 1) / SIDE
    decreases Gap(n, i, j)
  {
    if i == j {
      path := [i];
    } else if Gap(n, i, j) <= SIDE {
      path := [i, j];
    } else {
      var rest := DirectPath(n, Towards(n, i, j), j);
      path := [i] + rest;
    }
  }

  /** The overlay is connected, and its hop distance is exactly the ring
      distance divided by three, rounded up. */
  lemma {:induction false} HopDistance(n: nat, i: nat, j: nat) returns (shortest: seq<nat>)
    requires i < n && j < n
    ensures Joins(n, shortest, i, j) && |shortest| - 1 == (Gap(n, i, j) + SIDE - 1) / SIDE
    ensures forall path :: Joins(n, path, i, j) ==> |shortest| <= |path|
  {
    shortest := DirectPath(n, i, j);
    forall path | Joins(n, path, i, j) ensures |shortest| <= |path| {
      PathCoversAtMostThreePerHop(n, path);
    }
  }

  /** Up to seven peers are linked all to all by the same distance rule. */
  lemma {:induction false} SmallRingIsComplete(n: nat, i: nat, j: nat)
    requires n <= 7 && i < n && j < n && i != j
    ensures Adjacent(n, i, j)
  {
  }

  lemma {:induction false} AdjacentSymmetric(n: nat, i: nat, j: nat)
    requires i < n && j < n
    ensures Adjacent(n, i, j) <==> Adjacent(n, j, i)
  {
  }
}
