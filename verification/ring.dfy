/** Ring arithmetic: positions 0..N-1, the successor `(p + 1) mod N`, and the
    walks that placement and lookup messages take around the ring. */
module Ring {
  import opened Messages
  import opened Registry

  /** The position reached from `p` after `k` successor steps on a ring of `n`. */
  function Walk(n: nat, p: nat, k: nat): nat
    requires n >= 1
  {
    if k == 0 then p else (Walk(n, p, k - 1) + 1) % n
  }

  lemma ModWithinTurn(x: int, n: nat)
    requires 0 <= x < 2 * n
    ensures x % n == if x < n then x else x - n
  {
  }

  lemma NegativeMod(x: int, n: nat)
    requires -(n as int) <= x < 0
    ensures x % n == x + n
  {
  }

  /** One more step after reducing modulo n is one more step before it. */
  lemma {:induction false} ModSucc(x: nat, n: nat)
    requires n >= 1
    ensures (x % n + 1) % n == (x + 1) % n
    decreases x
  {
    if x < n {
      ModWithinTurn(x + 1, n);
    } else {
      ModSucc(x - n, n);
      ModPeriod(x - n, n);
      ModPeriod(x + 1 - n, n);
    }
  }

  lemma MulAtLeast(k: int, n: int)
    requires k >= 1 && n >= 1
    ensures k * n >= n
  {
  }

  /** The remainder is the only r in [0, n) that leaves a multiple of n. */
  lemma ModUnique(a: int, n: int, q: int, r: int)
    requires n >= 1 && 0 <= r < n && a == q * n + r
    ensures a % n == r
  {
    var q0, r0 := a / n, a % n;
    assert a == q0 * n + r0;
    assert q0 * n - q * n == r - r0;
    assert (q0 - q) * n == q0 * n - q * n;
    if q0 > q {
      MulAtLeast(q0 - q, n);
    } else if q0 < q {
      MulAtLeast(q - q0, n);
    }
  }

  /** Adding n does not change the remainder. */
  lemma ModPeriod(x: nat, n: nat)
    requires n >= 1
    ensures (x + n) % n == x % n
  {
    assert x == (x / n) * n + x % n;
    assert x + n == (x / n + 1) * n + x % n;
    ModUnique(x + n, n, x / n + 1, x % n);
  }

  /** k steps from p land on `(p + k) mod N`, for every k; within one turn
      that is p + k, or p + k - N once the walk has wrapped. */
  lemma {:induction false} WalkIsShift(n: nat, p: nat, k: nat)
    requires p < n
    ensures Walk(n, p, k) == (p + k) % n
    ensures k <= n ==> Walk(n, p, k) == if p + k < n then p + k else p + k - n
  {
    if k > 0 {
      WalkIsShift(n, p, k - 1);
      ModSucc(p + k - 1, n);
    }
    if k <= n {
      ModWithinTurn(p + k, n);
    }
  }

  /** From a position on the ring, N steps come back to it and no fewer do: a
      message relayed successor to successor visits every other position once
      before returning to where it started. */
  lemma FullCycle(n: nat, p: nat)
    requires p < n
    ensures Walk(n, p, n) == p
    ensures forall k :: 0 < k < n ==> Walk(n, p, k) != p
  {
    WalkIsShift(n, p, n);
    forall k | 0 < k < n
      ensures Walk(n, p, k) != p
    {
      WalkIsShift(n, p, k);
    }
  }

  /** The number of forwarding hops from position p to position q. */
  function Hops(n: nat, p: nat, q: nat): (h: nat)
    requires n >= 1
    ensures h < n
  {
    (q - p) % n
  }

  /** Relaying from p, position q is first reached after exactly Hops(n, p, q)
      steps, that is `(q - p) mod N`. */
  lemma HopsReach(n: nat, p: nat, q: nat)
    requires p < n && q < n
    ensures Walk(n, p, Hops(n, p, q)) == q
    ensures forall k :: 0 <= k < Hops(n, p, q) ==> Walk(n, p, k) != q
  {
    var h := Hops(n, p, q);
    if q >= p {
      ModWithinTurn(q - p, n);
    } else {
      NegativeMod(q - p, n);
    }
    WalkIsShift(n, p, h);
    forall k | 0 <= k < h
      ensures Walk(n, p, k) != q
    {
      WalkIsShift(n, p, k);
    }
  }

  /** The registry lists the coordinators by ring position: entry i has order i. */
  ghost predicate RingPositions(ring: seq<SuperNodeInfo>) {
    forall i :: 0 <= i < |ring| ==> ring[i].order == i
  }

  /** On such a registry the successor of position p is the entry at `(p + 1) mod N`. */
  lemma NextAtPosition(ring: seq<SuperNodeInfo>, p: nat)
    requires RingPositions(ring) && |ring| >= 1
    ensures GetNextSuperNode(ring, p) == Some(ring[(p + 1) % |ring|])
  {
    var q := (p + 1) % |ring|;
    assert ring[q].order == q;
    var r := GetNextSuperNode(ring, p);
    assert r.Some?;
    var j :| 0 <= j < |ring| && ring[j] == r.value;
    assert ring[j].order == j;
  }

  /** Successive successor lookups follow the walk. */
  lemma NextIsWalk(ring: seq<SuperNodeInfo>, p: nat, k: nat)
    requires RingPositions(ring) && |ring| >= 1 && p < |ring|
    ensures Walk(|ring|, p, k) < |ring|
    ensures GetNextSuperNode(ring, Walk(|ring|, p, k)) == Some(ring[Walk(|ring|, p, k + 1)])
  {
    NextAtPosition(ring, Walk(|ring|, p, k));
  }
}
