/** The load balancer's rotation over the backends it was last given. */
module RoundRobin {
  import opened Options

  datatype Backend = Backend(containerId: nat, addr: string)

  class Balancer {
    var backends: seq<Backend>
    var next: nat

    constructor ()
      ensures backends == [] && next == 0
    {
      backends, next := [], 0;
    }

    /** The position is not reset: a shorter list is met by the modulus of the next call. */
    method SetBackends(bs: seq<Backend>)
      modifies this`backends
      ensures backends == bs
    {
      backends := bs;
    }

    method HasBackends() returns (any: bool)
      ensures any <==> backends != []
    {
      any := |backends| > 0;
    }

    method Next() returns (b: Option<Backend>)
      modifies this`next
      ensures backends == [] ==> b == None && next == old(next)
      ensures backends != [] ==> b == Some(backends[Position(old(next), |backends|, 0)]) && next == old(next) + 1
    {
      if |backends| == 0 {
        return None;
      }
      b := Some(backends[next % |backends|]);
      next := next + 1;
    }

    /** `m` calls in a row, as the proxy makes them, while the list stays the same. */
    method Serve(m: nat) returns (served: seq<Backend>)
      requires backends != []
      modifies this`next
      ensures |served| == m && next == old(next) + m
      ensures forall i :: 0 <= i < m ==> served[i] == backends[Picks(old(next), |backends|, m)[i]]
    {
      served := [];
      for i := 0 to m
        invariant |served| == i && next == old(next) + i
        invariant forall j :: 0 <= j < i ==> served[j] == backends[Position(old(next), |backends|, j)]
      {
        var b := Next();
        served := served + [b.value];
      }
    }
  }

  /** The position of the `i`-th call after the counter stood at `start`. */
  function Position(start: nat, n: nat, i: nat): (p: nat)
    requires n > 0
    ensures p < n
  {
    (start + i) % n
  }

  /** The positions picked by `m` consecutive calls. */
  function Picks(start: nat, n: nat, m: nat): (s: seq<nat>)
    requires n > 0
    ensures |s| == m && forall i :: 0 <= i < m ==> s[i] == Position(start, n, i) && s[i] < n
  {
    seq(m, i requires 0 <= i < m => Position(start, n, i))
  }

  function Count(s: seq<nat>, p: nat): nat {
    if s == [] then 0 else (if s[0] == p then 1 else 0) + Count(s[1..], p)
  }

  lemma {:induction false} CountSplit(s: seq<nat>, t: seq<nat>, p: nat)
    ensures Count(s + t, p) == Count(s, p) + Count(t, p)
    decreases s
  {
    if s == [] {
      assert s + t == t;
    } else {
      assert (s + t)[1..] == s[1..] + t;
      CountSplit(s[1..], t, p);
    }
  }

  lemma PositionNext(start: nat, n: nat)
    requires n > 0
    ensures (start + 1) % n == if start % n == n - 1 then 0 else start % n + 1
  {
    var q, r := start / n, start % n;
    Quotient(start, n);
    if r == n - 1 {
      Distribute(q, n);
      ModOf(q + 1, n, 0);
    } else {
      ModOf(q, n, r + 1);
    }
  }

  lemma Quotient(x: nat, n: nat)
    requires n > 0
    ensures x == x / n * n + x % n && x % n < n
  {
  }

  lemma Distribute(q: nat, n: nat)
    ensures (q + 1) * n == q * n + n
  {
  }

  lemma AtLeastOnce(d: nat, n: nat)
    requires d >= 1
    ensures d * n >= n
  {
  }

  lemma Difference(a: int, b: int, n: int)
    ensures (a - b) * n == a * n - b * n
  {
  }

  /** A remainder is determined by any quotient it goes with. */
  lemma ModOf(q: nat, n: nat, r: nat)
    requires r < n
    ensures (q * n + r) % n == r
  {
    var x := q * n + r;
    var q', r' := x / n, x % n;
    Quotient(x, n);
    Difference(q, q', n);
    Difference(q', q, n);
    if q > q' {
      AtLeastOnce(q - q', n);
    } else if q' > q {
      AtLeastOnce(q' - q, n);
    }
  }

  /** `m` calls from a start that sits at position `a`, `m` small enough not to wrap. */
  lemma {:induction false} CountStraight(start: nat, n: nat, m: nat, p: nat)
    requires n > 0 && start % n + m <= n
    ensures Count(Picks(start, n, m), p) == if start % n <= p < start % n + m then 1 else 0
    decreases m
  {
    if m > 0 {
      var s := Picks(start, n, m);
      assert s[0] == start % n;
      if m > 1 {
        PositionNext(start, n);
      }
      assert s[1..] == Picks(start + 1, n, m - 1) by { ShiftPicks(start, n, m); }
      if m == 1 {
        assert s[1..] == [];
      } else {
        CountStraight(start + 1, n, m - 1, p);
      }
    }
  }

  lemma ShiftPicks(start: nat, n: nat, m: nat)
    requires n > 0 && m > 0
    ensures Picks(start, n, m)[1..] == Picks(start + 1, n, m - 1)
  {
  }

  lemma PicksSplit(start: nat, n: nat, a: nat, b: nat)
    requires n > 0
    ensures Picks(start, n, a + b) == Picks(start, n, a) + Picks(start + a, n, b)
  {
  }

  lemma RoundEnds(start: nat, n: nat)
    requires n > 0
    ensures (start + (n - start % n)) % n == 0
  {
    Quotient(start, n);
    Distribute(start / n, n);
    ModOf(start / n + 1, n, 0);
  }

  /** Any `n` calls in a row pick every position once, wherever the counter stands. */
  lemma OneRound(start: nat, n: nat, p: nat)
    requires p < n
    ensures Count(Picks(start, n, n), p) == 1
  {
    var r := start % n;
    PicksSplit(start, n, n - r, r);
    CountSplit(Picks(start, n, n - r), Picks(start + (n - r), n, r), p);
    CountStraight(start, n, n - r, p);
    RoundEnds(start, n);
    CountStraight(start + (n - r), n, r, p);
  }

  /**
   Fairness: with a list of `n` backends, any `k * n` consecutive calls pick each position
   exactly `k` times, from any counter that earlier lists may have left.
   */
  lemma {:induction false} RoundRobinIsFair(start: nat, n: nat, k: nat, p: nat)
    requires p < n
    ensures Count(Picks(start, n, k * n), p) == k
    decreases k
  {
    if k > 0 {
      assert k * n == n + (k - 1) * n;
      PicksSplit(start, n, n, (k - 1) * n);
      CountSplit(Picks(start, n, n), Picks(start + n, n, (k - 1) * n), p);
      OneRound(start, n, p);
      RoundRobinIsFair(start + n, n, k - 1, p);
    }
  }
}
