/**
 The back-off on failed logins: after a few free failures a key waits one minute, then two,
 four, up to fifteen, before it may try again.  Times are in nanoseconds.
 */
module LoginLimit {
  import opened Options
  import opened Powers

  type Time = int

  const MINUTE: Time := 60_000_000_000
  const ACCOUNT_FREE_FAILURES := 5
  const FIRST_WAIT: Time := MINUTE
  const MAX_WAIT: Time := 15 * MINUTE
  const FORGET_AFTER: Time := 60 * MINUTE
  const PRUNE_AT := 1000

  /** `until` is `None` before the first wait: no attempt is refused. */
  datatype Failures = Failures(count: nat, until: Option<Time>, last: Time)

  type Keys = map<string, Failures>

  function Min(a: int, b: int): int { if a < b then a else b }

  /** firstWait << n on 64-bit integers, which `ShiftNeverOverflows` shows to be exact. */
  function Shifted(n: nat): Time { FIRST_WAIT * Pow2(n) }

  /** The wait imposed by the failure that is `over` past the free ones. */
  function Backoff(over: nat): Time
    requires over > 0
  {
    Min(Shifted(Min(over - 1, 10)), MAX_WAIT)
  }

  lemma ShiftNeverOverflows(over: nat)
    requires over > 0
    ensures 0 < Shifted(Min(over - 1, 10)) <= 1024 * MINUTE < 0x7FFF_FFFF_FFFF_FFFF
  {
    Pow2Grows(Min(over - 1, 10), 10);
    assert Pow2(5) == 32 && Pow2(10) == 1024;
  }

  /** Each wait doubles the one before, until fifteen minutes. */
  lemma BackoffDoubles(over: nat)
    requires over > 0
    ensures Backoff(1) == 60_000_000_000
    ensures Backoff(over + 1) == Min(2 * Backoff(over), MAX_WAIT)
    ensures over >= 5 ==> Backoff(over) == 900_000_000_000
  {
  }

  // ---------- the operations, as functions of the keys ----------

  predicate Waiting(f: Failures, now: Time) { f.until.Some? && f.until.value > now }

  function Remaining(keys: Keys, k: string, now: Time): Time {
    if k in keys && Waiting(keys[k], now) then keys[k].until.value - now else 0
  }

  predicate Forgotten(f: Failures, now: Time) {
    now - f.last > FORGET_AFTER && !Waiting(f, now)
  }

  /** Nothing is forgotten while there are few keys. */
  function Pruned(keys: Keys, now: Time): Keys {
    if |keys| < PRUNE_AT then keys else map k | k in keys && !Forgotten(keys[k], now) :: keys[k]
  }

  /** One more failure of a key, of which `allowed` are free. */
  function Bumped(f: Option<Failures>, allowed: int, now: Time): Failures {
    var count := if f.Some? then f.value.count + 1 else 1;
    var over := count - allowed + 1;
    Failures(count, if over > 0 then Some(now + Backoff(over)) else if f.Some? then f.value.until else None, now)
  }

  function At(keys: Keys, k: string): Option<Failures> {
    if k in keys then Some(keys[k]) else None
  }

  function Failed(keys: Keys, free: map<string, int>, now: Time): Keys {
    Bumps(Pruned(keys, now), free, free.Keys, now)
  }

  /** The failures of the keys `done`, each counted once. */
  function Bumps(kept: Keys, free: map<string, int>, done: set<string>, now: Time): Keys
    requires done <= free.Keys
  {
    kept + map k | k in done :: Bumped(At(kept, k), free[k], now)
  }

  lemma NoBumps(kept: Keys, free: map<string, int>, now: Time)
    ensures Bumps(kept, free, {}, now) == kept
  {
  }

  lemma OneMoreBump(kept: Keys, free: map<string, int>, done: set<string>, now: Time, k: string)
    requires done <= free.Keys && k in free && k !in done
    ensures var keys := Bumps(kept, free, done, now);
            Bumps(kept, free, done + {k}, now) == keys[k := Bumped(At(keys, k), free[k], now)]
  {
  }

  function Left(end: Time, later: Time): Time { if end > later then end - later else 0 }

  /** Each key that fails gets one more failure on its record, as it is after pruning. */
  lemma FailedIs(keys: Keys, free: map<string, int>, k: string, now: Time)
    requires k in free
    ensures At(Failed(keys, free, now), k) == Some(Bumped(At(Pruned(keys, now), k), free[k], now))
  {
  }

  /**
   From the `allowed`th failure of a key on it waits from then, by one more doubling for each;
   an earlier failure leaves what wait there was.
   */
  lemma WaitAfterFailure(kept: Keys, after: Keys, k: string, allowed: int, now: Time, later: Time)
    requires At(after, k) == Some(Bumped(At(kept, k), allowed, now))
    ensures k in after
    ensures after[k].count < allowed ==> Remaining(after, k, later) == Remaining(kept, k, later)
    ensures after[k].count >= allowed ==> Remaining(after, k, later) == Left(now + Backoff(after[k].count - allowed + 1), later)
  {
  }

  /** A key counts on from its earlier failures, unless a thousand are kept and it has rested for an hour. */
  lemma CountsOnUnlessForgotten(keys: Keys, free: map<string, int>, k: string, now: Time)
    requires k in free
    ensures var f := At(Failed(keys, free, now), k);
            && f.Some? && f.value.last == now
            && f.value.count ==
               if k in keys && !(|keys| >= 1000 && now - keys[k].last > 60 * MINUTE && (keys[k].until == None || keys[k].until.value <= now))
               then keys[k].count + 1 else 1
  {
  }

  /** The other keys stay, unless they are forgotten so. */
  lemma OthersStayUnlessForgotten(keys: Keys, free: map<string, int>, k: string, now: Time)
    requires k !in free
    ensures At(Failed(keys, free, now), k) ==
            if k in keys && !(|keys| >= 1000 && now - keys[k].last > 60 * MINUTE && (keys[k].until == None || keys[k].until.value <= now))
            then Some(keys[k]) else None
  {
  }

  class Limiter {
    var keys: Keys

    constructor ()
      ensures keys == map[]
    {
      keys := map[];
    }

    /** wait: the longest remaining wait among the keys. */
    method Wait(ks: seq<string>, now: Time) returns (longest: Time)
      ensures longest >= 0
      ensures forall i :: 0 <= i < |ks| ==> Remaining(keys, ks[i], now) <= longest
      ensures longest > 0 ==> exists i :: 0 <= i < |ks| && Remaining(keys, ks[i], now) == longest
    {
      longest := 0;
      for i := 0 to |ks|
        invariant longest >= 0
        invariant forall j :: 0 <= j < i ==> Remaining(keys, ks[j], now) <= longest
        invariant longest > 0 ==> exists j :: 0 <= j < i && Remaining(keys, ks[j], now) == longest
      {
        if ks[i] in keys && keys[ks[i]].until.Some? && keys[ks[i]].until.value > now {
          var left := keys[ks[i]].until.value - now;
          assert left == Remaining(keys, ks[i], now);
          if left > longest {
            longest := left;
          }
        }
      }
    }

    /** fail: one failure on each key, after a lazy clean-up. */
    method Fail(free: map<string, int>, now: Time)
      modifies this
      ensures keys == Failed(old(keys), free, now)
    {
      Prune(now);
      ghost var kept := keys;
      var rest := free.Keys;
      NoBumps(kept, free, now);
      assert free.Keys - rest == {};
      while rest != {}
        invariant rest <= free.Keys && keys == Bumps(kept, free, free.Keys - rest, now)
        decreases rest
      {
        var k :| k in rest;
        FailNext(kept, free, rest, k, now);
        rest := rest - {k};
      }
      assert free.Keys - rest == free.Keys;
    }

    /** The next key's failure, with those of `rest` still to be counted. */
    method FailNext(ghost kept: Keys, free: map<string, int>, ghost rest: set<string>, k: string, now: Time)
      requires rest <= free.Keys && k in rest && keys == Bumps(kept, free, free.Keys - rest, now)
      modifies this
      ensures keys == Bumps(kept, free, free.Keys - (rest - {k}), now)
    {
      OneMoreBump(kept, free, free.Keys - rest, now, k);
      assert free.Keys - (rest - {k}) == free.Keys - rest + {k};
      FailOne(k, free[k], now);
    }

    /** The failure number `allowed` already waits a minute; each one after it waits twice as long. */
    method FailOne(k: string, allowed: int, now: Time)
      modifies this
      ensures keys == old(keys)[k := Bumped(At(old(keys), k), allowed, now)]
    {
      var f := if k in keys then keys[k] else Failures(0, None, now);
      var count := f.count + 1;
      var until := f.until;
      var over := count - allowed + 1;
      if over > 0 {
        var wait := Shifted(Min(over - 1, 10));
        until := Some(now + Min(wait, MAX_WAIT));
      }
      keys := keys[k := Failures(count, until, now)];
    }

    method Reset(ks: seq<string>)
      modifies this
      ensures keys == old(keys) - (set k | k in ks)
    {
      for i := 0 to |ks|
        invariant keys == old(keys) - (set k | k in ks[..i])
      {
        assert ks[..i + 1] == ks[..i] + [ks[i]];
        keys := keys - {ks[i]};
      }
      assert ks[..|ks|] == ks;
    }

    method Prune(now: Time)
      modifies this
      ensures keys == Pruned(old(keys), now)
    {
      if |keys| < PRUNE_AT {
        return;
      }
      ghost var before := keys;
      var rest := keys.Keys;
      while rest != {}
        invariant rest <= before.Keys
        invariant keys == map k | k in before && (k in rest || !Forgotten(before[k], now)) :: before[k]
        decreases rest
      {
        var k :| k in rest;
        if now - keys[k].last > FORGET_AFTER && !Waiting(keys[k], now) {
          keys := keys - {k};
        }
        rest := rest - {k};
      }
    }
  }

  // ---------- histories ----------

  datatype Event = Fail(free: map<string, int>, now: Time) | Reset(ks: seq<string>)

  function After(keys: Keys, e: Event): Keys {
    match e
    case Fail(free, now) => Failed(keys, free, now)
    case Reset(ks) => keys - (set k | k in ks)
  }

  function Replayed(events: seq<Event>): Keys {
    if events == [] then map[] else After(Replayed(events[..|events| - 1]), events[|events| - 1])
  }

  /** When the key failed. */
  function FailTimes(events: seq<Event>, k: string): seq<Time> {
    if events == [] then []
    else
      var e := events[|events| - 1];
      FailTimes(events[..|events| - 1], k) + if e.Fail? && k in e.free then [e.now] else []
  }

  /** The event comes no earlier than `since`; on `k` it is an account failure, while `k` does not wait. */
  ghost predicate Obedient(keys: Keys, e: Event, k: string, since: Time) {
    match e
    case Fail(free, now) => since <= now && (k in free ==> free[k] == ACCOUNT_FREE_FAILURES && Remaining(keys, k, now) == 0)
    case Reset(ks) => k !in ks
  }

  function Clock(events: seq<Event>, start: Time): Time {
    if events == [] then start
    else if events[|events| - 1].Fail? then events[|events| - 1].now
    else Clock(events[..|events| - 1], start)
  }

  /** A history in which every failure of `k` happens when it may try, and `k` is never reset. */
  ghost predicate ObedientHistory(events: seq<Event>, k: string, start: Time) {
    events == [] ||
    (&& ObedientHistory(events[..|events| - 1], k, start)
     && Obedient(Replayed(events[..|events| - 1]), events[|events| - 1], k, Clock(events[..|events| - 1], start)))
  }

  // ---------- the bound ----------

  /** The least time, in minutes, that `c` failures of one entry take. */
  function MinSpan(c: nat): nat {
    if c <= 5 then 0 else if c == 6 then 1 else if c == 7 then 3 else if c == 8 then 7 else 15 * (c - 8)
  }

  lemma MinSpanStep(c: nat)
    requires c >= 5
    ensures MinSpan(c + 1) * MINUTE == MinSpan(c) * MINUTE + Backoff(c - 4)
  {
    assert Pow2(0) == 1 && Pow2(1) == 2 && Pow2(2) == 4 && Pow2(3) == 8;
    if c >= 9 {
      BackoffDoubles(c - 4);
    }
  }

  /**
   The state of one key: `m` failures in entries already forgotten, then an entry begun at
   `a` with `c` failures, the last at `last`; all since `t0`.
   */
  ghost predicate Paced(f: Failures, m: nat, a: Time, t0: Time) {
    && f.count >= 1
    && a + MinSpan(f.count) * MINUTE <= f.last
    && 8 * m * MINUTE <= a - t0
    && f.until == if f.count >= 5 then Some(f.last + Backoff(f.count - 4)) else None
  }

  /** Of `n` failures, the entry holds its count and the rest came before. */
  ghost predicate PacedLife(f: Failures, n: nat, a: Time, t0: Time) {
    f.count <= n && Paced(f, n - f.count, a, t0)
  }

  /** All `n` failures are accounted for by the entry, or by one that was forgotten. */
  ghost predicate Accounted(f: Option<Failures>, n: nat, t0: Time, last: Time, clock: Time) {
    last <= clock &&
    match f
    case Some(f) => f.last == last && (exists a :: PacedLife(f, n, a, t0))
    case None => 8 * n * MINUTE < last + FORGET_AFTER - t0 && last + FORGET_AFTER < clock
  }

  /** Pruning at a failure keeps the account. */
  lemma PrunedAccounted(keys: Keys, k: string, n: nat, t0: Time, last: Time, clock: Time, now: Time)
    requires Accounted(At(keys, k), n, t0, last, clock) && clock <= now
    ensures Accounted(At(Pruned(keys, now), k), n, t0, last, now)
  {
  }

  /** One more failure, at a time when the key does not wait. */
  lemma BumpAccounted(f: Option<Failures>, n: nat, t0: Time, last: Time, now: Time)
    requires Accounted(f, n, t0, last, now)
    requires f.Some? ==> !Waiting(f.value, now)
    ensures Accounted(Some(Bumped(f, ACCOUNT_FREE_FAILURES, now)), n + 1, t0, now, now)
  {
    var g := Bumped(f, ACCOUNT_FREE_FAILURES, now);
    match f
    case None => assert PacedLife(g, n + 1, now, t0);
    case Some(f) =>
      var a :| PacedLife(f, n, a, t0);
      if f.count >= 5 {
        MinSpanStep(f.count);
      }
      assert PacedLife(g, n + 1, a, t0);
  }

  lemma FirstAccounted(now: Time)
    ensures Accounted(Some(Bumped(None, ACCOUNT_FREE_FAILURES, now)), 1, now, now, now)
  {
    assert PacedLife(Bumped(None, ACCOUNT_FREE_FAILURES, now), 1, now, now);
  }

  /** The key failed at the times `ts`, and `keys` accounts for them. */
  ghost predicate Kept(keys: Keys, k: string, ts: seq<Time>, clock: Time) {
    if ts == [] then k !in keys else Accounted(At(keys, k), |ts|, ts[0], ts[|ts| - 1], clock)
  }

  lemma EventKept(keys: Keys, k: string, ts: seq<Time>, clock: Time, e: Event)
    requires Kept(keys, k, ts, clock) && Obedient(keys, e, k, clock)
    ensures Kept(After(keys, e), k, ts + if e.Fail? && k in e.free then [e.now] else [], if e.Fail? then e.now else clock)
  {
    match e
    case Reset(ks) => assert At(After(keys, e), k) == At(keys, k);
    case Fail(free, now) =>
      if ts == [] {
        FirstFailure(keys, k, free, now);
      } else {
        OneMoreFailure(keys, k, free, |ts|, ts[0], ts[|ts| - 1], clock, now);
      }
  }

  /** The account kept over a whole history. */
  lemma {:induction false} HistoryKept(events: seq<Event>, k: string, start: Time)
    requires ObedientHistory(events, k, start)
    ensures Kept(Replayed(events), k, FailTimes(events, k), Clock(events, start))
    decreases events
  {
    if events != [] {
      var before := events[..|events| - 1];
      HistoryKept(before, k, start);
      EventKept(Replayed(before), k, FailTimes(before, k), Clock(before, start), events[|events| - 1]);
    }
  }

  /** A failure event, seen from a key with a history. */
  lemma OneMoreFailure(keys: Keys, k: string, free: map<string, int>, n: nat, t0: Time, last: Time, clock: Time, now: Time)
    requires Accounted(At(keys, k), n, t0, last, clock)
    requires Obedient(keys, Fail(free, now), k, clock)
    ensures Accounted(At(Failed(keys, free, now), k), if k in free then n + 1 else n, t0, if k in free then now else last, now)
  {
    PrunedAccounted(keys, k, n, t0, last, clock, now);
    if k in free {
      BumpAccounted(At(Pruned(keys, now), k), n, t0, last, now);
    }
  }

  lemma FirstFailure(keys: Keys, k: string, free: map<string, int>, now: Time)
    requires k !in keys && (k in free ==> free[k] == ACCOUNT_FREE_FAILURES)
    ensures k in free ==> Accounted(At(Failed(keys, free, now), k), 1, now, now, now)
    ensures k !in free ==> k !in Failed(keys, free, now)
  {
    FirstAccounted(now);
  }

  /**
   The bound on guessing: over any history, whatever other keys do and however often entries
   are forgotten, `n` failures of one account that is never reset take at least 8 (n - 8)
   minutes.
   */
  lemma GuessingIsSlow(events: seq<Event>, k: string, start: Time)
    requires ObedientHistory(events, k, start) && FailTimes(events, k) != []
    ensures var ts := FailTimes(events, k);
            8 * (|ts| - 8) * MINUTE <= ts[|ts| - 1] - ts[0]
  {
    HistoryKept(events, k, start);
    var ts := FailTimes(events, k);
    AccountedIsSlow(At(Replayed(events), k), |ts|, ts[0], ts[|ts| - 1], Clock(events, start));
  }

  lemma AccountedIsSlow(f: Option<Failures>, n: nat, t0: Time, last: Time, clock: Time)
    requires Accounted(f, n, t0, last, clock)
    ensures 8 * (n - 8) * MINUTE <= last - t0
  {
  }

  /** While the entry is never forgotten, 15 (n - 8) minutes: it counts every failure. */
  lemma GuessingUnforgottenIsSlower(events: seq<Event>, k: string, start: Time)
    requires ObedientHistory(events, k, start) && FailTimes(events, k) != []
    ensures var ts := FailTimes(events, k);
            At(Replayed(events), k).Some? && At(Replayed(events), k).value.count == |ts| ==>
              && ts[0] + MinSpan(|ts|) * MINUTE <= ts[|ts| - 1]
              && 15 * (|ts| - 8) * MINUTE <= ts[|ts| - 1] - ts[0]
  {
    HistoryKept(events, k, start);
    if At(Replayed(events), k).Some? && At(Replayed(events), k).value.count == |FailTimes(events, k)| {
      KeptOneLifeIsSlow(Replayed(events), k, FailTimes(events, k), Clock(events, start));
    }
  }

  lemma KeptOneLifeIsSlow(keys: Keys, k: string, ts: seq<Time>, clock: Time)
    requires Kept(keys, k, ts, clock) && k in keys && keys[k].count == |ts| && ts != []
    ensures ts[0] + MinSpan(|ts|) * MINUTE <= ts[|ts| - 1]
    ensures 15 * (|ts| - 8) * MINUTE <= ts[|ts| - 1] - ts[0]
  {
  }
}
