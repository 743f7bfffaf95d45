/**
 The cache of API-key answers in front of the auth service.

 Class Client holds the cache, with one method for each of the two sections `Introspect`
 runs under the lock.  Between them the lock is free, so the machine below interleaves the
 sections of any number of calls with the service's answers and the clock, and
 `AnswersAreRecent` says how old a result can be.
 */
module KeyCache {
  import opened Options
  import opened Sets

  /** Nanoseconds. */
  type Time = int

  const TTL: Time := 30_000_000_000

  /** A key's SHA-256: the key itself, as far as the cache can tell. */
  type Id = string

  datatype Answer = Answer(active: bool, owner: string, scopes: seq<string>, role: string)

  datatype Entry = Entry(result: Answer, expires: Time)

  type Cache = map<Id, Entry>

  // ---------- the two locked sections ----------

  function Found(cache: Cache, id: Id, now: Time): Option<Answer> {
    if id in cache && now < cache[id].expires then Some(cache[id].result) else None
  }

  /** The cache after an answer to a call that began at `now`: what had expired by then is gone. */
  function Installed(cache: Cache, id: Id, now: Time, r: Answer): Cache {
    (map k | k in cache && now <= cache[k].expires :: cache[k])[id := Entry(r, now + TTL)]
  }

  /** A stored answer is found for exactly TTL from when the call began; what others find of other keys stays, if it had not expired. */
  lemma InstalledIs(cache: Cache, id: Id, now: Time, r: Answer, k: Id, later: Time)
    ensures Found(Installed(cache, id, now, r), id, later) == if later < now + 30_000_000_000 then Some(r) else None
    ensures k != id && later >= now ==> Found(Installed(cache, id, now, r), k, later) == Found(cache, k, later)
    ensures k != id ==> (k in Installed(cache, id, now, r) <==> k in cache && now <= cache[k].expires)
  {
  }

  class Client {
    var cache: Cache

    constructor ()
      ensures cache == map[]
    {
      cache := map[];
    }

    method Find(id: Id, now: Time) returns (hit: Option<Answer>)
      ensures hit == Found(cache, id, now)
    {
      if id in cache {
        var e := cache[id];
        if now < e.expires {
          return Some(e.result);
        }
      }
      hit := None;
    }

    method Install(id: Id, now: Time, r: Answer)
      modifies this
      ensures cache == Installed(old(cache), id, now, r)
    {
      var rest := cache.Keys;
      while rest != {}
        invariant rest <= cache.Keys <= old(cache).Keys
        invariant forall k :: k in cache ==> cache[k] == old(cache)[k]
        invariant forall k :: k in cache && k !in rest ==> now <= cache[k].expires
        invariant forall k :: k in old(cache) && now <= old(cache)[k].expires ==> k in cache
        decreases rest
      {
        var k :| k in rest;
        if now > cache[k].expires {
          cache := cache - {k};
        }
        rest := rest - {k};
      }
      cache := cache[id := Entry(r, now + TTL)];
    }

    /** A call nobody interleaves with; `answer` is what asking the service gives, None a failure. */
    method Introspect(id: Id, now: Time, answer: Option<Answer>) returns (r: Option<Answer>)
      modifies this
      ensures r == if Found(old(cache), id, now).Some? then Found(old(cache), id, now) else answer
      ensures cache == if Found(old(cache), id, now).Some? || answer.None? then old(cache)
                       else Installed(old(cache), id, now, answer.value)
    {
      r := Find(id, now);
      if r.None? {
        r := answer;
        if answer.Some? {
          Install(id, now, answer.value);
        }
      }
    }
  }

  // ---------- concurrent calls ----------

  /** An answer of the service, and what the clock showed when it was given. */
  datatype Told = Told(r: Answer, time: Time)

  /** Where a call is: it has read the clock, missed the cache, been answered, or ended. */
  datatype At = Sampled | Asking | Answered(told: Told) | Ended(result: Option<Told>)

  /** A call for `id` that read the clock at `now`. */
  datatype Call = Call(id: Id, now: Time, at: At)

  datatype Said = Said(id: Id, told: Told)

  /**
   `said` remembers everything the service ever said, and `times` when it said what was last
   stored under each key; no call reads either.
   */
  datatype State = State(clock: Time, cache: Cache, times: map<Id, Time>, calls: map<nat, Call>, said: set<Said>)

  datatype Event =
    | Tick(ns: nat)
    | Begin(c: nat, id: Id)
    | Look(c: nat)
    | Reply(c: nat, r: Answer)
    | Fail(c: nat)
    | Install(c: nat)

  predicate Enabled(s: State, e: Event) {
    match e
    case Tick(_) => true
    case Begin(c, _) => c !in s.calls
    case Look(c) => c in s.calls && s.calls[c].at.Sampled?
    case Reply(c, _) => c in s.calls && s.calls[c].at.Asking?
    case Fail(c) => c in s.calls && (s.calls[c].at.Asking? || s.calls[c].at.Answered?)
    case Install(c) => c in s.calls && s.calls[c].at.Answered?
  }

  function TimeOf(s: State, id: Id): Time {
    if id in s.times then s.times[id] else 0
  }

  /** What a look at the cache gives the call. */
  function Hit(s: State, call: Call): Option<Told> {
    match Found(s.cache, call.id, call.now)
    case Some(r) => Some(Told(r, TimeOf(s, call.id)))
    case None => None
  }

  function Moved(s: State, c: nat, at: At): State
    requires c in s.calls
  {
    s.(calls := s.calls[c := s.calls[c].(at := at)])
  }

  /** One step.  The service may say anything; it is asked after the clock was read. */
  function Apply(s: State, e: Event): State
    requires Enabled(s, e)
  {
    match e
    case Tick(ns) => s.(clock := s.clock + ns)
    case Begin(c, id) => s.(calls := s.calls[c := Call(id, s.clock, Sampled)])
    case Look(c) =>
      var hit := Hit(s, s.calls[c]);
      Moved(s, c, if hit.Some? then Ended(hit) else Asking)
    case Reply(c, r) => Moved(s, c, Answered(Told(r, s.clock))).(said := s.said + {Said(s.calls[c].id, Told(r, s.clock))})
    case Fail(c) => Moved(s, c, Ended(None))
    case Install(c) =>
      var call := s.calls[c];
      Moved(s, c, Ended(Some(call.at.told)))
        .(cache := Installed(s.cache, call.id, call.now, call.at.told.r), times := s.times[call.id := call.at.told.time])
  }

  predicate Valid(s: State, run: seq<Event>)
    decreases |run|
  {
    run == [] || (Enabled(s, run[0]) && Valid(Apply(s, run[0]), run[1..]))
  }

  function Exec(s: State, run: seq<Event>): State
    requires Valid(s, run)
    decreases |run|
  {
    if run == [] then s else Exec(Apply(s, run[0]), run[1..])
  }

  function Start(clock: Time): State { State(clock, map[], map[], map[], {}) }

  /** A call that was answered asked after it began, and a result is younger than TTL when the call began. */
  predicate CallHolds(s: State, call: Call) {
    && call.now <= s.clock
    && match call.at
       case Answered(told) => Said(call.id, told) in s.said && call.now <= told.time <= s.clock
       case Ended(Some(told)) => Said(call.id, told) in s.said && call.now - TTL < told.time <= s.clock
       case _ => true
  }

  predicate Inv(s: State) {
    && (forall k :: k in s.cache ==>
          && Said(k, Told(s.cache[k].result, TimeOf(s, k))) in s.said
          && s.cache[k].expires - TTL <= TimeOf(s, k) <= s.clock)
    && (forall c :: c in s.calls ==> CallHolds(s, s.calls[c]))
  }

  lemma StepKeepsInv(s: State, e: Event)
    requires Inv(s) && Enabled(s, e)
    ensures Inv(Apply(s, e)) && s.clock <= Apply(s, e).clock && s.said <= Apply(s, e).said
  {
  }

  lemma {:induction false} RunKeepsInv(s: State, run: seq<Event>)
    requires Inv(s) && Valid(s, run)
    ensures Inv(Exec(s, run)) && s.clock <= Exec(s, run).clock
    decreases |run|
  {
    if run != [] {
      StepKeepsInv(s, run[0]);
      RunKeepsInv(Apply(s, run[0]), run[1..]);
    }
  }

  /**
   Whatever the interleaving, the result of a call that read the clock at t is something the
   service said about that very key, later than t minus 30 seconds.
   */
  lemma AnswersAreRecent(clock: Time, run: seq<Event>, c: nat)
    requires Valid(Start(clock), run)
    requires var s := Exec(Start(clock), run); c in s.calls && s.calls[c].at.Ended? && s.calls[c].at.result.Some?
    ensures var s := Exec(Start(clock), run);
            var call := s.calls[c];
            Said(call.id, call.at.result.value) in s.said && call.now - TTL < call.at.result.value.time <= s.clock
  {
    RunKeepsInv(Start(clock), run);
    assert CallHolds(Exec(Start(clock), run), Exec(Start(clock), run).calls[c]);
  }

  /**
   A key that the service calls inactive from some moment on is inactive in every result of a
   call that begins 30 seconds after that moment, or later.
   */
  lemma RevokedKeyDies(clock: Time, run: seq<Event>, id: Id, revoked: Time, c: nat)
    requires Valid(Start(clock), run)
    requires forall x :: x in Exec(Start(clock), run).said && x.id == id && x.told.time >= revoked ==> !x.told.r.active
    requires var s := Exec(Start(clock), run);
             c in s.calls && s.calls[c].id == id && s.calls[c].now >= revoked + TTL
             && s.calls[c].at.Ended? && s.calls[c].at.result.Some?
    ensures !Exec(Start(clock), run).calls[c].at.result.value.r.active
  {
    AnswersAreRecent(clock, run, c);
  }

  /** A call nobody interleaves with. */
  function AloneRun(s: State, c: nat, id: Id, answer: Option<Answer>): seq<Event> {
    [Begin(c, id), Look(c)] + RestOfAloneRun(s, c, id, answer)
  }

  function RestOfAloneRun(s: State, c: nat, id: Id, answer: Option<Answer>): seq<Event> {
    if Found(s.cache, id, s.clock).Some? then []
    else if answer.None? then [Fail(c)]
    else [Reply(c, answer.value), Install(c)]
  }

  /** It does in the machine what Introspect does. */
  lemma AloneRunAgrees(s: State, c: nat, id: Id, answer: Option<Answer>)
    requires c !in s.calls
    ensures var hit := Found(s.cache, id, s.clock);
            var run := AloneRun(s, c, id, answer);
            && Valid(s, run)
            && Exec(s, run).calls == s.calls[c := Call(id, s.clock, Ended(
                 if hit.Some? then Some(Told(hit.value, TimeOf(s, id)))
                 else if answer.Some? then Some(Told(answer.value, s.clock)) else None))]
            && Exec(s, run).cache == (if hit.Some? || answer.None? then s.cache
                                      else Installed(s.cache, id, s.clock, answer.value))
            && Exec(s, run).clock == s.clock
  {
    var rest := RestOfAloneRun(s, c, id, answer);
    var s1 := Apply(s, Begin(c, id));
    RestOfAloneRunAgrees(s, c, id, answer);
    Step(s1, Look(c), rest);
    Step(s, Begin(c, id), [Look(c)] + rest);
    assert [Begin(c, id), Look(c)] + rest == [Begin(c, id)] + ([Look(c)] + rest);
  }

  /** From the look on. */
  lemma RestOfAloneRunAgrees(s: State, c: nat, id: Id, answer: Option<Answer>)
    requires c !in s.calls
    ensures var hit := Found(s.cache, id, s.clock);
            var rest := RestOfAloneRun(s, c, id, answer);
            var s2 := Apply(Apply(s, Begin(c, id)), Look(c));
            && Valid(s2, rest)
            && Exec(s2, rest).calls == s.calls[c := Call(id, s.clock, Ended(
                 if hit.Some? then Some(Told(hit.value, TimeOf(s, id)))
                 else if answer.Some? then Some(Told(answer.value, s.clock)) else None))]
            && Exec(s2, rest).cache == (if hit.Some? || answer.None? then s.cache
                                        else Installed(s.cache, id, s.clock, answer.value))
            && Exec(s2, rest).clock == s.clock
  {
    var s2 := Apply(Apply(s, Begin(c, id)), Look(c));
    if Found(s.cache, id, s.clock).None? {
      if answer.Some? {
        Step(Apply(s2, Reply(c, answer.value)), Install(c), []);
        Step(s2, Reply(c, answer.value), [Install(c)]);
      } else {
        Step(s2, Fail(c), []);
      }
    }
  }

  lemma Step(s: State, e: Event, rest: seq<Event>)
    requires Enabled(s, e) && Valid(Apply(s, e), rest)
    ensures Valid(s, [e] + rest) && Exec(s, [e] + rest) == Exec(Apply(s, e), rest)
  {
  }

  lemma {:induction false} ExecAppend(s: State, run: seq<Event>, more: seq<Event>)
    requires Valid(s, run) && Valid(Exec(s, run), more)
    ensures Valid(s, run + more) && Exec(s, run + more) == Exec(Exec(s, run), more)
    decreases |run|
  {
    if run == [] {
      assert run + more == more;
    } else {
      ExecAppend(Apply(s, run[0]), run[1..], more);
      assert run + more == [run[0]] + (run[1..] + more);
      Step(s, run[0], run[1..] + more);
    }
  }

  // ---------- how far it can be off ----------

  /** An unexpired entry is what the next call returns. */
  lemma NextCallGets(s: State, c: nat, id: Id)
    requires c !in s.calls && id in s.cache && s.clock < s.cache[id].expires
    ensures Valid(s, [Begin(c, id), Look(c)])
    ensures Exec(s, [Begin(c, id), Look(c)]).calls
            == s.calls[c := Call(id, s.clock, Ended(Some(Told(s.cache[id].result, TimeOf(s, id)))))]
  {
    Step(Apply(s, Begin(c, id)), Look(c), []);
    Step(s, Begin(c, id), [Look(c)]);
  }

  /**
   The bound is exact: an answer stored by a call that began at t is still returned to a call
   that begins one nanosecond short of t plus 30 seconds.
   */
  lemma StalenessIsReached(s: State, a: nat, c: nat)
    requires a in s.calls && s.calls[a].at.Answered? && c !in s.calls
    requires s.clock <= s.calls[a].now + TTL - 1
    ensures var late := s.calls[a].now + TTL - 1;
            var run := [Install(a), Tick(late - s.clock), Begin(c, s.calls[a].id), Look(c)];
            && Valid(s, run)
            && c in Exec(s, run).calls
            && Exec(s, run).calls[c] == Call(s.calls[a].id, late, Ended(Some(s.calls[a].at.told)))
  {
    var call := s.calls[a];
    var wait := call.now + TTL - 1 - s.clock;
    var s1 := Apply(s, Install(a));
    var s2 := Apply(s1, Tick(wait));
    NextCallGets(s2, c, call.id);
    Step(s1, Tick(wait), [Begin(c, call.id), Look(c)]);
    Step(s, Install(a), [Tick(wait), Begin(c, call.id), Look(c)]);
  }

  // ---------- going back ----------

  /** Call `c`, begun after `s`, gets an answer about `id` that was given before `since`. */
  ghost predicate GetsOlder(s: State, run: seq<Event>, c: nat, id: Id, since: Time) {
    && Valid(s, run) && c !in s.calls && c in Exec(s, run).calls && Exec(s, run).calls[c].id == id
    && Older(Exec(s, run).calls[c].at, since)
  }

  predicate Older(at: At, since: Time) {
    at.Ended? && at.result.Some? && at.result.value.time < since
  }

  /** The cache holds an answer about `id` from before `since`, good for a call that begins at `now`. */
  predicate OldEntry(s: State, id: Id, since: Time, now: Time) {
    id in s.cache && now < s.cache[id].expires && TimeOf(s, id) < since
  }

  /** A call was given such an answer and has yet to store it. */
  predicate OldAnswer(call: Call, id: Id, since: Time, now: Time) {
    call.id == id && call.at.Answered? && call.at.told.time < since && now < call.now + TTL
  }

  predicate Behind(s: State, id: Id, since: Time) {
    OldEntry(s, id, since, s.clock) || exists c :: c in s.calls && OldAnswer(s.calls[c], id, since, s.clock)
  }

  /**
   From `from` on, no call begun later can get an answer from before `since`: what is old was
   good only for calls that began before, and what the service says from now on is not old.
   */
  ghost predicate Past(from: State, s: State, id: Id, since: Time) {
    && from.calls.Keys <= s.calls.Keys && since <= from.clock <= s.clock
    && !OldEntry(s, id, since, from.clock)
    && (forall c :: c in s.calls ==> !OldAnswer(s.calls[c], id, since, from.clock))
    && (forall c :: c in s.calls && c !in from.calls ==> from.clock <= s.calls[c].now)
    && (forall c :: c in s.calls && c !in from.calls && s.calls[c].id == id ==> !Older(s.calls[c].at, since))
  }

  lemma StepKeepsPast(from: State, s: State, e: Event, id: Id, since: Time)
    requires Past(from, s, id, since) && Enabled(s, e)
    ensures Past(from, Apply(s, e), id, since)
  {
  }

  lemma {:induction false} RunKeepsPast(from: State, s: State, run: seq<Event>, id: Id, since: Time)
    requires Past(from, s, id, since) && Valid(s, run)
    ensures Past(from, Exec(s, run), id, since)
    decreases |run|
  {
    if run != [] {
      StepKeepsPast(from, s, run[0], id, since);
      RunKeepsPast(from, Apply(s, run[0]), run[1..], id, since);
    }
  }

  /** An old answer in hand is stored and handed to the next call. */
  lemma OldAnswerIsPassedOn(s: State, a: nat, id: Id, since: Time)
    requires a in s.calls && OldAnswer(s.calls[a], id, since, s.clock)
    ensures exists run, c :: GetsOlder(s, run, c, id, since)
  {
    var c := SomeFreshKey(s.calls);
    var run := StoredAndPassedOn(s, a, c, id);
    assert GetsOlder(s, run, c, id, since);
  }

  /**
   Exactly when answers can go back: some call that begins after `s` can be given an answer
   from before `since`, any time that has passed, if and only if at `s` such an answer is in
   the cache and unexpired, or in the hands of a call that would store it unexpired.
   */
  lemma GoesBackIff(s: State, id: Id, since: Time)
    requires since <= s.clock
    ensures (exists run, c :: GetsOlder(s, run, c, id, since)) <==> Behind(s, id, since)
  {
    if OldEntry(s, id, since, s.clock) {
      var c := SomeFreshKey(s.calls);
      NextCallGets(s, c, id);
      assert GetsOlder(s, [Begin(c, id), Look(c)], c, id, since);
    } else if Behind(s, id, since) {
      var a :| a in s.calls && OldAnswer(s.calls[a], id, since, s.clock);
      OldAnswerIsPassedOn(s, a, id, since);
    } else {
      assert Past(s, s, id, since);
      forall run, c ensures !GetsOlder(s, run, c, id, since) {
        if Valid(s, run) {
          RunKeepsPast(s, s, run, id, since);
        }
      }
    }
  }

  /** A call misses and is answered, and a nanosecond passes. */
  lemma FirstIsAnswered(clock: Time, id: Id, yes: Answer) returns (run: seq<Event>)
    ensures Valid(Start(clock), run)
    ensures Exec(Start(clock), run) == State(clock + 1, map[], map[], map[0 := Call(id, clock, Answered(Told(yes, clock)))],
                                             {Said(id, Told(yes, clock))})
  {
    var s0 := Start(clock);
    var s1 := Apply(s0, Begin(0, id));
    var s2 := Apply(s1, Look(0));
    var s3 := Apply(s2, Reply(0, yes));
    run := [Begin(0, id)] + ([Look(0)] + ([Reply(0, yes)] + ([Tick(1)] + [])));
    Step(s3, Tick(1), []);
    Step(s2, Reply(0, yes), [Tick(1)] + []);
    Step(s1, Look(0), [Reply(0, yes)] + ([Tick(1)] + []));
    Step(s0, Begin(0, id), [Look(0)] + ([Reply(0, yes)] + ([Tick(1)] + [])));
  }

  /** It happens: a call returns `no`, and a call begun after that returns the earlier `yes`. */
  lemma AnswersGoBack(clock: Time, id: Id, yes: Answer, no: Answer) returns (run: seq<Event>, later: seq<Event>, c: nat)
    ensures Valid(Start(clock), run)
    ensures var s := Exec(Start(clock), run);
            && 1 in s.calls && s.calls[1].id == id && s.calls[1].at == Ended(Some(Told(no, clock + 1)))
            && Valid(s, later) && c !in s.calls
            && c in Exec(s, later).calls && Exec(s, later).calls[c].id == id
            && Exec(s, later).calls[c].at == Ended(Some(Told(yes, clock)))
  {
    var first := FirstIsAnswered(clock, id, yes);
    var s1 := Exec(Start(clock), first);
    AloneRunAgrees(s1, 1, id, Some(no));
    run := first + AloneRun(s1, 1, id, Some(no));
    ExecAppend(Start(clock), first, AloneRun(s1, 1, id, Some(no)));
    var s := Exec(Start(clock), run);
    assert s.calls[0] == Call(id, clock, Answered(Told(yes, clock)));
    c := 2;
    later := StoredAndPassedOn(s, 0, 2, id);
  }

  /** A held answer, stored while it is good, is what the next call returns. */
  lemma StoredAndPassedOn(s: State, a: nat, c: nat, id: Id) returns (run: seq<Event>)
    requires a in s.calls && s.calls[a].id == id && s.calls[a].at.Answered? && s.clock < s.calls[a].now + TTL && c !in s.calls
    ensures Valid(s, run) && c in Exec(s, run).calls
    ensures Exec(s, run).calls[c] == Call(id, s.clock, Ended(Some(s.calls[a].at.told)))
  {
    run := [Install(a)] + [Begin(c, id), Look(c)];
    NextCallGets(Apply(s, Install(a)), c, id);
    Step(s, Install(a), [Begin(c, id), Look(c)]);
  }

  // ---------- one call at a time ----------

  /** The call is asking the service about `id`, or holds its answer. */
  predicate Pending(call: Call, id: Id) {
    call.id == id && (call.at.Asking? || call.at.Answered?)
  }

  /** Whenever a call about `id` begins to ask, no other is asking or holds an answer. */
  ghost predicate OneAtATime(s: State, run: seq<Event>, id: Id)
    requires Valid(s, run)
    decreases |run|
  {
    run == [] ||
    (&& (run[0].Look? && s.calls[run[0].c].id == id && Hit(s, s.calls[run[0].c]).None? ==>
           forall c :: c in s.calls ==> !Pending(s.calls[c], id))
     && OneAtATime(Apply(s, run[0]), run[1..], id))
  }

  /** A single call is pending at most, and no result is newer than its answer or an unexpired entry. */
  ghost predicate Tidy(s: State, id: Id) {
    && (forall c, e :: c in s.calls && e in s.calls && Pending(s.calls[c], id) && Pending(s.calls[e], id) ==> c == e)
    && (forall c :: c in s.calls && s.calls[c].id == id && s.calls[c].at.Answered? ==> NewestIs(s, id, s.calls[c].at.told.time))
    && (id in s.cache && s.clock < s.cache[id].expires ==> NewestIs(s, id, TimeOf(s, id)))
  }

  /** No result about `id`, and nothing in the cache about it, is newer than `time`. */
  ghost predicate NewestIs(s: State, id: Id, time: Time) {
    && (id in s.cache ==> TimeOf(s, id) <= time)
    && (forall c :: c in s.calls && s.calls[c].id == id ==> !NewerResult(s.calls[c].at, time))
  }

  predicate NewerResult(at: At, time: Time) {
    at.Ended? && at.result.Some? && time < at.result.value.time
  }

  lemma StepKeepsTidy(s: State, e: Event, id: Id)
    requires Inv(s) && Tidy(s, id) && Enabled(s, e)
    requires e.Look? && s.calls[e.c].id == id && Hit(s, s.calls[e.c]).None? ==> forall c :: c in s.calls ==> !Pending(s.calls[c], id)
    ensures Tidy(Apply(s, e), id)
  {
    match e
    case Look(c) => LookKeepsTidy(s, c, id);
    case Install(c) => InstallKeepsTidy(s, c, id);
    case _ =>
  }

  lemma LookKeepsTidy(s: State, c: nat, id: Id)
    requires Inv(s) && Tidy(s, id) && Enabled(s, Look(c))
    requires s.calls[c].id == id && Hit(s, s.calls[c]).None? ==> forall e :: e in s.calls ==> !Pending(s.calls[e], id)
    ensures Tidy(Apply(s, Look(c)), id)
  {
  }

  lemma InstallKeepsTidy(s: State, c: nat, id: Id)
    requires Inv(s) && Tidy(s, id) && Enabled(s, Install(c))
    ensures Tidy(Apply(s, Install(c)), id)
  {
  }

  lemma {:induction false} RunKeepsTidy(s: State, run: seq<Event>, id: Id)
    requires Inv(s) && Tidy(s, id) && Valid(s, run) && OneAtATime(s, run, id)
    ensures Inv(Exec(s, run)) && Tidy(Exec(s, run), id)
    decreases |run|
  {
    if run != [] {
      StepKeepsInv(s, run[0]);
      StepKeepsTidy(s, run[0], id);
      RunKeepsTidy(Apply(s, run[0]), run[1..], id);
    }
  }

  /**
   While calls about a key ask one at a time, answers never go back: after any such run, no call
   that begins later gets an answer older than one already returned, whatever follows.
   */
  lemma OneAtATimeNeverGoesBack(clock: Time, run: seq<Event>, id: Id, x: nat)
    requires Valid(Start(clock), run) && OneAtATime(Start(clock), run, id)
    requires var s := Exec(Start(clock), run);
             x in s.calls && s.calls[x].id == id && s.calls[x].at.Ended? && s.calls[x].at.result.Some?
    ensures var s := Exec(Start(clock), run);
            !exists later, c :: GetsOlder(s, later, c, id, s.calls[x].at.result.value.time)
  {
    RunKeepsTidy(Start(clock), run, id);
    var s := Exec(Start(clock), run);
    assert CallHolds(s, s.calls[x]);
    GoesBackIff(s, id, s.calls[x].at.result.value.time);
  }
}
