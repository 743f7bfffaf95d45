/**
 The second step of a login, with no other request in between: the challenge that the right
 password earned, the back-off, the factor that is spent, and what each answer costs.
 */
module SecondFactor {
  import opened Options
  import opened Totp
  import M = MfaStore
  import S = MfaSteps
  import L = LoginLimit

  type Token = nat
  type Time = int            // nanoseconds

  const SECOND: Time := 1_000_000_000
  const VERIFY_TTL: Time := 300 * SECOND
  const SETUP_TTL: Time := 900 * SECOND

  datatype Purpose = ToVerify | ToSetUp

  datatype Challenge = Challenge(user: M.User, email: string, purpose: Purpose, expires: Time)

  type Open = map<Token, Challenge>

  function TtlOf(purpose: Purpose): Time { if purpose.ToSetUp? then SETUP_TTL else VERIFY_TTL }

  /** The open challenges after one more: what had expired is gone. */
  function Issued(m: Open, tok: Token, user: M.User, email: string, purpose: Purpose, now: Time): Open {
    (map k | k in m && now <= m[k].expires :: m[k])[tok := Challenge(user, email, purpose, now + TtlOf(purpose))]
  }

  class Challenges {
    var m: Open

    constructor ()
      ensures m == map[]
    {
      m := map[];
    }

    /** A new random token; expired challenges are dropped on the way. */
    method Issue(tok: Token, user: M.User, email: string, purpose: Purpose, now: Time)
      modifies this
      ensures m == Issued(old(m), tok, user, email, purpose, now)
    {
      var rest := m.Keys;
      ghost var before := m;
      while rest != {}
        invariant rest <= before.Keys
        invariant forall k :: k in m <==> k in before && (k in rest || now <= before[k].expires)
        invariant forall k :: k in m ==> m[k] == before[k]
        decreases rest
      {
        var k :| k in rest;
        if now > m[k].expires {
          m := m - {k};
        }
        rest := rest - {k};
      }
      m := m[tok := Challenge(user, email, purpose, now + if purpose.ToSetUp? then SETUP_TTL else VERIFY_TTL)];
    }

    predicate Good(tok: Token, purpose: Purpose, now: Time)
      reads this
    {
      GoodIn(m, tok, purpose, now)
    }

    method Get(tok: Token, purpose: Purpose, now: Time) returns (ch: Option<Challenge>)
      ensures ch.Some? <==> Good(tok, purpose, now)
      ensures ch.Some? ==> ch.value == m[tok]
    {
      if tok !in m || m[tok].purpose != purpose || now > m[tok].expires {
        return None;
      }
      ch := Some(m[tok]);
    }

    method Consume(tok: Token)
      modifies this
      ensures m == old(m) - {tok}
    {
      m := m - {tok};
    }

    /** What other requests do to the challenges. */
    method Serve(events: seq<ChallengeEvent>)
      modifies this
      ensures m == AfterAll(old(m), events)
    {
      for i := 0 to |events|
        invariant m == AfterAll(old(m), events[..i])
      {
        assert events[..i + 1][..i] == events[..i];
        match events[i]
        case NewChallenge(tok, user, email, purpose, now) => Issue(tok, user, email, purpose, now);
        case Used(tok) => Consume(tok);
      }
      assert events[..|events|] == events;
    }
  }

  predicate GoodIn(m: Open, tok: Token, purpose: Purpose, now: Time) {
    tok in m && m[tok].purpose == purpose && now <= m[tok].expires
  }

  // ---------- the life of a challenge ----------

  datatype ChallengeEvent =
    | NewChallenge(tok: Token, user: M.User, email: string, purpose: Purpose, now: Time)
    | Used(tok: Token)

  function After(m: Open, e: ChallengeEvent): Open {
    match e
    case NewChallenge(tok, user, email, purpose, now) => Issued(m, tok, user, email, purpose, now)
    case Used(tok) => m - {tok}
  }

  function AfterAll(m: Open, events: seq<ChallengeEvent>): Open {
    if events == [] then m else After(AfterAll(m, events[..|events| - 1]), events[|events| - 1])
  }

  /** The events are about other challenges, none later than `now`. */
  predicate About(events: seq<ChallengeEvent>, tok: Token, now: Time) {
    forall i :: 0 <= i < |events| ==> events[i].tok != tok && (events[i].NewChallenge? ==> events[i].now <= now)
  }

  lemma {:induction false} OthersLeaveIt(m: Open, events: seq<ChallengeEvent>, tok: Token, now: Time)
    requires About(events, tok, now)
    ensures forall purpose :: GoodIn(AfterAll(m, events), tok, purpose, now) <==> GoodIn(m, tok, purpose, now)
    ensures tok in AfterAll(m, events) ==> tok in m && AfterAll(m, events)[tok] == m[tok]
    decreases |events|
  {
    if events != [] {
      OthersLeaveIt(m, events[..|events| - 1], tok, now);
      assert events[|events| - 1].tok != tok;
    }
  }

  /**
   A challenge is good for its purpose for five minutes, or fifteen for a set-up, from the moment
   it was issued, whatever other challenges come and go; never for the other purpose, and not at
   all once it was used.
   */
  lemma ChallengeLives(m: Open, tok: Token, user: M.User, email: string, purpose: Purpose, t0: Time,
                       events: seq<ChallengeEvent>, want: Purpose, now: Time)
    requires About(events, tok, now)
    ensures GoodIn(AfterAll(Issued(m, tok, user, email, purpose, t0), events), tok, want, now)
            <==> want == purpose && now <= t0 + if purpose.ToSetUp? then 900_000_000_000 else 300_000_000_000
    ensures !GoodIn(AfterAll(Issued(m, tok, user, email, purpose, t0) - {tok}, events), tok, want, now)
  {
    OthersLeaveIt(Issued(m, tok, user, email, purpose, t0), events, tok, now);
    OthersLeaveIt(Issued(m, tok, user, email, purpose, t0) - {tok}, events, tok, now);
  }

  datatype Factor = AStep(step: int) | ACode(hash: M.Hash)

  datatype Answer = Expired | TooMany(wait: Time) | InvalidCode | StoreError | Granted(user: M.User)

  /** What a check says: the code is right, it is not, or the store or the secret's box failed. */
  datatype Checked = Right | Wrong | Failed

  /** How the store fares during one check: its reading works, and its UPDATE works or fails before or after its effect. */
  datatype Fate = Fate(read: bool, spend: Outcome)
  datatype Outcome = Done | FailedBefore | FailedAfter

  class Handler {
    const db: M.DB
    const challenges: Challenges
    const limiter: L.Limiter
    const mac: Mac
    const opens: M.Secret -> bool                 // the stored secret can be decrypted
    const keyOf: M.Secret -> Option<seq<int>>     // its key, None when it does not decode
    const hashOf: string -> M.Hash

    constructor (db: M.DB, challenges: Challenges, limiter: L.Limiter, mac: Mac,
                 opens: M.Secret -> bool, keyOf: M.Secret -> Option<seq<int>>, hashOf: string -> M.Hash)
      ensures this.db == db && this.challenges == challenges && this.limiter == limiter
      ensures this.mac == mac && this.opens == opens && this.keyOf == keyOf && this.hashOf == hashOf
    {
      this.db, this.challenges, this.limiter := db, challenges, limiter;
      this.mac, this.opens, this.keyOf, this.hashOf := mac, opens, keyOf, hashOf;
    }

    /** The account has a confirmed secret that can be read. */
    predicate Ready(t: M.Tables, user: M.User) {
      user in t.totp && t.totp[user].confirmed && opens(t.totp[user].secret)
    }

    /** The code is right at this unused step of the window, for the account's confirmed secret. */
    ghost predicate RightStep(t: M.Tables, user: M.User, code: string, unix: int, s: int)
      requires TwentyBytes(mac)
    {
      && Ready(t, user) && keyOf(t.totp[user].secret).Some?
      && Matches(mac, keyOf(t.totp[user].secret).value, code, unix, t.totp[user].lastStep, s)
    }

    ghost predicate SomeRightStep(t: M.Tables, user: M.User, code: string, unix: int)
      requires TwentyBytes(mac)
    {
      exists s :: RightStep(t, user, code, unix, s)
    }

    /** A step if there is one, and only otherwise an unused recovery code; nothing else moves. */
    ghost predicate Spends(t: M.Tables, t': M.Tables, user: M.User, code: string, unix: int, f: Option<Factor>)
      requires TwentyBytes(mac)
    {
      match f
      case Some(AStep(s)) => RightStep(t, user, code, unix, s) && t' == M.StepUsed(t, user, s) && t' != t
      case Some(ACode(h)) =>
        && Ready(t, user) && !SomeRightStep(t, user, code, unix) && |code| > 6 && h == hashOf(code)
        && M.UsesCode(t, user, h) && t' == M.CodeUsed(t, user, h)
      case None => t' == t
    }

    /** There is a factor that the code would spend. */
    ghost predicate IsRight(t: M.Tables, user: M.User, code: string, unix: int)
      requires TwentyBytes(mac)
    {
      SomeRightStep(t, user, code, unix) || (Ready(t, user) && |code| > 6 && M.UsesCode(t, user, hashOf(code)))
    }

    /** The check fails: at the reading, at the secret, or at the UPDATE it would send. */
    ghost predicate Fails(t: M.Tables, user: M.User, code: string, unix: int, fate: Fate)
      requires TwentyBytes(mac)
    {
      || !fate.read
      || (user in t.totp && t.totp[user].confirmed && !opens(t.totp[user].secret))
      || (!fate.spend.Done? && Ready(t, user) && (SomeRightStep(t, user, code, unix) || |code| > 6))
    }

    /**
     checkSecondFactor: fails exactly when the store or the secret does, and otherwise is right
     exactly when there is a factor to spend.  A factor is spent when it is, and also when the
     store's reply was lost; a check that is wrong spends nothing.
     */
    method CheckSecondFactor(user: M.User, code: string, unix: int, fate: Fate) returns (r: Checked, ghost f: Option<Factor>)
      requires TwentyBytes(mac)
      modifies db
      ensures Spends(old(db.tables), db.tables, user, code, unix, f)
      ensures r.Failed? <==> Fails(old(db.tables), user, code, unix, fate)
      ensures !r.Failed? ==> (r.Right? <==> IsRight(old(db.tables), user, code, unix))
      ensures fate == Fate(true, Done) && !r.Failed? ==>
                (db.tables, r.Right?) == S.CheckedAlone(old(db.tables), S.RealVerifier(mac, keyOf), hashOf, user, code, unix)
      ensures f.Some? <==> r.Right? || (r.Failed? && fate.read && fate.spend.FailedAfter? && IsRight(old(db.tables), user, code, unix))
    {
      f := None;
      if !fate.read {
        return Failed, f;
      }
      var row := db.GetTOTP(user);
      if row.None? || !row.value.confirmed {
        return Wrong, f;
      }
      if !opens(row.value.secret) {
        return Failed, f;
      }
      var step := Verify(mac, keyOf(row.value.secret), code, unix, row.value.lastStep);
      if step.Some? {
        assert RightStep(db.tables, user, code, unix, step.value);
        r, f := SpendStep(user, step.value, fate.spend);
        return;
      }
      assert !SomeRightStep(db.tables, user, code, unix);
      r := Wrong;
      if |code| > 6 {
        r, f := SpendCode(user, hashOf(code), fate.spend);
      }
    }

    method SpendStep(user: M.User, step: int, spend: Outcome) returns (r: Checked, ghost f: Option<Factor>)
      requires M.UsesStep(db.tables, user, step)
      modifies db
      ensures r == if spend.Done? then Right else Failed
      ensures f == if spend.FailedBefore? then None else Some(AStep(step))
      ensures db.tables == if f.Some? then M.StepUsed(old(db.tables), user, step) else old(db.tables)
    {
      if spend.FailedBefore? {
        return Failed, None;
      }
      var used := db.UseTOTPStep(user, step);
      f := Some(AStep(step));
      r := if spend.FailedAfter? then Failed else if used then Right else Wrong;
    }

    method SpendCode(user: M.User, h: M.Hash, spend: Outcome) returns (r: Checked, ghost f: Option<Factor>)
      modifies db
      ensures r == if !spend.Done? then Failed else if M.UsesCode(old(db.tables), user, h) then Right else Wrong
      ensures f == if !spend.FailedBefore? && M.UsesCode(old(db.tables), user, h) then Some(ACode(h)) else None
      ensures db.tables == if f.Some? then M.CodeUsed(old(db.tables), user, h) else old(db.tables)
    {
      if spend.FailedBefore? {
        return Failed, None;
      }
      var used := db.UseRecoveryCode(user, h);
      f := if used then Some(ACode(h)) else None;
      r := if spend.FailedAfter? then Failed else if used then Right else Wrong;
    }

    /**
     handleLoginMFA.  A login is granted exactly when the challenge is good, the account does
     not wait and the check is right; the challenge is then gone and the account's failures are
     forgotten.  A wrong code is one failure and spends nothing; an error of the store counts
     for nothing, whether or not it spent the factor.
     */
    method Login(tok: Token, code: string, now: Time, unix: int, fate: Fate) returns (a: Answer, ghost f: Option<Factor>)
      requires TwentyBytes(mac)
      modifies db, challenges, limiter
      ensures a.Expired? <==> !old(challenges.Good(tok, ToVerify, now))
      ensures old(challenges.Good(tok, ToVerify, now)) ==>
                var ch := old(challenges.m[tok]);
                var wait := L.Remaining(old(limiter.keys), AccountKey(ch.email), now);
                && (a.TooMany? <==> wait > 0) && (a.TooMany? ==> a.wait == wait)
                && (wait == 0 ==>
                      && Spends(old(db.tables), db.tables, ch.user, code, unix, f)
                      && (a.StoreError? <==> Fails(old(db.tables), ch.user, code, unix, fate))
                      && (!a.StoreError? ==> (a == Granted(ch.user) <==> IsRight(old(db.tables), ch.user, code, unix)))
                      && (a.Granted? || a.InvalidCode? || a.StoreError?))
                && (a.Granted? ==> a.user == ch.user && f.Some?)
                && (a.InvalidCode? ==>
                      limiter.keys == L.Failed(old(limiter.keys), map[AccountKey(ch.email) := L.ACCOUNT_FREE_FAILURES], now))
                && (a.Granted? ==> limiter.keys == old(limiter.keys) - {AccountKey(ch.email)})
      ensures a.Granted? ==> challenges.m == old(challenges.m) - {tok} && !challenges.Good(tok, ToVerify, now)
      ensures !a.Granted? ==> challenges.m == old(challenges.m)
      ensures a.Expired? || a.TooMany? || a.InvalidCode? ==> db.tables == old(db.tables)
      ensures a.Expired? || a.TooMany? || a.StoreError? ==> limiter.keys == old(limiter.keys)
    {
      f := None;
      var ch := challenges.Get(tok, ToVerify, now);
      if ch.None? {
        return Expired, f;
      }
      var account := AccountKey(ch.value.email);
      var wait := WaitOf(account, now);
      if wait > 0 {
        return TooMany(wait), f;
      }
      var r;
      r, f := CheckSecondFactor(ch.value.user, code, unix, fate);
      a := Conclude(r, tok, ch.value.user, account, now);
    }

    method WaitOf(account: string, now: Time) returns (wait: Time)
      ensures wait == L.Remaining(limiter.keys, account, now)
    {
      wait := limiter.Wait([account], now);
      assert L.Remaining(limiter.keys, [account][0], now) <= wait;
    }

    /** What the outcome of a check means for the failures and the challenge. */
    method Conclude(r: Checked, tok: Token, user: M.User, account: string, now: Time) returns (a: Answer)
      modifies challenges, limiter
      ensures a == match r case Failed => StoreError case Wrong => InvalidCode case Right => Granted(user)
      ensures limiter.keys == match r
                              case Failed => old(limiter.keys)
                              case Wrong => L.Failed(old(limiter.keys), map[account := L.ACCOUNT_FREE_FAILURES], now)
                              case Right => old(limiter.keys) - {account}
      ensures challenges.m == if r.Right? then old(challenges.m) - {tok} else old(challenges.m)
    {
      match r
      case Failed =>
        a := StoreError;
      case Wrong =>
        limiter.Fail(map[account := L.ACCOUNT_FREE_FAILURES], now);
        a := InvalidCode;
      case Right =>
        Forget(account);
        challenges.Consume(tok);
        a := Granted(user);
    }

    method Forget(account: string)
      modifies limiter
      ensures limiter.keys == old(limiter.keys) - {account}
    {
      assert (set k | k in [account]) == {account};
      limiter.Reset([account]);
    }

    /**
     From the right password on: a challenge is issued at `t0`, other requests come and go, and at
     `now` somebody logs in with it.
     */
    method LoginLater(tok: Token, user: M.User, email: string, purpose: Purpose, t0: Time, events: seq<ChallengeEvent>,
                      code: string, now: Time, unix: int, fate: Fate) returns (a: Answer)
      requires TwentyBytes(mac) && About(events, tok, now)
      modifies db, challenges, limiter
      ensures a.Expired? <==> purpose.ToSetUp? || now > t0 + 300_000_000_000
      ensures a.Granted? ==> a.user == user
    {
      ghost var before := challenges.m;
      ChallengeLives(before, tok, user, email, purpose, t0, events, ToVerify, now);
      OthersLeaveIt(Issued(before, tok, user, email, purpose, t0), events, tok, now);
      challenges.Issue(tok, user, email, purpose, t0);
      challenges.Serve(events);
      ghost var f;
      a, f := Login(tok, code, now, unix, fate);
    }
  }

  /** Accounts are keyed by address; trimming and case folding are not modelled. */
  function AccountKey(email: string): string { "account:" + email }

  /** One account's failures are never counted against another. */
  lemma AccountKeysDiffer(email: string, other: string)
    requires AccountKey(email) == AccountKey(other)
    ensures email == other
  {
    assert AccountKey(email)[8..] == email && AccountKey(other)[8..] == other;
  }
}
