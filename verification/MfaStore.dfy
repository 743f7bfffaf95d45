/** The second-factor tables and the statements the auth service runs on them. */
module MfaStore {
  import opened Options

  type User = nat
  type Hash = nat
  type Secret = nat

  datatype Totp = Totp(secret: Secret, confirmed: bool, lastStep: int)

  /** A recovery code belongs to one account; the pair is the table's primary key. */
  datatype CodeKey = CodeKey(user: User, hash: Hash)

  /** `codes` maps each recovery code to whether it was used. */
  datatype Tables = Tables(totp: map<User, Totp>, codes: map<CodeKey, bool>)

  // ---------- the statements, as functions of the tables ----------

  /** A new secret to confirm; a confirmed one stays. */
  function Started(t: Tables, user: User, secret: Secret): Tables {
    if user in t.totp && t.totp[user].confirmed then t
    else t.(totp := t.totp[user := Totp(secret, false, 0)])
  }

  predicate UsesStep(t: Tables, user: User, s: int) {
    user in t.totp && t.totp[user].lastStep < s
  }

  function StepUsed(t: Tables, user: User, s: int): Tables {
    if UsesStep(t, user, s) then t.(totp := t.totp[user := t.totp[user].(lastStep := s)]) else t
  }

  predicate UsesCode(t: Tables, user: User, h: Hash) {
    CodeKey(user, h) in t.codes && !t.codes[CodeKey(user, h)]
  }

  function CodeUsed(t: Tables, user: User, h: Hash): Tables {
    if UsesCode(t, user, h) then t.(codes := t.codes[CodeKey(user, h) := true]) else t
  }

  predicate Distinct(hashes: seq<Hash>) {
    forall i, j :: 0 <= i < j < |hashes| ==> hashes[i] != hashes[j]
  }

  function Others(codes: map<CodeKey, bool>, user: User): map<CodeKey, bool> {
    map k | k in codes && k.user != user :: codes[k]
  }

  /** The account's codes are exactly `hashes`, all unused; other accounts keep theirs. */
  function CodesReplaced(codes: map<CodeKey, bool>, user: User, hashes: set<Hash>): map<CodeKey, bool> {
    Others(codes, user) + map h | h in hashes :: CodeKey(user, h) := false
  }

  function SetOf(hashes: seq<Hash>): set<Hash> {
    set h | h in hashes
  }

  function Confirmed(t: Tables, user: User, s: int, hashes: seq<Hash>): Tables {
    Tables(if user in t.totp then t.totp[user := t.totp[user].(confirmed := true, lastStep := s)] else t.totp,
           CodesReplaced(t.codes, user, SetOf(hashes)))
  }

  function Disabled(t: Tables, user: User): Tables {
    Tables(t.totp - {user}, Others(t.codes, user))
  }

  function Unused(t: Tables, user: User): set<CodeKey> {
    set k | k in t.codes && k.user == user && !t.codes[k]
  }

  /** Using a code takes exactly it from the account's unused ones. */
  lemma UnusedAfter(t: Tables, user: User, h: Hash)
    requires UsesCode(t, user, h)
    ensures Unused(CodeUsed(t, user, h), user) == Unused(t, user) - {CodeKey(user, h)}
    ensures |Unused(CodeUsed(t, user, h), user)| == |Unused(t, user)| - 1
    ensures !UsesCode(CodeUsed(t, user, h), user, h)
  {
  }

  /** After a replacement exactly the new codes can be used, each once. */
  lemma ReplacedCodes(t: Tables, user: User, hashes: set<Hash>, h: Hash)
    ensures var t' := t.(codes := CodesReplaced(t.codes, user, hashes));
            (UsesCode(t', user, h) <==> h in hashes) && |Unused(t', user)| == |hashes|
  {
    var t' := t.(codes := CodesReplaced(t.codes, user, hashes));
    assert Unused(t', user) == KeysOf(user, hashes);
    KeysCount(user, hashes);
  }

  function KeysOf(user: User, hashes: set<Hash>): set<CodeKey> {
    set h | h in hashes :: CodeKey(user, h)
  }

  lemma {:induction false} KeysCount(user: User, hashes: set<Hash>)
    ensures |KeysOf(user, hashes)| == |hashes|
    decreases hashes
  {
    if h :| h in hashes {
      KeysCount(user, hashes - {h});
      assert KeysOf(user, hashes) == KeysOf(user, hashes - {h}) + {CodeKey(user, h)};
    }
  }

  /** The two tables are the same to every account but this one. */
  ghost predicate SameForOthers(t: Tables, t': Tables, user: User) {
    && (forall u :: u != user ==> (u in t'.totp <==> u in t.totp) && (u in t.totp ==> t'.totp[u] == t.totp[u]))
    && (forall k: CodeKey :: k.user != user ==> (k in t'.codes <==> k in t.codes) && (k in t.codes ==> t'.codes[k] == t.codes[k]))
  }

  /** After the withdrawal nothing of the account is left to log in with. */
  lemma DisabledIsGone(t: Tables, user: User)
    ensures user !in Disabled(t, user).totp && SameForOthers(t, Disabled(t, user), user)
    ensures forall s :: !UsesStep(Disabled(t, user), user, s)
    ensures forall h :: !UsesCode(Disabled(t, user), user, h)
  {
  }

  /** After a confirmation exactly the later steps and the new codes are good; the secret stays. */
  lemma ConfirmedIs(t: Tables, user: User, s: int, hashes: seq<Hash>)
    requires user in t.totp
    ensures var t' := Confirmed(t, user, s, hashes);
            && user in t'.totp && t'.totp[user].confirmed && t'.totp[user].secret == t.totp[user].secret
            && (forall k :: UsesStep(t', user, k) <==> k > s)
            && (forall h :: UsesCode(t', user, h) <==> h in hashes)
            && SameForOthers(t, t', user)
  {
    forall h ensures UsesCode(Confirmed(t, user, s, hashes), user, h) <==> h in hashes {
      ReplacedCodes(t, user, SetOf(hashes), h);
    }
  }

  /** A new secret replaces one that was not confirmed, with every step ahead of it; a confirmed one stays. */
  lemma StartedIs(t: Tables, user: User, secret: Secret)
    ensures var t' := Started(t, user, secret);
            && user in t'.totp && SameForOthers(t, t', user)
            && (user in t.totp && t.totp[user].confirmed ==> t' == t)
            && (!(user in t.totp && t.totp[user].confirmed) ==>
                  !t'.totp[user].confirmed && t'.totp[user].secret == secret && forall k :: UsesStep(t', user, k) <==> k > 0)
            && forall h :: UsesCode(t', user, h) <==> UsesCode(t, user, h)
  {
  }

  /** A step that was used is used, with all before it, and nothing else changes. */
  lemma UsedStepIs(t: Tables, user: User, s: int)
    requires UsesStep(t, user, s)
    ensures var t' := StepUsed(t, user, s);
            && user in t'.totp && t'.totp[user].secret == t.totp[user].secret && t'.totp[user].confirmed == t.totp[user].confirmed
            && (forall k :: UsesStep(t', user, k) <==> k > s)
            && SameForOthers(t, t', user)
            && forall h :: UsesCode(t', user, h) <==> UsesCode(t, user, h)
  {
  }

  // ---------- the store object ----------

  class DB {
    var tables: Tables

    constructor ()
      ensures tables == Tables(map[], map[])
    {
      tables := Tables(map[], map[]);
    }

    method GetTOTP(user: User) returns (t: Option<Totp>)
      ensures t == if user in tables.totp then Some(tables.totp[user]) else None
    {
      t := if user in tables.totp then Some(tables.totp[user]) else None;
    }

    method StartTOTP(user: User, secret: Secret)
      modifies this
      ensures tables == Started(old(tables), user, secret)
    {
      if user !in tables.totp || !tables.totp[user].confirmed {
        tables := tables.(totp := tables.totp[user := Totp(secret, false, 0)]);
      }
    }

    /** The first code matched: enrol, and set the recovery codes, in one transaction. */
    method ConfirmTOTP(user: User, usedStep: int, hashes: seq<Hash>) returns (ok: bool)
      modifies this
      ensures ok <==> Distinct(hashes)
      ensures tables == if ok then Confirmed(old(tables), user, usedStep, hashes) else old(tables)
    {
      var codes;
      ok, codes := ReplaceRecovery(tables.codes, user, hashes);
      if ok {
        var totp := tables.totp;
        if user in totp {
          totp := totp[user := totp[user].(confirmed := true, lastStep := usedStep)];
        }
        tables := Tables(totp, codes);
      }
    }

    method UseTOTPStep(user: User, s: int) returns (used: bool)
      modifies this
      ensures used <==> UsesStep(old(tables), user, s)
      ensures tables == StepUsed(old(tables), user, s)
    {
      used := user in tables.totp && tables.totp[user].lastStep < s;
      if used {
        tables := tables.(totp := tables.totp[user := tables.totp[user].(lastStep := s)]);
      }
    }

    method UseRecoveryCode(user: User, h: Hash) returns (used: bool)
      modifies this
      ensures used <==> UsesCode(old(tables), user, h)
      ensures tables == CodeUsed(old(tables), user, h)
    {
      used := CodeKey(user, h) in tables.codes && !tables.codes[CodeKey(user, h)];
      if used {
        tables := tables.(codes := tables.codes[CodeKey(user, h) := true]);
      }
    }

    method ReplaceRecoveryCodes(user: User, hashes: seq<Hash>) returns (ok: bool)
      modifies this
      ensures ok <==> Distinct(hashes)
      ensures tables == if ok then old(tables).(codes := CodesReplaced(old(tables).codes, user, SetOf(hashes))) else old(tables)
    {
      var codes;
      ok, codes := ReplaceRecovery(tables.codes, user, hashes);
      if ok {
        tables := tables.(codes := codes);
      }
    }

    method RemainingRecoveryCodes(user: User) returns (n: nat)
      ensures n == |Unused(tables, user)|
    {
      n := |set k | k in tables.codes && k.user == user && !tables.codes[k]|;
    }

    method DisableTOTP(user: User)
      modifies this
      ensures tables == Disabled(old(tables), user)
    {
      tables := Tables(tables.totp - {user}, map k | k in tables.codes && k.user != user :: tables.codes[k]);
    }
  }

  lemma OneMoreCode(codes: map<CodeKey, bool>, user: User, done: set<Hash>, h: Hash)
    ensures CodesReplaced(codes, user, done + {h}) == CodesReplaced(codes, user, done)[CodeKey(user, h) := false]
    ensures CodeKey(user, h) in CodesReplaced(codes, user, done) <==> h in done
  {
  }

  lemma NoneReplaced(codes: map<CodeKey, bool>, user: User)
    ensures CodesReplaced(codes, user, {}) == Others(codes, user)
  {
  }

  /** The codes inserted by the first `i` turns, all different. */
  ghost predicate Inserted(done: set<Hash>, hashes: seq<Hash>, i: nat)
    requires i <= |hashes|
  {
    Distinct(hashes[..i]) && done == SetOf(hashes[..i])
  }

  lemma InsertedNext(done: set<Hash>, hashes: seq<Hash>, i: nat)
    requires i < |hashes| && Inserted(done, hashes, i)
    ensures hashes[i] !in done ==> Inserted(done + {hashes[i]}, hashes, i + 1)
    ensures hashes[i] in done ==> !Distinct(hashes)
  {
  }

  /** Delete the account's codes, then insert the new ones; a repeated one undoes it all. */
  method ReplaceRecovery(codes0: map<CodeKey, bool>, user: User, hashes: seq<Hash>)
    returns (ok: bool, codes: map<CodeKey, bool>)
    ensures ok <==> Distinct(hashes)
    ensures ok ==> codes == CodesReplaced(codes0, user, SetOf(hashes))
  {
    codes := map k | k in codes0 && k.user != user :: codes0[k];
    NoneReplaced(codes0, user);
    ghost var done: set<Hash> := {};
    for i := 0 to |hashes|
      invariant Inserted(done, hashes, i)
      invariant codes == CodesReplaced(codes0, user, done)
    {
      InsertedNext(done, hashes, i);
      OneMoreCode(codes0, user, done, hashes[i]);
      if CodeKey(user, hashes[i]) in codes {
        return false, codes;
      }
      codes := codes[CodeKey(user, hashes[i]) := false];
      done := done + {hashes[i]};
    }
    assert hashes[..|hashes|] == hashes;
    ok := true;
  }
}
