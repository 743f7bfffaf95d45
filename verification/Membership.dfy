/**
 Grafana memberships: who should be in which organisation with what role (`Desired`), and the
 calls that bring each managed organisation there (`Apply`).

 Class Grafana is the remote side.  Memberships are kept there by account number, while the
 syncer thinks in logins; `Roles` is the view by login.  `outcome(n)` is what becomes of call
 number `n`: it may fail, before or after its effect.
 */
module Membership {
  import opened Options

  type Login = string
  type Org = int
  type Project = string

  datatype Role = Viewer | Editor | Admin | Other(name: string)

  /** Every new account is put in this organisation, which is never a managed one. */
  const NO_ACCESS: Org := 1

  // ---------- what is desired ----------

  datatype User = User(id: Login, email: string, platformAdmin: bool)

  datatype Member = Member(project: Project, user: Login, email: string, role: string)

  datatype Person = Person(login: Login, email: string)

  type Want = map<Org, map<Login, Role>>

  const MEMBER_VIEWER := "viewer"

  function MemberGrafanaRole(role: string): Role {
    if role == MEMBER_VIEWER then Viewer else Editor
  }

  predicate IsPlatformAdmin(users: seq<User>, login: Login) {
    exists i :: 0 <= i < |users| && users[i].id == login && users[i].platformAdmin
  }

  predicate GivesSeat(m: Member, projectOrg: map<Project, Org>, org: Org, login: Login) {
    m.user == login && m.project in projectOrg && projectOrg[m.project] == org
  }

  /** The role the last membership that leads to this organisation gives. */
  function LastRole(members: seq<Member>, projectOrg: map<Project, Org>, org: Org, login: Login): Option<Role> {
    if members == [] then None
    else
      var m := members[|members| - 1];
      if GivesSeat(m, projectOrg, org, login) then Some(MemberGrafanaRole(m.role))
      else LastRole(members[..|members| - 1], projectOrg, org, login)
  }

  function DesiredRole(users: seq<User>, members: seq<Member>, projectOrg: map<Project, Org>, org: Org, login: Login): Option<Role> {
    if IsPlatformAdmin(users, login) then Some(Admin) else LastRole(members, projectOrg, org, login)
  }

  function Lookup<K, V>(m: map<K, V>, k: K): Option<V> {
    if k in m then Some(m[k]) else None
  }

  function Wanted(want: Want, org: Org): map<Login, Role> {
    if org in want then want[org] else map[]
  }

  /** `want` is what these users and members should have, in the managed organisations. */
  ghost predicate IsDesired(want: Want, users: seq<User>, members: seq<Member>, platform: Org, projectOrg: map<Project, Org>) {
    && want.Keys == {platform} + projectOrg.Values
    && forall org, login :: org in want ==>
         Lookup(want[org], login) == DesiredRole(users, members, projectOrg, org, login)
  }

  /** Everybody with a desired seat is known by login. */
  ghost predicate Known(want: Want, people: map<Login, Person>) {
    forall org, login :: org in want && login in want[org] ==> login in people && people[login].login == login
  }

  lemma AdminsSoFar(users: seq<User>, i: nat, login: Login)
    requires i < |users|
    ensures IsPlatformAdmin(users[..i + 1], login) <==>
              IsPlatformAdmin(users[..i], login) || (users[i].id == login && users[i].platformAdmin)
  {
  }

  /** A platform admin gets Admin in every organisation there is. */
  method GiveAll(want0: Want, login: Login, role: Role) returns (want: Want)
    ensures want.Keys == want0.Keys
    ensures forall org :: org in want ==> want[org] == want0[org][login := role]
  {
    want := want0;
    var rest := want.Keys;
    while rest != {}
      invariant rest <= want0.Keys && want.Keys == want0.Keys
      invariant forall org :: org in rest ==> want[org] == want0[org]
      invariant forall org :: org in want && org !in rest ==> want[org] == want0[org][login := role]
      decreases rest
    {
      assert (forall org :: org !in rest) ==> rest == {};
      var org :| org in rest;
      want := want[org := want[org][login := role]];
      rest := rest - {org};
    }
  }

  method Desired(users: seq<User>, members: seq<Member>, platform: Org, projectOrg: map<Project, Org>)
    returns (want: Want, people: map<Login, Person>)
    ensures IsDesired(want, users, members, platform, projectOrg)
    ensures Known(want, people)
  {
    want := map org | org in {platform} + projectOrg.Values :: map[];
    people := map[];
    for i := 0 to |users|
      invariant IsDesired(want, users[..i], [], platform, projectOrg)
      invariant Known(want, people) && forall l :: l in people ==> people[l].login == l
    {
      var u := users[i];
      people := people[u.id := Person(u.id, u.email)];
      ghost var before := want;
      if u.platformAdmin {
        want := GiveAll(want, u.id, Admin);
      }
      forall org, login | org in want
        ensures Lookup(want[org], login) == DesiredRole(users[..i + 1], [], projectOrg, org, login)
      {
        AdminsSoFar(users, i, login);
        assert Lookup(before[org], login) == DesiredRole(users[..i], [], projectOrg, org, login);
      }
    }
    assert users[..|users|] == users;
    for i := 0 to |members|
      invariant IsDesired(want, users, members[..i], platform, projectOrg)
      invariant Known(want, people) && forall l :: l in people ==> people[l].login == l
    {
      var m := members[i];
      ghost var before := want;
      if m.project in projectOrg {
        var org := projectOrg[m.project];
        if m.user !in people {
          people := people[m.user := Person(m.user, m.email)];
        }
        if !(m.user in want[org] && want[org][m.user] == Admin) {
          want := want[org := want[org][m.user := MemberGrafanaRole(m.role)]];
        }
      }
      forall org, login | org in want
        ensures Lookup(want[org], login) == DesiredRole(users, members[..i + 1], projectOrg, org, login)
      {
        assert Lookup(before[org], login) == DesiredRole(users, members[..i], projectOrg, org, login);
        MembersSoFar(members, i, projectOrg, org, login);
      }
    }
    assert members[..|members|] == members;
  }

  /** One membership more; a membership never gives Admin. */
  lemma MembersSoFar(members: seq<Member>, i: nat, projectOrg: map<Project, Org>, org: Org, login: Login)
    requires i < |members|
    ensures LastRole(members[..i + 1], projectOrg, org, login) ==
              if GivesSeat(members[i], projectOrg, org, login) then Some(MemberGrafanaRole(members[i].role))
              else LastRole(members[..i], projectOrg, org, login)
    ensures LastRole(members[..i], projectOrg, org, login) != Some(Admin)
  {
    assert members[..i + 1][..i] == members[..i];
    MembersAreNoAdmins(members[..i], projectOrg, org, login);
  }

  lemma {:induction false} MembersAreNoAdmins(members: seq<Member>, projectOrg: map<Project, Org>, org: Org, login: Login)
    ensures LastRole(members, projectOrg, org, login) != Some(Admin)
    ensures LastRole(members, projectOrg, org, login).Some? <==>
              exists i :: 0 <= i < |members| && GivesSeat(members[i], projectOrg, org, login)
    decreases |members|
  {
    if members != [] {
      var start := members[..|members| - 1];
      MembersAreNoAdmins(start, projectOrg, org, login);
      if i :| 0 <= i < |start| && GivesSeat(start[i], projectOrg, org, login) {
        assert GivesSeat(members[i], projectOrg, org, login);
      }
      if i :| 0 <= i < |members| && GivesSeat(members[i], projectOrg, org, login) {
        assert i < |start| ==> GivesSeat(start[i], projectOrg, org, login);
      }
    }
  }

  /**
   Who should be in a project's organisation: Admin exactly for platform admins, and otherwise
   exactly the members of that very project, as Viewer or Editor.  In an organisation of no
   project only platform admins have a place.
   */
  lemma ProjectAccess(users: seq<User>, members: seq<Member>, projectOrg: map<Project, Org>, org: Org, login: Login)
    ensures DesiredRole(users, members, projectOrg, org, login) == Some(Admin) <==> IsPlatformAdmin(users, login)
    ensures DesiredRole(users, members, projectOrg, org, login).Some? <==>
              IsPlatformAdmin(users, login)
              || exists i :: 0 <= i < |members| && GivesSeat(members[i], projectOrg, org, login)
    ensures org !in projectOrg.Values ==>
              (DesiredRole(users, members, projectOrg, org, login).Some? <==> IsPlatformAdmin(users, login))
    ensures forall p :: p in projectOrg && projectOrg[p] == org && (forall q :: q in projectOrg && projectOrg[q] == org ==> q == p) ==>
              (DesiredRole(users, members, projectOrg, org, login).Some? <==>
                IsPlatformAdmin(users, login)
                || exists i :: 0 <= i < |members| && members[i].user == login && members[i].project == p)
  {
    MembersAreNoAdmins(members, projectOrg, org, login);
    forall p | p in projectOrg && projectOrg[p] == org && (forall q :: q in projectOrg && projectOrg[q] == org ==> q == p)
      ensures (exists i :: 0 <= i < |members| && GivesSeat(members[i], projectOrg, org, login)) <==>
                exists i :: 0 <= i < |members| && members[i].user == login && members[i].project == p
    {
      if i :| 0 <= i < |members| && members[i].user == login && members[i].project == p {
        assert GivesSeat(members[i], projectOrg, org, login);
      }
    }
  }

  /** A project's organisation gives the role of the last membership: Viewer to viewers, Editor to the rest. */
  lemma {:induction false} LastMembershipGivesRole(members: seq<Member>, projectOrg: map<Project, Org>, org: Org, login: Login, i: nat)
    requires i < |members| && GivesSeat(members[i], projectOrg, org, login)
    requires forall j :: i < j < |members| ==> !GivesSeat(members[j], projectOrg, org, login)
    ensures LastRole(members, projectOrg, org, login) == Some(if members[i].role == "viewer" then Viewer else Editor)
    decreases |members|
  {
    if i < |members| - 1 {
      assert forall j :: 0 <= j < |members| - 1 ==> members[..|members| - 1][j] == members[j];
      LastMembershipGivesRole(members[..|members| - 1], projectOrg, org, login, i);
    }
  }

  // ---------- the remote side ----------

  datatype Outcome = Done | Failed(effect: bool)

  /** A membership by account number, as Grafana keeps it, and by login. */
  datatype Seat = Seat(org: Org, id: nat)
  datatype Place = Place(org: Org, login: Login)

  datatype OrgUser = OrgUser(id: nat, login: Login, role: Role)

  type Accounts = map<Login, nat>
  type Seats = map<Seat, Role>

  ghost predicate OneLoginPerId(accounts: Accounts) {
    forall l, m :: l in accounts && m in accounts && accounts[l] == accounts[m] ==> l == m
  }

  /** The role of a login in an organisation. */
  function RoleAt(accounts: Accounts, seats: Seats, p: Place): Option<Role> {
    if p.login in accounts then Lookup(seats, Seat(p.org, accounts[p.login])) else None
  }

  class Grafana {
    const outcome: nat -> Outcome
    var now: nat
    var accounts: Accounts
    var nextId: nat
    var seats: Seats
    /** Calls that join, change or remove a membership. */
    var changes: nat

    ghost predicate Valid()
      reads this
    {
      && OneLoginPerId(accounts)
      && (forall l :: l in accounts ==> accounts[l] < nextId)
      && (forall s :: s in seats ==> s.id < nextId)
    }

    ghost function At(org: Org, login: Login): Option<Role>
      reads this
    {
      RoleAt(accounts, seats, Place(org, login))
    }

    constructor (outcome: nat -> Outcome)
      ensures Valid() && this.outcome == outcome
    {
      this.outcome := outcome;
      now, accounts, nextId, seats, changes := 0, map[], 0, map[], 0;
    }

    /** GET: everybody in the organisation, each login once. */
    method List(org: Org) returns (ok: bool, users: seq<OrgUser>)
      modifies this`now
      ensures now == old(now) + 1 && ok == outcome(old(now)).Done?
      ensures forall i :: 0 <= i < |users| ==>
                users[i].login in accounts && users[i].id == accounts[users[i].login]
                && At(org, users[i].login) == Some(users[i].role)
      ensures forall l :: At(org, l).Some? ==> exists i :: 0 <= i < |users| && users[i].login == l
    {
      ok := outcome(now).Done?;
      now := now + 1;
      users := [];
      var rest := accounts.Keys;
      while rest != {}
        invariant rest <= accounts.Keys
        invariant forall i :: 0 <= i < |users| ==>
                    users[i].login in accounts && users[i].id == accounts[users[i].login]
                    && At(org, users[i].login) == Some(users[i].role)
        invariant forall l :: At(org, l).Some? ==> l in rest || exists i :: 0 <= i < |users| && users[i].login == l
        decreases rest
      {
        var l :| l in rest;
        ghost var before := users;
        if Seat(org, accounts[l]) in seats {
          users := users + [OrgUser(accounts[l], l, seats[Seat(org, accounts[l])])];
          assert users[|users| - 1].login == l;
        }
        rest := rest - {l};
        forall m | At(org, m).Some? && m !in rest ensures exists i :: 0 <= i < |users| && users[i].login == m {
          if m != l {
            var i :| 0 <= i < |before| && before[i].login == m;
            assert users[i].login == m;
          }
        }
      }
    }

    /** GET users/lookup: None is the 404 of an unknown account. */
    method LookUp(login: Login) returns (ok: bool, id: Option<nat>)
      modifies this`now
      ensures now == old(now) + 1 && ok == outcome(old(now)).Done?
      ensures id == Lookup(accounts, login)
    {
      ok := outcome(now).Done?;
      now := now + 1;
      id := Lookup(accounts, login);
    }

    /** POST admin/users: the new account lands in NO_ACCESS and nowhere else. */
    method Create(login: Login) returns (ok: bool)
      requires Valid() && login !in accounts
      modifies this`now, this`accounts, this`nextId, this`seats
      ensures Valid()
      ensures now == old(now) + 1 && ok == outcome(old(now)).Done?
      ensures login in accounts <==> ok || outcome(old(now)).effect
      ensures accounts.Keys == if login in accounts then old(accounts).Keys + {login} else old(accounts).Keys
      ensures forall l :: l in old(accounts) ==> accounts[l] == old(accounts)[l]
      ensures forall p: Place :: p.org != NO_ACCESS || p.login != login ==> At(p.org, p.login) == old(At(p.org, p.login))
    {
      ok := outcome(now).Done?;
      if ok || outcome(now).effect {
        accounts := accounts[login := nextId];
        seats := seats[Seat(NO_ACCESS, nextId) := Viewer];
        nextId := nextId + 1;
      }
      now := now + 1;
    }

    /** POST orgs/users: by login. */
    method Join(org: Org, login: Login, role: Role) returns (ok: bool)
      requires Valid() && login in accounts
      modifies this`now, this`seats, this`changes
      ensures Valid()
      ensures now == old(now) + 1 && ok == outcome(old(now)).Done? && changes == old(changes) + 1
      ensures At(org, login) == if ok || outcome(old(now)).effect then Some(role) else old(At(org, login))
      ensures forall p: Place :: p != Place(org, login) ==> At(p.org, p.login) == old(At(p.org, p.login))
    {
      ok := outcome(now).Done?;
      if ok || outcome(now).effect {
        seats := seats[Seat(org, accounts[login]) := role];
      }
      now, changes := now + 1, changes + 1;
    }

    /** PATCH orgs/users: by account number. */
    method SetRole(org: Org, id: nat, role: Role) returns (ok: bool)
      requires Valid() && Seat(org, id) in seats
      modifies this`now, this`seats, this`changes
      ensures Valid()
      ensures now == old(now) + 1 && ok == outcome(old(now)).Done? && changes == old(changes) + 1
      ensures forall l :: l in accounts && accounts[l] == id ==>
                At(org, l) == if ok || outcome(old(now)).effect then Some(role) else old(At(org, l))
      ensures forall p: Place :: p.org != org || Lookup(accounts, p.login) != Some(id) ==>
                At(p.org, p.login) == old(At(p.org, p.login))
    {
      ok := outcome(now).Done?;
      if ok || outcome(now).effect {
        seats := seats[Seat(org, id) := role];
      }
      now, changes := now + 1, changes + 1;
    }

    /** DELETE orgs/users: by account number. */
    method Remove(org: Org, id: nat) returns (ok: bool)
      requires Valid()
      modifies this`now, this`seats, this`changes
      ensures Valid()
      ensures now == old(now) + 1 && ok == outcome(old(now)).Done? && changes == old(changes) + 1
      ensures forall l :: l in accounts && accounts[l] == id ==>
                At(org, l) == if ok || outcome(old(now)).effect then None else old(At(org, l))
      ensures forall p: Place :: p.org != org || Lookup(accounts, p.login) != Some(id) ==>
                At(p.org, p.login) == old(At(p.org, p.login))
    {
      ok := outcome(now).Done?;
      if ok || outcome(now).effect {
        seats := seats - {Seat(org, id)};
      }
      now, changes := now + 1, changes + 1;
    }
  }

  // ---------- bringing an organisation there ----------

  /** What a login should end up with: what is wanted, or nothing unless it is Grafana's own admin. */
  function Goal(before: Option<Role>, want: Option<Role>, own: bool): Option<Role> {
    if want.Some? then want else if own then before else None
  }

  /** The goal of a login in an organisation with these desired seats. */
  function GoalAt(a: Accounts, s: Seats, p: Place, want: map<Login, Role>, admin: Login): Option<Role> {
    Goal(RoleAt(a, s, p), Lookup(want, p.login), p.login == admin)
  }

  ghost predicate Reached(a0: Accounts, s0: Seats, a1: Accounts, s1: Seats, org: Org, want: map<Login, Role>, admin: Login) {
    forall l :: RoleAt(a1, s1, Place(org, l)) == GoalAt(a0, s0, Place(org, l), want, admin)
  }

  /** Every login still has what it had, or has what it should. */
  ghost predicate PartWay(a0: Accounts, s0: Seats, a1: Accounts, s1: Seats, org: Org, want: map<Login, Role>, admin: Login) {
    forall l :: RoleAt(a1, s1, Place(org, l)) == RoleAt(a0, s0, Place(org, l))
                || RoleAt(a1, s1, Place(org, l)) == GoalAt(a0, s0, Place(org, l), want, admin)
  }

  ghost predicate Settled(a: Accounts, s: Seats, org: Org, want: map<Login, Role>, admin: Login) {
    Reached(a, s, a, s, org, want, admin)
  }

  /** Nothing moved outside these organisations, but that new accounts got their place in NO_ACCESS. */
  ghost predicate Elsewhere(a0: Accounts, s0: Seats, a1: Accounts, s1: Seats, orgs: set<Org>) {
    forall p: Place :: p.org !in orgs && (p.org != NO_ACCESS || p.login in a0) ==> RoleAt(a1, s1, p) == RoleAt(a0, s0, p)
  }

  /** Accounts are only added, and only for these logins. */
  ghost predicate Grown(a0: Accounts, a1: Accounts, logins: set<Login>) {
    a0.Keys <= a1.Keys <= a0.Keys + logins && forall l :: l in a0 ==> a1[l] == a0[l]
  }

  ghost predicate AllDone(outcome: nat -> Outcome, from: nat, to: nat) {
    forall n :: from <= n < to ==> outcome(n).Done?
  }

  /** The logins whose role has to change. */
  function Todo(a: Accounts, s: Seats, org: Org, want: map<Login, Role>, admin: Login, logins: set<Login>): set<Login> {
    set l | l in logins && RoleAt(a, s, Place(org, l)) != GoalAt(a, s, Place(org, l), want, admin)
  }

  /** What the syncer read about a login still holds. */
  ghost predicate HaveAt(have: map<Login, OrgUser>, a: Accounts, s: Seats, org: Org, l: Login) {
    && (l in have <==> RoleAt(a, s, Place(org, l)).Some?)
    && (l in have ==> l in a && have[l].id == a[l] && RoleAt(a, s, Place(org, l)) == Some(have[l].role))
  }

  class Syncer {
    const remote: Grafana
    const admin: Login

    constructor (remote: Grafana, admin: Login)
      ensures this.remote == remote && this.admin == admin
    {
      this.remote, this.admin := remote, admin;
    }

    method EnsureUser(login: Login) returns (ok: bool)
      requires remote.Valid()
      modifies remote
      ensures remote.Valid() && remote.changes == old(remote.changes) && remote.now > old(remote.now)
      ensures ok <==> AllDone(remote.outcome, old(remote.now), remote.now)
      ensures ok ==> login in remote.accounts
      ensures Grown(old(remote.accounts), remote.accounts, {login})
      ensures Elsewhere(old(remote.accounts), old(remote.seats), remote.accounts, remote.seats, {})
    {
      var id;
      ok, id := remote.LookUp(login);
      if ok && id.None? {
        ok := remote.Create(login);
      }
    }

    /** One login that should have a role: join it, change its role, or leave it. */
    method SeatOne(org: Org, login: Login, role: Role, have: map<Login, OrgUser>, people: map<Login, Person>) returns (ok: bool)
      requires remote.Valid() && org != NO_ACCESS
      requires login in people && people[login].login == login
      requires HaveAt(have, remote.accounts, remote.seats, org, login)
      modifies remote
      ensures remote.Valid() && remote.now >= old(remote.now)
      ensures ok <==> AllDone(remote.outcome, old(remote.now), remote.now)
      ensures remote.At(org, login) == Some(role) || (!ok && remote.At(org, login) == old(remote.At(org, login)))
      ensures forall p: Place :: p != Place(org, login) && (p.org != NO_ACCESS || p.login in old(remote.accounts)) ==>
                remote.At(p.org, p.login) == old(remote.At(p.org, p.login))
      ensures Grown(old(remote.accounts), remote.accounts, {login})
      ensures ok ==> remote.changes == old(remote.changes) + if old(remote.At(org, login)) == Some(role) then 0 else 1
      ensures old(remote.At(org, login)) == Some(role) ==>
                remote.seats == old(remote.seats) && remote.accounts == old(remote.accounts) && remote.changes == old(remote.changes)
    {
      ok := true;
      if login !in have {
        ok := EnsureUser(people[login].login);
        if ok {
          ok := remote.Join(org, login, role);
        }
      } else if have[login].role != role {
        ok := remote.SetRole(org, have[login].id, role);
      }
    }

    /** One login that is there: out, unless it is wanted or Grafana's own admin. */
    method DropOne(org: Org, u: OrgUser, want: map<Login, Role>) returns (ok: bool)
      requires remote.Valid() && u.login in remote.accounts && u.id == remote.accounts[u.login]
      modifies remote
      ensures remote.Valid() && remote.now >= old(remote.now) && remote.accounts == old(remote.accounts)
      ensures ok <==> AllDone(remote.outcome, old(remote.now), remote.now)
      ensures remote.At(org, u.login) ==
                if u.login in want || u.login == admin then old(remote.At(org, u.login))
                else if ok then None else remote.At(org, u.login)
      ensures remote.At(org, u.login) in {old(remote.At(org, u.login)), None}
      ensures forall p: Place :: p != Place(org, u.login) ==> remote.At(p.org, p.login) == old(remote.At(p.org, p.login))
      ensures ok ==> remote.changes == old(remote.changes) + if u.login in want || u.login == admin then 0 else 1
      ensures u.login in want || u.login == admin ==>
                remote.seats == old(remote.seats) && remote.changes == old(remote.changes)
    {
      ok := true;
      if u.login !in want && u.login != admin {
        ok := remote.Remove(org, u.id);
      }
    }

    /** Who is in the organisation, by login. */
    method Have(org: Org) returns (ok: bool, have: map<Login, OrgUser>)
      modifies remote`now
      ensures remote.now == old(remote.now) + 1 && (ok <==> AllDone(remote.outcome, old(remote.now), remote.now))
      ensures forall l :: HaveAt(have, remote.accounts, remote.seats, org, l)
      ensures forall l :: l in have ==> have[l].login == l
    {
      var users;
      ok, users := remote.List(org);
      have := map[];
      for i := 0 to |users|
        invariant forall j :: 0 <= j < i ==> users[j].login in have
        invariant forall l :: l in have ==> have[l].login == l && have[l] in users[..i]
      {
        have := have[users[i].login := users[i]];
      }
      forall l ensures HaveAt(have, remote.accounts, remote.seats, org, l) {
        if l in have {
          var j :| 0 <= j < |users| && users[j] == have[l];
        }
        if remote.At(org, l).Some? {
          var i :| 0 <= i < |users| && users[i].login == l;
        }
      }
    }

    /** The next seat, with everybody in `rest` still to be seated. */
    method SeatNext(org: Org, l: Login, want: map<Login, Role>, have: map<Login, OrgUser>, people: map<Login, Person>,
                    ghost a0: Accounts, ghost s0: Seats, ghost rest: set<Login>) returns (ok: bool)
      requires remote.Valid() && org != NO_ACCESS && l in rest && rest <= want.Keys
      requires l in people && people[l].login == l && HaveAt(have, a0, s0, org, l)
      requires Seated(a0, s0, remote.accounts, remote.seats, org, want, rest, true)
      modifies remote
      ensures remote.Valid() && remote.now >= old(remote.now)
      ensures ok <==> AllDone(remote.outcome, old(remote.now), remote.now)
      ensures Seated(a0, s0, remote.accounts, remote.seats, org, want, rest - {l}, ok)
      ensures ok ==> remote.changes == old(remote.changes) + if RoleAt(a0, s0, Place(org, l)) == Some(want[l]) then 0 else 1
      ensures RoleAt(a0, s0, Place(org, l)) == Some(want[l]) ==>
                remote.seats == old(remote.seats) && remote.accounts == old(remote.accounts) && remote.changes == old(remote.changes)
    {
      ghost var a1, s1 := remote.accounts, remote.seats;
      assert RoleAt(a1, s1, Place(org, l)) == RoleAt(a0, s0, Place(org, l));
      ok := SeatOne(org, l, want[l], have, people);
      SeatedNext(a0, s0, a1, s1, remote.accounts, remote.seats, org, want, rest, l, ok);
    }

    /** Seats for everybody wanted. */
    method SeatAll(org: Org, want: map<Login, Role>, have: map<Login, OrgUser>, people: map<Login, Person>)
      returns (ok: bool, ghost left: set<Login>)
      requires remote.Valid() && org != NO_ACCESS
      requires forall l :: l in want ==> l in people && people[l].login == l
      requires forall l :: HaveAt(have, remote.accounts, remote.seats, org, l)
      modifies remote
      ensures remote.Valid() && remote.now >= old(remote.now)
      ensures ok <==> AllDone(remote.outcome, old(remote.now), remote.now)
      ensures Seated(old(remote.accounts), old(remote.seats), remote.accounts, remote.seats, org, want, left, ok) && (ok ==> left == {})
      ensures ok ==>
                remote.changes == old(remote.changes) + |Todo(old(remote.accounts), old(remote.seats), org, want, admin, want.Keys)|
      ensures Settled(old(remote.accounts), old(remote.seats), org, want, admin) ==>
                remote.seats == old(remote.seats) && remote.accounts == old(remote.accounts) && remote.changes == old(remote.changes)
    {
      ghost var a0, s0, c0 := remote.accounts, remote.seats, remote.changes;
      var rest := want.Keys;
      ok := true;
      while rest != {} && ok
        invariant rest <= want.Keys && remote.Valid() && remote.now >= old(remote.now)
        invariant ok <==> AllDone(remote.outcome, old(remote.now), remote.now)
        invariant Seated(a0, s0, remote.accounts, remote.seats, org, want, rest, ok)
        invariant ok ==> remote.changes == c0 + |Todo(a0, s0, org, want, admin, want.Keys - rest)|
        invariant Settled(a0, s0, org, want, admin) ==> remote.seats == s0 && remote.accounts == a0 && remote.changes == c0
        decreases rest
      {
        var l :| l in rest;
        GoalOfWanted(a0, s0, org, want, admin, want.Keys - rest, l);
        assert want.Keys - rest + {l} == want.Keys - (rest - {l});
        ok := SeatNext(org, l, want, have, people, a0, s0, rest);
        rest := rest - {l};
      }
      left := rest;
      assert rest == {} ==> want.Keys - rest == want.Keys;
    }

    /** The next one that is there, with everybody in `rest` still to be looked at. */
    method DropNext(org: Org, u: OrgUser, want: map<Login, Role>, ghost s0: Seats, ghost extra: set<Login>, ghost rest: set<Login>)
      returns (ok: bool)
      requires remote.Valid() && u.login in remote.accounts && u.id == remote.accounts[u.login]
      requires u.login in rest && (u.login in extra <==> u.login !in want && u.login != admin)
      requires Dropped(remote.accounts, s0, remote.seats, org, extra, rest, true)
      modifies remote
      ensures remote.Valid() && remote.now >= old(remote.now) && remote.accounts == old(remote.accounts)
      ensures ok <==> AllDone(remote.outcome, old(remote.now), remote.now)
      ensures Dropped(remote.accounts, s0, remote.seats, org, extra, rest - {u.login}, ok)
      ensures ok ==> remote.changes == old(remote.changes) + if u.login in extra then 1 else 0
      ensures u.login !in extra ==> remote.seats == old(remote.seats) && remote.changes == old(remote.changes)
    {
      ok := DropOne(org, u, want);
    }

    /** Out with everybody who is there and should not be. */
    method DropAll(org: Org, want: map<Login, Role>, have: map<Login, OrgUser>) returns (ok: bool, ghost left: set<Login>)
      requires remote.Valid()
      requires forall l :: l in have ==> have[l].login == l && l in remote.accounts && have[l].id == remote.accounts[l]
      modifies remote
      ensures remote.Valid() && remote.now >= old(remote.now) && remote.accounts == old(remote.accounts)
      ensures ok <==> AllDone(remote.outcome, old(remote.now), remote.now)
      ensures Dropped(remote.accounts, old(remote.seats), remote.seats, org, Extra(have.Keys, want, admin), left, ok) && (ok ==> left == {})
      ensures ok ==> remote.changes == old(remote.changes) + |Extra(have.Keys, want, admin)|
      ensures Extra(have.Keys, want, admin) == {} ==> remote.seats == old(remote.seats) && remote.changes == old(remote.changes)
    {
      ghost var s0, c0 := remote.seats, remote.changes;
      ghost var extra := Extra(have.Keys, want, admin);
      var rest := have.Keys;
      ok := true;
      while rest != {} && ok
        invariant rest <= have.Keys && remote.Valid() && remote.now >= old(remote.now)
        invariant remote.accounts == old(remote.accounts)
        invariant ok <==> AllDone(remote.outcome, old(remote.now), remote.now)
        invariant Dropped(remote.accounts, s0, remote.seats, org, extra, rest, ok)
        invariant ok ==> remote.changes == c0 + |extra - rest|
        invariant extra == {} ==> remote.seats == s0 && remote.changes == c0
        decreases rest
      {
        var l :| l in rest;
        OneLess(extra, rest, l);
        ok := DropNext(org, have[l], want, s0, extra, rest);
        rest := rest - {l};
      }
      left := rest;
      assert rest == {} ==> extra - rest == extra;
    }

    /** One organisation, as it is and as it should be. */
    method SyncOrg(org: Org, want: map<Login, Role>, people: map<Login, Person>) returns (ok: bool)
      requires remote.Valid() && org != NO_ACCESS
      requires forall l :: l in want ==> l in people && people[l].login == l
      modifies remote
      ensures remote.Valid() && remote.now >= old(remote.now)
      ensures ok <==> AllDone(remote.outcome, old(remote.now), remote.now)
      ensures PartWay(old(remote.accounts), old(remote.seats), remote.accounts, remote.seats, org, want, admin)
      ensures ok ==> Reached(old(remote.accounts), old(remote.seats), remote.accounts, remote.seats, org, want, admin)
      ensures Elsewhere(old(remote.accounts), old(remote.seats), remote.accounts, remote.seats, {org})
      ensures Grown(old(remote.accounts), remote.accounts, want.Keys)
      ensures ok ==> remote.changes == old(remote.changes)
                                       + |Todo(old(remote.accounts), old(remote.seats), org, want, admin, want.Keys + old(remote.accounts).Keys)|
      ensures Settled(old(remote.accounts), old(remote.seats), org, want, admin) ==>
                remote.seats == old(remote.seats) && remote.accounts == old(remote.accounts) && remote.changes == old(remote.changes)
    {
      ghost var a0, s0 := remote.accounts, remote.seats;
      var have;
      ok, have := Have(org);
      if ok {
        assert forall l :: HaveAt(have, remote.accounts, remote.seats, org, l);
        TodoSplits(a0, s0, org, want, admin, have);
        ghost var left;
        ok, left := SeatAll(org, want, have, people);
        if ok {
          ghost var s1 := remote.seats;
          assert forall l :: l in have ==> HaveAt(have, a0, s0, org, l);
          ok, left := DropAll(org, want, have);
          SeatedThenDropped(a0, s0, remote.accounts, s1, remote.seats, org, want, admin, have, left, ok);
        }
      }
    }

    /** applyMemberships: the organisations one by one, up to the first call that fails. */
    method Apply(orgs: seq<Org>, want: Want, people: map<Login, Person>) returns (ok: bool)
      requires remote.Valid() && NO_ACCESS !in orgs && Known(want, people)
      modifies remote
      ensures remote.Valid() && remote.now >= old(remote.now)
      ensures ok <==> AllDone(remote.outcome, old(remote.now), remote.now)
      ensures ok ==> AllReached(old(remote.accounts), old(remote.seats), remote.accounts, remote.seats, Set(orgs), want, admin)
      ensures AllPartWay(old(remote.accounts), old(remote.seats), remote.accounts, remote.seats, Set(orgs), want, admin)
      ensures Elsewhere(old(remote.accounts), old(remote.seats), remote.accounts, remote.seats, Set(orgs))
      ensures Grown(old(remote.accounts), remote.accounts, people.Keys)
      ensures (forall org :: org in Set(orgs) ==> Settled(old(remote.accounts), old(remote.seats), org, Wanted(want, org), admin)) ==>
                remote.seats == old(remote.seats) && remote.accounts == old(remote.accounts) && remote.changes == old(remote.changes)
    {
      ghost var a0, s0, c0 := remote.accounts, remote.seats, remote.changes;
      ok := true;
      for i := 0 to |orgs|
        invariant ok && remote.Valid() && remote.now >= old(remote.now)
        invariant AllDone(remote.outcome, old(remote.now), remote.now)
        invariant AllReached(a0, s0, remote.accounts, remote.seats, Set(orgs[..i]), want, admin)
        invariant Elsewhere(a0, s0, remote.accounts, remote.seats, Set(orgs[..i]))
        invariant Grown(a0, remote.accounts, people.Keys)
        invariant (forall org :: org in Set(orgs) ==> Settled(a0, s0, org, Wanted(want, org), admin)) ==>
                    remote.seats == s0 && remote.accounts == a0 && remote.changes == c0
      {
        ghost var a1, s1 := remote.accounts, remote.seats;
        assert Set(orgs[..i + 1]) == Set(orgs[..i]) + {orgs[i]};
        ok := SyncOrg(orgs[i], Wanted(want, orgs[i]), people);
        NextOrg(a0, s0, a1, s1, remote.accounts, remote.seats, Set(orgs[..i]), orgs[i], want, admin, ok);
        if !ok {
          FewerOrgs(a0, s0, remote.accounts, remote.seats, Set(orgs[..i + 1]), Set(orgs), want, admin);
          return;
        }
      }
      assert orgs[..|orgs|] == orgs;
    }

    /** The end of SyncAll: what should be, and then the organisations. */
    method Sync(users: seq<User>, members: seq<Member>, platform: Org, projectOrg: map<Project, Org>) returns (ok: bool)
      requires remote.Valid() && NO_ACCESS !in {platform} + projectOrg.Values
      modifies remote
      ensures remote.Valid() && (ok <==> AllDone(remote.outcome, old(remote.now), remote.now))
      ensures ok ==> forall org, l :: org in {platform} + projectOrg.Values ==>
                remote.At(org, l) == Goal(old(remote.At(org, l)), DesiredRole(users, members, projectOrg, org, l), l == admin)
      ensures Elsewhere(old(remote.accounts), old(remote.seats), remote.accounts, remote.seats, {platform} + projectOrg.Values)
      ensures (forall org, l :: org in {platform} + projectOrg.Values ==>
                old(remote.At(org, l)) == Goal(old(remote.At(org, l)), DesiredRole(users, members, projectOrg, org, l), l == admin)) ==>
                remote.seats == old(remote.seats) && remote.accounts == old(remote.accounts) && remote.changes == old(remote.changes)
    {
      var want, people := Desired(users, members, platform, projectOrg);
      var orgs := [platform];
      var rest := projectOrg.Keys;
      while rest != {}
        invariant rest <= projectOrg.Keys
        invariant Set(orgs) <= {platform} + projectOrg.Values
        invariant platform in orgs && forall p :: p in projectOrg && p !in rest ==> projectOrg[p] in orgs
        decreases rest
      {
        var p :| p in rest;
        orgs := orgs + [projectOrg[p]];
        rest := rest - {p};
      }
      assert Set(orgs) == {platform} + projectOrg.Values;
      ok := Apply(orgs, want, people);
    }
  }

  function Set(orgs: seq<Org>): set<Org> {
    set org | org in orgs
  }

  ghost predicate AllReached(a0: Accounts, s0: Seats, a1: Accounts, s1: Seats, orgs: set<Org>, want: Want, admin: Login) {
    forall org :: org in orgs ==> Reached(a0, s0, a1, s1, org, Wanted(want, org), admin)
  }

  ghost predicate AllPartWay(a0: Accounts, s0: Seats, a1: Accounts, s1: Seats, orgs: set<Org>, want: Want, admin: Login) {
    forall org :: org in orgs ==> PartWay(a0, s0, a1, s1, org, Wanted(want, org), admin)
  }

  /** One organisation more; doing one again changes nothing about its goal. */
  lemma NextOrg(a0: Accounts, s0: Seats, a1: Accounts, s1: Seats, a2: Accounts, s2: Seats,
                orgs: set<Org>, org: Org, want: Want, admin: Login, ok: bool)
    requires NO_ACCESS !in orgs && org != NO_ACCESS && a0.Keys <= a1.Keys
    requires AllReached(a0, s0, a1, s1, orgs, want, admin) && Elsewhere(a0, s0, a1, s1, orgs)
    requires PartWay(a1, s1, a2, s2, org, Wanted(want, org), admin) && Elsewhere(a1, s1, a2, s2, {org})
    requires ok ==> Reached(a1, s1, a2, s2, org, Wanted(want, org), admin)
    ensures AllPartWay(a0, s0, a2, s2, orgs + {org}, want, admin) && Elsewhere(a0, s0, a2, s2, orgs + {org})
    ensures ok ==> AllReached(a0, s0, a2, s2, orgs + {org}, want, admin)
  {
  }

  /** An organisation not reached yet is as it was. */
  lemma FewerOrgs(a0: Accounts, s0: Seats, a1: Accounts, s1: Seats, some: set<Org>, orgs: set<Org>, want: Want, admin: Login)
    requires some <= orgs && NO_ACCESS !in orgs
    requires AllPartWay(a0, s0, a1, s1, some, want, admin) && Elsewhere(a0, s0, a1, s1, some)
    ensures AllPartWay(a0, s0, a1, s1, orgs, want, admin) && Elsewhere(a0, s0, a1, s1, orgs)
  {
  }

  /** The logins that need a change are the wanted ones that do and the extra ones. */
  lemma TodoSplits(a: Accounts, s: Seats, org: Org, want: map<Login, Role>, admin: Login, have: map<Login, OrgUser>)
    requires forall l :: HaveAt(have, a, s, org, l)
    ensures |Todo(a, s, org, want, admin, want.Keys + a.Keys)|
            == |Todo(a, s, org, want, admin, want.Keys)| + |Extra(have.Keys, want, admin)|
    ensures Settled(a, s, org, want, admin) ==> Extra(have.Keys, want, admin) == {}
  {
    var all, wanted, extra := Todo(a, s, org, want, admin, want.Keys + a.Keys), Todo(a, s, org, want, admin, want.Keys), Extra(have.Keys, want, admin);
    forall l ensures l in all <==> l in wanted || l in extra {
      assert HaveAt(have, a, s, org, l);
    }
    assert all == wanted + extra;
    if Settled(a, s, org, want, admin) {
      forall l ensures l !in extra {
        assert HaveAt(have, a, s, org, l);
      }
    }
  }

  lemma SeatedThenDropped(a0: Accounts, s0: Seats, a1: Accounts, s1: Seats, s2: Seats, org: Org, want: map<Login, Role>, admin: Login,
                          have: map<Login, OrgUser>, rest: set<Login>, ok: bool)
    requires Seated(a0, s0, a1, s1, org, want, {}, true)
    requires Dropped(a1, s1, s2, org, Extra(have.Keys, want, admin), rest, ok) && (ok ==> rest == {})
    requires forall l :: HaveAt(have, a0, s0, org, l)
    ensures PartWay(a0, s0, a1, s2, org, want, admin)
    ensures ok ==> Reached(a0, s0, a1, s2, org, want, admin)
    ensures Elsewhere(a0, s0, a1, s2, {org})
  {
    forall l
      ensures RoleAt(a1, s2, Place(org, l)) == GoalAt(a0, s0, Place(org, l), want, admin)
              || (!ok && RoleAt(a1, s2, Place(org, l)) == RoleAt(a0, s0, Place(org, l)))
    {
      assert HaveAt(have, a0, s0, org, l);
    }
  }

  lemma OneLess(extra: set<Login>, rest: set<Login>, l: Login)
    requires l in rest
    ensures |extra - (rest - {l})| == |extra - rest| + if l in extra then 1 else 0
  {
    if l in extra {
      assert extra - (rest - {l}) == extra - rest + {l};
    } else {
      assert extra - (rest - {l}) == extra - rest;
    }
  }

  /** The logins that are there and neither wanted nor Grafana's own admin. */
  function Extra(logins: set<Login>, want: map<Login, Role>, admin: Login): set<Login> {
    set l | l in logins && l !in want && l != admin
  }

  /** Everybody extra is out, but those in `rest`, and perhaps the one whose call failed. */
  ghost predicate Dropped(a: Accounts, s0: Seats, s1: Seats, org: Org, extra: set<Login>, rest: set<Login>, ok: bool) {
    && (forall p: Place :: p.org != org || p.login in rest || p.login !in extra ==> RoleAt(a, s1, p) == RoleAt(a, s0, p))
    && (forall l :: l in extra && l !in rest ==>
          RoleAt(a, s1, Place(org, l)) == None || (!ok && RoleAt(a, s1, Place(org, l)) == RoleAt(a, s0, Place(org, l))))
  }

  /** Everybody wanted has their role, but those in `rest`, and perhaps the one whose call failed. */
  ghost predicate Seated(a0: Accounts, s0: Seats, a1: Accounts, s1: Seats, org: Org, want: map<Login, Role>, rest: set<Login>, ok: bool) {
    && Grown(a0, a1, want.Keys)
    && Elsewhere(a0, s0, a1, s1, {org})
    && (forall l :: l !in want || l in rest ==> RoleAt(a1, s1, Place(org, l)) == RoleAt(a0, s0, Place(org, l)))
    && (forall l :: l in want && l !in rest ==>
          RoleAt(a1, s1, Place(org, l)) == Some(want[l])
          || (!ok && RoleAt(a1, s1, Place(org, l)) == RoleAt(a0, s0, Place(org, l))))
  }

  lemma SeatedNext(a0: Accounts, s0: Seats, a1: Accounts, s1: Seats, a2: Accounts, s2: Seats,
                   org: Org, want: map<Login, Role>, rest: set<Login>, l: Login, ok: bool)
    requires Seated(a0, s0, a1, s1, org, want, rest, true) && l in rest && rest <= want.Keys
    requires RoleAt(a2, s2, Place(org, l)) == Some(want[l])
             || (!ok && RoleAt(a2, s2, Place(org, l)) == RoleAt(a1, s1, Place(org, l)))
    requires forall p: Place :: p != Place(org, l) && (p.org != NO_ACCESS || p.login in a1) ==> RoleAt(a2, s2, p) == RoleAt(a1, s1, p)
    requires Grown(a1, a2, {l}) && org != NO_ACCESS
    ensures Seated(a0, s0, a2, s2, org, want, rest - {l}, ok)
  {
  }

  /** Somebody wanted has to change exactly when their role is another, and not at all in a settled organisation. */
  lemma GoalOfWanted(a: Accounts, s: Seats, org: Org, want: map<Login, Role>, admin: Login, logins: set<Login>, l: Login)
    requires l in want && l !in logins
    ensures |Todo(a, s, org, want, admin, logins + {l})| == |Todo(a, s, org, want, admin, logins)|
              + if RoleAt(a, s, Place(org, l)) == Some(want[l]) then 0 else 1
    ensures Settled(a, s, org, want, admin) ==> RoleAt(a, s, Place(org, l)) == Some(want[l])
  {
    OneMoreTodo(a, s, org, want, admin, logins, l);
  }

  lemma OneMoreTodo(a: Accounts, s: Seats, org: Org, want: map<Login, Role>, admin: Login, logins: set<Login>, l: Login)
    requires l !in logins
    ensures |Todo(a, s, org, want, admin, logins + {l})| == |Todo(a, s, org, want, admin, logins)|
              + if RoleAt(a, s, Place(org, l)) == GoalAt(a, s, Place(org, l), want, admin) then 0 else 1
  {
    var before, after := Todo(a, s, org, want, admin, logins), Todo(a, s, org, want, admin, logins + {l});
    if RoleAt(a, s, Place(org, l)) == GoalAt(a, s, Place(org, l), want, admin) {
      assert after == before;
    } else {
      assert after == before + {l};
    }
  }

  /** After a run without errors another one finds nothing to do (see the last promise of Apply). */
  lemma ReachedIsSettled(a0: Accounts, s0: Seats, a1: Accounts, s1: Seats, org: Org, want: map<Login, Role>, admin: Login)
    requires Reached(a0, s0, a1, s1, org, want, admin)
    ensures Settled(a1, s1, org, want, admin)
  {
  }

  /**
   Who is in a project's organisation after a run without errors: as Admin the platform admins,
   besides them the project's members, and nobody else but Grafana's own admin.
   */
  lemma WhoIsIn(a0: Accounts, s0: Seats, a1: Accounts, s1: Seats, want: Want, admin: Login,
                users: seq<User>, members: seq<Member>, platform: Org, projectOrg: map<Project, Org>, p: Project, l: Login)
    requires p in projectOrg && (forall q :: q in projectOrg && projectOrg[q] == projectOrg[p] ==> q == p)
    requires IsDesired(want, users, members, platform, projectOrg) && l != admin
    requires Reached(a0, s0, a1, s1, projectOrg[p], Wanted(want, projectOrg[p]), admin)
    ensures var role := RoleAt(a1, s1, Place(projectOrg[p], l));
            && (role == Some(Admin) <==> IsPlatformAdmin(users, l))
            && (role.Some? <==> IsPlatformAdmin(users, l) || exists i :: 0 <= i < |members| && members[i].user == l && members[i].project == p)
  {
    var org := projectOrg[p];
    assert Lookup(want[org], l) == DesiredRole(users, members, projectOrg, org, l);
    assert RoleAt(a1, s1, Place(org, l)) == GoalAt(a0, s0, Place(org, l), Wanted(want, org), admin);
    ProjectAccess(users, members, projectOrg, org, l);
  }

  /** In so many words: who is wanted has the wanted role, Grafana's own admin keeps what it had, and nobody else is left. */
  lemma ReachedMeans(a0: Accounts, s0: Seats, a1: Accounts, s1: Seats, org: Org, want: map<Login, Role>, admin: Login, l: Login)
    requires Reached(a0, s0, a1, s1, org, want, admin)
    ensures l in want ==> RoleAt(a1, s1, Place(org, l)) == Some(want[l])
    ensures l !in want && l == admin ==> RoleAt(a1, s1, Place(org, l)) == RoleAt(a0, s0, Place(org, l))
    ensures l !in want && l != admin ==> RoleAt(a1, s1, Place(org, l)) == None
  {
    assert RoleAt(a1, s1, Place(org, l)) == GoalAt(a0, s0, Place(org, l), want, admin);
  }
}
