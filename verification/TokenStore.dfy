/**
 The refresh-token table and the statements the auth service runs on it.

 A row is keyed by the hash of its secret: ids and hashes are both unique per row, so
 one name serves for both.  Times are in nanoseconds.  Every UPDATE of the source is
 guarded by "revoked_at IS NULL" and no statement deletes a row; `Later` is what those
 two facts give every caller, however calls interleave.
 */
module TokenStore {
  import opened Options

  type Time = int
  type Hash = nat
  type User = nat
  type Family = nat

  datatype Token = Token(user: User, family: Family, expiresAt: Time,
                         revokedAt: Option<Time>, rotatedAt: Option<Time>, rotatedIp: string)
  {
    predicate Live() { revokedAt.None? }

    predicate SameSession(other: Token) {
      user == other.user && family == other.family && expiresAt == other.expiresAt
    }
  }

  type Table = map<Hash, Token>

  // ---------- the statements, as functions of the table ----------

  function Created(rows: Table, h: Hash, user: User, family: Family, expiresAt: Time): Table {
    rows[h := Token(user, family, expiresAt, None, None, "")]
  }

  function Found(rows: Table, h: Hash): Option<Token> {
    if h in rows then Some(rows[h]) else None
  }

  /** The conditional UPDATE changes a row exactly when the token was still live. */
  predicate WinsRotation(rows: Table, h: Hash) {
    h in rows && rows[h].Live()
  }

  function MarkedRotated(rows: Table, h: Hash, at: Time, ip: string): Table {
    if WinsRotation(rows, h)
    then rows[h := rows[h].(revokedAt := Some(at), rotatedAt := Some(at), rotatedIp := ip)]
    else rows
  }

  function TokenRevoked(rows: Table, h: Hash, at: Time): Table {
    if h in rows && rows[h].Live() then rows[h := rows[h].(revokedAt := Some(at))] else rows
  }

  function FamilyRevoked(rows: Table, f: Family, at: Time): Table {
    map h | h in rows ::
      if rows[h].family == f && rows[h].Live() then rows[h].(revokedAt := Some(at)) else rows[h]
  }

  function UserRevoked(rows: Table, u: User, at: Time): Table {
    map h | h in rows ::
      if rows[h].user == u && rows[h].Live() then rows[h].(revokedAt := Some(at)) else rows[h]
  }

  predicate FamilyActive(rows: Table, f: Family, now: Time) {
    exists h :: h in rows && rows[h].family == f && rows[h].Live() && rows[h].expiresAt > now
  }

  // ---------- what the table means ----------

  function LiveIn(rows: Table, f: Family): set<Hash> {
    set h | h in rows && rows[h].family == f && rows[h].Live()
  }

  ghost predicate KnownFamily(rows: Table, f: Family) {
    exists h :: h in rows && rows[h].family == f
  }

  /** A rotated token was revoked by that rotation, and a family belongs to one user. */
  ghost predicate WellFormed(rows: Table) {
    && (forall h :: h in rows && rows[h].rotatedAt.Some? ==> rows[h].revokedAt == rows[h].rotatedAt)
    && (forall h, k :: h in rows && k in rows && rows[h].family == rows[k].family ==> rows[h].user == rows[k].user)
  }

  /** `now` may follow `before`: no row is lost or changes session, and revoked rows are frozen. */
  ghost predicate Later(before: Table, now: Table) {
    forall h :: h in before ==>
      && h in now
      && now[h].SameSession(before[h])
      && (!before[h].Live() ==> now[h] == before[h])
  }

  lemma LaterTransitive(a: Table, b: Table, c: Table)
    requires Later(a, b) && Later(b, c)
    ensures Later(a, c)
  {
  }

  // ---------- the statements, as data ----------

  /** One statement, or none. */
  datatype Statement =
    | Nothing
    | Insert(h: Hash, user: User, family: Family, at: Time)
    | Mark(h: Hash, at: Time, ip: string)
    | EndToken(h: Hash, at: Time)
    | EndFamily(family: Family, at: Time)
    | EndUser(user: User, at: Time)

  function Run(rows: Table, q: Statement): Table {
    match q
    case Nothing => rows
    case Insert(h, user, f, at) => if h in rows then rows else Created(rows, h, user, f, at)
    case Mark(h, at, ip) => MarkedRotated(rows, h, at, ip)
    case EndToken(h, at) => TokenRevoked(rows, h, at)
    case EndFamily(f, at) => FamilyRevoked(rows, f, at)
    case EndUser(user, at) => UserRevoked(rows, user, at)
  }

  /** No statement brings a revoked token back, moves a token to another session or forgets one. */
  lemma RunIsLater(rows: Table, q: Statement)
    ensures Later(rows, Run(rows, q))
  {
  }

  ghost predicate OneUser(rows: Table, user: User, f: Family) {
    forall k :: k in rows && rows[k].family == f ==> rows[k].user == user
  }

  lemma RunKeepsWellFormed(rows: Table, q: Statement)
    requires WellFormed(rows)
    requires q.Insert? ==> OneUser(rows, q.user, q.family)
    ensures WellFormed(Run(rows, q))
  {
  }

  /** How each statement changes the set of live tokens of a family. */
  lemma LiveAfterRun(rows: Table, q: Statement, g: Family)
    ensures var live := LiveIn(Run(rows, q), g);
            match q
            case Nothing => live == LiveIn(rows, g)
            case Insert(h, _, f, _) => h !in rows ==> live == LiveIn(rows, g) + if g == f then {h} else {}
            case Mark(h, _, _) => live == LiveIn(rows, g) - {h}
            case EndToken(h, _) => live == LiveIn(rows, g) - {h}
            case EndFamily(f, _) => live == if g == f then {} else LiveIn(rows, g)
            case EndUser(user, _) => live == LiveIn(rows, g) - (set h | h in rows && rows[h].user == user)
  {
  }

  // ---------- the store object ----------

  class DB {
    var rows: Table

    constructor ()
      ensures rows == map[]
    {
      rows := map[];
    }

    /** INSERT: the UNIQUE constraint on the hash refuses a second row. */
    method Create(h: Hash, user: User, family: Family, expiresAt: Time) returns (ok: bool)
      modifies this
      ensures ok <==> h !in old(rows)
      ensures rows == if ok then Created(old(rows), h, user, family, expiresAt) else old(rows)
    {
      ok := h !in rows;
      if ok {
        rows := rows[h := Token(user, family, expiresAt, None, None, "")];
      }
    }

    method FindByHash(h: Hash) returns (t: Option<Token>)
      ensures t == Found(rows, h)
    {
      if h in rows {
        t := Some(rows[h]);
      } else {
        t := None;
      }
    }

    /** The winner of a race is told so: the row was live before and is rotated after. */
    method MarkRotated(h: Hash, at: Time, ip: string) returns (won: bool)
      modifies this
      ensures won <==> WinsRotation(old(rows), h)
      ensures rows == MarkedRotated(old(rows), h, at, ip)
    {
      won := false;
      if h in rows && rows[h].revokedAt.None? {
        rows := rows[h := rows[h].(revokedAt := Some(at), rotatedAt := Some(at), rotatedIp := ip)];
        won := true;
      }
    }

    method IsFamilyActive(f: Family, now: Time) returns (active: bool)
      ensures active <==> FamilyActive(rows, f, now)
    {
      active := exists h | h in rows :: rows[h].family == f && rows[h].Live() && rows[h].expiresAt > now;
    }

    method Revoke(h: Hash, at: Time)
      modifies this
      ensures rows == TokenRevoked(old(rows), h, at)
    {
      if h in rows && rows[h].revokedAt.None? {
        rows := rows[h := rows[h].(revokedAt := Some(at))];
      }
    }

    method RevokeFamily(f: Family, at: Time)
      modifies this
      ensures rows == FamilyRevoked(old(rows), f, at)
      ensures LiveIn(rows, f) == {}
    {
      rows := map h | h in rows ::
        if rows[h].family == f && rows[h].Live() then rows[h].(revokedAt := Some(at)) else rows[h];
    }

    method RevokeUserSessions(u: User, at: Time)
      modifies this
      ensures rows == UserRevoked(old(rows), u, at)
      ensures forall h :: h in rows && rows[h].user == u ==> !rows[h].Live()
    {
      rows := map h | h in rows ::
        if rows[h].user == u && rows[h].Live() then rows[h].(revokedAt := Some(at)) else rows[h];
    }
  }
}
