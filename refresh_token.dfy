/**
 The refresh_sessions table of models/refreshToken.go: one RefreshSession row per login, stored
 under its primary key ID, with a unique index on Token. The table is a map from ID to row; the
 database's two constraints are the predicates Keyed and TokensUnique, and the three things the
 handlers do to it (find by token, save a row, delete by token) are functions over the map.
 */
module RefreshToken {
  import opened Wrappers

  /** How long a refresh session lives after a login or a rotation: seven days, in seconds. */
  const Lifetime: int := 7 * 24 * 3600

  /** One row. Times are whole seconds on the server's clock. */
  datatype RefreshSession = RefreshSession(
    id: nat,          // primary key
    userId: nat,      // owning user (indexed, not unique)
    token: string,    // the opaque refresh token (unique index)
    expiresAt: int,
    createdAt: int)

  type Table = map<nat, RefreshSession>

  /** The primary key: every row is stored under its own ID. */
  predicate Keyed(t: Table) {
    forall id :: id in t ==> t[id].id == id
  }

  /** The unique index on Token: no two rows carry the same token. */
  predicate TokensUnique(t: Table) {
    forall a, b :: a in t && b in t && t[a].token == t[b].token ==> a == b
  }

  predicate ValidTable(t: Table) {
    Keyed(t) && TokensUnique(t)
  }

  /** The IDs of the rows that `WHERE token = ?` selects. */
  function WithToken(t: Table, token: string): set<nat> {
    set id | id in t && t[id].token == token
  }

  /** Under the unique index a token selects at most one row. */
  lemma {:induction false} AtMostOneWithToken(t: Table, token: string)
    requires TokensUnique(t)
    ensures |WithToken(t, token)| <= 1
  {
    var s := WithToken(t, token);
    if s != {} {
      var id :| id in s;
      assert s == {id};
    }
  }

  /** The unique index is exactly "every token selects at most one row". */
  lemma {:induction false} UniqueIndexIffSingleMatch(t: Table)
    ensures TokensUnique(t) <==> forall token :: |WithToken(t, token)| <= 1
  {
    if TokensUnique(t) {
      forall token ensures |WithToken(t, token)| <= 1 {
        AtMostOneWithToken(t, token);
      }
    } else {
      var a, b :| a in t && b in t && t[a].token == t[b].token && a != b;
      var s := WithToken(t, t[a].token);
      assert s == (s - {a, b}) + {a, b};
      assert |s| >= 2;
    }
  }

  /** `Where("token = ?", token).First(&session)`: the row carrying `token`, if any. */
  function FindByToken(t: Table, token: string): (r: Option<RefreshSession>)
    requires ValidTable(t)
    ensures r.None? <==> WithToken(t, token) == {}
    ensures r.Some? ==> WithToken(t, token) == {r.value.id} && t[r.value.id] == r.value
    ensures r.Some? ==> r.value.token == token
  {
    if WithToken(t, token) == {} then None
    else
      var id :| id in WithToken(t, token);
      assert WithToken(t, token) == {id};
      Some(t[id])
  }

  /** Whether the unique index lets `row` be stored under its ID: no OTHER row holds its token. */
  predicate Admits(t: Table, row: RefreshSession) {
    WithToken(t, row.token) <= {row.id}
  }

  /**
   `DB.Save(&row)`: inserts the row, or overwrites the row with the same ID. When another row
   already holds the token, the unique index rejects the statement and the table is unchanged
   (both callers ignore that error).
   */
  function Save(t: Table, row: RefreshSession): (r: Table)
    ensures forall id :: id in t && id != row.id ==> id in r && r[id] == t[id]
    ensures r.Keys <= t.Keys + {row.id}
    ensures Admits(t, row) ==> row.id in r && r[row.id] == row
    ensures !Admits(t, row) ==> r == t
  {
    if Admits(t, row) then t[row.id := row] else t
  }

  /** A save never breaks the primary key or the unique index. */
  lemma {:induction false} SaveKeepsValid(t: Table, row: RefreshSession)
    requires ValidTable(t)
    ensures ValidTable(Save(t, row))
  {
    if Admits(t, row) {
      forall other | other in t && other != row.id
        ensures t[other].token != row.token
      {
        assert t[other].token == row.token ==> other in WithToken(t, row.token);
      }
    }
  }

  /** A new row saved with a token no row holds is added, and its token finds exactly it. */
  lemma {:induction false} InsertedRowIsFound(t: Table, row: RefreshSession)
    requires ValidTable(t) && row.id !in t
    requires WithToken(t, row.token) == {}
    ensures var r := Save(t, row);
      && ValidTable(r)
      && r.Keys == t.Keys + {row.id}
      && FindByToken(r, row.token) == Some(row)
  {
    SaveKeepsValid(t, row);
    var r := Save(t, row);
    assert row.id in WithToken(r, row.token);
  }

  /** `Where("token = ?", token).Delete(...)`: removes every row carrying `token`, and only those. */
  function DeleteByToken(t: Table, token: string): (r: Table)
    ensures r.Keys == t.Keys - WithToken(t, token)
    ensures forall id :: id in r ==> r[id] == t[id]
    ensures WithToken(r, token) == {}
    ensures ValidTable(t) ==> ValidTable(r)
  {
    map id | id in t && t[id].token != token :: t[id]
  }

  /** The row as Refresh rewrites it before saving: a new token and seven more days from `now`. */
  function Rotated(s: RefreshSession, newToken: string, now: int): RefreshSession {
    s.(token := newToken, expiresAt := now + Lifetime)
  }

  /**
   Rotating a stored row to a token no row holds rewrites that row only: it keeps its ID, owner and
   creation time, takes the new token and expiry, the new token finds it, and the token it had
   before finds nothing any more.
   */
  lemma {:induction false} RotationRetiresOldToken(t: Table, id: nat, newToken: string, now: int)
    requires ValidTable(t) && id in t
    requires WithToken(t, newToken) == {}
    ensures var r := Save(t, Rotated(t[id], newToken, now));
      && ValidTable(r)
      && r.Keys == t.Keys
      && r[id] == RefreshSession(id, t[id].userId, newToken, now + Lifetime, t[id].createdAt)
      && FindByToken(r, newToken) == Some(r[id])
      && FindByToken(r, t[id].token).None?
      && (forall other :: other in t && other != id ==> r[other] == t[other])
  {
    var row := Rotated(t[id], newToken, now);
    assert Admits(t, row);
    SaveKeepsValid(t, row);
    var r := Save(t, row);
    assert r == t[id := row];
    var retired := t[id].token;
    assert retired == newToken ==> id in WithToken(t, newToken);
    forall other | other in r
      ensures r[other].token != retired
    {
      if other != id {
        assert t[other].token != retired;
      }
    }
    assert WithToken(r, retired) == {};
    assert id in WithToken(r, newToken);
  }
}
