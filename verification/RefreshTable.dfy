/** The refresh_tokens table and its six operations
    (internal/repository/dbrepo/refresh_tokens.go). The unique index on jti makes the table
    a map from jti to row. */
module RefreshTable {
  import opened Wrappers

  datatype Row = Row(family: string, user: int, expiresAt: int, revokedAt: Option<int>)

  type Table = map<string, Row>

  predicate Unrevoked(t: Table, jti: string) {
    jti in t && t[jti].revokedAt.None?
  }

  /** Some row of the family is neither revoked nor expired. */
  predicate HasActive(t: Table, family: string, now: int) {
    exists j | j in t :: t[j].family == family && t[j].revokedAt.None? && now < t[j].expiresAt
  }

  function Revoke(row: Row, now: int): Row {
    if row.revokedAt.None? then row.(revokedAt := Some(now)) else row
  }

  function RevokedOne(t: Table, jti: string, now: int): Table {
    if jti in t then t[jti := Revoke(t[jti], now)] else t
  }

  function RevokedFamily(t: Table, family: string, now: int): Table {
    map j | j in t :: if t[j].family == family then Revoke(t[j], now) else t[j]
  }

  function Purged(t: Table, now: int): Table {
    map j | j in t && !(t[j].expiresAt < now) :: t[j]
  }

  /** The repository over one table. `fails` stands for the driver reporting an error, in
      which case the statement has had no effect. */
  class TokenRepo {
    var rows: Table

    constructor ()
      ensures rows == map[]
    {
      rows := map[];
    }

    method CreateRefreshToken(jti: string, row: Row, fails: bool) returns (ok: bool)
      modifies this
      ensures ok == (!fails && jti !in old(rows))
      ensures rows == if ok then old(rows)[jti := row] else old(rows)
    {
      if fails || jti in rows {
        return false;
      }
      rows := rows[jti := row];
      return true;
    }

    method GetRefreshToken(jti: string) returns (row: Option<Row>)
      ensures row == if jti in rows then Some(rows[jti]) else None
    {
      if jti in rows {
        return Some(rows[jti]);
      }
      return None;
    }

    method RevokeRefreshToken(jti: string, now: int, fails: bool) returns (ok: bool)
      modifies this
      ensures ok == !fails
      ensures rows == if ok then RevokedOne(old(rows), jti, now) else old(rows)
    {
      if fails {
        return false;
      }
      if jti in rows && rows[jti].revokedAt == None {
        rows := rows[jti := rows[jti].(revokedAt := Some(now))];
      }
      return true;
    }

    method FamilyHasActiveToken(family: string, now: int) returns (active: bool)
      ensures active <==> HasActive(rows, family, now)
    {
      var matching := set j | j in rows
        && rows[j].family == family && rows[j].revokedAt == None && rows[j].expiresAt > now;
      var live := |matching|;
      active := live > 0;
      if HasActive(rows, family, now) {
        ghost var j :| j in rows && rows[j].family == family
          && rows[j].revokedAt.None? && now < rows[j].expiresAt;
        assert j in matching;
      } else {
        assert matching == {};
      }
    }

    method RevokeRefreshFamily(family: string, now: int, fails: bool) returns (ok: bool)
      modifies this
      ensures ok == !fails
      ensures rows == if ok then RevokedFamily(old(rows), family, now) else old(rows)
    {
      if fails {
        return false;
      }
      rows := map j | j in rows :: if rows[j].family == family && rows[j].revokedAt == None
                                   then rows[j].(revokedAt := Some(now)) else rows[j];
      return true;
    }

    method DeleteExpiredRefreshTokens(now: int, fails: bool) returns (ok: bool)
      modifies this
      ensures ok == !fails
      ensures rows == if ok then Purged(old(rows), now) else old(rows)
    {
      if fails {
        return false;
      }
      rows := map j | j in rows && rows[j].expiresAt >= now :: rows[j];
      return true;
    }
  }
}
