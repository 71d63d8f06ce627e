/** `PostgresAuthRepository`, reduced to its observable semantics: the two
    tables `auth_users` and `auth_refresh_tokens` as sequences of rows in
    scan order, a `limit 1` query as the first matching row, `on conflict
    (user_id) do update` as an upsert, and `delete ... where` as a filter.
    Its token half answers exactly as the pair-keyed `CredentialStore` does. */
module PostgresAuthRepository {
  import opened Wrappers
  import opened AuthTypes
  import opened JsText
  import opened Rows
  import UserDirectory
  import CS = CredentialStore

  datatype Tables = Tables(users: seq<User>, refreshTokens: seq<RefreshRecord>)

  const EmptyTables: Tables := Tables([], [])

  // ---------------------------------------------------------------------
  // Users

  function FindByEmail(t: Tables, email: string): (r: Option<User>)
    ensures r.Some? ==> r.value in t.users && ToLower(r.value.email) == ToLower(email)
    ensures r.None? <==> forall i :: 0 <= i < |t.users| ==> ToLower(t.users[i].email) != ToLower(email)
  {
    First(t.users, (u: User) => ToLower(u.email) == ToLower(email))
  }

  /** The row filter `where user_id = id`. */
  function IdIs(id: string): User -> bool {
    (u: User) => u.id == id
  }

  function FindById(t: Tables, id: string): (r: Option<User>)
    ensures r.Some? ==> r.value in t.users && r.value.id == id
    ensures r.None? <==> forall i :: 0 <= i < |t.users| ==> t.users[i].id != id
  {
    First(t.users, IdIs(id))
  }

  /** At most one row per `user_id` (the conflict target is a unique key). */
  predicate UniqueIds(rows: seq<User>) {
    forall i, j :: 0 <= i < j < |rows| ==> rows[i].id != rows[j].id
  }

  /** `do update set email, password_hash, roles`: every row with the
      user's id becomes the user. */
  function Overwrite(rows: seq<User>, user: User): (rows': seq<User>)
    ensures |rows'| == |rows|
    ensures forall i :: 0 <= i < |rows| ==> rows'[i] == if rows[i].id == user.id then user else rows[i]
    decreases |rows|
  {
    if |rows| == 0 then []
    else [if rows[0].id == user.id then user else rows[0]] + Overwrite(rows[1..], user)
  }

  /** `saveUser`: insert, or on a conflicting `user_id` overwrite that row. */
  function SaveUser(t: Tables, user: User): (t': Tables)
    ensures t'.refreshTokens == t.refreshTokens
    ensures FindById(t', user.id) == Some(user)
    ensures forall id :: id != user.id ==> FindById(t', id) == FindById(t, id)
    ensures UniqueIds(t.users) ==> UniqueIds(t'.users)
    ensures |t'.users| == |t.users| + (if FindById(t, user.id).Some? then 0 else 1)
  {
    if FindById(t, user.id).Some? then
      var t' := t.(users := Overwrite(t.users, user));
      OverwriteFinds(t.users, user);
      t'
    else
      var t' := t.(users := t.users + [user]);
      FirstAfterAppend(t.users, user, IdIs(user.id));
      forall id | id != user.id
        ensures FindById(t', id) == FindById(t, id)
      {
        FirstAfterAppend(t.users, user, IdIs(id));
      }
      t'
  }

  /** After an overwrite the user's id finds the user, and every other id
      finds what it found before. */
  lemma {:induction false} OverwriteFinds(rows: seq<User>, user: User)
    requires exists i :: 0 <= i < |rows| && rows[i].id == user.id
    ensures First(Overwrite(rows, user), IdIs(user.id)) == Some(user)
    ensures forall id :: id != user.id ==>
              First(Overwrite(rows, user), IdIs(id)) == First(rows, IdIs(id))
    decreases |rows|
  {
    var rows' := Overwrite(rows, user);
    assert rows'[1..] == Overwrite(rows[1..], user);
    if rows[0].id != user.id {
      assert exists i :: 0 <= i < |rows[1..]| && rows[1..][i].id == user.id by {
        var i :| 0 <= i < |rows| && rows[i].id == user.id;
        assert rows[1..][i - 1].id == user.id;
      }
      OverwriteFinds(rows[1..], user);
    } else {
      forall id | id != user.id
        ensures First(rows', IdIs(id)) == First(rows, IdIs(id))
      {
        OverwriteOthers(rows[1..], user, id);
      }
    }
  }

  /** An overwrite never changes which row another id finds first. */
  lemma {:induction false} OverwriteOthers(rows: seq<User>, user: User, id: string)
    requires id != user.id
    ensures First(Overwrite(rows, user), IdIs(id)) == First(rows, IdIs(id))
    decreases |rows|
  {
    if |rows| > 0 {
      assert Overwrite(rows, user)[1..] == Overwrite(rows[1..], user);
      OverwriteOthers(rows[1..], user, id);
    }
  }

  /** Unlike the in-memory repository, the upsert leaves nothing behind
      under a user's previous email: once the email is changed, the old
      email no longer finds that user. */
  lemma ChangedEmailForgotten(t: Tables, user: User, oldEmail: string)
    requires ToLower(oldEmail) != ToLower(user.email)
    ensures var r := FindByEmail(SaveUser(t, user), oldEmail); r.None? || r.value.id != user.id
  {
  }

  // ---------------------------------------------------------------------
  // Refresh tokens

  predicate Matches(r: RefreshRecord, userId: string, tokenId: string) {
    r.userId == userId && r.tokenId == tokenId
  }

  /** `findRefreshToken`: the first row matching both keys. */
  function FindRefreshToken(t: Tables, userId: string, tokenId: string): (r: Option<RefreshRecord>)
    ensures r.Some? ==> r.value in t.refreshTokens && r.value.userId == userId && r.value.tokenId == tokenId
    ensures r.None? <==> forall i :: 0 <= i < |t.refreshTokens| ==> !Matches(t.refreshTokens[i], userId, tokenId)
  {
    First(t.refreshTokens, (r: RefreshRecord) => Matches(r, userId, tokenId))
  }

  /** `saveRefreshToken`: a plain insert. A record for a pair not yet stored
      becomes findable; every other pair answers as before. */
  function SaveRefreshToken(t: Tables, rec: RefreshRecord): (t': Tables)
    ensures t'.users == t.users
    ensures |t'.refreshTokens| == |t.refreshTokens| + 1
    ensures FindRefreshToken(t, rec.userId, rec.tokenId).None? ==>
              FindRefreshToken(t', rec.userId, rec.tokenId) == Some(rec)
    ensures forall u, k :: !(u == rec.userId && k == rec.tokenId) ==>
              FindRefreshToken(t', u, k) == FindRefreshToken(t, u, k)
  {
    var t' := t.(refreshTokens := t.refreshTokens + [rec]);
    forall u, k
      ensures FindRefreshToken(t', u, k) ==
                if FindRefreshToken(t, u, k).Some? then FindRefreshToken(t, u, k)
                else if Matches(rec, u, k) then Some(rec) else None
    {
      FirstAfterAppend(t.refreshTokens, rec, (r: RefreshRecord) => Matches(r, u, k));
    }
    t'
  }

  /** `revokeRefreshToken`: delete every row matching both keys. */
  function RevokeRefreshToken(t: Tables, userId: string, tokenId: string): (t': Tables)
    ensures t'.users == t.users
    ensures FindRefreshToken(t', userId, tokenId).None?
    ensures forall u, k :: !(u == userId && k == tokenId) ==>
              FindRefreshToken(t', u, k) == FindRefreshToken(t, u, k)
    ensures forall r :: r in t'.refreshTokens <==> r in t.refreshTokens && !Matches(r, userId, tokenId)
    ensures FindRefreshToken(t, userId, tokenId).None? ==> t' == t
  {
    var q := (r: RefreshRecord) => Matches(r, userId, tokenId);
    var t' := t.(refreshTokens := Remove(t.refreshTokens, q));
    forall u, k | !(u == userId && k == tokenId)
      ensures FindRefreshToken(t', u, k) == FindRefreshToken(t, u, k)
    {
      FirstAfterRemove(t.refreshTokens, (r: RefreshRecord) => Matches(r, u, k), q);
    }
    t'
  }

  /** Deleting twice deletes nothing more. */
  lemma RevokeIdempotent(t: Tables, userId: string, tokenId: string)
    ensures RevokeRefreshToken(RevokeRefreshToken(t, userId, tokenId), userId, tokenId)
            == RevokeRefreshToken(t, userId, tokenId)
  {
  }

  /** The token table represents an abstract store when every pair looks up
      the same record in both. */
  ghost predicate Represents(t: Tables, s: CS.Store) {
    forall u, k :: FindRefreshToken(t, u, k) == CS.FindRefreshToken(s, u, k)
  }

  /** Saving a record for a pair not yet stored (the service always draws a
      fresh token id) and deleting a pair both keep the representation:
      for refresh tokens the relational repository is interchangeable with
      the map-based one. */
  lemma TokenOpsRefine(t: Tables, s: CS.Store, rec: RefreshRecord, userId: string, tokenId: string)
    requires Represents(t, s)
    requires CS.FindRefreshToken(s, rec.userId, rec.tokenId).None?
    ensures Represents(SaveRefreshToken(t, rec), CS.SaveRefreshToken(s, rec))
    ensures Represents(RevokeRefreshToken(t, userId, tokenId), CS.RevokeRefreshToken(s, userId, tokenId))
  {
    var t1, s1 := SaveRefreshToken(t, rec), CS.SaveRefreshToken(s, rec);
    forall u, k
      ensures FindRefreshToken(t1, u, k) == CS.FindRefreshToken(s1, u, k)
    {
      assert FindRefreshToken(t, u, k) == CS.FindRefreshToken(s, u, k);
    }
    var t2, s2 := RevokeRefreshToken(t, userId, tokenId), CS.RevokeRefreshToken(s, userId, tokenId);
    forall u, k
      ensures FindRefreshToken(t2, u, k) == CS.FindRefreshToken(s2, u, k)
    {
      assert FindRefreshToken(t, u, k) == CS.FindRefreshToken(s, u, k);
    }
  }
}
