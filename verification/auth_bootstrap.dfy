/** The authentication module's start-up: the lenient role list read from
    `AUTH_SEED_ROLES`, the optional seed user, and the choice between the
    relational and the in-memory repository. */
module AuthBootstrap {
  import opened Wrappers
  import opened JsText
  import opened Roles
  import opened Ttl
  import opened Crypto
  import opened AuthTypes
  import AuthService
  import SchemaName
  import InMemoryAuthRepository
  import PostgresAuthRepository

  /** The names that are roles, as roles, in their original order; every
      other name is dropped. */
  function KeepRoles(names: seq<string>): (rs: seq<Role>)
    ensures |rs| <= |names|
    ensures forall r :: r in rs ==> Name(r) in names
    ensures forall i :: 0 <= i < |names| && IsRoleName(names[i]) ==> FromName(names[i]).value in rs
    decreases |names|
  {
    if |names| == 0 then []
    else
      var rest := KeepRoles(names[1..]);
      assert forall i :: 1 <= i < |names| ==> names[i] == names[1..][i - 1];
      match FromName(names[0])
      case Some(r) => [r] + rest
      case None => rest
  }

  /** `parseRoles(value)`: split on `','`, trim each piece, keep the pieces
      that name a role. */
  function ParseRoles(value: Option<string>): (rs: seq<Role>)
    ensures !Truthy(value) ==> rs == []
    ensures Truthy(value) ==> |rs| <= |Split(value.value, ',')|
    ensures Truthy(value) ==>
              forall r :: r in rs <==> exists i :: 0 <= i < |Split(value.value, ',')| && Trim(Split(value.value, ',')[i]) == Name(r)
  {
    if !Truthy(value) then []
    else
      var pieces := Split(value.value, ',');
      var rs := KeepRoles(AuthService.TrimAll(pieces));
      forall r | exists i :: 0 <= i < |pieces| && Trim(pieces[i]) == Name(r)
        ensures r in rs
      {
        var i :| 0 <= i < |pieces| && Trim(pieces[i]) == Name(r);
        NameRoundTrip(r, Trim(pieces[i]));
        assert AuthService.TrimAll(pieces)[i] == Name(r);
      }
      rs
  }

  /** Keeping roles distributes over concatenation, so the order of the
      list is kept and a dropped name affects nothing around it. */
  lemma {:induction false} KeepRolesAppend(xs: seq<string>, ys: seq<string>)
    ensures KeepRoles(xs + ys) == KeepRoles(xs) + KeepRoles(ys)
    decreases |xs|
  {
    if |xs| > 0 {
      assert (xs + ys)[0] == xs[0];
      assert (xs + ys)[1..] == xs[1..] + ys;
      KeepRolesAppend(xs[1..], ys);
    } else {
      assert xs + ys == ys;
    }
  }

  /** The names of a role list are kept, in order, as exactly that list. */
  lemma {:induction false} KeepRolesOfNames(rs: seq<Role>)
    ensures KeepRoles(Names(rs)) == rs
    decreases |rs|
  {
    if |rs| > 0 {
      assert Names(rs)[1..] == Names(rs[1..]);
      NameRoundTrip(rs[0], Name(rs[0]));
      KeepRolesOfNames(rs[1..]);
      assert [rs[0]] + rs[1..] == rs;
    }
  }

  /** Every character is a lower-case ASCII letter. */
  predicate LowerLetters(s: string) {
    forall i :: 0 <= i < |s| ==> 'a' <= s[i] <= 'z'
  }

  lemma RoleNameLetters(r: Role)
    ensures LowerLetters(Name(r)) && |Name(r)| > 0
  {
    match r
    case Admin =>
    case Clinician =>
    case Receptionist =>
    case Patient =>
    case Student =>
  }

  /** Role names contain no comma and no surrounding whitespace. */
  lemma RoleNameIsPlain(r: Role)
    ensures ',' !in Name(r)
    ensures Trim(Name(r)) == Name(r)
    ensures |Name(r)| > 0
  {
    var n := Name(r);
    RoleNameLetters(r);
    assert Trimmed(n);
    TrimOfTrimmed(n);
  }

  /** Away from the empty string, `parseRoles` is keep-after-trim-after-split. */
  lemma ParseRolesPieces(s: string)
    requires s != ""
    ensures ParseRoles(Some(s)) == KeepRoles(AuthService.TrimAll(Split(s, ',')))
  {
  }

  /** Round trip: a non-empty role list written as comma-separated names
      parses back to exactly that list, in the same order. */
  lemma ParseRolesRoundTrip(rs: seq<Role>)
    requires |rs| >= 1
    ensures ParseRoles(Some(Join(Names(rs), ","))) == rs
  {
    var names := Names(rs);
    forall i | 0 <= i < |names|
      ensures ',' !in names[i] && Trim(names[i]) == names[i]
    {
      RoleNameIsPlain(rs[i]);
    }
    SplitJoin(names, ',');
    assert Join(names, ",") != "" by {
      RoleNameIsPlain(rs[0]);
      JoinNonEmpty(names, ",");
    }
    ParseRolesPieces(Join(names, ","));
    assert AuthService.TrimAll(names) == names;
    KeepRolesOfNames(rs);
  }

  /** A join whose first piece is non-empty is non-empty. */
  lemma {:induction false} JoinNonEmpty(parts: seq<string>, sep: string)
    requires |parts| >= 1 && |parts[0]| > 0
    ensures |Join(parts, sep)| >= |parts[0]|
  {
  }

  /** The names of a role list, followed by one more piece without a
      comma: no piece holds a comma, and trimming touches only the last. */
  lemma PiecesAfterNames(rs: seq<Role>, bad: string)
    requires ',' !in bad
    ensures forall i :: 0 <= i < |Names(rs) + [bad]| ==> ',' !in (Names(rs) + [bad])[i]
    ensures AuthService.TrimAll(Names(rs) + [bad]) == Names(rs) + [Trim(bad)]
  {
    var names := Names(rs);
    var all := names + [bad];
    NamesArePlain(rs);
    forall i | 0 <= i < |all|
      ensures ',' !in all[i]
    {
      if i < |rs| {
        assert all[i] == names[i];
      } else {
        assert all[i] == bad;
      }
    }
    TrimAllAppend(names, bad);
    TrimAllOfTrimmed(names);
  }

  /** Role names hold no comma and are already trimmed. */
  lemma NamesArePlain(rs: seq<Role>)
    ensures forall i :: 0 <= i < |rs| ==> ',' !in Names(rs)[i] && Trim(Names(rs)[i]) == Names(rs)[i]
  {
    forall i | 0 <= i < |rs|
      ensures ',' !in Names(rs)[i] && Trim(Names(rs)[i]) == Names(rs)[i]
    {
      RoleNameIsPlain(rs[i]);
    }
  }

  /** Trimming a list with one more piece trims that piece on its own. */
  lemma TrimAllAppend(xs: seq<string>, x: string)
    ensures AuthService.TrimAll(xs + [x]) == AuthService.TrimAll(xs) + [Trim(x)]
  {
    var l, r := AuthService.TrimAll(xs + [x]), AuthService.TrimAll(xs) + [Trim(x)];
    forall i | 0 <= i < |l|
      ensures l[i] == r[i]
    {
      if i < |xs| {
        assert (xs + [x])[i] == xs[i];
      } else {
        assert (xs + [x])[i] == x;
      }
    }
  }

  /** Trimming pieces that are already trimmed changes nothing. */
  lemma TrimAllOfTrimmed(xs: seq<string>)
    requires forall i :: 0 <= i < |xs| ==> Trim(xs[i]) == xs[i]
    ensures AuthService.TrimAll(xs) == xs
  {
  }

  /** Unlike `normalizeRoles`, which rejects a list holding an unknown
      role, `parseRoles` silently drops it: appending a non-role piece to a
      seed-role list changes nothing. */
  lemma UnknownSeedRoleDropped(rs: seq<Role>, bad: string)
    requires |rs| >= 1
    requires ',' !in bad && !IsRoleName(Trim(bad))
    ensures ParseRoles(Some(Join(Names(rs) + [bad], ","))) == rs
    ensures AuthService.NormalizeRoles(Some(Names(rs) + [bad])).Err?
  {
    var all := Names(rs) + [bad];
    PiecesAfterNames(rs, bad);
    SplitJoin(all, ',');
    assert Join(all, ",") != "" by {
      RoleNameIsPlain(rs[0]);
      JoinNonEmpty(all, ",");
    }
    ParseRolesPieces(Join(all, ","));
    KeepRolesAppend(Names(rs), [Trim(bad)]);
    KeepRolesOfNames(rs);
    assert AuthService.TrimAll(all)[|rs|] == Trim(bad);
  }

  /** The seed configuration. */
  datatype SeedEnv = SeedEnv(
    email: Option<string>,     // AUTH_SEED_EMAIL
    password: Option<string>,  // AUTH_SEED_PASSWORD
    roles: Option<string>      // AUTH_SEED_ROLES
  )

  /** `getSeedUser`: no seed unless both email and password are set and
      non-empty; the roles are the parsed list, or `admin` when it is empty. */
  function GetSeedUser(env: SeedEnv, hasher: Hasher, id: string): (r: Option<User>)
    ensures r.None? <==> !Truthy(env.email) || !Truthy(env.password)
    ensures r.Some? ==>
              && r.value.id == id
              && r.value.email == env.email.value
              && r.value.passwordHash == hasher.hash(env.password.value)
              && |r.value.roles| >= 1
              && (ParseRoles(env.roles) != [] ==> r.value.roles == ParseRoles(env.roles))
              && (ParseRoles(env.roles) == [] ==> r.value.roles == [Admin])
  {
    if !Truthy(env.email) || !Truthy(env.password) then None
    else
      var parsed := ParseRoles(env.roles);
      var roles := if |parsed| > 0 then parsed else [Admin];
      Some(User(id, env.email.value, hasher.hash(env.password.value), roles))
  }

  /** A seed whose role variable is unset, empty, or has no comma piece
      that trims to a role name (`"superuser,guest"`) is an administrator. */
  lemma SeedDefaultsToAdmin(env: SeedEnv, hasher: Hasher, id: string)
    requires Truthy(env.email) && Truthy(env.password)
    requires env.roles.Some? ==>
               forall i :: 0 <= i < |Split(env.roles.value, ',')| ==> !IsRoleName(Trim(Split(env.roles.value, ',')[i]))
    ensures GetSeedUser(env, hasher, id).value.roles == [Admin]
  {
    var parsed := ParseRoles(env.roles);
    if parsed != [] {
      var r := parsed[0];
      assert r in parsed;
      var i :| 0 <= i < |Split(env.roles.value, ',')| && Trim(Split(env.roles.value, ',')[i]) == Name(r);
      NameRoundTrip(r, Name(r));
      assert false;
    }
  }

  /** The repository the module provides. */
  datatype Repository =
    | Relational(schema: string, tables: PostgresAuthRepository.Tables)
    | InMemory(repo: InMemoryAuthRepository.Repository)

  datatype BootEnv = BootEnv(
    databaseUrl: Option<string>,  // DATABASE_URL
    authSchema: Option<string>,   // AUTH_SCHEMA
    seed: SeedEnv
  )

  function FindUserById(r: Repository, id: string): Option<User> {
    match r
    case Relational(_, t) => PostgresAuthRepository.FindById(t, id)
    case InMemory(m) => InMemoryAuthRepository.FindById(m, id)
  }

  /** The `AUTH_REPOSITORY` factory: the relational repository over the
      existing tables exactly when `DATABASE_URL` is truthy (its constructor
      may still reject the schema name), otherwise an empty in-memory one;
      then the seed user, if any, is saved. */
  function CreateRepository(env: BootEnv, hasher: Hasher, seedId: string,
                            existing: PostgresAuthRepository.Tables): (r: Result<Repository, string>)
    ensures !Truthy(env.databaseUrl) ==> r.Ok? && r.value.InMemory?
    ensures Truthy(env.databaseUrl) ==>
              (r.Ok? <==> SchemaName.IsIdentifier(env.authSchema.GetOr("auth")))
              && (r.Ok? ==> r.value.Relational? && r.value.schema == env.authSchema.GetOr("auth"))
              && (r.Err? ==> r.error == SchemaName.InvalidSchemaName)
    ensures r.Ok? && GetSeedUser(env.seed, hasher, seedId).Some? ==>
              FindUserById(r.value, seedId) == GetSeedUser(env.seed, hasher, seedId)
    ensures r.Ok? && GetSeedUser(env.seed, hasher, seedId).None? ==>
              r.value == if Truthy(env.databaseUrl) then Relational(r.value.schema, existing)
                         else InMemory(InMemoryAuthRepository.New([]))
  {
    var seed := GetSeedUser(env.seed, hasher, seedId);
    if Truthy(env.databaseUrl) then
      match SchemaName.AuthSchema(env.databaseUrl, env.authSchema)
      case Err(e) => Err(e)
      case Ok(schema) =>
        Ok(Relational(schema, if seed.Some? then PostgresAuthRepository.SaveUser(existing, seed.value) else existing))
    else
      var m := InMemoryAuthRepository.New([]);
      Ok(InMemory(if seed.Some? then InMemoryAuthRepository.SaveUser(m, seed.value) else m))
  }
}
