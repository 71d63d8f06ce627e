/** `getSchemaName`: the guard both relational repositories put in front of
    a schema name before splicing it into SQL text. It accepts exactly the
    strings matching `^[a-zA-Z_][a-zA-Z0-9_]*$` and returns them unchanged. */
module SchemaName {
  import opened Wrappers

  const InvalidSchemaName: string := "Invalid schema name"
  const DatabaseUrlMissing: string := "DATABASE_URL is not set"

  predicate IsIdentStart(c: char) {
    ('a' <= c <= 'z') || ('A' <= c <= 'Z') || c == '_'
  }

  predicate IsIdentChar(c: char) {
    IsIdentStart(c) || ('0' <= c <= '9')
  }

  /** The language of `^[a-zA-Z_][a-zA-Z0-9_]*$`. */
  predicate IsIdentifier(s: string) {
    |s| >= 1 && IsIdentStart(s[0]) && forall i :: 1 <= i < |s| ==> IsIdentChar(s[i])
  }

  /** The regular-expression test, as a left-to-right scan. */
  method Matches(s: string) returns (ok: bool)
    ensures ok <==> IsIdentifier(s)
  {
    if |s| == 0 || !IsIdentStart(s[0]) {
      return false;
    }
    var i := 1;
    while i < |s|
      invariant 1 <= i <= |s|
      invariant forall j :: 1 <= j < i ==> IsIdentChar(s[j])
    {
      if !IsIdentChar(s[i]) {
        return false;
      }
      i := i + 1;
    }
    return true;
  }

  /** `getSchemaName(value)`: the value itself, or the error it throws. */
  function GetSchemaName(value: string): (r: Result<string, string>)
    ensures r.Ok? <==> IsIdentifier(value)
    ensures r.Ok? ==> r.value == value
    ensures r.Err? ==> r.error == InvalidSchemaName
  {
    if IsIdentifier(value) then Ok(value) else Err(InvalidSchemaName)
  }

  /** An accepted name is a bare SQL identifier: it cannot close a quote,
      end a statement, qualify a name, start a comment or hold a space. */
  lemma AcceptedNamesAreInert(value: string)
    requires GetSchemaName(value).Ok?
    ensures forall i :: 0 <= i < |value| ==>
              value[i] !in {'"', '\'', ';', '.', '-', '/', '*', ' ', '\n', '\t', '(', ')'}
  {
    forall i | 0 <= i < |value|
      ensures IsIdentChar(value[i])
    {
    }
  }

  /** The schema read from an optional variable with a default: the default
      applies only when the variable is unset (`??`), so an empty value is
      kept and then rejected. */
  function SchemaFromEnv(value: Option<string>, default: string): (r: Result<string, string>)
    ensures value.None? ==> r == GetSchemaName(default)
    ensures value == Some("") ==> r == Err(InvalidSchemaName)
    ensures value.Some? ==> r == GetSchemaName(value.value)
  {
    GetSchemaName(value.GetOr(default))
  }

  /** The relational repositories' constructors: `DATABASE_URL` must be set
      and non-empty, then the schema variable is validated. */
  function Connect(databaseUrl: Option<string>, schemaVar: Option<string>, default: string): (r: Result<string, string>)
    ensures r.Ok? <==> databaseUrl.Some? && databaseUrl.value != "" && IsIdentifier(schemaVar.GetOr(default))
    ensures r.Ok? ==> r.value == schemaVar.GetOr(default)
    ensures (databaseUrl.None? || databaseUrl == Some("")) ==> r == Err(DatabaseUrlMissing)
  {
    if databaseUrl.None? || databaseUrl.value == "" then Err(DatabaseUrlMissing)
    else SchemaFromEnv(schemaVar, default)
  }

  /** `PostgresAuthRepository`'s schema: `AUTH_SCHEMA ?? 'auth'`. */
  function AuthSchema(databaseUrl: Option<string>, authSchema: Option<string>): Result<string, string> {
    Connect(databaseUrl, authSchema, "auth")
  }

  /** `PostgresClinicStatusRepository`'s schema: `CLINIC_STATUS_SCHEMA ?? 'clinic'`. */
  function ClinicSchema(databaseUrl: Option<string>, clinicSchema: Option<string>): Result<string, string> {
    Connect(databaseUrl, clinicSchema, "clinic")
  }

  /** Both defaults are valid identifiers, so with a database configured and
      no schema variable the constructors succeed with `auth` and `clinic`;
      an empty schema variable makes them fail. */
  lemma SchemaDefaults(databaseUrl: string)
    requires databaseUrl != ""
    ensures AuthSchema(Some(databaseUrl), None) == Ok("auth")
    ensures ClinicSchema(Some(databaseUrl), None) == Ok("clinic")
    ensures AuthSchema(Some(databaseUrl), Some("")) == Err(InvalidSchemaName)
    ensures ClinicSchema(Some(databaseUrl), Some("")) == Err(InvalidSchemaName)
  {
    assert IsIdentifier("auth") by {
      assert "auth"[0] == 'a' && "auth"[1] == 'u' && "auth"[2] == 't' && "auth"[3] == 'h';
    }
    assert IsIdentifier("clinic") by {
      assert "clinic"[0] == 'c' && "clinic"[1] == 'l' && "clinic"[2] == 'i';
      assert "clinic"[3] == 'n' && "clinic"[4] == 'i' && "clinic"[5] == 'c';
    }
  }
}
