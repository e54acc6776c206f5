/** Start-up configuration checking (lib/env-validation.ts `validateEnv`):
    required variables that are unset make the configuration invalid;
    unset optional variables, a short NextAuth secret and an unexpected
    database URL scheme only produce warnings. */
module EnvValidation {
  import opened Util

  /** The process environment; a variable absent from the map is undefined. */
  type Env = map<string, string>

  const RequiredVars: seq<string> := ["DATABASE_URL", "NEXTAUTH_SECRET", "NEXTAUTH_URL"]
  const OptionalVars: seq<string> := [
    "STRIPE_SECRET_KEY", "NEXT_PUBLIC_STRIPE_PUBLISHABLE_KEY", "NEXT_PUBLIC_PEERJS_HOST",
    "NEXT_PUBLIC_PEERJS_PORT", "NEXT_PUBLIC_PEERJS_PATH", "NEXT_PUBLIC_PEERJS_SECURE"]

  const MinSecretLength: nat := 32
  const ShortSecretWarning: string := "NEXTAUTH_SECRET should be at least 32 characters long"
  const DatabaseUrlWarning: string := "DATABASE_URL should use postgresql:// for production"

  /** `process.env[name]` is truthy: defined and not the empty string. */
  predicate IsSet(env: Env, name: string) {
    name in env && env[name] != ""
  }

  /** The variables of `names` that are not set, in the order of `names`. */
  function Unset(env: Env, names: seq<string>): (r: seq<string>)
    ensures forall v :: v in r <==> v in names && !IsSet(env, v)
    ensures |r| <= |names|
    ensures r == [] <==> forall v :: v in names ==> IsSet(env, v)
  {
    if names == [] then []
    else
      var init := names[..|names| - 1];
      var last := names[|names| - 1];
      assert forall v :: v in names <==> v in init || v == last;
      Unset(env, init) + (if IsSet(env, last) then [] else [last])
  }

  /** One name gives itself when it is unset and nothing otherwise. */
  lemma UnsetSingle(env: Env, v: string)
    ensures Unset(env, [v]) == if IsSet(env, v) then [] else [v]
  {
    assert [v][..0] == [];
  }

  /** `Unset` keeps the order of `names` and lists each unset occurrence once:
      it distributes over concatenation. */
  lemma {:induction false} UnsetAppend(env: Env, a: seq<string>, b: seq<string>)
    ensures Unset(env, a + b) == Unset(env, a) + Unset(env, b)
    decreases |b|
  {
    if b == [] {
      assert a + b == a;
    } else {
      var init := b[..|b| - 1];
      var last := b[|b| - 1];
      var tail := if IsSet(env, last) then [] else [last];
      assert (a + b)[..|a + b| - 1] == a + init && (a + b)[|a + b| - 1] == last;
      calc {
        Unset(env, a + b);
        Unset(env, a + init) + tail;
        { UnsetAppend(env, a, init); }
        (Unset(env, a) + Unset(env, init)) + tail;
        Unset(env, a) + (Unset(env, init) + tail);
        Unset(env, a) + Unset(env, b);
      }
    }
  }

  /** The secret is set but shorter than 32 characters. */
  predicate ShortSecret(env: Env) {
    IsSet(env, "NEXTAUTH_SECRET") && |env["NEXTAUTH_SECRET"]| < MinSecretLength
  }

  /** The database URL is set but is neither a PostgreSQL nor a file URL. */
  predicate UnexpectedDatabaseUrl(env: Env) {
    IsSet(env, "DATABASE_URL")
      && !StartsWith(env["DATABASE_URL"], "postgresql://") && !StartsWith(env["DATABASE_URL"], "file:")
  }

  /** One of the two checking loops of `validateEnv`: every variable of
      `names` that is not set is pushed, in order. */
  method UnsetVars(env: Env, names: seq<string>) returns (unset: seq<string>)
    ensures unset == Unset(env, names)
  {
    unset := [];
    for i := 0 to |names|
      invariant unset == Unset(env, names[..i])
    {
      assert names[..i + 1][..i] == names[..i];
      if !IsSet(env, names[i]) {
        unset := unset + [names[i]];
      }
    }
    assert names[..|names|] == names;
  }

  datatype ValidationResult = ValidationResult(valid: bool, missing: seq<string>, warnings: seq<string>)

  /** `validateEnv`: collects the unset required variables, then the unset
      optional ones and the two format warnings, in that order. */
  method ValidateEnv(env: Env) returns (result: ValidationResult)
    ensures result.missing == Unset(env, RequiredVars)
    ensures result.valid <==> forall v :: v in RequiredVars ==> IsSet(env, v)
    ensures result.warnings == Unset(env, OptionalVars)
      + (if ShortSecret(env) then [ShortSecretWarning] else [])
      + (if UnexpectedDatabaseUrl(env) then [DatabaseUrlWarning] else [])
  {
    var missing := UnsetVars(env, RequiredVars);
    var warnings := UnsetVars(env, OptionalVars);
    ghost var optional := warnings;
    if IsSet(env, "NEXTAUTH_SECRET") && |env["NEXTAUTH_SECRET"]| < MinSecretLength {
      warnings := warnings + [ShortSecretWarning];
    }
    assert warnings == optional + (if ShortSecret(env) then [ShortSecretWarning] else []);
    ghost var checked := warnings;
    if IsSet(env, "DATABASE_URL") {
      var dbUrl := env["DATABASE_URL"];
      if !StartsWith(dbUrl, "postgresql://") && !StartsWith(dbUrl, "file:") {
        warnings := warnings + [DatabaseUrlWarning];
      }
    }
    assert warnings == checked + (if UnexpectedDatabaseUrl(env) then [DatabaseUrlWarning] else []);
    result := ValidationResult(|missing| == 0, missing, warnings);
  }

  /** The result lists exactly the unset required variables; the
      configuration is valid exactly when none is listed; the warnings name
      exactly the unset optional variables plus the two format warnings when
      they apply. */
  lemma ValidationMeaning(env: Env)
    ensures forall v :: v in Unset(env, RequiredVars) <==> v in RequiredVars && !IsSet(env, v)
    ensures Unset(env, RequiredVars) == [] <==> forall v :: v in RequiredVars ==> IsSet(env, v)
    ensures |Unset(env, RequiredVars)| <= 3 && |Unset(env, OptionalVars)| <= 6
    ensures ShortSecret(env) ==> !("NEXTAUTH_SECRET" in Unset(env, RequiredVars))
    ensures UnexpectedDatabaseUrl(env) ==> !("DATABASE_URL" in Unset(env, RequiredVars))
  {
  }

  /** A complete configuration: every variable set, a long secret and a
      PostgreSQL URL, is valid with no warnings; an empty environment misses
      all three required variables, in order. */
  lemma ValidateEnvExtremes(env: Env)
    requires forall v :: v in RequiredVars || v in OptionalVars ==> IsSet(env, v)
    requires "NEXTAUTH_SECRET" in env && |env["NEXTAUTH_SECRET"]| >= MinSecretLength
    requires "DATABASE_URL" in env && StartsWith(env["DATABASE_URL"], "postgresql://")
    ensures Unset(env, RequiredVars) == [] && Unset(env, OptionalVars) == []
    ensures !ShortSecret(env) && !UnexpectedDatabaseUrl(env)
    ensures Unset(map[], RequiredVars) == RequiredVars
  {
    AllUnset(RequiredVars);
  }

  /** In the empty environment every variable is unset. */
  lemma {:induction false} AllUnset(names: seq<string>)
    ensures Unset(map[], names) == names
  {
    if names != [] {
      AllUnset(names[..|names| - 1]);
      assert names == names[..|names| - 1] + [names[|names| - 1]];
    }
  }
}
