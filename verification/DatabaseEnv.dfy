/** Resolving the connection details from the environment: a URL variable, or a URL built from single variables. */
module DatabaseEnv {
  import opened Options
  import opened UriComponent
  import opened DatabaseUrl
  import opened DatabaseHost

  type Env = map<string, string>

  /** The variables of one connection; all connections share the `DB_` aliases. */
  datatype Keys = Keys(url: string, host: string, port: string, database: string, user: string, password: string)

  function CleanVar(env: Env, key: string): Option<string> {
    if key in env then Clean(env[key]) else None
  }

  /** The alias wins over the variable itself. */
  function WithAlias(env: Env, key: string, alias: string): Option<string> {
    CleanVar(env, alias).OrElse(CleanVar(env, key))
  }

  predicate HasLocalOverride(env: Env) {
    exists key <- ["DB_HOST", "DB_PORT", "DB_NAME", "DB_USER", "DB_PASSWORD"] :: CleanVar(env, key).Some?
  }

  function FromUrl(url: string, test: bool, platform: Platform): Result {
    var parsed := ParseDatabaseUrl(url, platform);
    if parsed.Ok? && test && parsed.details.database != Some("crm_test") then Err(TestDatabaseRequired) else parsed
  }

  function FromParts(env: Env, keys: Keys, requireDatabase: bool, test: bool, platform: Platform): Result {
    var host := WithAlias(env, keys.host, "DB_HOST").GetOr("127.0.0.1");
    var portText := WithAlias(env, keys.port, "DB_PORT");
    var port := ParsePort(if portText.Some? then platform.toInteger(portText.value) else None, 3306);
    var database := WithAlias(env, keys.database, "DB_NAME");
    var user, password := WithAlias(env, keys.user, "DB_USER"), WithAlias(env, keys.password, "DB_PASSWORD");
    if requireDatabase && database.None? then Err(MissingDatabase)
    else if user.None? then Err(MissingUser)
    else if password.None? then Err(MissingPassword)
    else if test && database != Some("crm_test") then Err(TestDatabaseRequired)
    else
      var url := if database.None? then None
                 else Some(Build(Parts(host, port, database.value, user.value, password.value)));
      Ok(Details(host, port, database, user, password, url))
  }

  function ResolveFromEnv(env: Env, keys: Keys, requireDatabase: bool, test: bool, platform: Platform): Result {
    var aliasUrl, ownUrl := CleanVar(env, "DB_URL"), CleanVar(env, keys.url);
    if aliasUrl.Some? then FromUrl(aliasUrl.value, test, platform)
    else if !HasLocalOverride(env) && ownUrl.Some? then FromUrl(ownUrl.value, test, platform)
    else FromParts(env, keys, requireDatabase, test, platform)
  }

  const ALIASES: set<string> := {"DB_HOST", "DB_PORT", "DB_NAME", "DB_USER", "DB_PASSWORD"}

  /** The parts branch reads five aliases and five variables, and nothing else. */
  lemma PartsReadTenVariables(env: Env, env': Env, keys: Keys, requireDatabase: bool, test: bool, platform: Platform)
    requires forall key <- ALIASES + {keys.host, keys.port, keys.database, keys.user, keys.password} ::
      CleanVar(env, key) == CleanVar(env', key)
    ensures FromParts(env, keys, requireDatabase, test, platform)
      == FromParts(env', keys, requireDatabase, test, platform)
  {
  }

  lemma OverrideByAlias(env: Env)
    ensures HasLocalOverride(env) <==> exists key <- ALIASES :: CleanVar(env, key).Some?
  {
  }

  /** A local override switches the connection's own URL off: its variable has no influence at all. */
  lemma OverrideIgnoresUrl(env: Env, env': Env, keys: Keys, requireDatabase: bool, test: bool, platform: Platform)
    requires forall key :: key != keys.url ==> CleanVar(env, key) == CleanVar(env', key)
    requires CleanVar(env, "DB_URL").None? && HasLocalOverride(env)
    requires keys.url !in ALIASES + {"DB_URL", keys.host, keys.port, keys.database, keys.user, keys.password}
    ensures ResolveFromEnv(env', keys, requireDatabase, test, platform)
      == ResolveFromEnv(env, keys, requireDatabase, test, platform)
  {
    OverrideByAlias(env);
    OverrideByAlias(env');
    PartsReadTenVariables(env, env', keys, requireDatabase, test, platform);
  }

  lemma CleanVarsAreClean(env: Env, key: string)
    ensures CleanVar(env, key).Some? ==> Clean(CleanVar(env, key).value) == CleanVar(env, key)
  {
    if key in env {
      CleanIsIdempotent(env[key]);
    }
  }

  /** The integer that the port variable stands for, the alias first. */
  function PortNumber(env: Env, keys: Keys, platform: Platform): Option<int> {
    var text := WithAlias(env, keys.port, "DB_PORT");
    if text.Some? then platform.toInteger(text.value) else None
  }

  function HostName(env: Env, keys: Keys): string {
    WithAlias(env, keys.host, "DB_HOST").GetOr("127.0.0.1")
  }

  /** Database, user and password are set, and the database is the test database where it has to be. */
  predicate PartsComplete(env: Env, keys: Keys, test: bool) {
    && WithAlias(env, keys.database, "DB_NAME").Some?
    && WithAlias(env, keys.user, "DB_USER").Some? && WithAlias(env, keys.password, "DB_PASSWORD").Some?
    && (test ==> WithAlias(env, keys.database, "DB_NAME") == Some("crm_test"))
  }

  predicate PortTooLarge(env: Env, keys: Keys, platform: Platform) {
    PortNumber(env, keys, platform).Some? && PortNumber(env, keys, platform).value > 65535
  }

  // ----- the variables themselves

  /** The variable is not set, or holds white space at most. */
  ghost predicate Blank(env: Env, key: string) {
    key !in env || forall c <- env[key] :: IsSpace(c)
  }

  /** From `i` to `j` stands what is left of `s` without the white space around it. */
  ghost predicate Core(s: string, i: int, j: int) {
    && 0 <= i < j <= |s| && !IsSpace(s[i]) && !IsSpace(s[j - 1])
    && (forall c <- s[..i] :: IsSpace(c)) && (forall c <- s[j..] :: IsSpace(c))
  }

  /** `v` is the variable without the white space around it. */
  ghost predicate Trimmed(env: Env, key: string, v: string) {
    key in env && exists i, j :: Core(env[key], i, j) && v == env[key][i..j]
  }

  /** `v` is the trimmed alias, or else the trimmed variable, and absent if both are blank. */
  ghost predicate Holds(env: Env, alias: string, key: string, v: Option<string>) {
    if !Blank(env, alias) then v.Some? && Trimmed(env, alias, v.value)
    else if !Blank(env, key) then v.Some? && Trimmed(env, key, v.value)
    else v.None?
  }

  lemma {:induction false} TrimStartCut(s: string) returns (i: nat)
    ensures i <= |s| && TrimStart(s) == s[i..] && forall c <- s[..i] :: IsSpace(c)
  {
    i := 0;
    if s != "" && IsSpace(s[0]) {
      i := TrimStartCut(s[1..]);
      assert s[..i + 1] == [s[0]] + s[1..][..i] && s[1..][i..] == s[i + 1..];
      i := i + 1;
    }
  }

  lemma {:induction false} TrimEndCut(s: string) returns (j: nat)
    ensures j <= |s| && TrimEnd(s) == s[..j] && forall c <- s[j..] :: IsSpace(c)
  {
    j := |s|;
    if s != "" && IsSpace(s[|s| - 1]) {
      var front := s[..|s| - 1];
      j := TrimEndCut(front);
      assert s[j..] == front[j..] + [s[|s| - 1]] && front[..j] == s[..j];
    }
  }

  lemma CutIsCore(s: string, i: nat, j: nat)
    requires i < j <= |s| && !IsSpace(s[i]) && !IsSpace(s[j - 1])
    requires (forall c <- s[..i] :: IsSpace(c)) && forall c <- s[j..] :: IsSpace(c)
    ensures Core(s, i, j)
  {
  }

  lemma TrimCuts(s: string) returns (i: nat, j: nat)
    ensures i <= j <= |s| && Trim(s) == s[i..j]
    ensures (forall c <- s[..i] :: IsSpace(c)) && forall c <- s[j..] :: IsSpace(c)
    ensures i < j ==> !IsSpace(s[i]) && !IsSpace(s[j - 1])
  {
    i := TrimStartCut(s);
    var n := TrimEndCut(s[i..]);
    j := i + n;
    assert s[i..][..n] == s[i..j] && s[i..][n..] == s[j..];
    TrimEnds(s);
    TrimEnds(s[i..]);
  }

  lemma AllSpace(s: string, i: nat)
    requires i <= |s| && (forall c <- s[..i] :: IsSpace(c)) && forall c <- s[i..] :: IsSpace(c)
    ensures forall c <- s :: IsSpace(c)
  {
    assert s == s[..i] + s[i..];
  }

  lemma CleanIff(env: Env, key: string)
    ensures CleanVar(env, key).None? <==> Blank(env, key)
    ensures CleanVar(env, key).Some? ==> Trimmed(env, key, CleanVar(env, key).value)
  {
    if key in env {
      var i, j := TrimCuts(env[key]);
      if i < j {
        CutIsCore(env[key], i, j);
        assert env[key][i] in env[key];
      } else {
        AllSpace(env[key], i);
      }
    }
  }

  lemma WithAliasHolds(env: Env, key: string, alias: string)
    ensures Holds(env, alias, key, WithAlias(env, key, alias))
    ensures WithAlias(env, key, alias).None? <==> Blank(env, alias) && Blank(env, key)
  {
    CleanIff(env, alias);
    CleanIff(env, key);
  }

  lemma SpacesAt(s: string, i: int, j: int)
    requires Core(s, i, j)
    ensures forall m :: 0 <= m < i || j <= m < |s| ==> IsSpace(s[m])
  {
    forall m | 0 <= m < i || j <= m < |s|
      ensures IsSpace(s[m])
    {
      if m < i {
        assert s[..i][m] == s[m];
      } else {
        assert s[j..][m - j] == s[m];
      }
    }
  }

  lemma TrimmedOnce(env: Env, key: string, v: string, w: string)
    requires Trimmed(env, key, v) && Trimmed(env, key, w)
    ensures v == w
  {
    var s := env[key];
    var i, j :| Core(s, i, j) && v == s[i..j];
    var k, l :| Core(s, k, l) && w == s[k..l];
    SpacesAt(s, i, j);
    SpacesAt(s, k, l);
  }

  /** At most one value is what a variable and its alias hold. */
  lemma HeldOnce(env: Env, alias: string, key: string, v: Option<string>, w: Option<string>)
    requires Holds(env, alias, key, v) && Holds(env, alias, key, w)
    ensures v == w
  {
    if !Blank(env, alias) {
      TrimmedOnce(env, alias, v.value, w.value);
    } else if !Blank(env, key) {
      TrimmedOnce(env, key, v.value, w.value);
    }
  }

  /** Neither URL variable counts: `DB_URL` is blank, and the connection's own is blank or switched off by an alias. */
  ghost predicate PartsAnswer(env: Env, keys: Keys) {
    Blank(env, "DB_URL") && (Blank(env, keys.url) || exists alias <- ALIASES :: !Blank(env, alias))
  }

  lemma PartsAnswerIff(env: Env, keys: Keys)
    ensures FromVariables(env, keys) <==> PartsAnswer(env, keys)
  {
    CleanIff(env, "DB_URL");
    CleanIff(env, keys.url);
    OverrideByAlias(env);
    forall alias <- ALIASES
      ensures CleanVar(env, alias).None? <==> Blank(env, alias)
    {
      CleanIff(env, alias);
    }
  }

  /** The details hold the five variables they are made of, each its own, with a default for host and port. */
  ghost predicate DetailsHold(env: Env, keys: Keys, platform: Platform, d: Details) {
    && Holds(env, "DB_USER", keys.user, d.user)
    && Holds(env, "DB_PASSWORD", keys.password, d.password)
    && Holds(env, "DB_NAME", keys.database, d.database)
    && (if Blank(env, "DB_HOST") && Blank(env, keys.host) then d.host == "127.0.0.1"
        else Holds(env, "DB_HOST", keys.host, Some(d.host)))
    && exists text :: Holds(env, "DB_PORT", keys.port, text)
         && d.port == (if text.Some? && platform.toInteger(text.value).Some? && platform.toInteger(text.value).value > 0
                       then platform.toInteger(text.value).value else 3306)
  }

  /** The answer, from the values of the variables; nothing is said here about where they come from. */
  ghost predicate PartsForm(r: Result, database: Option<string>, user: Option<string>, password: Option<string>,
                            requireDatabase: bool, test: bool)
  {
    && (r == Err(MissingDatabase) <==> requireDatabase && database.None?)
    && (r == Err(MissingUser) <==> !(requireDatabase && database.None?) && user.None?)
    && (r == Err(MissingPassword) <==> !(requireDatabase && database.None?) && user.Some? && password.None?)
    && (r == Err(TestDatabaseRequired) ==> test && database != Some("crm_test"))
    && (r.Err? ==> r.failure in {MissingDatabase, MissingUser, MissingPassword, TestDatabaseRequired})
    && (r.Ok? ==>
          && r.details.database == database && r.details.user == user && r.details.password == password
          && (r.details.url.None? <==> database.None?) && (test ==> database == Some("crm_test")))
  }

  lemma FromPartsForm(env: Env, keys: Keys, requireDatabase: bool, test: bool, platform: Platform)
    ensures var r := FromParts(env, keys, requireDatabase, test, platform);
      && PartsForm(r, WithAlias(env, keys.database, "DB_NAME"), WithAlias(env, keys.user, "DB_USER"),
                   WithAlias(env, keys.password, "DB_PASSWORD"), requireDatabase, test)
      && (r.Ok? ==> r.details.host == HostName(env, keys)
                    && r.details.port == ParsePort(PortNumber(env, keys, platform), 3306))
  {
  }

  lemma PlaceHolds(env: Env, keys: Keys, platform: Platform, d: Details)
    requires d.host == HostName(env, keys) && d.port == ParsePort(PortNumber(env, keys, platform), 3306)
    requires d.database == WithAlias(env, keys.database, "DB_NAME")
    requires d.user == WithAlias(env, keys.user, "DB_USER")
    requires d.password == WithAlias(env, keys.password, "DB_PASSWORD")
    ensures DetailsHold(env, keys, platform, d)
  {
    WithAliasHolds(env, keys.host, "DB_HOST");
    WithAliasHolds(env, keys.port, "DB_PORT");
    WithAliasHolds(env, keys.database, "DB_NAME");
    WithAliasHolds(env, keys.user, "DB_USER");
    WithAliasHolds(env, keys.password, "DB_PASSWORD");
  }

  /**
   Where no URL variable counts, the answer is made of the single variables: each detail is its own
   variable, the alias first, and the first of database, user and password that is blank is missed.
   */
  lemma DetailsAreTheVariables(env: Env, keys: Keys, requireDatabase: bool, test: bool, platform: Platform)
    requires PartsAnswer(env, keys)
    ensures var r := ResolveFromEnv(env, keys, requireDatabase, test, platform);
      var noDatabase, noUser := Blank(env, "DB_NAME") && Blank(env, keys.database),
                                Blank(env, "DB_USER") && Blank(env, keys.user);
      var noPassword := Blank(env, "DB_PASSWORD") && Blank(env, keys.password);
      && (r == Err(MissingDatabase) <==> requireDatabase && noDatabase)
      && (r == Err(MissingUser) <==> !(requireDatabase && noDatabase) && noUser)
      && (r == Err(MissingPassword) <==> !(requireDatabase && noDatabase) && !noUser && noPassword)
      && (r == Err(TestDatabaseRequired) ==> test && !Holds(env, "DB_NAME", keys.database, Some("crm_test")))
      && (r.Err? ==> r.failure in {MissingDatabase, MissingUser, MissingPassword, TestDatabaseRequired})
      && (r.Ok? ==> DetailsHold(env, keys, platform, r.details) && (r.details.url.None? <==> noDatabase)
                    && (test ==> r.details.database == Some("crm_test")))
  {
    PartsAnswerIff(env, keys);
    FromPartsForm(env, keys, requireDatabase, test, platform);
    var r := FromParts(env, keys, requireDatabase, test, platform);
    if r.Ok? {
      PlaceHolds(env, keys, platform, r.details);
    }
    WithAliasHolds(env, keys.database, "DB_NAME");
    WithAliasHolds(env, keys.user, "DB_USER");
    WithAliasHolds(env, keys.password, "DB_PASSWORD");
    assert ResolveFromEnv(env, keys, requireDatabase, test, platform) == r;
    if Holds(env, "DB_NAME", keys.database, Some("crm_test")) {
      HeldOnce(env, "DB_NAME", keys.database, WithAlias(env, keys.database, "DB_NAME"), Some("crm_test"));
    }
  }

  /** A URL that tests may use, or any URL outside of tests. */
  ghost predicate AnsweredBy(env: Env, key: string, test: bool, platform: Platform, r: Result) {
    exists url :: Trimmed(env, key, url)
      && var parsed := ParseDatabaseUrl(url, platform);
         if parsed.Err? || !test || parsed.details.database == Some("crm_test") then r == parsed
         else r == Err(TestDatabaseRequired)
  }

  /** `DB_URL` comes before everything; then the connection's own URL, unless one of the single aliases is set. */
  lemma UrlVariablesComeFirst(env: Env, keys: Keys, requireDatabase: bool, test: bool, platform: Platform)
    ensures var r := ResolveFromEnv(env, keys, requireDatabase, test, platform);
      && (!Blank(env, "DB_URL") ==> AnsweredBy(env, "DB_URL", test, platform, r))
      && (Blank(env, "DB_URL") && !PartsAnswer(env, keys) ==> AnsweredBy(env, keys.url, test, platform, r))
  {
    CleanIff(env, "DB_URL");
    CleanIff(env, keys.url);
    PartsAnswerIff(env, keys);
  }

  lemma SameVariable(env: Env, env': Env, key: string, alias: string)
    requires forall k <- {key, alias} :: (k in env <==> k in env') && (k in env ==> env[k] == env'[k])
    ensures WithAlias(env, key, alias) == WithAlias(env', key, alias)
  {
    assert key in {key, alias} && alias in {key, alias};
  }

  /** The variables agree on everything but one of them and its alias. */
  ghost predicate AgreeBut(env: Env, env': Env, variable: string, alias: string) {
    forall key :: key !in {variable, alias} ==> (key in env <==> key in env') && (key in env ==> env[key] == env'[key])
  }

  lemma PlaceAgrees(env: Env, env': Env, keys: Keys, platform: Platform, variable: string, other: string)
    requires AgreeBut(env, env', variable, other)
    requires variable !in {"DB_HOST", "DB_PORT", "DB_NAME", keys.host, keys.port, keys.database}
    requires other !in {"DB_HOST", "DB_PORT", "DB_NAME", keys.host, keys.port, keys.database}
    ensures HostName(env, keys) == HostName(env', keys)
    ensures PortNumber(env, keys, platform) == PortNumber(env', keys, platform)
    ensures WithAlias(env, keys.database, "DB_NAME") == WithAlias(env', keys.database, "DB_NAME")
  {
    SameVariable(env, env', keys.host, "DB_HOST");
    SameVariable(env, env', keys.port, "DB_PORT");
    SameVariable(env, env', keys.database, "DB_NAME");
  }

  /** Changing the variables of the password, and no others, changes nothing but the password and the URL. */
  lemma PasswordVariablesAlone(env: Env, env': Env, keys: Keys, requireDatabase: bool, test: bool, platform: Platform)
    requires PartsAnswer(env, keys) && PartsAnswer(env', keys) && AgreeBut(env, env', keys.password, "DB_PASSWORD")
    requires keys.password !in {"DB_USER", "DB_HOST", "DB_PORT", "DB_NAME",
                                keys.user, keys.host, keys.port, keys.database}
    requires "DB_PASSWORD" !in {keys.user, keys.host, keys.port, keys.database}
    ensures var r, r' := ResolveFromEnv(env, keys, requireDatabase, test, platform),
                         ResolveFromEnv(env', keys, requireDatabase, test, platform);
      r.Ok? && r'.Ok? ==> r'.details == r.details.(password := r'.details.password, url := r'.details.url)
  {
    PlaceAgrees(env, env', keys, platform, keys.password, "DB_PASSWORD");
    SameVariable(env, env', keys.user, "DB_USER");
    PartsAnswerIff(env, keys);
    PartsAnswerIff(env', keys);
    FromPartsForm(env, keys, requireDatabase, test, platform);
    FromPartsForm(env', keys, requireDatabase, test, platform);
    AnsweredByParts(env, keys, requireDatabase, test, platform);
    AnsweredByParts(env', keys, requireDatabase, test, platform);
  }

  lemma AnsweredByParts(env: Env, keys: Keys, requireDatabase: bool, test: bool, platform: Platform)
    requires FromVariables(env, keys)
    ensures ResolveFromEnv(env, keys, requireDatabase, test, platform)
      == FromParts(env, keys, requireDatabase, test, platform)
  {
  }

  /** Changing the variables of the user, and no others, changes nothing but the user and the URL. */
  lemma UserVariablesAlone(env: Env, env': Env, keys: Keys, requireDatabase: bool, test: bool, platform: Platform)
    requires PartsAnswer(env, keys) && PartsAnswer(env', keys) && AgreeBut(env, env', keys.user, "DB_USER")
    requires keys.user !in {"DB_PASSWORD", "DB_HOST", "DB_PORT", "DB_NAME",
                            keys.password, keys.host, keys.port, keys.database}
    requires "DB_USER" !in {keys.password, keys.host, keys.port, keys.database}
    ensures var r, r' := ResolveFromEnv(env, keys, requireDatabase, test, platform),
                         ResolveFromEnv(env', keys, requireDatabase, test, platform);
      r.Ok? && r'.Ok? ==> r'.details == r.details.(user := r'.details.user, url := r'.details.url)
  {
    PlaceAgrees(env, env', keys, platform, keys.user, "DB_USER");
    SameVariable(env, env', keys.password, "DB_PASSWORD");
    PartsAnswerIff(env, keys);
    PartsAnswerIff(env', keys);
    FromPartsForm(env, keys, requireDatabase, test, platform);
    FromPartsForm(env', keys, requireDatabase, test, platform);
    AnsweredByParts(env, keys, requireDatabase, test, platform);
    AnsweredByParts(env', keys, requireDatabase, test, platform);
  }

  /** The URL of the parts branch is built from the details beside it, and user and password are clean. */
  lemma PartsUrl(env: Env, keys: Keys, requireDatabase: bool, test: bool, platform: Platform)
    requires PartsComplete(env, keys, test)
    ensures var r := FromParts(env, keys, requireDatabase, test, platform);
      && r.Ok? && r.details.host == HostName(env, keys)
      && r.details.database == WithAlias(env, keys.database, "DB_NAME")
      && r.details.port == ParsePort(PortNumber(env, keys, platform), 3306)
      && r.details.database.Some? && r.details.user.Some? && r.details.password.Some?
      && Clean(r.details.user.value) == r.details.user && Clean(r.details.password.value) == r.details.password
      && r.details.url == Some(Build(Parts(r.details.host, r.details.port, r.details.database.value,
                                           r.details.user.value, r.details.password.value)))
  {
    CleanVarsAreClean(env, keys.user);
    CleanVarsAreClean(env, "DB_USER");
    CleanVarsAreClean(env, keys.password);
    CleanVarsAreClean(env, "DB_PASSWORD");
  }

  /**
   The URL of the parts branch parses to the very details it stands beside exactly when the port
   variable is no integer above 65535 and the parser keeps host and database. With a larger port
   the details are handed out all the same, with a URL that no parser accepts.
   */
  lemma PartsUrlReparsesIff(env: Env, keys: Keys, requireDatabase: bool, test: bool, platform: Platform)
    requires PartsComplete(env, keys, test)
    ensures var r := FromParts(env, keys, requireDatabase, test, platform);
      var host, database := HostName(env, keys), WithAlias(env, keys.database, "DB_NAME").value;
      && r.Ok? && r.details.url.Some?
      && Holds(env, "DB_USER", keys.user, r.details.user)
      && Holds(env, "DB_PASSWORD", keys.password, r.details.password)
      && (ParseDatabaseUrl(r.details.url.value, platform) == r <==>
            !PortTooLarge(env, keys, platform) && KeptHost(host, platform) && KeptDatabase(database))
      && (PortTooLarge(env, keys, platform) && KeptHost(host, platform) && KeptDatabase(database) ==>
            ParseDatabaseUrl(r.details.url.value, platform) == Err(InvalidUrl))
  {
    PartsUrl(env, keys, requireDatabase, test, platform);
    WithAliasHolds(env, keys.user, "DB_USER");
    WithAliasHolds(env, keys.password, "DB_PASSWORD");
    var d := FromParts(env, keys, requireDatabase, test, platform).details;
    var p := Parts(d.host, d.port, d.database.value, d.user.value, d.password.value);
    RoundTripIff(p, platform);
    if KeptHost(p.host, platform) && KeptDatabase(p.database) {
      ParseBuilt(p, platform);
    }
  }

  lemma OneSegment(s: string)
    requires forall c <- s :: c != '/'
    ensures Segments(s) == [s]
  {
    SplitBefore(s, "", IsSlash);
    assert s + "" == s;
  }

  predicate IsWord(s: string) {
    s != "" && forall c <- s :: IsAlphanumeric(c) || c == '_'
  }

  /** Letters, digits and underscores are kept everywhere. */
  lemma WordIsKept(s: string, platform: Platform)
    requires IsWord(s)
    ensures KeptDatabase(s) && KeptHost(s, platform)
  {
    assert s[0] in s;
    assert s[0] !in {'.', '%', '['};
    OneSegment(s);
  }

  lemma TestDatabaseIsKept(platform: Platform)
    ensures KeptDatabase("crm_test")
  {
    WordIsKept("crm_test", platform);
  }

  /** The answer is put together from the single variables: no URL variable is set, or it is switched off. */
  predicate FromVariables(env: Env, keys: Keys) {
    CleanVar(env, "DB_URL").None? && (HasLocalOverride(env) || CleanVar(env, keys.url).None?)
  }

  /** The URL of the parts branch: whether it parses, and when it names the database beside it. */
  lemma PartsUrlStays(env: Env, keys: Keys, requireDatabase: bool, test: bool, platform: Platform)
    requires PartsComplete(env, keys, test) && KeptDatabase(WithAlias(env, keys.database, "DB_NAME").value)
    ensures var r := FromParts(env, keys, requireDatabase, test, platform);
      var database := WithAlias(env, keys.database, "DB_NAME").value;
      && r.Ok? && r.details.url.Some?
      && var again := ParseDatabaseUrl(r.details.url.value, platform);
      && (KeptHost(r.details.host, platform) ==> again == if r.details.port <= 65535 then r else Err(InvalidUrl))
      && (again.Ok? <==> Accepted(HostName(env, keys), r.details.port, database, platform))
      && (again.Ok? ==> (again.details.database == Some(database) <==> StaysOn(HostName(env, keys), database)))
  {
    PartsUrl(env, keys, requireDatabase, test, platform);
    var d := FromParts(env, keys, requireDatabase, test, platform).details;
    var p := Parts(d.host, d.port, d.database.value, d.user.value, d.password.value);
    if KeptHost(d.host, platform) {
      ParseBuilt(p, platform);
    }
    BuiltUrlLeadsTo(p, platform);
    StaysOnIff(d.host, d.port, d.database.value);
  }

  lemma FromUrlReparses(url: string, test: bool, platform: Platform)
    ensures var r := FromUrl(url, test, platform);
      r.Ok? ==>
        && r.details.url == Some(url) && ParseDatabaseUrl(url, platform) == r && r.details.port <= 65535
        && (test ==> r.details.database == Some("crm_test"))
  {
    if ParseDatabaseUrl(url, platform).Ok? {
      DetailsAreKept(url, platform);
    }
  }

  /**
   Whichever branch answers, tests are handed the test database. The URL beside it, if it parses,
   names the test database exactly when it was given as a URL, or the host variable stays on it;
   if the parser keeps the host, it parses to the same details, or not at all for a larger port.
   */
  lemma TestsStayInTheirDatabase(env: Env, keys: Keys, requireDatabase: bool, platform: Platform)
    ensures var r := ResolveFromEnv(env, keys, requireDatabase, true, platform);
      r.Ok? ==>
        && r.details.database == Some("crm_test") && r.details.url.Some?
        && var again := ParseDatabaseUrl(r.details.url.value, platform);
        && (KeptHost(r.details.host, platform) ==> again == if r.details.port <= 65535 then r else Err(InvalidUrl))
        && (again.Ok? ==> (again.details.database == Some("crm_test") <==>
              FromVariables(env, keys) ==> StaysOn(HostName(env, keys), "crm_test")))
        && (again.Ok? <==>
              FromVariables(env, keys) ==> Accepted(HostName(env, keys), r.details.port, "crm_test", platform))
  {
    var aliasUrl, ownUrl := CleanVar(env, "DB_URL"), CleanVar(env, keys.url);
    if aliasUrl.Some? {
      FromUrlReparses(aliasUrl.value, true, platform);
    } else if !HasLocalOverride(env) && ownUrl.Some? {
      FromUrlReparses(ownUrl.value, true, platform);
    } else if FromParts(env, keys, requireDatabase, true, platform).Ok? {
      TestDatabaseIsKept(platform);
      PartsUrlStays(env, keys, requireDatabase, true, platform);
    }
  }

  /** A host variable with a path of its own: the guard looks at the database variable, the URL leads elsewhere. */
  lemma HostVariableCanLeaveTests(env: Env, keys: Keys, requireDatabase: bool, platform: Platform, h: string, d: string)
    requires FromVariables(env, keys) && PartsComplete(env, keys, true)
    requires HostName(env, keys) == h + "/" + d + "?" && KeptHost(h, platform) && KeptDatabase(d) && d != "crm_test"
    ensures var r := ResolveFromEnv(env, keys, requireDatabase, true, platform);
      && r.Ok? && r.details.database == Some("crm_test") && r.details.url.Some?
      && ParseDatabaseUrl(r.details.url.value, platform).Ok?
      && ParseDatabaseUrl(r.details.url.value, platform).details.database == Some(d) != r.details.database
  {
    TestDatabaseIsKept(platform);
    PartsUrl(env, keys, requireDatabase, true, platform);
    var r := FromParts(env, keys, requireDatabase, true, platform).details;
    BuiltUrlLeadsTo(Parts(r.host, r.port, r.database.value, r.user.value, r.password.value), platform);
    HostWithPath(r.host, h, d, r.port, "crm_test", platform);
  }

  const LARGE_PORT_ENV: Env :=
    map["DB_HOST" := "localhost", "DB_PORT" := "70000", "DB_NAME" := "crm", "DB_USER" := "u", "DB_PASSWORD" := "p"]

  lemma CleanWord(env: Env, key: string, word: string)
    requires key in env && env[key] == word && IsWord(word)
    ensures CleanVar(env, key) == Some(word)
  {
    assert word[0] in word && word[|word| - 1] in word;
    TrimNothing(word);
  }

  lemma LargePortValues()
    ensures IsWord("localhost") && IsWord("70000") && IsWord("crm") && IsWord("u") && IsWord("p")
  {
  }

  lemma CleanLargePortEnv()
    ensures CleanVar(LARGE_PORT_ENV, "DB_HOST") == Some("localhost")
    ensures CleanVar(LARGE_PORT_ENV, "DB_PORT") == Some("70000")
    ensures CleanVar(LARGE_PORT_ENV, "DB_NAME") == Some("crm")
    ensures CleanVar(LARGE_PORT_ENV, "DB_USER") == Some("u") && CleanVar(LARGE_PORT_ENV, "DB_PASSWORD") == Some("p")
  {
    LargePortValues();
    CleanWord(LARGE_PORT_ENV, "DB_HOST", "localhost");
    CleanWord(LARGE_PORT_ENV, "DB_PORT", "70000");
    CleanWord(LARGE_PORT_ENV, "DB_NAME", "crm");
    CleanWord(LARGE_PORT_ENV, "DB_USER", "u");
    CleanWord(LARGE_PORT_ENV, "DB_PASSWORD", "p");
  }

  lemma LargePortWords(platform: Platform)
    ensures KeptHost("localhost", platform) && KeptDatabase("crm")
  {
    LargePortValues();
    WordIsKept("localhost", platform);
    WordIsKept("crm", platform);
  }

  lemma LargePort(env: Env, keys: Keys, platform: Platform)
    requires PartsComplete(env, keys, false) && PortTooLarge(env, keys, platform)
    requires KeptHost(HostName(env, keys), platform) && KeptDatabase(WithAlias(env, keys.database, "DB_NAME").value)
    ensures var r := FromParts(env, keys, true, false, platform);
      r.Ok? && r.details.url.Some? && ParseDatabaseUrl(r.details.url.value, platform) == Err(InvalidUrl)
  {
    PartsUrlReparsesIff(env, keys, true, false, platform);
  }

  /** A port beyond 16 bits does pass `parsePort`: an environment for which the details hold an unusable URL. */
  lemma LargePortBreaksUrl(keys: Keys, platform: Platform)
    requires platform.toInteger("70000") == Some(70000)
    ensures var r := FromParts(LARGE_PORT_ENV, keys, true, false, platform);
      r.Ok? && r.details.url.Some? && ParseDatabaseUrl(r.details.url.value, platform) == Err(InvalidUrl)
  {
    CleanLargePortEnv();
    LargePortWords(platform);
    LargePort(LARGE_PORT_ENV, keys, platform);
  }
}
