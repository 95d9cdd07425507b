/**
 The host is put into a database URL as it is. This module says what the parser makes of a URL
 whatever text stands in the place of the host, and which hosts leave the database alone.
 */
module DatabaseHost {
  import opened Options
  import opened UriComponent
  import opened DatabaseUrl

  /** What follows the `@` of a built URL, as the parser sees it. */
  function AfterCredentials(host: string, port: nat, database: string): string {
    WithoutBreaks(host) + ":" + Decimal(port) + "/" + database
  }

  function Authority(host: string, port: nat, database: string): string {
    Before(AfterCredentials(host, port, database), EndsAuthority)
  }

  function RawPath(host: string, port: nat, database: string): string {
    Before(From(AfterCredentials(host, port, database), EndsAuthority), EndsPath)
  }

  /** The database that the URL leads to. */
  function LeadsTo(host: string, port: nat, database: string): Option<string> {
    Clean(StripSlashes(KeepPath(RawPath(host, port, database))))
  }

  /** What stands in the authority before its last `@`: more of the password. */
  function MorePassword(authority: string): Option<string> {
    if '@' in authority then Some(authority[..|authority| - |AfterLast(authority, '@')| - 1]) else None
  }

  function Userinfo(credentials: string, authority: string): string {
    credentials + if MorePassword(authority).Some? then "@" + MorePassword(authority).value else ""
  }

  /** The URL parses: host and port do, and what spills into the password can be decoded. */
  predicate Accepted(host: string, port: nat, database: string, platform: Platform) {
    var authority := Authority(host, port, database);
    && ParseHostPort(AfterLast(authority, '@'), true, platform).Some?
    && (MorePassword(authority).Some? ==> Decode(EscapeIf(InUserinfoSet, MorePassword(authority).value)).Some?)
  }

  // ----- the parser on a built URL

  lemma {:induction false} WithoutBreaksAppend(a: string, b: string)
    ensures WithoutBreaks(a + b) == WithoutBreaks(a) + WithoutBreaks(b)
  {
    if a == "" {
      assert a + b == b;
    } else {
      assert (a + b)[1..] == a[1..] + b;
      WithoutBreaksAppend(a[1..], b);
    }
  }

  lemma {:induction false} EscapeAppend(inSet: char -> bool, a: string, b: string)
    ensures EscapeIf(inSet, a + b) == EscapeIf(inSet, a) + EscapeIf(inSet, b)
  {
    if a == "" {
      assert a + b == b;
    } else {
      assert (a + b)[1..] == a[1..] + b;
      EscapeAppend(inSet, a[1..], b);
    }
  }

  /** Only the text after an encoded one decides whether both can be decoded. */
  lemma {:induction false} DecodeAfterEncode(s: string, more: string)
    ensures Decode(Encode(s) + more).Some? <==> Decode(more).Some?
  {
    if s == "" {
      assert Encode(s) + more == more;
    } else {
      var c, rest := s[0], Encode(s[1..]) + more;
      DecodeAfterEncode(s[1..], more);
      assert Encode(s) + more == EncodeChar(c) + rest;
      if IsUnescaped(c) {
        assert ([c] + rest)[1..] == rest;
      } else {
        DecodeAfterEscape(c, rest);
      }
    }
  }

  lemma DecodeAfterEscape(c: char, rest: string)
    ensures Decode(EscapeAll(Utf8(c)) + rest).Some? <==> Decode(rest).Some?
  {
    var escaped := EscapeAll(Utf8(c));
    ReadCharBack(c, rest);
    EscapeAllLength(Utf8(c));
    assert escaped[0] == '%';
    assert (escaped + rest)[0] == '%';
  }

  lemma LastAt(s: string)
    ensures '@' in s ==> s == MorePassword(s).value + "@" + AfterLast(s, '@')
    ensures '@' !in s ==> AfterLast(s, '@') == s
    ensures '@' !in AfterLast(s, '@')
  {
    AfterLastSplits(s);
  }

  lemma {:induction false} AfterLastSplits(s: string)
    ensures '@' !in AfterLast(s, '@')
    ensures '@' !in s ==> AfterLast(s, '@') == s
    ensures '@' in s ==> s == s[..|s| - |AfterLast(s, '@')| - 1] + "@" + AfterLast(s, '@')
  {
    if s != "" && s[|s| - 1] != '@' {
      var front := s[..|s| - 1];
      AfterLastSplits(front);
      if '@' in s {
        assert '@' in front;
        var k := |front| - |AfterLast(front, '@')| - 1;
        assert front[..k] == s[..k];
      }
    }
  }

  /** A userinfo with an `@` of its own, and the rest of the authority after it. */
  lemma LastAtAfterCredentials(userinfo: string, authority: string)
    ensures var whole := userinfo + "@" + authority;
      && '@' in whole && AfterLast(whole, '@') == AfterLast(authority, '@')
      && whole[..|whole| - |AfterLast(whole, '@')| - 1] == Userinfo(userinfo, authority)
  {
    LastAt(authority);
    if '@' in authority {
      SplitTwice(userinfo, MorePassword(authority).value, AfterLast(authority, '@'), authority);
    } else {
      CredentialsAndHost(userinfo, authority);
    }
  }

  lemma SplitTwice(userinfo: string, more: string, hostPort: string, authority: string)
    requires authority == more + "@" + hostPort && '@' !in hostPort
    ensures var whole := userinfo + "@" + authority;
      && '@' in whole && AfterLast(whole, '@') == hostPort
      && whole[..|whole| - |hostPort| - 1] == userinfo + ("@" + more)
  {
    assert userinfo + "@" + authority == (userinfo + ("@" + more)) + "@" + hostPort;
    CredentialsAndHost(userinfo + ("@" + more), hostPort);
  }

  lemma {:induction false} BeforeAppend(a: string, b: string, stops: char -> bool)
    requires forall c <- a :: !stops(c)
    ensures Before(a + b, stops) == a + Before(b, stops) && From(a + b, stops) == From(b, stops)
  {
    if a == "" {
      assert a + b == b;
    } else {
      assert (a + b)[1..] == a[1..] + b;
      BeforeAppend(a[1..], b, stops);
    }
  }

  function Credentials(p: Parts): string {
    Encode(p.user) + ":" + Encode(p.password)
  }

  lemma CredentialsAreKept(p: Parts)
    ensures forall c <- Credentials(p) + "@" :: !EndsAuthority(c)
  {
    EncodedIsKept(p.user);
    EncodedIsKept(p.password);
  }

  lemma FrontHasNoBreak(p: Parts)
    ensures NoBreak("mysql://" + Credentials(p) + "@")
  {
    EncodedHasNoBreak(p.user);
    EncodedHasNoBreak(p.password);
    assert NoBreak("mysql://") && NoBreak(":") && NoBreak("@");
    NoBreakAppend(Encode(p.user), ":");
    NoBreakAppend(Encode(p.user) + ":", Encode(p.password));
    NoBreakAppend("mysql://", Credentials(p));
    NoBreakAppend("mysql://" + Credentials(p), "@");
  }

  lemma NothingAtTheEnds(url: string)
    requires url != "" && url[0] > ' ' && url[|url| - 1] > ' '
    ensures Prepared(url) == WithoutBreaks(url)
  {
    assert From(url, IsAboveSpace) == url;
    assert StripEnd(url) == url;
  }

  lemma BreaksInTheMiddle(front: string, middle: string, back: string)
    requires NoBreak(front) && NoBreak(back)
    ensures WithoutBreaks(front + middle + back) == front + WithoutBreaks(middle) + back
  {
    WithoutBreaksAppend(front + middle, back);
    WithoutBreaksAppend(front, middle);
    NoBreaks(front);
    NoBreaks(back);
  }

  lemma BuildHasThreeParts(p: Parts)
    ensures Build(p) == ("mysql://" + Credentials(p) + "@") + p.host + (":" + Decimal(p.port) + "/" + p.database)
  {
    assert "mysql://" + Credentials(p) == "mysql://" + Encode(p.user) + ":" + Encode(p.password);
    ThreeParts("mysql://" + Credentials(p), p.host, Decimal(p.port), p.database);
  }

  lemma ThreeParts(front: string, host: string, port: string, database: string)
    ensures front + "@" + host + ":" + port + "/" + database == (front + "@") + host + (":" + port + "/" + database)
  {
  }

  lemma BuildEnds(p: Parts)
    requires KeptDatabase(p.database)
    ensures var url := Build(p); url != "" && url[0] > ' ' && url[|url| - 1] > ' '
  {
    assert p.database[|p.database| - 1] in p.database;
    assert Build(p)[0] == 'm' && Build(p)[|Build(p)| - 1] == p.database[|p.database| - 1];
  }

  /** Only tabs and newlines in the host are dropped. */
  lemma PreparedBuild(p: Parts)
    requires KeptDatabase(p.database)
    ensures Prepared(Build(p)) == "mysql://" + (Credentials(p) + "@" + AfterCredentials(p.host, p.port, p.database))
  {
    var front, back := "mysql://" + Credentials(p) + "@", ":" + Decimal(p.port) + "/" + p.database;
    BuildHasThreeParts(p);
    BuildEnds(p);
    NothingAtTheEnds(Build(p));
    FrontHasNoBreak(p);
    EndHasNoBreak(p.port, p.database);
    BreaksInTheMiddle(front, p.host, back);
    Regroup(Credentials(p), WithoutBreaks(p.host), Decimal(p.port), p.database);
  }

  lemma Regroup(credentials: string, host: string, port: string, database: string)
    ensures ("mysql://" + credentials + "@") + host + (":" + port + "/" + database)
      == "mysql://" + (credentials + "@" + (host + ":" + port + "/" + database))
  {
  }

  lemma EndHasNoBreak(port: nat, database: string)
    requires KeptDatabase(database)
    ensures NoBreak(":" + Decimal(port) + "/" + database)
  {
    DecimalBack(port);
    assert NoBreak(":") && NoBreak("/") && NoBreak(Decimal(port)) && NoBreak(database);
    NoBreakAppend(":", Decimal(port));
    NoBreakAppend(":" + Decimal(port), "/");
    NoBreakAppend(":" + Decimal(port) + "/", database);
  }

  lemma AuthorityForm(whole: string, authority: string, userinfo: string, hostPort: string, path: string,
                      platform: Platform)
    requires Before(whole, EndsAuthority) == authority && Before(From(whole, EndsAuthority), EndsPath) == path
    requires '@' in authority && AfterLast(authority, '@') == hostPort
    requires authority[..|authority| - |hostPort| - 1] == userinfo
    ensures ParseAuthority(whole, platform)
      == Assemble(userinfo, ParseHostPort(hostPort, true, platform), KeepPath(path))
  {
  }

  /** Whatever follows the credentials: what the parser takes for authority and path. */
  lemma ParseAfterCredentials(credentials: string, rest: string, platform: Platform)
    requires forall c <- credentials + "@" :: !EndsAuthority(c)
    ensures var authority := Before(rest, EndsAuthority);
      ParseAuthority(credentials + "@" + rest, platform)
        == Assemble(Userinfo(credentials, authority), ParseHostPort(AfterLast(authority, '@'), true, platform),
                    KeepPath(Before(From(rest, EndsAuthority), EndsPath)))
  {
    var authority := Before(rest, EndsAuthority);
    BeforeAppend(credentials + "@", rest, EndsAuthority);
    LastAtAfterCredentials(credentials, authority);
    AuthorityForm(credentials + "@" + rest, credentials + "@" + authority, Userinfo(credentials, authority),
                  AfterLast(authority, '@'), Before(From(rest, EndsAuthority), EndsPath), platform);
  }

  /** The user, and the password with whatever spills into it. */
  lemma CredentialsSplit(p: Parts, more: string)
    ensures Before(Credentials(p) + more, IsColon) == Encode(p.user)
    ensures From(Credentials(p) + more, IsColon) == ":" + (Encode(p.password) + more)
  {
    EncodedIsKept(p.user);
    SplitAtColon(Encode(p.user), Encode(p.password) + more);
    assert Credentials(p) + more == Encode(p.user) + ":" + (Encode(p.password) + more);
  }

  lemma SpilledPassword(p: Parts, more: Option<string>)
    ensures var spilled := if more.Some? then "@" + more.value else "";
      Decode(EscapeIf(InUserinfoSet, Encode(p.password) + spilled)).Some?
      <==> more.Some? ==> Decode(EscapeIf(InUserinfoSet, more.value)).Some?
  {
    var spilled := if more.Some? then "@" + more.value else "";
    EscapeAppend(InUserinfoSet, Encode(p.password), spilled);
    EncodedIsKept(p.password);
    DecodeAfterEncode(p.password, EscapeIf(InUserinfoSet, spilled));
    if more.Some? {
      assert spilled[0] == '@' && spilled[1..] == more.value;
      assert EscapeIf(InUserinfoSet, spilled) == EscapeAll(Utf8('@')) + EscapeIf(InUserinfoSet, more.value);
      DecodeAfterEscape('@', EscapeIf(InUserinfoSet, more.value));
    }
  }

  lemma Assembled(p: Parts, more: Option<string>, hostPort: Option<(string, Option<nat>)>, path: string)
    ensures var userinfo := Credentials(p) + if more.Some? then "@" + more.value else "";
      var url := Assemble(userinfo, hostPort, path);
      && (url.Some? <==> hostPort.Some?)
      && (url.Some? ==>
            && url.value.path == path && Decode(url.value.username).Some?
            && (Decode(url.value.password).Some?
                <==> (more.Some? ==> Decode(EscapeIf(InUserinfoSet, more.value)).Some?)))
  {
    CredentialsSplit(p, if more.Some? then "@" + more.value else "");
    SpilledPassword(p, more);
    EncodedIsKept(p.user);
    DecodeEncode(p.user);
    var password := Encode(p.password) + if more.Some? then "@" + more.value else "";
    assert (":" + password)[1..] == password;
  }

  lemma ParsedDetails(url: string, platform: Platform)
    ensures var parsed, r := ParseUrl(url, platform), ParseDatabaseUrl(url, platform);
      && (r.Ok? <==> parsed.Some? && Decode(parsed.value.username).Some? && Decode(parsed.value.password).Some?)
      && (r.Ok? ==> r.details.database == Clean(StripSlashes(parsed.value.path)))
  {
  }

  /** What the parser makes of a built URL, whatever its host: whether it parses, and which database it names. */
  lemma BuiltUrlLeadsTo(p: Parts, platform: Platform)
    requires KeptDatabase(p.database)
    ensures ParseDatabaseUrl(Build(p), platform).Ok? <==> Accepted(p.host, p.port, p.database, platform)
    ensures ParseDatabaseUrl(Build(p), platform).Ok? ==>
      ParseDatabaseUrl(Build(p), platform).details.database == LeadsTo(p.host, p.port, p.database)
  {
    var rest := AfterCredentials(p.host, p.port, p.database);
    var authority := Authority(p.host, p.port, p.database);
    PreparedBuild(p);
    AfterScheme(Credentials(p) + "@" + rest);
    CredentialsAreKept(p);
    ParseAfterCredentials(Credentials(p), rest, platform);
    Assembled(p, MorePassword(authority), ParseHostPort(AfterLast(authority, '@'), true, platform),
              KeepPath(RawPath(p.host, p.port, p.database)));
    ParsedDetails(Build(p), platform);
  }

  // ----- which hosts leave the database alone

  /** The host from its first slash, question mark or hash on. */
  function Tail(host: string): string {
    From(WithoutBreaks(host), EndsAuthority)
  }

  /**
   The host ends where the authority does; or else it carries a path of its own that spells the
   very database, and a question mark or a hash behind it that hides the rest of the URL.
   */
  predicate StaysOn(host: string, database: string) {
    var tail := Tail(host);
    tail == ""
    || ((exists c <- tail :: EndsPath(c)) && Clean(StripSlashes(KeepPath(Before(tail, EndsPath)))) == Some(database))
  }

  lemma {:induction false} FromAppend(a: string, b: string, stops: char -> bool)
    ensures From(a, stops) != "" ==> From(a + b, stops) == From(a, stops) + b
    ensures From(a, stops) == "" ==> From(a + b, stops) == From(b, stops)
    ensures From(a, stops) != "" ==> Before(a + b, stops) == Before(a, stops)
  {
    if a == "" {
      assert a + b == b;
    } else {
      assert (a + b)[0] == a[0] && (a + b)[1..] == a[1..] + b;
      if !stops(a[0]) {
        FromAppend(a[1..], b, stops);
      }
    }
  }

  lemma {:induction false} FromFinds(s: string, stops: char -> bool)
    ensures From(s, stops) != "" <==> exists c <- s :: stops(c)
    ensures From(s, stops) == "" ==> Before(s, stops) == s
  {
    if s != "" {
      FromFinds(s[1..], stops);
      assert forall c :: c in s <==> c == s[0] || c in s[1..];
    }
  }

  /** The port and the database, where the host does not hide them. */
  function PortAndDatabase(port: nat, database: string): string {
    ":" + Decimal(port) + "/" + database
  }

  lemma PortAndDatabaseCharacters(port: nat, database: string)
    requires KeptDatabase(database)
    ensures From(PortAndDatabase(port, database), EndsAuthority) == "/" + database
    ensures forall c <- PortAndDatabase(port, database) :: !InPathSet(c) && !EndsPath(c)
  {
    DecimalBack(port);
    SplitBefore(":" + Decimal(port), "/" + database, EndsAuthority);
    assert PortAndDatabase(port, database) == (":" + Decimal(port)) + ("/" + database);
  }

  /** The path of the URL: the database alone, the host's own path, or both with the port between them. */
  lemma PathOfUrl(host: string, port: nat, database: string)
    requires KeptDatabase(database)
    ensures var tail := Tail(host);
      RawPath(host, port, database) ==
        if tail == "" then "/" + database
        else if exists c <- tail :: EndsPath(c) then Before(tail, EndsPath)
        else tail + PortAndDatabase(port, database)
  {
    var h, tail, end := WithoutBreaks(host), Tail(host), PortAndDatabase(port, database);
    assert AfterCredentials(host, port, database) == h + end;
    PortAndDatabaseCharacters(port, database);
    FromAppend(h, end, EndsAuthority);
    if tail == "" {
      assert forall c <- "/" + database :: !EndsPath(c);
      FromFinds("/" + database, EndsPath);
    } else {
      FromAppend(tail, end, EndsPath);
      FromFinds(tail, EndsPath);
      if !exists c <- tail :: EndsPath(c) {
        FromFinds(tail + end, EndsPath);
      }
    }
  }

  // ----- a path that holds the port

  /** The segments of a text whose first one is known. */
  lemma FirstSegment(first: string, rest: string)
    requires forall c <- first :: c != '/'
    ensures Segments(first + "/" + rest) == [first] + Segments(rest)
  {
    SplitBefore(first, "/" + rest, IsSlash);
    assert first + "/" + rest == first + ("/" + rest);
    assert ("/" + rest)[1..] == rest;
  }

  lemma {:induction false} SegmentsAppend(a: string, b: string)
    ensures Segments(a + "/" + b) == Segments(a) + Segments(b)
    decreases |a|
  {
    var first, rest := Before(a, IsSlash), From(a, IsSlash);
    BeforeAndFrom(a, IsSlash);
    FromIsShorter(a, IsSlash);
    if rest == "" {
      assert first == first + rest == a;
      FirstSegment(first, b);
    } else {
      SegmentsAppend(rest[1..], b);
      FirstSegment(first, rest[1..] + "/" + b);
      Slashes(first, rest, b);
      assert [first] + (Segments(rest[1..]) + Segments(b)) == [first] + Segments(rest[1..]) + Segments(b);
    }
  }

  lemma Slashes(first: string, rest: string, b: string)
    requires rest != "" && rest[0] == '/'
    ensures first + rest + "/" + b == first + "/" + (rest[1..] + "/" + b)
  {
    assert rest == "/" + rest[1..];
  }

  /** Text without a slash goes to the last segment. */
  lemma {:induction false} LastSegment(a: string, b: string) returns (front: seq<string>, last: string)
    requires forall c <- b :: c != '/'
    ensures Segments(a + b) == front + [last] && (forall c <- b :: c in last) && '/' !in last
    decreases |a|
  {
    var first, rest := Before(a, IsSlash), From(a, IsSlash);
    BeforeAndFrom(a, IsSlash);
    FromIsShorter(a, IsSlash);
    if rest == "" {
      SplitBefore(a + b, "", IsSlash);
      assert a + b + "" == a + b;
      front, last := [], a + b;
    } else {
      assert a + b == first + (rest + b);
      SplitBefore(first, rest + b, IsSlash);
      assert (rest + b)[1..] == rest[1..] + b;
      front, last := LastSegment(rest[1..], b);
      assert [first] + (front + [last]) == ([first] + front) + [last];
      front := [first] + front;
    }
  }

  /** The path after some segments that are not the last. */
  function EnterAll(path: seq<string>, segments: seq<string>): seq<string>
    decreases |segments|
  {
    if segments == [] then path else EnterAll(Enter(path, segments[0], false), segments[1..])
  }

  lemma {:induction false} ResolveInStages(path: seq<string>, a: seq<string>, b: seq<string>)
    requires b != []
    ensures ResolveDots(path, a + b) == ResolveDots(EnterAll(path, a), b)
    decreases |a|
  {
    if a == [] {
      assert a + b == b;
    } else {
      assert (a + b)[0] == a[0] && (a + b)[1..] == a[1..] + b;
      ResolveInStages(Enter(path, a[0], false), a[1..], b);
    }
  }

  lemma {:induction false} JoinAppend(a: seq<string>, b: seq<string>)
    ensures JoinPath(a + b) == JoinPath(a) + JoinPath(b)
  {
    if a == [] {
      assert a + b == b;
    } else {
      JoinAppend(a[1..], b);
      assert a + b == [a[0]] + (a[1..] + b);
      JoinFirst(a[0], a[1..] + b);
      assert "/" + a[0] + (JoinPath(a[1..]) + JoinPath(b)) == "/" + a[0] + JoinPath(a[1..]) + JoinPath(b);
    }
  }

  lemma {:induction false} StripStops(a: string, b: string)
    requires b != "" && b[0] != '/'
    ensures |StripSlashes(a + b)| >= |b|
  {
    if a == "" {
      assert a + b == b;
    } else if a[0] == '/' {
      assert (a + b)[1..] == a[1..] + b;
      StripStops(a[1..], b);
    }
  }

  /** The text of such a path, escaped: the segment with the port, and the database after it. */
  lemma PortIsASegment(x: string, port: nat, database: string) returns (front: seq<string>, last: string)
    requires KeptDatabase(database)
    ensures Segments(EscapeIf(InPathSet, x + PortAndDatabase(port, database))) == front + ([last] + Segments(database))
    ensures ':' in last && '/' !in last
  {
    var escaped, number := EscapeIf(InPathSet, x), ":" + Decimal(port);
    PortAndDatabaseCharacters(port, database);
    EscapeAppend(InPathSet, x, PortAndDatabase(port, database));
    EscapeNothing(InPathSet, PortAndDatabase(port, database));
    assert escaped + PortAndDatabase(port, database) == (escaped + number) + "/" + database;
    SegmentsAppend(escaped + number, database);
    DecimalBack(port);
    front, last := LastSegment(escaped, number);
    assert ':' in number;
    assert front + [last] + Segments(database) == front + ([last] + Segments(database));
  }

  lemma ColonIsNoDots(s: string)
    requires ':' in s
    ensures !IsDots(s) && s != ""
  {
    var i :| 0 <= i < |s| && s[i] == ':';
  }

  lemma JoinEnd(last: string, database: string)
    ensures JoinPath([last] + Segments(database)) == "/" + (last + ("/" + database))
  {
    JoinFirst(last, Segments(database));
    JoinSegments(database);
    assert "/" + last + ("/" + database) == "/" + (last + ("/" + database));
  }

  /** Neither the segment with the port nor the database can be resolved away. */
  lemma EndOfPath(front: seq<string>, last: string, database: string)
    requires KeptDatabase(database) && !IsDots(last)
    ensures JoinPath(ResolveDots([], front + ([last] + Segments(database))))
      == (JoinPath(EnterAll([], front)) + "/") + (last + ("/" + database))
  {
    var end, path := [last] + Segments(database), EnterAll([], front);
    ResolveInStages([], front, end);
    NoDotsToResolve(path, end);
    JoinAppend(path, end);
    JoinEnd(last, database);
  }

  /** A path that holds the port ends in more than the database. */
  lemma PathWithPort(x: string, port: nat, database: string)
    requires KeptDatabase(database)
    ensures |StripSlashes(KeepPath("/" + x + PortAndDatabase(port, database)))| > |database|
  {
    assert ("/" + x + PortAndDatabase(port, database))[1..] == x + PortAndDatabase(port, database);
    var front, last := PortIsASegment(x, port, database);
    ColonIsNoDots(last);
    EndOfPath(front, last, database);
    assert last[0] in last;
    StripStops(JoinPath(EnterAll([], front)) + "/", last + ("/" + database));
  }

  /** The URL leads to the database it was built with exactly for the hosts that stay. */
  lemma StaysOnIff(host: string, port: nat, database: string)
    requires KeptDatabase(database)
    ensures LeadsTo(host, port, database) == Some(database) <==> StaysOn(host, database)
  {
    var tail := Tail(host);
    PathOfUrl(host, port, database);
    if tail == "" {
      KeptPath(database);
      KeptIsClean(database);
    } else if !exists c <- tail :: EndsPath(c) {
      BeforeAndFrom(WithoutBreaks(host), EndsAuthority);
      assert tail[0] in tail;
      assert tail == "/" + tail[1..];
      PathWithPort(tail[1..], port, database);
      var path := StripSlashes(KeepPath(tail + PortAndDatabase(port, database)));
      ParsedPathIsKept(tail + PortAndDatabase(port, database));
      KeptIsClean(path);
    }
  }

  /** A host that carries a path and a question mark behind it: the URL leads to that path's database. */
  lemma HostWithPath(host: string, h: string, d: string, port: nat, database: string, platform: Platform)
    requires host == h + "/" + d + "?" && KeptHost(h, platform) && KeptDatabase(d) && KeptDatabase(database)
    ensures LeadsTo(host, port, database) == Some(d) && Accepted(host, port, database, platform)
  {
    HostTail(h, d, platform);
    PathOfUrl(host, port, database);
    assert '?' in "/" + d + "?" && EndsPath('?');
    SplitBefore("/" + d, "?", EndsPath);
    KeptPath(d);
    KeptIsClean(d);
    HostAuthority(h, d, port, database, platform);
    HostAlone(h, platform);
  }

  lemma HostTail(h: string, d: string, platform: Platform)
    requires KeptHost(h, platform) && KeptDatabase(d)
    ensures WithoutBreaks(h + "/" + d + "?") == h + ("/" + d + "?")
    ensures Tail(h + "/" + d + "?") == "/" + d + "?"
  {
    KeptHostCharacters(h, platform);
    assert NoBreak(h) && NoBreak(d) && NoBreak("/") && NoBreak("?");
    NoBreakAppend(h, "/");
    NoBreakAppend(h + "/", d);
    NoBreakAppend(h + "/" + d, "?");
    NoBreaks(h + "/" + d + "?");
    assert h + "/" + d + "?" == h + ("/" + d + "?");
    SplitBefore(h, "/" + d + "?", EndsAuthority);
  }

  lemma HostAuthority(h: string, d: string, port: nat, database: string, platform: Platform)
    requires KeptHost(h, platform) && KeptDatabase(d)
    ensures Authority(h + "/" + d + "?", port, database) == h && '@' !in h && AfterLast(h, '@') == h
  {
    KeptHostCharacters(h, platform);
    HostTail(h, d, platform);
    HostThenPath(h, "/" + d + "?", Decimal(port), database);
    SplitBefore(h, ("/" + d + "?") + PortAndDatabase(port, database), EndsAuthority);
    AfterLastSplits(h);
  }

  lemma HostThenPath(h: string, path: string, port: string, database: string)
    ensures (h + path) + ":" + port + "/" + database == h + (path + (":" + port + "/" + database))
  {
  }

  lemma HostAlone(host: string, platform: Platform)
    requires KeptHost(host, platform)
    ensures ParseHostPort(host, true, platform) == Some((host, None))
  {
    KeptHostIsKept(host, platform);
    KeptHostEnds(host, "", platform);
    KeptHostCharacters(host, platform);
    assert host + "" == host;
  }
}
