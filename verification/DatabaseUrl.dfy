/**
 Database URLs: building one from its parts, and parsing one. The parser follows the URL Standard
 for a scheme it has no special rules for (authority as in section 3.2 of RFC 3986); such a scheme
 has no default port.
 */
module DatabaseUrl {
  import opened Options
  import opened UriComponent

  // ----- what the runtime brings along

  /** The integer a text stands for as a JavaScript number, and the canonical text of an IPv6 address, if any. */
  datatype Runtime = Runtime(toInteger: string -> Option<int>, ipv6: string -> Option<string>)

  predicate IsAddressCharacter(c: char) {
    '0' <= c <= '9' || 'a' <= c <= 'f' || c == ':'
  }

  /** The canonical text of an address is its own canonical text, and made of hexadecimal groups. */
  ghost predicate HasCanonicalAddresses(r: Runtime) {
    forall text: string :: r.ipv6(text).Some? ==>
      var address := r.ipv6(text).value;
      r.ipv6(address) == Some(address) && forall c <- address :: IsAddressCharacter(c)
  }

  type Platform = r: Runtime | HasCanonicalAddresses(r)
    witness Runtime((text: string) => None, (text: string) => None)

  // ----- text

  predicate IsSpace(c: char) {
    || '\t' <= c <= '\r' || '\U{2000}' <= c <= '\U{200A}'
    || c in {' ', '\U{00A0}', '\U{1680}', '\U{2028}', '\U{2029}', '\U{202F}', '\U{205F}', '\U{3000}', '\U{FEFF}'}
  }

  function TrimStart(s: string): string {
    if s != "" && IsSpace(s[0]) then TrimStart(s[1..]) else s
  }

  function TrimEnd(s: string): string {
    if s != "" && IsSpace(s[|s| - 1]) then TrimEnd(s[..|s| - 1]) else s
  }

  function Trim(s: string): string {
    TrimEnd(TrimStart(s))
  }

  /** The trimmed text, if any is left. */
  function Clean(s: string): Option<string> {
    if Trim(s) == "" then None else Some(Trim(s))
  }

  function Decimal(n: nat): (r: string)
    ensures r != ""
  {
    if n < 10 then [('0' as int + n) as char] else Decimal(n / 10) + [('0' as int + n % 10) as char]
  }

  function DigitsValue(s: string): Option<nat> {
    if s == "" then Some(0)
    else
      var front, last := DigitsValue(s[..|s| - 1]), s[|s| - 1];
      if front.None? || !('0' <= last <= '9') then None else Some(front.value * 10 + (last as int - '0' as int))
  }

  // ----- building

  datatype Parts = Parts(host: string, port: nat, database: string, user: string, password: string)

  function Build(p: Parts): string {
    "mysql://" + Encode(p.user) + ":" + Encode(p.password) + "@" + p.host + ":" + Decimal(p.port) + "/" + p.database
  }

  // ----- parsing

  /** The part of `s` before the first character that `stops`. */
  function Before(s: string, stops: char -> bool): string {
    if s == "" || stops(s[0]) then "" else [s[0]] + Before(s[1..], stops)
  }

  /** The rest, from that character on. */
  function From(s: string, stops: char -> bool): string {
    if s == "" || stops(s[0]) then s else From(s[1..], stops)
  }

  /** The text after the last `c`, all of it if there is none. */
  function AfterLast(s: string, c: char): (r: string)
    ensures |r| <= |s|
    ensures c in s ==> |r| < |s|
  {
    if s == "" || s[|s| - 1] == c then "" else AfterLast(s[..|s| - 1], c) + [s[|s| - 1]]
  }

  predicate EndsAuthority(c: char) {
    c == '/' || c == '?' || c == '#'
  }

  predicate EndsPath(c: char) {
    c == '?' || c == '#'
  }

  predicate IsColon(c: char) {
    c == ':'
  }

  predicate IsSlash(c: char) {
    c == '/'
  }

  predicate IsNotSlash(c: char) {
    c != '/'
  }

  predicate IsAboveSpace(c: char) {
    c > ' '
  }

  predicate IsBreak(c: char) {
    c in {'\t', '\n', '\r'}
  }

  predicate NeedsEscapeInHost(c: char) {
    c < ' ' || c > '~'
  }

  predicate InUserinfoSet(c: char) {
    c <= ' ' || c > '~'
    || c in {'"', '#', '<', '>', '?', '`', '{', '}', '/', ':', ';', '=', '@', '[', '\\', ']', '^', '|'}
  }

  predicate InPathSet(c: char) {
    c <= ' ' || c > '~' || c in {'"', '#', '<', '>', '?', '^', '`', '{', '}'}
  }

  predicate ForbiddenInHost(c: char) {
    c in {'\0', '\t', '\n', '\r', ' ', '#', '/', ':', '<', '>', '?', '@', '[', '\\', ']', '^', '|'}
  }

  function EscapeIf(inSet: char -> bool, s: string): string {
    if s == "" then "" else (if inSet(s[0]) then EscapeAll(Utf8(s[0])) else [s[0]]) + EscapeIf(inSet, s[1..])
  }

  datatype Url = Url(username: string, password: string, host: string, port: Option<nat>, path: string)

  /** The text up to the first colon outside brackets. */
  function HostPart(s: string, inside: bool): string {
    if s == "" || (s[0] == ':' && !inside) then ""
    else [s[0]] + HostPart(s[1..], s[0] == '[' || (inside && s[0] != ']'))
  }

  /** The rest, from that colon on. */
  function AfterHost(s: string, inside: bool): string {
    if s == "" || (s[0] == ':' && !inside) then s
    else AfterHost(s[1..], s[0] == '[' || (inside && s[0] != ']'))
  }

  predicate IsBracketed(s: string) {
    |s| >= 2 && s[0] == '[' && s[|s| - 1] == ']'
  }

  function Bracket(address: string): string {
    "[" + address + "]"
  }

  /** An address in brackets is brought into canonical form, other hosts are escaped. */
  function ParseHost(host: string, platform: Platform): Option<string> {
    if IsBracketed(host) then
      var address := platform.ipv6(host[1..|host| - 1]);
      if address.Some? then Some(Bracket(address.value)) else None
    else if exists c <- host :: ForbiddenInHost(c) then None
    else Some(EscapeIf(NeedsEscapeInHost, host))
  }

  /** A host with or without a port; `None` where the parser gives up. */
  function ParseHostPort(s: string, credentials: bool, platform: Platform): Option<(string, Option<nat>)> {
    var host, rest := HostPart(s, false), AfterHost(s, false);
    var kept := ParseHost(host, platform);
    if host == "" && (credentials || rest != "") then None
    else if kept.None? then None
    else if rest == "" || rest == ":" then Some((kept.value, None))
    else
      var port := DigitsValue(rest[1..]);
      if port.None? || port.value > 65535 then None else Some((kept.value, port))
  }

  function StripEnd(s: string): string {
    if s != "" && s[|s| - 1] <= ' ' then StripEnd(s[..|s| - 1]) else s
  }

  function WithoutBreaks(s: string): string {
    if s == "" then "" else (if IsBreak(s[0]) then "" else [s[0]]) + WithoutBreaks(s[1..])
  }

  /** The parser starts by dropping control characters and spaces at either end, and then tabs and newlines anywhere. */
  function Prepared(url: string): string {
    WithoutBreaks(StripEnd(From(url, IsAboveSpace)))
  }

  predicate IsSingleDot(segment: string) {
    segment in {".", "%2e", "%2E"}
  }

  predicate IsDoubleDot(segment: string) {
    segment in {"..", ".%2e", ".%2E", "%2e.", "%2E.", "%2e%2e", "%2e%2E", "%2E%2e", "%2E%2E"}
  }

  predicate IsDots(segment: string) {
    IsSingleDot(segment) || IsDoubleDot(segment)
  }

  function Segments(s: string): seq<string>
    decreases |s|
  {
    var first, rest := Before(s, IsSlash), From(s, IsSlash);
    FromIsShorter(s, IsSlash);
    if rest == "" then [first] else [first] + Segments(rest[1..])
  }

  lemma {:induction false} FromIsShorter(s: string, stops: char -> bool)
    ensures |From(s, stops)| <= |s|
  {
    if s != "" && !stops(s[0]) {
      FromIsShorter(s[1..], stops);
    }
  }

  /** The path so far, with one more segment: dots step up or stay, and leave an empty segment at the end. */
  function Enter(path: seq<string>, segment: string, last: bool): seq<string> {
    var end := if last then [""] else [];
    if IsDoubleDot(segment) then (if path == [] then [] else path[..|path| - 1]) + end
    else if IsSingleDot(segment) then path + end
    else path + [segment]
  }

  function ResolveDots(path: seq<string>, segments: seq<string>): seq<string>
    decreases |segments|
  {
    if segments == [] then path
    else ResolveDots(Enter(path, segments[0], |segments| == 1), segments[1..])
  }

  function JoinPath(path: seq<string>): string {
    if path == [] then "" else "/" + path[0] + JoinPath(path[1..])
  }

  /** The path as the parser keeps it: escaped, and with its dot segments resolved. */
  function KeepPath(raw: string): string {
    if raw == "" then "" else JoinPath(ResolveDots([], Segments(EscapeIf(InPathSet, raw[1..]))))
  }

  /** The scheme may be written in any case. */
  predicate HasScheme(s: string) {
    && |s| >= 8
    && s[0] in {'m', 'M'} && s[1] in {'y', 'Y'} && s[2] in {'s', 'S'} && s[3] in {'q', 'Q'} && s[4] in {'l', 'L'}
    && s[5] == ':' && s[6] == '/' && s[7] == '/'
  }

  /** A parsed `mysql://` URL; `None` where the parser throws. */
  function ParseUrl(url: string, platform: Platform): Option<Url> {
    if HasScheme(Prepared(url)) then ParseAuthority(Prepared(url)[8..], platform) else None
  }

  /** What follows `mysql://`: the authority with its optional credentials, and the path. */
  function ParseAuthority(rest: string, platform: Platform): Option<Url> {
    var authority, path := Before(rest, EndsAuthority), Before(From(rest, EndsAuthority), EndsPath);
    var hostPort, credentials := AfterLast(authority, '@'), '@' in authority;
    var userinfo := if credentials then authority[..|authority| - |hostPort| - 1] else "";
    Assemble(userinfo, ParseHostPort(hostPort, credentials, platform), KeepPath(path))
  }

  function Assemble(userinfo: string, hostPort: Option<(string, Option<nat>)>, path: string): Option<Url> {
    var password := From(userinfo, IsColon);
    if hostPort.None? then None
    else Some(Url(EscapeIf(InUserinfoSet, Before(userinfo, IsColon)),
                  EscapeIf(InUserinfoSet, if password == "" then "" else password[1..]),
                  hostPort.value.0, hostPort.value.1, path))
  }

  datatype Details = Details(
    host: string,
    port: nat,
    database: Option<string>,
    user: Option<string>,
    password: Option<string>,
    url: Option<string>)

  datatype Failure =
    | InvalidUrl | MalformedCredentials | TestDatabaseRequired | MissingDatabase | MissingUser | MissingPassword

  datatype Result = Ok(details: Details) | Err(failure: Failure)

  /** A positive integer is the port, and anything else makes it the fallback. */
  function ParsePort(number: Option<int>, fallback: nat): nat {
    if number.Some? && number.value > 0 then number.value else fallback
  }

  function StripSlashes(path: string): string {
    From(path, IsNotSlash)
  }

  function ParseDatabaseUrl(url: string, platform: Platform): Result {
    var parsed := ParseUrl(url, platform);
    if parsed.None? then Err(InvalidUrl)
    else
      var user, password := Decode(parsed.value.username), Decode(parsed.value.password);
      if user.None? || password.None? then Err(MalformedCredentials)
      else
        Ok(Details(Clean(parsed.value.host).GetOr("127.0.0.1"), ParsePort(parsed.value.port, 3306),
                   Clean(StripSlashes(parsed.value.path)), Clean(user.value), Clean(password.value), Some(url)))
  }

  // ----- the round trip

  /** A host that the parser keeps as it is: a canonical address in brackets, or nothing to escape or refuse. */
  predicate KeptHost(s: string, platform: Platform) {
    if IsBracketed(s) then platform.ipv6(s[1..|s| - 1]) == Some(s[1..|s| - 1])
    else s != "" && forall c <- s :: !NeedsEscapeInHost(c) && !ForbiddenInHost(c)
  }

  /** A database name that the parser keeps as it is: nothing to escape, no slash in front, no segment of dots. */
  predicate KeptDatabase(s: string) {
    && s != "" && s[0] != '/' && (forall c <- s :: !InPathSet(c))
    && forall segment <- Segments(s) :: !IsDots(segment)
  }

  lemma {:induction false} SplitBefore(a: string, b: string, stops: char -> bool)
    requires forall c <- a :: !stops(c)
    requires b == "" || stops(b[0])
    ensures Before(a + b, stops) == a && From(a + b, stops) == b
  {
    if a == "" {
      assert a + b == b;
    } else {
      assert (a + b)[1..] == a[1..] + b;
      SplitBefore(a[1..], b, stops);
    }
  }

  lemma {:induction false} LastOfTwo(a: string, b: string, c: char)
    requires c !in b
    ensures AfterLast(a + [c] + b, c) == b
  {
    var s := a + [c] + b;
    if b == "" {
      assert s[|s| - 1] == c;
    } else {
      assert s[..|s| - 1] == a + [c] + b[..|b| - 1];
      LastOfTwo(a, b[..|b| - 1], c);
    }
  }

  lemma {:induction false} EscapeNothing(inSet: char -> bool, s: string)
    requires forall c <- s :: !inSet(c)
    ensures EscapeIf(inSet, s) == s
  {
    if s != "" {
      EscapeNothing(inSet, s[1..]);
    }
  }

  lemma {:induction false} DecimalBack(n: nat)
    ensures DigitsValue(Decimal(n)) == Some(n)
    ensures forall c <- Decimal(n) :: '0' <= c <= '9'
  {
    if n < 10 {
      assert Decimal(n)[..0] == "";
    } else {
      DecimalBack(n / 10);
      var front, last := Decimal(n / 10), ('0' as int + n % 10) as char;
      assert (front + [last])[..|front|] == front;
    }
  }

  lemma {:induction false} TrimNothing(s: string)
    requires s != "" ==> !IsSpace(s[0]) && !IsSpace(s[|s| - 1])
    ensures Trim(s) == s
  {
  }

  lemma {:induction false} TrimEnds(s: string)
    ensures TrimStart(s) != "" ==> !IsSpace(TrimStart(s)[0])
    ensures TrimEnd(s) != "" ==> !IsSpace(TrimEnd(s)[|TrimEnd(s)| - 1])
    ensures TrimEnd(s) <= s
    decreases |s|
  {
    if s != "" {
      TrimEnds(s[1..]);
      TrimEnds(s[..|s| - 1]);
    }
  }

  /** What `clean` returns needs no more cleaning. */
  lemma CleanIsIdempotent(s: string)
    ensures Clean(s).Some? ==> Clean(Clean(s).value) == Clean(s)
  {
    TrimEnds(s);
    TrimEnds(TrimStart(s));
    if Clean(s).Some? {
      TrimNothing(Trim(s));
    }
  }

  lemma SplitAtColon(a: string, b: string)
    requires forall c <- a :: c != ':'
    ensures Before(a + ":" + b, IsColon) == a && From(a + ":" + b, IsColon) == ":" + b
  {
    assert a + ":" + b == a + (":" + b);
    SplitBefore(a, ":" + b, IsColon);
  }

  /** What a kept host is made of, in brackets or not. */
  lemma KeptHostCharacters(host: string, platform: Platform)
    requires KeptHost(host, platform)
    ensures host != "" && forall c <- host :: ' ' < c <= '~' && !EndsAuthority(c) && c != '@'
  {
    if IsBracketed(host) {
      var address := host[1..|host| - 1];
      assert host == Bracket(address);
      assert forall c <- address :: IsAddressCharacter(c);
    }
  }

  lemma KeptHostIsKept(host: string, platform: Platform)
    requires KeptHost(host, platform)
    ensures ParseHost(host, platform) == Some(host)
  {
    if IsBracketed(host) {
      assert host == Bracket(host[1..|host| - 1]);
    } else {
      EscapeNothing(NeedsEscapeInHost, host);
    }
  }

  lemma {:induction false} PlainHostEnds(host: string, rest: string)
    requires forall c <- host :: c != ':' && c != '[' && c != ']'
    requires rest == "" || rest[0] == ':'
    ensures HostPart(host + rest, false) == host && AfterHost(host + rest, false) == rest
  {
    if host == "" {
      assert host + rest == rest;
    } else {
      assert host[0] in host && forall c <- host[1..] :: c in host;
      assert (host + rest)[1..] == host[1..] + rest;
      PlainHostEnds(host[1..], rest);
    }
  }

  lemma {:induction false} AddressEnds(address: string, rest: string)
    requires forall c <- address :: IsAddressCharacter(c)
    requires rest == "" || rest[0] == ':'
    ensures HostPart(address + "]" + rest, true) == address + "]" && AfterHost(address + "]" + rest, true) == rest
  {
    var s := address + "]" + rest;
    if address == "" {
      assert s[1..] == rest;
    } else {
      assert address[0] in address && s[0] == address[0] && IsAddressCharacter(s[0]);
      assert s[1..] == address[1..] + "]" + rest;
      AddressEnds(address[1..], rest);
    }
  }

  lemma BracketEnds(address: string, rest: string)
    requires forall c <- address :: IsAddressCharacter(c)
    requires rest == "" || rest[0] == ':'
    ensures HostPart(Bracket(address) + rest, false) == Bracket(address)
    ensures AfterHost(Bracket(address) + rest, false) == rest
  {
    var s := Bracket(address) + rest;
    assert s[0] == '[' && s[1..] == address + "]" + rest;
    AddressEnds(address, rest);
    assert Bracket(address) == ['['] + (address + "]");
  }

  /** The colons inside brackets do not end a host. */
  lemma KeptHostEnds(host: string, rest: string, platform: Platform)
    requires KeptHost(host, platform) && (rest == "" || rest[0] == ':')
    ensures HostPart(host + rest, false) == host && AfterHost(host + rest, false) == rest
  {
    if IsBracketed(host) {
      assert host == Bracket(host[1..|host| - 1]);
      BracketEnds(host[1..|host| - 1], rest);
    } else {
      PlainHostEnds(host, rest);
    }
  }

  lemma ParseBuiltHostPort(host: string, port: nat, platform: Platform)
    requires KeptHost(host, platform)
    ensures ParseHostPort(host + ":" + Decimal(port), true, platform)
      == if port <= 65535 then Some((host, Some(port))) else None
  {
    KeptHostIsKept(host, platform);
    KeptHostEnds(host, ":" + Decimal(port), platform);
    assert host + ":" + Decimal(port) == host + (":" + Decimal(port));
    DecimalBack(port);
    assert (":" + Decimal(port))[1..] == Decimal(port);
    assert |":" + Decimal(port)| > 1;
  }

  lemma SafeIsNotSpecial(c: char)
    requires IsSafe(c)
    ensures !InUserinfoSet(c) && c != ':' && c != '@' && !EndsAuthority(c)
  {
  }

  lemma EncodedIsKept(s: string)
    ensures EscapeIf(InUserinfoSet, Encode(s)) == Encode(s)
    ensures forall c <- Encode(s) :: c != ':' && c != '@' && !EndsAuthority(c)
  {
    EncodeIsSafe(s);
    forall c | c in Encode(s)
      ensures !InUserinfoSet(c) && c != ':' && c != '@' && !EndsAuthority(c)
    {
      SafeIsNotSpecial(c);
    }
    EscapeNothing(InUserinfoSet, Encode(s));
  }

  lemma CredentialsAndHost(userinfo: string, hostPort: string)
    requires '@' !in hostPort
    ensures var authority := userinfo + "@" + hostPort;
      && '@' in authority && AfterLast(authority, '@') == hostPort
      && authority[..|authority| - |hostPort| - 1] == userinfo
  {
    LastOfTwo(userinfo, hostPort, '@');
    assert (userinfo + "@" + hostPort)[|userinfo|] == '@';
  }

  lemma AuthorityAndPath(authority: string, path: string)
    requires forall c <- authority :: !EndsAuthority(c)
    requires path != "" && path[0] == '/' && forall c <- path :: !EndsPath(c)
    ensures Before(authority + path, EndsAuthority) == authority
    ensures Before(From(authority + path, EndsAuthority), EndsPath) == path
  {
    SplitBefore(authority, path, EndsAuthority);
    SplitBefore(path, "", EndsPath);
    assert path + "" == path;
  }

  /** A URL falls apart where its parts were joined, if no part holds the delimiters that end it. */
  lemma ParseJoined(userinfo: string, hostPort: string, path: string, platform: Platform)
    requires forall c <- userinfo :: !EndsAuthority(c)
    requires forall c <- hostPort :: !EndsAuthority(c) && c != '@'
    requires path != "" && path[0] == '/' && forall c <- path :: !EndsPath(c)
    ensures ParseAuthority(userinfo + "@" + hostPort + path, platform)
      == Assemble(userinfo, ParseHostPort(hostPort, true, platform), KeepPath(path))
  {
    AuthorityAndPath(userinfo + "@" + hostPort, path);
    CredentialsAndHost(userinfo, hostPort);
  }

  lemma {:induction false} NothingToStrip(s: string)
    requires s != "" && s[0] > ' ' && s[|s| - 1] > ' ' && NoBreak(s)
    ensures Prepared(s) == s
  {
    assert From(s, IsAboveSpace) == s && StripEnd(s) == s;
    NoBreaks(s);
  }

  lemma {:induction false} NoBreaks(s: string)
    requires NoBreak(s)
    ensures WithoutBreaks(s) == s
  {
    if s != "" {
      NoBreaks(s[1..]);
    }
  }

  predicate NoBreak(s: string) {
    forall c <- s :: !IsBreak(c)
  }

  lemma NoBreakAppend(a: string, b: string)
    requires NoBreak(a) && NoBreak(b)
    ensures NoBreak(a + b)
  {
  }

  lemma EncodedHasNoBreak(s: string)
    ensures NoBreak(Encode(s))
  {
    EncodeIsSafe(s);
  }

  lemma BuiltCharacters(p: Parts)
    requires NoBreak(p.host) && KeptDatabase(p.database)
    ensures NoBreak(Build(p))
  {
    EncodedHasNoBreak(p.user);
    EncodedHasNoBreak(p.password);
    DecimalBack(p.port);
    assert NoBreak("mysql://") && NoBreak(":") && NoBreak("@") && NoBreak("/");
    assert NoBreak(Decimal(p.port)) && NoBreak(p.database);
    var userinfo := "mysql://" + Encode(p.user) + ":" + Encode(p.password);
    NoBreakAppend("mysql://", Encode(p.user));
    NoBreakAppend("mysql://" + Encode(p.user), ":");
    NoBreakAppend("mysql://" + Encode(p.user) + ":", Encode(p.password));
    NoBreakAppend(userinfo, "@");
    NoBreakAppend(userinfo + "@", p.host);
    NoBreakAppend(userinfo + "@" + p.host, ":");
    NoBreakAppend(userinfo + "@" + p.host + ":", Decimal(p.port));
    NoBreakAppend(userinfo + "@" + p.host + ":" + Decimal(p.port), "/");
    NoBreakAppend(userinfo + "@" + p.host + ":" + Decimal(p.port) + "/", p.database);
  }

  /** What is built starts with the scheme and holds nothing that the parser would strip. */
  lemma BuildIsPrepared(p: Parts)
    requires NoBreak(p.host) && KeptDatabase(p.database)
    ensures HasScheme(Build(p)) && Prepared(Build(p)) == Build(p)
  {
    BuildJoins(p);
    var url := Build(p);
    assert url[|url| - 1] == p.database[|p.database| - 1];
    assert p.database[|p.database| - 1] in p.database;
    BuiltCharacters(p);
    NothingToStrip(url);
  }

  lemma AfterScheme(rest: string)
    ensures HasScheme("mysql://" + rest) && ("mysql://" + rest)[8..] == rest
  {
  }

  lemma BuildJoins(p: Parts)
    ensures HasScheme(Build(p))
    ensures Build(p)[8..] ==
      (Encode(p.user) + ":" + Encode(p.password)) + "@" + (p.host + ":" + Decimal(p.port)) + ("/" + p.database)
  {
    var rest :=
      (Encode(p.user) + ":" + Encode(p.password)) + "@" + (p.host + ":" + Decimal(p.port)) + ("/" + p.database);
    assert Build(p) == "mysql://" + rest;
    AfterScheme(rest);
  }

  lemma BuiltPartsAreDelimited(p: Parts, platform: Platform)
    requires KeptHost(p.host, platform) && KeptDatabase(p.database)
    ensures forall c <- Encode(p.user) + ":" + Encode(p.password) :: !EndsAuthority(c)
    ensures forall c <- p.host + ":" + Decimal(p.port) :: !EndsAuthority(c) && c != '@'
    ensures forall c <- "/" + p.database :: !EndsPath(c)
  {
    EncodedIsKept(p.user);
    EncodedIsKept(p.password);
    DecimalBack(p.port);
    KeptHostCharacters(p.host, platform);
  }

  // ----- the path

  lemma {:induction false} BeforeAndFrom(s: string, stops: char -> bool)
    ensures Before(s, stops) + From(s, stops) == s
    ensures forall c <- Before(s, stops) :: !stops(c)
    ensures From(s, stops) != "" ==> stops(From(s, stops)[0])
  {
    if s != "" && !stops(s[0]) {
      BeforeAndFrom(s[1..], stops);
      var before, from := Before(s[1..], stops), From(s[1..], stops);
      assert [s[0]] + before + from == [s[0]] + (before + from);
    }
  }

  lemma JoinFirst(first: string, more: seq<string>)
    ensures JoinPath([first] + more) == "/" + first + JoinPath(more)
  {
  }

  lemma JoinNext(first: string, rest: string, more: seq<string>)
    requires rest != "" && rest[0] == '/' && JoinPath(more) == "/" + rest[1..]
    ensures JoinPath([first] + more) == "/" + (first + rest)
  {
    JoinFirst(first, more);
    assert "/" + rest[1..] == rest;
    assert "/" + first + rest == "/" + (first + rest);
  }

  /** Splitting at slashes and joining again gives the text back, with a slash in front. */
  lemma {:induction false} JoinSegments(s: string)
    ensures JoinPath(Segments(s)) == "/" + s
    decreases |s|
  {
    var first, rest := Before(s, IsSlash), From(s, IsSlash);
    BeforeAndFrom(s, IsSlash);
    FromIsShorter(s, IsSlash);
    if rest == "" {
      JoinFirst(first, []);
      assert [first] + [] == [first];
    } else {
      JoinSegments(rest[1..]);
      JoinNext(first, rest, Segments(rest[1..]));
    }
  }

  lemma {:induction false} NoDotsToResolve(path: seq<string>, segments: seq<string>)
    requires forall s <- segments :: !IsDots(s)
    ensures ResolveDots(path, segments) == path + segments
    decreases |segments|
  {
    if segments == [] {
      assert path + segments == path;
    } else {
      assert !IsDots(segments[0]);
      assert Enter(path, segments[0], |segments| == 1) == path + [segments[0]];
      NoDotsToResolve(path + [segments[0]], segments[1..]);
      assert path + [segments[0]] + segments[1..] == path + segments;
    }
  }

  /** A segment of one dot drops out. */
  lemma {:induction false} DotDropsOut(path: seq<string>, before: seq<string>, dot: string, after: seq<string>)
    requires after != [] && IsSingleDot(dot)
    ensures ResolveDots(path, before + [dot] + after) == ResolveDots(path, before + after)
    decreases |before|
  {
    if before == [] {
      assert ([] + [dot] + after)[1..] == after && [] + after == after;
      assert path + [] == path;
    } else {
      assert (before + [dot] + after)[1..] == before[1..] + [dot] + after;
      assert (before + after)[1..] == before[1..] + after;
      DotDropsOut(Enter(path, before[0], false), before[1..], dot, after);
    }
  }

  /** A segment of two dots takes the segment before it along. */
  lemma {:induction false} DotsCancel(path: seq<string>, before: seq<string>, segment: string, dots: string,
                                      after: seq<string>)
    requires after != [] && !IsDots(segment) && IsDoubleDot(dots)
    ensures ResolveDots(path, before + [segment, dots] + after) == ResolveDots(path, before + after)
    decreases |before|
  {
    if before == [] {
      assert ([] + [segment, dots] + after)[1..] == [dots] + after && ([dots] + after)[1..] == after;
      assert [] + after == after;
      EnterAndLeave(path, segment, dots);
    } else {
      assert (before + [segment, dots] + after)[1..] == before[1..] + [segment, dots] + after;
      assert (before + after)[1..] == before[1..] + after;
      DotsCancel(Enter(path, before[0], false), before[1..], segment, dots, after);
    }
  }

  lemma EnterAndLeave(path: seq<string>, segment: string, dots: string)
    requires !IsDots(segment) && IsDoubleDot(dots)
    ensures Enter(Enter(path, segment, false), dots, false) == path
  {
  }

  lemma KeptPath(database: string)
    requires KeptDatabase(database)
    ensures KeepPath("/" + database) == "/" + database
    ensures StripSlashes("/" + database) == database
  {
    assert ("/" + database)[1..] == database;
    EscapeNothing(InPathSet, database);
    NoDotsToResolve([], Segments(database));
    assert [] + Segments(database) == Segments(database);
    JoinSegments(database);
    assert From("/" + database, IsNotSlash) == From(database, IsNotSlash);
  }

  /** What the parser makes of every URL built with a host and a database that it keeps. */
  lemma ParseBuiltUrl(p: Parts, platform: Platform)
    requires KeptHost(p.host, platform) && KeptDatabase(p.database)
    ensures ParseUrl(Build(p), platform) ==
      if p.port > 65535 then None
      else Some(Url(Encode(p.user), Encode(p.password), p.host, Some(p.port), "/" + p.database))
  {
    var userinfo, hostPort := Encode(p.user) + ":" + Encode(p.password), p.host + ":" + Decimal(p.port);
    KeptHostCharacters(p.host, platform);
    BuildIsPrepared(p);
    BuildJoins(p);
    BuiltPartsAreDelimited(p, platform);
    ParseJoined(userinfo, hostPort, "/" + p.database, platform);
    KeptPath(p.database);
    AssembleBuilt(p.user, p.password, ParseHostPort(hostPort, true, platform), "/" + p.database);
    ParseBuiltHostPort(p.host, p.port, platform);
  }

  lemma AssembleBuilt(user: string, password: string, hostPort: Option<(string, Option<nat>)>, path: string)
    ensures Assemble(Encode(user) + ":" + Encode(password), hostPort, path) ==
      if hostPort.None? then None
      else Some(Url(Encode(user), Encode(password), hostPort.value.0, hostPort.value.1, path))
  {
    EncodedIsKept(user);
    EncodedIsKept(password);
    SplitAtColon(Encode(user), Encode(password));
    assert (":" + Encode(password))[1..] == Encode(password);
  }

  lemma KeptIsClean(s: string)
    requires s != "" && forall c <- s :: ' ' < c <= '~'
    ensures Clean(s) == Some(s)
  {
    assert s[0] in s && s[|s| - 1] in s;
    TrimNothing(s);
  }

  /**
   For every user and password whatsoever: the built URL parses exactly when the port fits in 16
   bits, and then gives back host, port and database, and user and password up to cleaning.
   */
  lemma ParseBuilt(p: Parts, platform: Platform)
    requires KeptHost(p.host, platform) && KeptDatabase(p.database)
    ensures ParseDatabaseUrl(Build(p), platform) ==
      if p.port > 65535 then Err(InvalidUrl)
      else Ok(Details(p.host, ParsePort(Some(p.port), 3306), Some(p.database), Clean(p.user), Clean(p.password),
                      Some(Build(p))))
  {
    ParseBuiltUrl(p, platform);
    DecodeEncode(p.user);
    DecodeEncode(p.password);
    KeptHostCharacters(p.host, platform);
    KeptIsClean(p.host);
    KeptIsClean(p.database);
    KeptPath(p.database);
  }

  // ----- URLs as they are written by hand

  /** Letters, digits and a few marks, which need no escaping anywhere. */
  ghost predicate Plain(s: string) {
    forall c <- s :: 'A' <= c <= 'Z' || 'a' <= c <= 'z' || '0' <= c <= '9' || c in "-_.!*"
  }

  ghost predicate IsMysql(scheme: string) {
    && |scheme| == 5 && scheme[0] in "mM" && scheme[1] in "yY" && scheme[2] in "sS" && scheme[3] in "qQ"
    && scheme[4] in "lL"
  }

  /** A query or a fragment, or nothing. */
  ghost predicate IsSuffix(s: string) {
    s == "" || ((s[0] == '?' || s[0] == '#') && forall c <- s :: c > ' ')
  }

  function PortText(port: Option<nat>): string {
    if port.Some? then ":" + Decimal(port.value) else ""
  }

  function NameOf(credentials: Option<(string, string)>): string {
    if credentials.Some? then credentials.value.0 else ""
  }

  function SecretOf(credentials: Option<(string, string)>): string {
    if credentials.Some? then credentials.value.1 else ""
  }

  /** User and password before the host, if they are given at all. */
  function CredentialsText(credentials: Option<(string, string)>): string {
    if credentials.Some? then credentials.value.0 + ":" + credentials.value.1 + "@" else ""
  }

  lemma PlainCharacters(s: string)
    requires Plain(s)
    ensures forall c <- s :: c > ' ' && !InUserinfoSet(c) && c != ':' && c != '@' && !EndsAuthority(c) && c != '%'
    ensures Decode(s) == Some(s) && EscapeIf(InUserinfoSet, s) == s
    ensures Clean(s) == if s == "" then None else Some(s)
  {
    DecodeKeepsPlain(s);
    EscapeNothing(InUserinfoSet, s);
    if s != "" {
      KeptIsClean(s);
    }
  }

  lemma ParseWrittenHostPort(host: string, port: Option<nat>, credentials: bool, platform: Platform)
    requires KeptHost(host, platform)
    ensures ParseHostPort(host + PortText(port), credentials, platform)
      == if port.Some? && port.value > 65535 then None else Some((host, port))
  {
    KeptHostIsKept(host, platform);
    KeptHostEnds(host, PortText(port), platform);
    KeptHostCharacters(host, platform);
    if port.Some? {
      DecimalBack(port.value);
      assert PortText(port)[1..] == Decimal(port.value) && |PortText(port)| > 1;
    }
  }

  lemma {:induction false} NoLast(s: string, c: char)
    requires c !in s
    ensures AfterLast(s, c) == s
  {
    if s != "" {
      NoLast(s[..|s| - 1], c);
    }
  }

  /** Path and suffix after an authority that holds none of the delimiters. */
  lemma AuthorityPathAndSuffix(authority: string, path: string, suffix: string)
    requires forall c <- authority :: !EndsAuthority(c)
    requires path != "" && path[0] == '/' && (forall c <- path :: !EndsPath(c)) && IsSuffix(suffix)
    ensures Before(authority + path + suffix, EndsAuthority) == authority
    ensures Before(From(authority + path + suffix, EndsAuthority), EndsPath) == path
  {
    assert authority + path + suffix == authority + (path + suffix);
    SplitBefore(authority, path + suffix, EndsAuthority);
    SplitBefore(path, suffix, EndsPath);
  }

  lemma CredentialsCut(credentials: Option<(string, string)>, hostPort: string)
    requires Plain(NameOf(credentials)) && Plain(SecretOf(credentials))
    requires forall c <- hostPort :: !EndsAuthority(c) && c != '@'
    ensures var authority := CredentialsText(credentials) + hostPort;
      && (forall c <- authority :: !EndsAuthority(c))
      && AfterLast(authority, '@') == hostPort && ('@' in authority <==> credentials.Some?)
      && (credentials.Some? ==>
            authority[..|authority| - |hostPort| - 1] == NameOf(credentials) + ":" + SecretOf(credentials))
  {
    var user, password := NameOf(credentials), SecretOf(credentials);
    PlainCharacters(user);
    PlainCharacters(password);
    if credentials.Some? {
      CredentialsAndHost(user + ":" + password, hostPort);
      assert CredentialsText(credentials) + hostPort == (user + ":" + password) + "@" + hostPort;
    } else {
      NoLast(hostPort, '@');
      assert CredentialsText(credentials) + hostPort == hostPort;
    }
  }

  lemma AssemblePlain(user: string, password: string, hostPort: Option<(string, Option<nat>)>, path: string)
    requires Plain(user) && Plain(password)
    ensures Assemble(user + ":" + password, hostPort, path) ==
      if hostPort.None? then None else Some(Url(user, password, hostPort.value.0, hostPort.value.1, path))
  {
    PlainCharacters(user);
    PlainCharacters(password);
    SplitAtColon(user, password);
    assert (":" + password)[1..] == password;
  }

  lemma AuthorityCut(authority: string, hostPort: string, userinfo: string, path: string, suffix: string,
                     platform: Platform)
    requires forall c <- authority :: !EndsAuthority(c)
    requires AfterLast(authority, '@') == hostPort
    requires userinfo == if '@' in authority then authority[..|authority| - |hostPort| - 1] else ""
    requires path != "" && path[0] == '/' && (forall c <- path :: !EndsPath(c)) && IsSuffix(suffix)
    ensures ParseAuthority(authority + path + suffix, platform)
      == Assemble(userinfo, ParseHostPort(hostPort, '@' in authority, platform), KeepPath(path))
  {
    AuthorityPathAndSuffix(authority, path, suffix);
  }

  lemma AssembleNone(hostPort: Option<(string, Option<nat>)>, path: string)
    ensures Assemble("", hostPort, path) ==
      if hostPort.None? then None else Some(Url("", "", hostPort.value.0, hostPort.value.1, path))
  {
  }

  /** The parser, once the text is cut at its delimiters. */
  lemma ParseCut(credentials: Option<(string, string)>, hostPort: string, path: string, suffix: string,
                 platform: Platform)
    requires Plain(NameOf(credentials)) && Plain(SecretOf(credentials))
    requires forall c <- hostPort :: !EndsAuthority(c) && c != '@'
    requires path != "" && path[0] == '/' && (forall c <- path :: !EndsPath(c)) && IsSuffix(suffix)
    ensures var parsed := ParseHostPort(hostPort, credentials.Some?, platform);
      ParseAuthority(CredentialsText(credentials) + hostPort + path + suffix, platform)
        == if parsed.None? then None
           else Some(Url(NameOf(credentials), SecretOf(credentials), parsed.value.0, parsed.value.1, KeepPath(path)))
  {
    var parsed := ParseHostPort(hostPort, credentials.Some?, platform);
    CredentialsCut(credentials, hostPort);
    if credentials.Some? {
      var userinfo := NameOf(credentials) + ":" + SecretOf(credentials);
      AuthorityCut(CredentialsText(credentials) + hostPort, hostPort, userinfo, path, suffix, platform);
      AssemblePlain(NameOf(credentials), SecretOf(credentials), parsed, KeepPath(path));
    } else {
      AuthorityCut(CredentialsText(credentials) + hostPort, hostPort, "", path, suffix, platform);
      AssembleNone(parsed, KeepPath(path));
    }
  }

  /** Nothing in a written URL is stripped: every part holds printable characters only. */
  lemma WrittenIsPrepared(scheme: string, rest: string)
    requires IsMysql(scheme) && rest != "" && rest[|rest| - 1] > ' ' && NoBreak(rest)
    ensures var url := scheme + "://" + rest; Prepared(url) == url && HasScheme(url) && url[8..] == rest
  {
    var url := scheme + "://" + rest;
    assert NoBreak(scheme + "://");
    NoBreakAppend(scheme + "://", rest);
    NothingToStrip(url);
  }

  lemma CredentialsArePrintable(credentials: Option<(string, string)>)
    requires Plain(NameOf(credentials)) && Plain(SecretOf(credentials))
    ensures forall c <- CredentialsText(credentials) :: c > ' '
  {
    var user, password := NameOf(credentials), SecretOf(credentials);
    PlainCharacters(user);
    PlainCharacters(password);
    JoinedPrintable(user, password);
  }

  lemma JoinedPrintable(a: string, b: string)
    requires (forall c <- a :: c > ' ') && forall c <- b :: c > ' '
    ensures forall c <- a + ":" + b + "@" :: c > ' '
  {
  }

  lemma HostAndPortCharacters(host: string, port: Option<nat>, platform: Platform)
    requires KeptHost(host, platform)
    ensures forall c <- host + PortText(port) :: c > ' ' && !EndsAuthority(c) && c != '@'
  {
    KeptHostCharacters(host, platform);
    if port.Some? {
      DecimalBack(port.value);
    }
  }

  lemma PathCharacters(database: string)
    requires KeptDatabase(database)
    ensures forall c <- "/" + database :: c > ' ' && !EndsPath(c)
  {
  }

  function WrittenRest(credentials: Option<(string, string)>, host: string, port: Option<nat>, database: string,
                       suffix: string): string
  {
    CredentialsText(credentials) + (host + PortText(port)) + ("/" + database) + suffix
  }

  lemma ParseWrittenUrl(scheme: string, credentials: Option<(string, string)>, host: string, port: Option<nat>,
                        database: string, suffix: string, platform: Platform)
    requires IsMysql(scheme) && KeptHost(host, platform) && KeptDatabase(database) && IsSuffix(suffix)
    requires Plain(NameOf(credentials)) && Plain(SecretOf(credentials))
    ensures ParseUrl(scheme + "://" + WrittenRest(credentials, host, port, database, suffix), platform) ==
      if port.Some? && port.value > 65535 then None
      else Some(Url(NameOf(credentials), SecretOf(credentials), host, port, "/" + database))
  {
    var rest := WrittenRest(credentials, host, port, database, suffix);
    CredentialsArePrintable(credentials);
    HostAndPortCharacters(host, port, platform);
    PathCharacters(database);
    AllPrintable(CredentialsText(credentials), host + PortText(port), "/" + database, suffix);
    WrittenIsPrepared(scheme, rest);
    ParseCut(credentials, host + PortText(port), "/" + database, suffix, platform);
    ParseWrittenHostPort(host, port, credentials.Some?, platform);
    KeptPath(database);
  }

  lemma AllPrintable(a: string, b: string, c: string, d: string)
    requires c != "" && (forall x <- a :: x > ' ') && (forall x <- b :: x > ' ')
    requires (forall x <- c :: x > ' ') && forall x <- d :: x > ' '
    ensures var s := a + b + c + d; s != "" && s[|s| - 1] > ' ' && NoBreak(s)
  {
    var s := a + b + c + d;
    assert s[|s| - 1] in s;
  }

  /**
   A URL written by hand, the scheme in any case, with or without credentials, port, and query or
   fragment: it parses unless the port is too large, a port left out or zero becomes 3306, and what
   is not given is absent.
   */
  lemma ParseWritten(scheme: string, credentials: Option<(string, string)>, host: string, port: Option<nat>,
                     database: string, suffix: string, platform: Platform)
    requires IsMysql(scheme) && KeptHost(host, platform) && KeptDatabase(database) && IsSuffix(suffix)
    requires Plain(NameOf(credentials)) && Plain(SecretOf(credentials))
    ensures var url := scheme + "://" + WrittenRest(credentials, host, port, database, suffix);
      ParseDatabaseUrl(url, platform) ==
        if port.Some? && port.value > 65535 then Err(InvalidUrl)
        else Ok(Details(host, if port.Some? && port.value > 0 then port.value else 3306, Some(database),
                        if NameOf(credentials) == "" then None else Some(NameOf(credentials)),
                        if SecretOf(credentials) == "" then None else Some(SecretOf(credentials)), Some(url)))
  {
    ParseWrittenUrl(scheme, credentials, host, port, database, suffix, platform);
    KeptPath(database);
    KeptHostCharacters(host, platform);
    KeptIsClean(host);
    KeptIsClean(database);
    PlainCharacters(NameOf(credentials));
    PlainCharacters(SecretOf(credentials));
  }

  // ----- what the parser returns is kept when built and parsed again

  lemma {:induction false} EscapeCharacters(inSet: char -> bool, s: string)
    ensures forall c <- EscapeIf(inSet, s) :: IsSafe(c) || (c in s && !inSet(c))
  {
    if s != "" {
      EscapeCharacters(inSet, s[1..]);
      EscapeAllIsSafe(Utf8(s[0]));
    }
  }

  lemma SafeIsKept(c: char)
    requires IsSafe(c)
    ensures !NeedsEscapeInHost(c) && !ForbiddenInHost(c) && !InPathSet(c)
  {
  }

  lemma ParsedHostIsKept(s: string, credentials: bool, platform: Platform)
    requires ParseHostPort(s, credentials, platform).Some?
    ensures var host := ParseHostPort(s, credentials, platform).value.0; host == "" || KeptHost(host, platform)
  {
    var host := HostPart(s, false);
    if IsBracketed(host) {
      var address := platform.ipv6(host[1..|host| - 1]).value;
      assert Bracket(address)[1..|address| + 1] == address;
    } else {
      EscapeCharacters(NeedsEscapeInHost, host);
      forall c | c in EscapeIf(NeedsEscapeInHost, host)
        ensures !NeedsEscapeInHost(c) && !ForbiddenInHost(c)
      {
        if IsSafe(c) {
          SafeIsKept(c);
        }
      }
    }
  }

  /** A segment of a path that stays as it is. */
  predicate KeptSegment(s: string) {
    !IsDots(s) && forall c <- s :: !InPathSet(c) && c != '/'
  }

  lemma {:induction false} SegmentCharacters(s: string)
    requires forall c <- s :: !InPathSet(c)
    ensures forall segment <- Segments(s) :: IsDots(segment) || KeptSegment(segment)
    decreases |s|
  {
    BeforeAndFrom(s, IsSlash);
    FromIsShorter(s, IsSlash);
    var first, rest := Before(s, IsSlash), From(s, IsSlash);
    assert forall c <- first :: c in first + rest;
    if rest != "" {
      assert forall c <- rest[1..] :: c in first + rest;
      SegmentCharacters(rest[1..]);
    }
  }

  lemma EnterKeeps(path: seq<string>, segment: string, last: bool)
    requires (forall s <- path :: KeptSegment(s)) && (IsDots(segment) || KeptSegment(segment))
    ensures forall s <- Enter(path, segment, last) :: KeptSegment(s)
  {
  }

  lemma {:induction false} ResolvedSegments(path: seq<string>, segments: seq<string>)
    requires forall s <- path :: KeptSegment(s)
    requires forall s <- segments :: IsDots(s) || KeptSegment(s)
    ensures forall s <- ResolveDots(path, segments) :: KeptSegment(s)
    decreases |segments|
  {
    if segments != [] {
      EnterKeeps(path, segments[0], |segments| == 1);
      ResolvedSegments(Enter(path, segments[0], |segments| == 1), segments[1..]);
    }
  }

  lemma {:induction false} SegmentsOfJoined(first: string, rest: seq<string>)
    requires KeptSegment(first) && forall s <- rest :: KeptSegment(s)
    ensures Segments(first + JoinPath(rest)) == [first] + rest
    decreases |rest|
  {
    SplitBefore(first, JoinPath(rest), IsSlash);
    if rest != [] {
      SegmentsOfJoined(rest[0], rest[1..]);
      assert JoinPath(rest)[1..] == rest[0] + JoinPath(rest[1..]);
      assert [rest[0]] + rest[1..] == rest;
    } else {
      assert [first] + [] == [first];
    }
  }

  lemma {:induction false} JoinedCharacters(path: seq<string>)
    requires forall s <- path :: KeptSegment(s)
    ensures forall c <- JoinPath(path) :: !InPathSet(c)
  {
    if path != [] {
      JoinedCharacters(path[1..]);
      assert path[0] in path;
    }
  }

  lemma {:induction false} StrippedPathIsKept(path: seq<string>)
    requires forall s <- path :: KeptSegment(s)
    ensures var database := StripSlashes(JoinPath(path)); database == "" || KeptDatabase(database)
  {
    if path != [] {
      var first, rest := path[0], JoinPath(path[1..]);
      assert JoinPath(path)[1..] == first + rest;
      if first == "" {
        assert first + rest == rest;
        StrippedPathIsKept(path[1..]);
      } else {
        JoinedCharacters(path);
        SegmentsOfJoined(first, path[1..]);
        assert first[0] in first;
        assert (first + rest)[0] == first[0] != '/';
        assert StripSlashes(JoinPath(path)) == StripSlashes(first + rest) == first + rest;
        assert forall c <- first + rest :: c in JoinPath(path);
      }
    }
  }

  lemma ParsedPathIsKept(raw: string)
    ensures var database := StripSlashes(KeepPath(raw)); database == "" || KeptDatabase(database)
  {
    if raw != "" {
      var escaped := EscapeIf(InPathSet, raw[1..]);
      EscapeCharacters(InPathSet, raw[1..]);
      forall c | c in escaped
        ensures !InPathSet(c)
      {
        if IsSafe(c) {
          SafeIsKept(c);
        }
      }
      SegmentCharacters(escaped);
      ResolvedSegments([], Segments(escaped));
      StrippedPathIsKept(ResolveDots([], Segments(escaped)));
    }
  }

  lemma ParsedUrlIsKept(rest: string, platform: Platform)
    requires ParseAuthority(rest, platform).Some?
    ensures var url := ParseAuthority(rest, platform).value;
      && (url.host == "" || KeptHost(url.host, platform))
      && (StripSlashes(url.path) == "" || KeptDatabase(StripSlashes(url.path)))
      && (url.port.Some? ==> url.port.value <= 65535)
  {
    var authority, path := Before(rest, EndsAuthority), Before(From(rest, EndsAuthority), EndsPath);
    ParsedHostIsKept(AfterLast(authority, '@'), '@' in authority, platform);
    ParsedPathIsKept(path);
  }

  /** Details that come out of a URL, any URL, are of the kind that a URL can be built from. */
  lemma DetailsAreKept(url: string, platform: Platform)
    requires ParseDatabaseUrl(url, platform).Ok?
    ensures var d := ParseDatabaseUrl(url, platform).details;
      && KeptHost(d.host, platform) && (d.database.Some? ==> KeptDatabase(d.database.value))
      && 1 <= d.port <= 65535
      && (d.user.Some? ==> Clean(d.user.value) == d.user)
      && (d.password.Some? ==> Clean(d.password.value) == d.password)
  {
    var parsed := ParseUrl(url, platform).value;
    ParsedUrlIsKept(Prepared(url)[8..], platform);
    if parsed.host != "" {
      KeptHostCharacters(parsed.host, platform);
      KeptIsClean(parsed.host);
    } else {
      DefaultHostIsKept(platform);
    }
    if StripSlashes(parsed.path) != "" {
      KeptIsClean(StripSlashes(parsed.path));
    }
    CleanIsIdempotent(Decode(parsed.username).value);
    CleanIsIdempotent(Decode(parsed.password).value);
  }

  lemma DefaultHostIsKept(platform: Platform)
    ensures KeptHost("127.0.0.1", platform)
  {
  }

  /** Parsing, building and parsing again loses nothing: one round settles every URL. */
  lemma RebuildReparses(url: string, platform: Platform)
    requires ParseDatabaseUrl(url, platform).Ok?
    ensures var d := ParseDatabaseUrl(url, platform).details;
      d.database.Some? && d.user.Some? && d.password.Some? ==>
        var again := Build(Parts(d.host, d.port, d.database.value, d.user.value, d.password.value));
        ParseDatabaseUrl(again, platform) == Ok(d.(url := Some(again)))
  {
    DetailsAreKept(url, platform);
    var d := ParseDatabaseUrl(url, platform).details;
    if d.database.Some? && d.user.Some? && d.password.Some? {
      ParseBuilt(Parts(d.host, d.port, d.database.value, d.user.value, d.password.value), platform);
    }
  }

  /**
   The exact condition for the round trip of any five parts: a host and a database that the parser
   keeps, a port that a URL can carry, and credentials that are non-empty and trimmed.
   */
  lemma RoundTripIff(p: Parts, platform: Platform)
    ensures var details := Details(p.host, p.port, Some(p.database), Some(p.user), Some(p.password), Some(Build(p)));
      ParseDatabaseUrl(Build(p), platform) == Ok(details) <==>
        && KeptHost(p.host, platform) && KeptDatabase(p.database) && 1 <= p.port <= 65535
        && Clean(p.user) == Some(p.user) && Clean(p.password) == Some(p.password)
  {
    if KeptHost(p.host, platform) && KeptDatabase(p.database) {
      ParseBuilt(p, platform);
    } else if ParseDatabaseUrl(Build(p), platform).Ok? {
      DetailsAreKept(Build(p), platform);
    }
  }
}
