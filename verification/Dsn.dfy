/** Data source names: parsing, printing the ingest URL, and the host check every transport makes. */
module Dsn {
  import opened Prelude
  import opened TextLines
  import Json

  const MAX_DSN_LEN: nat := 256
  const MAX_HOST_LEN: nat := 128
  const MAX_KEY_LEN: nat := 64
  const MAX_PATH_LEN: nat := 64
  const MAX_PROJECT_ID_LEN: nat := 24
  const MAX_ORG_ID_LEN: nat := 21

  datatype Dsn = Dsn(isSecure: bool, publicKey: string, host: string, port: nat, path: string, projectId: string, orgId: string)

  predicate AllDigits(t: string) {
    forall i :: 0 <= i < |t| ==> '0' <= t[i] <= '9'
  }

  /** 1 to 65535 in at most five digits. */
  function ParsePort(t: string): Option<nat> {
    if |t| == 0 || |t| > 5 || !AllDigits(t) then None
    else if Json.Value(t) == 0 || Json.Value(t) > 65535 then None
    else Some(Json.Value(t))
  }

  method ReadPort(t: string) returns (port: Option<nat>)
    ensures port == ParsePort(t)
  {
    if |t| == 0 || |t| > 5 {
      return None;
    }
    var value: nat := 0;
    for i := 0 to |t|
      invariant AllDigits(t[..i]) && value == Json.Value(t[..i])
    {
      if t[i] < '0' || t[i] > '9' {
        return None;
      }
      assert t[..i + 1][..i] == t[..i];
      value := value * 10 + (t[i] as int - '0' as int);
    }
    assert t[..|t|] == t;
    return if value == 0 || value > 65535 then None else Some(value);
  }

  /** The digits of an `o<digits>.` host prefix, or nothing. */
  function OrgIdOf(host: string): string {
    var dot := IndexOf(host, '.');
    if host == "" || host[0] != 'o' || dot == |host| || dot <= 1 || dot - 1 >= MAX_ORG_ID_LEN || !AllDigits(host[1..dot]) then ""
    else host[1..dot]
  }

  /** Without its trailing slashes. */
  function TrimSlashes(t: string): (r: string)
    ensures r <= t
  {
    if t != "" && t[|t| - 1] == '/' then TrimSlashes(t[..|t| - 1]) else t
  }

  /** Just past the last slash, or 0. */
  function AfterLastSlash(t: string): (n: nat)
    ensures n <= |t| && (n > 0 ==> t[n - 1] == '/') && forall k :: n <= k < |t| ==> t[k] != '/'
  {
    if t == "" then 0 else if t[|t| - 1] == '/' then |t| else AfterLastSlash(t[..|t| - 1])
  }

  /** The path and the project id at its end. */
  function ParsePath(t: string): Option<(string, string)> {
    var trimmed := TrimSlashes(t);
    var last := AfterLastSlash(trimmed);
    var project := trimmed[last..];
    if project == "" || |project| + 1 > MAX_PROJECT_ID_LEN || !AllDigits(project) then None
    else
      var path := if last > 0 then trimmed[..last - 1] else "";
      if |path| + 1 > MAX_PATH_LEN then None else Some((path, project))
  }

  function ParseAuthority(t: string): Option<(string, nat)> {
    var colon := IndexOf(t, ':');
    var host := t[..colon];
    var port := if colon < |t| then ParsePort(t[colon + 1..]) else Some(0);
    if port == None || host == "" || |host| + 1 > MAX_HOST_LEN then None else Some((host, port.value))
  }

  /** The public half of the key, and what follows the '@'. */
  function ParseKey(t: string): Option<(string, string)> {
    var at := IndexOf(t, '@');
    if at == |t| || at == 0 then None
    else
      var key := t[..IndexOf(t[..at], ':')];
      if key == "" || |key| + 1 > MAX_KEY_LEN then None else Some((key, t[at + 1..]))
  }

  datatype Location = Location(host: string, port: nat, path: string, projectId: string)

  /** `host[:port][/path]/project` */
  function ParseLocation(t: string): Option<Location> {
    var slash := IndexOf(t, '/');
    if slash == |t| then None
    else
      var authority, path := ParseAuthority(t[..slash]), ParsePath(t[slash..]);
      if authority == None || path == None then None
      else Some(Location(authority.value.0, authority.value.1, path.value.0, path.value.1))
  }

  /** Everything after the scheme. */
  function ParseRest(isSecure: bool, t: string): Option<Dsn> {
    var key := ParseKey(t);
    if key == None then None
    else
      var l := ParseLocation(key.value.1);
      if l == None then None
      else Some(Dsn(isSecure, key.value.0, l.value.host, l.value.port, l.value.path, l.value.projectId, OrgIdOf(l.value.host)))
  }

  function Scheme(isSecure: bool): string {
    (if isSecure then "https" else "http") + "://"
  }

  function Parse(dsn: string): Option<Dsn> {
    if |dsn| == 0 || |dsn| >= MAX_DSN_LEN then None
    else if Scheme(true) <= dsn then ParseRest(true, dsn[8..])
    else if Scheme(false) <= dsn then ParseRest(false, dsn[7..])
    else None
  }

  // ---- The parser's loops

  method TrimmedLength(t: string) returns (end: nat)
    ensures end <= |t| && t[..end] == TrimSlashes(t)
  {
    end := |t|;
    assert t[..end] == t;
    while end > 0 && t[end - 1] == '/'
      invariant end <= |t| && TrimSlashes(t[..end]) == TrimSlashes(t)
    {
      assert t[..end][..end - 1] == t[..end - 1];
      end := end - 1;
    }
  }

  method PastLastSlash(t: string) returns (last: nat)
    ensures last == AfterLastSlash(t)
  {
    last := |t|;
    assert t[..last] == t;
    while last > 0 && t[last - 1] != '/'
      invariant last <= |t| && AfterLastSlash(t[..last]) == AfterLastSlash(t)
    {
      assert t[..last][..last - 1] == t[..last - 1];
      last := last - 1;
    }
  }

  method HasOnlyDigits(t: string) returns (digits: bool)
    ensures digits == AllDigits(t)
  {
    for i := 0 to |t|
      invariant AllDigits(t[..i])
    {
      if t[i] < '0' || t[i] > '9' {
        return false;
      }
    }
    assert t[..|t|] == t;
    return true;
  }

  method SplitPath(t: string) returns (r: Option<(string, string)>)
    ensures r == ParsePath(t)
  {
    var end := TrimmedLength(t);
    var trimmed := t[..end];
    var last := PastLastSlash(trimmed);
    var project := trimmed[last..];
    if |project| == 0 || |project| + 1 > MAX_PROJECT_ID_LEN {
      return None;
    }
    var digits := HasOnlyDigits(project);
    if !digits {
      return None;
    }
    var path := if last > 0 then trimmed[..last - 1] else "";
    return if |path| + 1 > MAX_PATH_LEN then None else Some((path, project));
  }

  method ReadAuthority(t: string) returns (r: Option<(string, nat)>)
    ensures r == ParseAuthority(t)
  {
    var colon := Find(t, ':');
    var port := Some(0);
    if colon < |t| {
      port := ReadPort(t[colon + 1..]);
      if port == None {
        return None;
      }
    }
    return if colon == 0 || colon + 1 > MAX_HOST_LEN then None else Some((t[..colon], port.value));
  }

  method ReadLocation(t: string) returns (r: Option<Location>)
    ensures r == ParseLocation(t)
  {
    var slash := Find(t, '/');
    if slash == |t| {
      return None;
    }
    var authority := ReadAuthority(t[..slash]);
    if authority == None {
      return None;
    }
    var path := SplitPath(t[slash..]);
    if path == None {
      return None;
    }
    return Some(Location(authority.value.0, authority.value.1, path.value.0, path.value.1));
  }

  method ReadKey(t: string) returns (r: Option<(string, string)>)
    ensures r == ParseKey(t)
  {
    var at := Find(t, '@');
    if at == |t| || at == 0 {
      return None;
    }
    var keyLen := Find(t[..at], ':');
    return if keyLen == 0 || keyLen + 1 > MAX_KEY_LEN then None else Some((t[..keyLen], t[at + 1..]));
  }

  method ParseAfterScheme(isSecure: bool, t: string) returns (r: Option<Dsn>)
    ensures r == ParseRest(isSecure, t)
  {
    var key := ReadKey(t);
    if key == None {
      return None;
    }
    var l := ReadLocation(key.value.1);
    if l == None {
      return None;
    }
    return Some(Dsn(isSecure, key.value.0, l.value.host, l.value.port, l.value.path, l.value.projectId, OrgIdOf(l.value.host)));
  }

  method ParseDsn(dsn: string) returns (r: Option<Dsn>)
    ensures r == Parse(dsn)
  {
    if |dsn| == 0 || |dsn| >= MAX_DSN_LEN {
      return None;
    }
    if Scheme(true) <= dsn {
      r := ParseAfterScheme(true, dsn[8..]);
    } else if Scheme(false) <= dsn {
      r := ParseAfterScheme(false, dsn[7..]);
    } else {
      r := None;
    }
  }

  // ---- Printing

  function PortPart(port: nat): string {
    if port == 0 then "" else ":" + Json.Decimal(port)
  }

  /** The DSN text of these fields. */
  function Print(d: Dsn): string {
    Scheme(d.isSecure) + (d.publicKey + ("@" + ((d.host + PortPart(d.port)) + ((d.path + "/") + d.projectId))))
  }

  function EnvelopeUrl(d: Dsn): string {
    Scheme(d.isSecure) + ((d.host + PortPart(d.port)) + (d.path + "/api/" + d.projectId + "/envelope/"))
  }

  predicate Without(t: string, c: char) {
    forall i :: 0 <= i < |t| ==> t[i] != c
  }

  /** Fields that fit their buffers and stay clear of the separators. */
  predicate WellFormed(d: Dsn) {
    && 0 < |d.publicKey| < MAX_KEY_LEN && Without(d.publicKey, '@') && Without(d.publicKey, ':')
    && 0 < |d.host| < MAX_HOST_LEN && Without(d.host, '/') && Without(d.host, ':')
    && d.port <= 65535
    && |d.path| < MAX_PATH_LEN && (d.path != "" ==> d.path[0] == '/')
    && 0 < |d.projectId| < MAX_PROJECT_ID_LEN && AllDigits(d.projectId)
    && d.orgId == OrgIdOf(d.host)
  }

  lemma {:induction false} IndexAfter(a: string, c: char, b: string)
    requires Without(a, c)
    ensures IndexOf(a + ([c] + b), c) == |a|
  {
    IndexIs(a + ([c] + b), c, |a|);
  }

  lemma {:induction false} NoIndex(a: string, c: char)
    requires Without(a, c)
    ensures IndexOf(a, c) == |a|
  {
    IndexIs(a, c, |a|);
  }

  lemma {:induction false} PortReadsBack(port: nat)
    requires 0 < port <= 65535
    ensures ParsePort(Json.Decimal(port)) == Some(port)
  {
    Json.ValueOfDecimal(port);
    assert Json.Shifted(1, 5) == 100000 by {
      assert Json.Shifted(1, 3) == 1000;
    }
    Json.DecimalLength(port, 5);
  }

  lemma {:induction false} AuthorityReadsBack(host: string, port: nat)
    requires 0 < |host| < MAX_HOST_LEN && Without(host, ':') && port <= 65535
    ensures ParseAuthority(host + PortPart(port)) == Some((host, port))
  {
    if port == 0 {
      assert host + PortPart(port) == host;
      NoIndex(host, ':');
    } else {
      PortReadsBack(port);
      PortedReadsBack(host, Json.Decimal(port), port);
    }
  }

  lemma {:induction false} PortedReadsBack(host: string, digits: string, port: nat)
    requires 0 < |host| < MAX_HOST_LEN && Without(host, ':') && ParsePort(digits) == Some(port)
    ensures ParseAuthority(host + (":" + digits)) == Some((host, port))
  {
    var t := host + (":" + digits);
    IndexIs(t, ':', |host|);
    assert t[..|host|] == host && t[|host| + 1..] == digits;
  }

  lemma {:induction false} PathReadsBack(path: string, project: string)
    requires |path| < MAX_PATH_LEN && 0 < |project| < MAX_PROJECT_ID_LEN && AllDigits(project)
    ensures ParsePath((path + "/") + project) == Some((path, project))
  {
    var t := (path + "/") + project;
    assert t[|t| - 1] == project[|project| - 1];
    assert TrimSlashes(t) == t;
    LastSlashIs(t, |path| + 1);
    assert t[|path| + 1..] == project && t[..|path|] == path;
  }

  lemma {:induction false} LastSlashIs(t: string, n: nat)
    requires 0 < n <= |t| && t[n - 1] == '/' && forall k :: n <= k < |t| ==> t[k] != '/'
    ensures AfterLastSlash(t) == n
    decreases |t|
  {
  }

  lemma {:induction false} PrintableParts(d: Dsn)
    requires WellFormed(d)
    ensures Without(PortPart(d.port), '/') && Without(PortPart(d.port), '@')
  {
  }

  /** Printing well-formed fields and parsing the text gives the fields back. */
  lemma {:induction false} ParsePrint(d: Dsn)
    requires WellFormed(d) && |Print(d)| < MAX_DSN_LEN
    ensures Parse(Print(d)) == Some(d)
  {
    var tail := (d.path + "/") + d.projectId;
    var authority := d.host + PortPart(d.port);
    var rest := d.publicKey + ("@" + (authority + tail));
    assert Print(d) == Scheme(d.isSecure) + rest;
    SchemesDiffer(d.isSecure, rest);
    RestReadsBack(d, authority, tail, rest);
  }

  lemma {:induction false} SchemesDiffer(isSecure: bool, rest: string)
    ensures var t := Scheme(isSecure) + rest;
      && Scheme(isSecure) <= t && t[if isSecure then 8 else 7..] == rest
      && (!isSecure ==> !(Scheme(true) <= t))
  {
    var t := Scheme(isSecure) + rest;
    assert !isSecure ==> t[4] == ':' && Scheme(true)[4] == 's';
  }

  lemma {:induction false} KeyReadsBack(key: string, after: string)
    requires 0 < |key| < MAX_KEY_LEN && Without(key, '@') && Without(key, ':')
    ensures ParseKey(key + (['@'] + after)) == Some((key, after))
  {
    var t := key + (['@'] + after);
    IndexAfter(key, '@', after);
    assert t[..|key|] == key && t[|key| + 1..] == after;
    NoIndex(key, ':');
  }

  lemma {:induction false} LocationReadsBack(d: Dsn, authority: string, tail: string)
    requires WellFormed(d) && authority == d.host + PortPart(d.port) && tail == (d.path + "/") + d.projectId
    ensures ParseLocation(authority + tail) == Some(Location(d.host, d.port, d.path, d.projectId))
  {
    PrintableParts(d);
    AuthorityReadsBack(d.host, d.port);
    PathReadsBack(d.path, d.projectId);
    assert tail[0] == '/';
    LocationFromParts(authority, tail, (d.host, d.port), (d.path, d.projectId));
  }

  lemma {:induction false} LocationFromParts(authority: string, tail: string, a: (string, nat), p: (string, string))
    requires Without(authority, '/') && tail != "" && tail[0] == '/'
    requires ParseAuthority(authority) == Some(a) && ParsePath(tail) == Some(p)
    ensures ParseLocation(authority + tail) == Some(Location(a.0, a.1, p.0, p.1))
  {
    var t := authority + tail;
    IndexIs(t, '/', |authority|);
    assert t[..|authority|] == authority && t[|authority|..] == tail;
  }

  lemma {:induction false} RestReadsBack(d: Dsn, authority: string, tail: string, rest: string)
    requires WellFormed(d) && authority == d.host + PortPart(d.port) && tail == (d.path + "/") + d.projectId
    requires rest == d.publicKey + ("@" + (authority + tail))
    ensures ParseRest(d.isSecure, rest) == Some(d)
  {
    KeyReadsBack(d.publicKey, authority + tail);
    LocationReadsBack(d, authority, tail);
  }

  // ---- The host check

  function Lower(c: char): char {
    if 'A' <= c <= 'Z' then 'a' + (c - 'A') else c
  }

  predicate SameHost(a: string, b: string) {
    |a| == |b| && forall i :: 0 <= i < |a| ==> Lower(a[i]) == Lower(b[i])
  }

  /** Where "://" first occurs, or nothing. */
  function SchemeEnd(url: string): Option<nat> {
    if |url| < 3 then None
    else if url[..3] == "://" then Some(3)
    else
      var r := SchemeEnd(url[1..]);
      if r == None then None else Some(r.value + 1)
  }

  /** The authority of a URL, from the scheme to the first slash or the end. */
  function Authority(url: string): Option<string> {
    var r := SchemeEnd(url);
    if r == None || r.value > |url| then None else Some(url[r.value..][..IndexOf(url[r.value..], '/')])
  }

  /** The authority brings no user info, and before any port it is this host, whatever its case. */
  predicate HostMatches(url: string, host: string) {
    var a := Authority(url);
    && host != "" && a.Some?
    && IndexOf(a.value, '@') == |a.value|
    && (var bare := a.value[..IndexOf(a.value, ':')]; bare != "" && SameHost(bare, host))
  }

  method UrlHostMatches(url: string, host: string) returns (matches: bool)
    ensures matches == HostMatches(url, host)
  {
    if host == "" {
      return false;
    }
    var start := SchemeEnd(url);
    if start == None {
      return false;
    }
    SchemeEndInside(url);
    var rest := url[start.value..];
    var slash := Find(rest, '/');
    var authority := rest[..slash];
    var at := Find(authority, '@');
    if at < |authority| {
      return false;
    }
    var len := Find(authority, ':');
    if len == 0 || |host| != len {
      return false;
    }
    for i := 0 to len
      invariant forall k :: 0 <= k < i ==> Lower(authority[k]) == Lower(host[k])
    {
      if Lower(authority[i]) != Lower(host[i]) {
        return false;
      }
    }
    return true;
  }

  lemma {:induction false} SchemeEndInside(url: string)
    ensures SchemeEnd(url).Some? ==> 3 <= SchemeEnd(url).value <= |url|
  {
    if |url| >= 3 && url[..3] != "://" {
      SchemeEndInside(url[1..]);
    }
  }

  lemma {:induction false} LettersAreSkipped(letters: string, rest: string)
    requires Without(letters, ':')
    ensures SchemeEnd(letters + ("://" + rest)) == Some(|letters| + 3)
    decreases |letters|
  {
    var t := letters + ("://" + rest);
    if letters == "" {
      assert t == "://" + rest && t[..3] == "://";
    } else {
      assert t[..3][0] == letters[0];
      assert t[1..] == letters[1..] + ("://" + rest);
      LettersAreSkipped(letters[1..], rest);
    }
  }

  lemma {:induction false} SchemeIsSkipped(isSecure: bool, rest: string)
    ensures SchemeEnd(Scheme(isSecure) + rest) == Some(|Scheme(isSecure)|)
  {
    var letters := if isSecure then "https" else "http";
    assert Scheme(isSecure) + rest == letters + ("://" + rest);
    LettersAreSkipped(letters, rest);
  }

  // ---- What parsing promises about the fields it stored

  lemma {:induction false} ParsedAuthority(t: string)
    requires Without(t, '/') && ParseAuthority(t).Some?
    ensures var (host, port) := ParseAuthority(t).value;
      0 < |host| < MAX_HOST_LEN && Without(host, '/') && Without(host, ':') && port <= 65535
  {
  }

  lemma {:induction false} ParsedPath(t: string)
    requires t != "" && t[0] == '/' && ParsePath(t).Some?
    ensures var (path, project) := ParsePath(t).value;
      && |path| < MAX_PATH_LEN && (path != "" ==> path[0] == '/')
      && 0 < |project| < MAX_PROJECT_ID_LEN && AllDigits(project)
  {
  }

  lemma {:induction false} ParsedLocation(t: string, l: Location)
    requires ParseLocation(t) == Some(l)
    ensures 0 < |l.host| < MAX_HOST_LEN && Without(l.host, '/') && Without(l.host, ':') && l.port <= 65535
    ensures |l.path| < MAX_PATH_LEN && (l.path != "" ==> l.path[0] == '/')
    ensures 0 < |l.projectId| < MAX_PROJECT_ID_LEN && AllDigits(l.projectId)
  {
    var slash := IndexOf(t, '/');
    ParsedAuthority(t[..slash]);
    ParsedPath(t[slash..]);
  }

  lemma {:induction false} ParsedKey(t: string, key: string, after: string)
    requires ParseKey(t) == Some((key, after))
    ensures 0 < |key| < MAX_KEY_LEN && Without(key, '@') && Without(key, ':')
  {
  }

  /** Everything the parser accepts is well-formed. */
  lemma {:induction false} ParsedIsWellFormed(dsn: string, d: Dsn)
    requires Parse(dsn) == Some(d)
    ensures WellFormed(d)
  {
    var t := dsn[if Scheme(true) <= dsn then 8 else 7..];
    var (key, after) := ParseKey(t).value;
    ParsedKey(t, key, after);
    ParsedLocation(after, ParseLocation(after).value);
  }

  // ---- The grammar

  /** What the text of a DSN holds besides its fields: a secret, its own spelling of the port, trailing slashes. */
  datatype Spelling = Spelling(secret: string, port: string, slashes: string)

  predicate SpellsPort(t: string, port: nat) {
    if t == "" then port == 0
    else t[0] == ':' && 2 <= |t| <= 6 && AllDigits(t[1..]) && Json.Value(t[1..]) == port && 0 < port <= 65535
  }

  predicate AllSlashes(t: string) {
    forall i :: 0 <= i < |t| ==> t[i] == '/'
  }

  predicate Spelled(d: Dsn, s: Spelling) {
    (s.secret != "" ==> s.secret[0] == ':') && Without(s.secret, '@') && SpellsPort(s.port, d.port) && AllSlashes(s.slashes)
  }

  /** `key[:secret]@host[:port][/path]/project[/...]` */
  function Written(d: Dsn, s: Spelling): string {
    (d.publicKey + s.secret) + ("@" + ((d.host + s.port) + (((d.path + "/") + d.projectId) + s.slashes)))
  }

  predicate Spells(dsn: string, d: Dsn, s: Spelling) {
    |dsn| < MAX_DSN_LEN && WellFormed(d) && Spelled(d, s) && dsn == Scheme(d.isSecure) + Written(d, s)
  }

  lemma {:induction false} SecretIsIgnored(key: string, secret: string, after: string)
    requires 0 < |key| < MAX_KEY_LEN && Without(key, '@') && Without(key, ':')
    requires Without(secret, '@') && (secret != "" ==> secret[0] == ':')
    ensures ParseKey((key + secret) + (['@'] + after)) == Some((key, after))
  {
    var both := key + secret;
    var t := both + (['@'] + after);
    WithoutJoin(key, secret, '@');
    IndexAfter(both, '@', after);
    IndexIs(both, ':', |key|);
    assert t[..|both|] == both && t[|both| + 1..] == after && both[..|key|] == key == t[..|key|];
  }

  lemma {:induction false} SlashesAreTrimmed(t: string, slashes: string)
    requires AllSlashes(slashes)
    ensures TrimSlashes(t + slashes) == TrimSlashes(t)
    decreases |slashes|
  {
    if slashes == "" {
      assert t + slashes == t;
    } else {
      var front := slashes[..|slashes| - 1];
      assert (t + slashes)[..|t + slashes| - 1] == t + front;
      SlashesAreTrimmed(t, front);
    }
  }

  lemma {:induction false} SlashesAreIgnored(t: string, slashes: string)
    requires AllSlashes(slashes)
    ensures ParsePath(t + slashes) == ParsePath(t)
  {
    SlashesAreTrimmed(t, slashes);
  }

  lemma {:induction false} SpelledAuthority(host: string, port: nat, spelled: string)
    requires 0 < |host| < MAX_HOST_LEN && Without(host, ':') && SpellsPort(spelled, port)
    ensures ParseAuthority(host + spelled) == Some((host, port))
  {
    if spelled == "" {
      assert host + spelled == host;
      NoIndex(host, ':');
    } else {
      assert spelled == ":" + spelled[1..];
      PortedReadsBack(host, spelled[1..], port);
    }
  }

  predicate SpellsLocation(t: string, l: Location, port: string, slashes: string) {
    && SpellsPort(port, l.port) && AllSlashes(slashes)
    && t == (l.host + port) + (((l.path + "/") + l.projectId) + slashes)
  }

  function LocationIn(d: Dsn): Location {
    Location(d.host, d.port, d.path, d.projectId)
  }

  lemma {:induction false} SpelledLocation(t: string, d: Dsn, port: string, slashes: string)
    requires WellFormed(d) && SpellsLocation(t, LocationIn(d), port, slashes)
    ensures ParseLocation(t) == Some(LocationIn(d))
  {
    var tail := ((d.path + "/") + d.projectId) + slashes;
    SpelledAuthority(d.host, d.port, port);
    PathReadsBack(d.path, d.projectId);
    SlashesAreIgnored((d.path + "/") + d.projectId, slashes);
    PortHasNoSlash(port, d.port);
    WithoutJoin(d.host, port, '/');
    assert tail[0] == '/';
    LocationFromParts(d.host + port, tail, (d.host, d.port), (d.path, d.projectId));
  }

  lemma {:induction false} RestFromParts(isSecure: bool, t: string, key: string, location: string, l: Location)
    requires ParseKey(t) == Some((key, location)) && ParseLocation(location) == Some(l)
    ensures ParseRest(isSecure, t) == Some(Dsn(isSecure, key, l.host, l.port, l.path, l.projectId, OrgIdOf(l.host)))
  {
  }

  lemma {:induction false} SpelledRest(d: Dsn, s: Spelling)
    requires WellFormed(d) && Spelled(d, s)
    ensures ParseRest(d.isSecure, Written(d, s)) == Some(d)
  {
    var location := (d.host + s.port) + (((d.path + "/") + d.projectId) + s.slashes);
    SpelledLocation(location, d, s.port, s.slashes);
    SecretIsIgnored(d.publicKey, s.secret, location);
    RestFromParts(d.isSecure, Written(d, s), d.publicKey, location, LocationIn(d));
  }

  lemma {:induction false} SchemeThen(isSecure: bool, rest: string)
    requires |Scheme(isSecure) + rest| < MAX_DSN_LEN
    ensures Parse(Scheme(isSecure) + rest) == ParseRest(isSecure, rest)
  {
    SchemesDiffer(isSecure, rest);
  }

  lemma {:induction false} SpelledParses(dsn: string, d: Dsn, s: Spelling)
    requires Spells(dsn, d, s)
    ensures Parse(dsn) == Some(d)
  {
    SpelledRest(d, s);
    SchemeThen(d.isSecure, Written(d, s));
  }

  lemma {:induction false} PortHasNoSlash(spelled: string, port: nat)
    requires SpellsPort(spelled, port)
    ensures Without(spelled, '/')
  {
    assert forall k :: 0 < k < |spelled| ==> spelled[k] == spelled[1..][k - 1];
  }

  lemma {:induction false} SlashesWereTrimmed(t: string)
    ensures AllSlashes(t[|TrimSlashes(t)|..])
    decreases |t|
  {
    if t != "" && t[|t| - 1] == '/' {
      var front := t[..|t| - 1];
      SlashesWereTrimmed(front);
      assert t[|TrimSlashes(t)|..] == front[|TrimSlashes(t)|..] + "/";
    }
  }

  lemma {:induction false} PathWasSpelled(t: string, path: string, project: string)
    requires t != "" && t[0] == '/' && ParsePath(t) == Some((path, project))
    ensures AllSlashes(t[|TrimSlashes(t)|..]) && t == ((path + "/") + project) + t[|TrimSlashes(t)|..]
  {
    var trimmed := TrimSlashes(t);
    var last := AfterLastSlash(trimmed);
    SlashesWereTrimmed(t);
    assert trimmed != "" && trimmed[0] == '/';
    assert last > 0;
    assert trimmed == (path + "/") + project;
  }

  lemma {:induction false} AuthorityWasSpelled(t: string, host: string, port: nat)
    requires ParseAuthority(t) == Some((host, port))
    ensures t == host + t[|host|..] && SpellsPort(t[|host|..], port)
  {
    var colon := IndexOf(t, ':');
    if colon < |t| {
      assert t[|host|..][1..] == t[colon + 1..];
    }
  }

  lemma {:induction false} KeyWasSpelled(t: string, key: string, after: string)
    requires ParseKey(t) == Some((key, after))
    ensures var secret := t[|key|..IndexOf(t, '@')];
      && (secret != "" ==> secret[0] == ':') && Without(secret, '@') && t == (key + secret) + ("@" + after)
  {
    var at := IndexOf(t, '@');
    assert t[..at][..|key|] == key;
  }

  lemma {:induction false} LocationWasSpelled(t: string, l: Location) returns (port: string, slashes: string)
    requires ParseLocation(t) == Some(l)
    ensures SpellsLocation(t, l, port, slashes)
  {
    var slash := IndexOf(t, '/');
    var authority, tail := t[..slash], t[slash..];
    AuthorityWasSpelled(authority, l.host, l.port);
    PathWasSpelled(tail, l.path, l.projectId);
    port, slashes := authority[|l.host|..], tail[|TrimSlashes(tail)|..];
    assert t == authority + tail;
  }

  lemma {:induction false} RestWasSpelled(isSecure: bool, t: string, d: Dsn) returns (s: Spelling)
    requires ParseRest(isSecure, t) == Some(d)
    ensures Spelled(d, s) && t == Written(d, s) && d.isSecure == isSecure
  {
    var (key, after) := ParseKey(t).value;
    KeyWasSpelled(t, key, after);
    var port, slashes := LocationWasSpelled(after, LocationIn(d));
    s := Spelling(t[|key|..IndexOf(t, '@')], port, slashes);
  }

  lemma {:induction false} AfterScheme(dsn: string, d: Dsn)
    requires Parse(dsn) == Some(d)
    ensures |dsn| < MAX_DSN_LEN && Scheme(d.isSecure) <= dsn && ParseRest(d.isSecure, dsn[|Scheme(d.isSecure)|..]) == Some(d)
  {
  }

  lemma {:induction false} SchemeAndRest(dsn: string, d: Dsn, s: Spelling)
    requires |dsn| < MAX_DSN_LEN && WellFormed(d) && Spelled(d, s)
    requires Scheme(d.isSecure) <= dsn && dsn[|Scheme(d.isSecure)|..] == Written(d, s)
    ensures Spells(dsn, d, s)
  {
    Glue(dsn, Scheme(d.isSecure), Written(d, s));
  }

  lemma {:induction false} Glue(t: string, front: string, back: string)
    requires front <= t && t[|front|..] == back
    ensures t == front + back
  {
  }

  lemma {:induction false} ParsedWasSpelled(dsn: string, d: Dsn) returns (s: Spelling)
    requires Parse(dsn) == Some(d)
    ensures Spells(dsn, d, s)
  {
    ParsedIsWellFormed(dsn, d);
    AfterScheme(dsn, d);
    s := RestWasSpelled(d.isSecure, dsn[|Scheme(d.isSecure)|..], d);
    SchemeAndRest(dsn, d, s);
  }

  /**
   The parser accepts exactly the texts of the grammar, and stores exactly what they spell: a text
   parses to these fields if and only if it spells them.
   */
  lemma {:induction false} ParsesIffSpelled(dsn: string, d: Dsn)
    ensures Parse(dsn) == Some(d) <==> exists s :: Spells(dsn, d, s)
  {
    if Parse(dsn) == Some(d) {
      var s := ParsedWasSpelled(dsn, d);
    }
    if s :| Spells(dsn, d, s) {
      SpelledParses(dsn, d, s);
    }
  }

  // ---- Printing what was parsed

  lemma {:induction false} PortShrinks(digits: string, port: nat)
    requires ParsePort(digits) == Some(port)
    ensures |PortPart(port)| <= 1 + |digits|
  {
    Json.ValueBound(digits);
    Json.DecimalLength(port, |digits|);
  }

  lemma {:induction false} AuthorityShrinks(t: string, host: string, port: nat)
    requires ParseAuthority(t) == Some((host, port))
    ensures |host + PortPart(port)| <= |t|
  {
    var colon := IndexOf(t, ':');
    if colon < |t| {
      PortShrinks(t[colon + 1..], port);
    }
  }

  lemma {:induction false} PathShrinks(t: string, path: string, project: string)
    requires t != "" && t[0] == '/' && ParsePath(t) == Some((path, project))
    ensures |(path + "/") + project| <= |t|
  {
    var trimmed := TrimSlashes(t);
    assert trimmed != "" && trimmed[0] == '/';
    assert AfterLastSlash(trimmed) > 0;
  }

  lemma {:induction false} LocationShrinks(t: string, l: Location)
    requires ParseLocation(t) == Some(l)
    ensures |l.host + PortPart(l.port)| + |(l.path + "/") + l.projectId| <= |t|
  {
    var slash := IndexOf(t, '/');
    AuthorityShrinks(t[..slash], l.host, l.port);
    PathShrinks(t[slash..], l.path, l.projectId);
  }

  /** Secrets, trailing slashes and leading zeros of a port go; nothing is added. */
  lemma {:induction false} PrintShrinks(dsn: string, d: Dsn)
    requires Parse(dsn) == Some(d)
    ensures |Print(d)| <= |dsn|
  {
    var t := dsn[if Scheme(true) <= dsn then 8 else 7..];
    var (key, after) := ParseKey(t).value;
    LocationShrinks(after, ParseLocation(after).value);
    assert d.publicKey == key && |key| + 1 + |after| <= |t|;
    assert Scheme(d.isSecure) <= dsn && |dsn| == |Scheme(d.isSecure)| + |t|;
  }

  /** Whatever parses is printed as a text that parses to the same fields. */
  lemma {:induction false} PrintedParsesAgain(dsn: string, d: Dsn)
    requires Parse(dsn) == Some(d)
    ensures Parse(Print(d)) == Some(d)
  {
    ParsedIsWellFormed(dsn, d);
    PrintShrinks(dsn, d);
    ParsePrint(d);
  }

  // ---- The forms printed once at init

  const MAX_URL_LEN: nat := 320
  const MAX_AUTH_LEN: nat := 256
  const USER_AGENT: string := "sentry.micro.esp32/0.1.0"

  function AuthHeader(d: Dsn): string {
    "Sentry sentry_version=7, sentry_client=" + USER_AGENT + ", sentry_key=" + d.publicKey
  }

  /** What an init asks of a DSN: that it parses, and that both printed forms fit their buffers. */
  predicate Usable(dsn: string) {
    Parse(dsn).Some? && |EnvelopeUrl(Parse(dsn).value)| < MAX_URL_LEN && |AuthHeader(Parse(dsn).value)| < MAX_AUTH_LEN
  }

  /** What an init keeps: the URL and the auth header never change, so they are printed once. */
  datatype Ingest = Ingest(dsn: Dsn, url: string, auth: string)

  function Prepared(dsn: string): Option<Ingest> {
    if Usable(dsn) then Some(Ingest(Parse(dsn).value, EnvelopeUrl(Parse(dsn).value), AuthHeader(Parse(dsn).value))) else None
  }

  method Prepare(dsn: string) returns (ingest: Option<Ingest>)
    ensures ingest == Prepared(dsn)
  {
    var parsed := ParseDsn(dsn);
    if parsed == None {
      return None;
    }
    var url, auth := EnvelopeUrl(parsed.value), AuthHeader(parsed.value);
    return if |url| >= MAX_URL_LEN || |auth| >= MAX_AUTH_LEN then None else Some(Ingest(parsed.value, url, auth));
  }

  lemma {:induction false} PortIsShort(port: nat)
    requires port <= 65535
    ensures |PortPart(port)| <= 6
  {
    assert Json.Shifted(1, 5) == 100000 by {
      assert Json.Shifted(1, 3) == 1000;
    }
    Json.DecimalLength(port, 5);
  }

  /** The buffers are large enough for every DSN: an init fails for its DSN only when that does not parse. */
  lemma {:induction false} UsableIffParses(dsn: string)
    ensures Usable(dsn) <==> Parse(dsn).Some?
  {
    if Parse(dsn).Some? {
      var d := Parse(dsn).value;
      ParsedIsWellFormed(dsn, d);
      PortIsShort(d.port);
      assert |EnvelopeUrl(d)| <= 8 + |d.host| + 6 + |d.path| + 15 + |d.projectId|;
    }
  }

  // ---- What the printed forms say

  /** The endpoint a URL names: where a host would connect, and for which project. */
  function Endpoint(url: string): Option<(bool, Location)> {
    if !(Scheme(true) <= url) && !(Scheme(false) <= url) then None
    else
      var l := LocationOf(url[if Scheme(true) <= url then 8 else 7..]);
      if l == None then None else Some((Scheme(true) <= url, l.value))
  }

  /** `host[:port][/path]/api/project/envelope/` */
  function LocationOf(t: string): Option<Location> {
    if |t| < 10 || t[|t| - 10..] != "/envelope/" then None
    else
      var u := t[..|t| - 10];
      var n := AfterLastSlash(u);
      if n < 5 || u[n - 5..n] != "/api/" then None else ParseLocation(u[..n - 5] + "/" + u[n..])
  }

  lemma {:induction false} LocationOfParts(base: string, project: string)
    requires AllDigits(project)
    ensures LocationOf((base + "/api/" + project) + "/envelope/") == ParseLocation(base + "/" + project)
  {
    var u := base + "/api/" + project;
    var t := u + "/envelope/";
    var n := |base| + 5;
    assert t[|t| - 10..] == "/envelope/" && t[..|t| - 10] == u;
    assert u[n..] == project && u[n - 5..n] == "/api/" && u[..n - 5] == base;
    assert u[n - 1] == "/api/"[4];
    LastSlashIs(u, n);
  }

  lemma {:induction false} RegroupUrl(authority: string, path: string, api: string, project: string, end: string)
    ensures authority + (path + api + project + end) == (((authority + path) + api + project) + end)
  {
  }

  lemma {:induction false} RegroupLocation(authority: string, path: string, slash: string, project: string)
    ensures (authority + path) + slash + project == authority + ((path + slash) + project)
  {
  }

  /** From the URL alone a host gets back the scheme, host, port, path and project of the DSN. */
  lemma {:induction false} UrlNamesEndpoint(dsn: string, d: Dsn)
    requires Parse(dsn) == Some(d)
    ensures Endpoint(EnvelopeUrl(d)) == Some((d.isSecure, Location(d.host, d.port, d.path, d.projectId)))
  {
    ParsedIsWellFormed(dsn, d);
    var authority := d.host + PortPart(d.port);
    var t := authority + (d.path + "/api/" + d.projectId + "/envelope/");
    SchemesDiffer(d.isSecure, t);
    RegroupUrl(authority, d.path, "/api/", d.projectId, "/envelope/");
    LocationOfParts(authority + d.path, d.projectId);
    RegroupLocation(authority, d.path, "/", d.projectId);
    LocationReadsBack(d, authority, (d.path + "/") + d.projectId);
  }

  /** What follows the first `c`. */
  function Past(t: string, c: char): string {
    var i := IndexOf(t, c);
    if i == |t| then "" else t[i + 1..]
  }

  /** The key is what follows the third '=': version, client, key. */
  function KeyNamed(header: string): string {
    Past(Past(Past(header, '='), '='), '=')
  }

  lemma {:induction false} PastIs(a: string, c: char, b: string)
    requires Without(a, c)
    ensures Past(a + ([c] + b), c) == b
  {
    var t := a + ([c] + b);
    IndexAfter(a, c, b);
    assert t[|a| + 1..] == b;
  }

  lemma {:induction false} NoEquals()
    ensures Without("Sentry sentry_version", '=') && Without("7, sentry_client", '=') && Without(USER_AGENT, '=') && Without(", sentry_key", '=')
  {
  }

  lemma {:induction false} RegroupAuth(a: string, b: string, c: string, equals: string, key: string)
    ensures (a + equals + b + equals) + c + equals + key == a + (equals + (b + (equals + (c + (equals + key)))))
  {
  }

  lemma {:induction false} AuthLiterals()
    ensures "Sentry sentry_version=7, sentry_client=" == "Sentry sentry_version" + "=" + "7, sentry_client" + "="
    ensures ", sentry_key=" == ", sentry_key" + "="
  {
  }

  lemma {:induction false} AuthParts(d: Dsn)
    ensures AuthHeader(d) ==
      "Sentry sentry_version" + ("=" + ("7, sentry_client" + ("=" + ((USER_AGENT + ", sentry_key") + ("=" + d.publicKey)))))
  {
    AuthLiterals();
    RegroupAuth("Sentry sentry_version", "7, sentry_client", USER_AGENT + ", sentry_key", "=", d.publicKey);
    assert AuthHeader(d) == ("Sentry sentry_version" + "=" + "7, sentry_client" + "=") + (USER_AGENT + ", sentry_key") + "=" + d.publicKey;
  }

  /** The header authenticates with the key of the DSN, whatever characters that holds. */
  lemma {:induction false} AuthNamesKey(d: Dsn)
    ensures KeyNamed(AuthHeader(d)) == d.publicKey
  {
    AuthParts(d);
    NoEquals();
    var client := USER_AGENT + ", sentry_key";
    WithoutJoin(USER_AGENT, ", sentry_key", '=');
    PastIs("Sentry sentry_version", '=', "7, sentry_client" + ("=" + (client + ("=" + d.publicKey))));
    PastIs("7, sentry_client", '=', client + ("=" + d.publicKey));
    PastIs(client, '=', d.publicKey);
  }

  /** A host names an organization exactly when it starts with its digits between an 'o' and a dot. */
  lemma {:induction false} HostNamesOrgIff(host: string, org: string)
    requires org != ""
    ensures OrgIdOf(host) == org <==> AllDigits(org) && |org| < MAX_ORG_ID_LEN && "o" + org + "." <= host
  {
    var dot := IndexOf(host, '.');
    if OrgIdOf(host) == org {
      assert host[..dot + 1] == "o" + org + ".";
    }
    if AllDigits(org) && "o" + org + "." <= host {
      assert forall k :: 0 <= k < |org| + 2 ==> host[k] == ("o" + org + ".")[k];
      IndexIs(host, '.', |org| + 1);
      assert host[1..dot] == org;
    }
  }

  /** The configured organization, else the one the host names. */
  function ResolveOrgId(d: Option<Dsn>, configured: string): string {
    if configured != "" then configured else if d.Some? then d.value.orgId else ""
  }

  // ---- The printed URL and the host check

  /**
   For every string that parses, the URL printed from it passes the host check against the parsed
   host exactly when that host holds no '@'.
   */
  lemma {:induction false} UrlMatchesOwnHost(dsn: string, d: Dsn)
    requires Parse(dsn) == Some(d)
    ensures HostMatches(EnvelopeUrl(d), d.host) <==> Without(d.host, '@')
  {
    ParsedIsWellFormed(dsn, d);
    var authority := d.host + PortPart(d.port);
    var tail := d.path + "/api/" + d.projectId + "/envelope/";
    TailStarts(d.path, d.projectId);
    NoSeparators(d.port);
    WithoutJoin(d.host, PortPart(d.port), '/');
    WithoutJoin(d.host, PortPart(d.port), '@');
    AuthorityOfUrl(d.isSecure, authority, tail);
    BareHost(d.host, d.port);
    MatchesOwn(EnvelopeUrl(d), d.host, authority);
  }

  lemma {:induction false} TailStarts(path: string, project: string)
    requires path != "" ==> path[0] == '/'
    ensures (path + "/api/" + project + "/envelope/")[0] == '/'
  {
  }

  lemma {:induction false} WithoutJoin(a: string, b: string, c: char)
    ensures Without(a + b, c) <==> Without(a, c) && Without(b, c)
  {
    if Without(a + b, c) {
      assert forall i :: 0 <= i < |a| ==> a[i] == (a + b)[i];
      assert forall i :: 0 <= i < |b| ==> b[i] == (a + b)[|a| + i];
    }
  }

  lemma {:induction false} NoSeparators(port: nat)
    ensures Without(PortPart(port), '/') && Without(PortPart(port), '@')
  {
  }

  lemma {:induction false} MatchesOwn(url: string, host: string, authority: string)
    requires Authority(url) == Some(authority) && host != "" && authority[..IndexOf(authority, ':')] == host
    ensures HostMatches(url, host) <==> Without(authority, '@')
  {
    if Without(authority, '@') {
      NoIndex(authority, '@');
    }
  }

  lemma {:induction false} AuthorityOfUrl(isSecure: bool, authority: string, tail: string)
    requires Without(authority, '/') && tail != "" && tail[0] == '/'
    ensures Authority(Scheme(isSecure) + (authority + tail)) == Some(authority)
  {
    var rest := authority + tail;
    SchemeIsSkipped(isSecure, rest);
    assert (Scheme(isSecure) + rest)[|Scheme(isSecure)|..] == rest;
    IndexIs(rest, '/', |authority|);
    assert rest[..|authority|] == authority;
  }

  lemma {:induction false} BareHost(host: string, port: nat)
    requires Without(host, ':')
    ensures var a := host + PortPart(port); a[..IndexOf(a, ':')] == host
  {
    if port == 0 {
      assert host + PortPart(port) == host;
      NoIndex(host, ':');
    } else {
      IndexAfter(host, ':', Json.Decimal(port));
      assert host + PortPart(port) == host + ([':'] + Json.Decimal(port));
    }
  }

  /** The same character, or the same ASCII letter in the other case. */
  predicate SameLetter(c: char, d: char) {
    c == d || ('A' <= c <= 'Z' && d as int == c as int + 32) || ('A' <= d <= 'Z' && c as int == d as int + 32)
  }

  lemma {:induction false} LowerIff(c: char, d: char)
    ensures Lower(c) == Lower(d) <==> SameLetter(c, d)
  {
  }

  /** A URL to a bare host passes for exactly the hosts that spell it, in any case, whatever port and path follow. */
  lemma {:induction false} HostMatchesIff(isSecure: bool, bare: string, port: nat, tail: string, host: string)
    requires bare != "" && Without(bare, '/') && Without(bare, ':') && Without(bare, '@') && tail != "" && tail[0] == '/'
    ensures HostMatches(Scheme(isSecure) + ((bare + PortPart(port)) + tail), host) <==>
      |bare| == |host| && forall i :: 0 <= i < |bare| ==> SameLetter(bare[i], host[i])
  {
    var authority := bare + PortPart(port);
    NoSeparators(port);
    WithoutJoin(bare, PortPart(port), '/');
    WithoutJoin(bare, PortPart(port), '@');
    AuthorityOfUrl(isSecure, authority, tail);
    BareHost(bare, port);
    NoIndex(authority, '@');
    forall i | 0 <= i < |bare| && |bare| == |host|
      ensures Lower(bare[i]) == Lower(host[i]) <==> SameLetter(bare[i], host[i])
    {
      LowerIff(bare[i], host[i]);
    }
  }
}
