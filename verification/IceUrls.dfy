/**
 STUN and TURN server URLs (section 3.1 of RFC 7064, section 3.1 of RFC 7065): the parser, the printer
 of a URL whose host has been resolved, and the pass that rewrites a list of servers.

 Formatting and recognising address literals belongs to the source's standard library: an address is
 its text, and `literal` is the library's test for address texts.
 */
module IceUrls {
  import opened Wrappers
  import opened Sequences

  datatype Scheme = Stun | Stuns | Turn | Turns

  datatype IceUrl = IceUrl(scheme: Scheme, host: string, port: Option<nat>, query: Option<string>)

  datatype IpAddr = V4(text: string) | V6(text: string)

  // ----- strings

  /** The parts before and after the first `c`. */
  function SplitOnce(s: string, c: char): (r: Option<(string, string)>)
    ensures r.Some? ==> s == r.value.0 + [c] + r.value.1 && c !in r.value.0
    ensures r.None? ==> c !in s
  {
    if s == "" then None
    else if s[0] == c then Some(("", s[1..]))
    else match SplitOnce(s[1..], c)
      case None => None
      case Some((before, after)) => Some(([s[0]] + before, after))
  }

  lemma {:induction false} SplitAtFirst(before: string, c: char, after: string)
    requires c !in before
    ensures SplitOnce(before + [c] + after, c) == Some((before, after))
  {
    var s := before + [c] + after;
    if before == "" {
      assert s[1..] == after;
    } else {
      assert before[0] in before && s[1..] == before[1..] + [c] + after;
      SplitAtFirst(before[1..], c, after);
      assert [before[0]] + before[1..] == before;
    }
  }

  lemma {:induction false} SplitNowhere(s: string, c: char)
    requires c !in s
    ensures SplitOnce(s, c) == None
  {
    if s != "" {
      SplitNowhere(s[1..], c);
    }
  }

  predicate IsDigit(c: char) {
    '0' <= c <= '9'
  }

  function DigitChar(d: nat): (c: char)
    requires d < 10
    ensures IsDigit(c)
  {
    d as char + '0'
  }

  function DigitsValue(s: string): nat
    requires forall i | 0 <= i < |s| :: IsDigit(s[i])
  {
    if s == "" then 0
    else
      assert IsDigit(s[|s| - 1]);
      10 * DigitsValue(s[..|s| - 1]) + (s[|s| - 1] as int - '0' as int)
  }

  function Decimal(n: nat): (s: string)
    ensures s != "" && forall i | 0 <= i < |s| :: IsDigit(s[i])
  {
    if n < 10 then [DigitChar(n)] else Decimal(n / 10) + [DigitChar(n % 10)]
  }

  lemma {:induction false} DecimalValue(n: nat)
    ensures DigitsValue(Decimal(n)) == n
  {
    if n >= 10 {
      var s := Decimal(n);
      assert s[..|s| - 1] == Decimal(n / 10);
      DecimalValue(n / 10);
    } else {
      assert Decimal(n)[..0] == "";
    }
  }

  /** A 16-bit decimal number as the standard library reads it: an optional `+`, digits, no overflow. */
  function ParseU16(s: string): (n: Option<nat>)
    ensures n.Some? ==> n.value <= 65_535
  {
    var digits := if s != "" && s[0] == '+' then s[1..] else s;
    if digits == "" || exists i | 0 <= i < |digits| :: !IsDigit(digits[i]) then None
    else if DigitsValue(digits) > 65_535 then None
    else Some(DigitsValue(digits))
  }

  lemma ParsePrintedPort(n: nat)
    requires n <= 65_535
    ensures ParseU16(Decimal(n)) == Some(n) == ParseU16("+" + Decimal(n))
  {
    DecimalValue(n);
    assert IsDigit(Decimal(n)[0]);
    assert ("+" + Decimal(n))[1..] == Decimal(n);
  }

  // ----- URLs

  function ToLower(c: char): char {
    if 'A' <= c <= 'Z' then c - 'A' + 'a' else c
  }

  function Lowercase(s: string): string {
    seq(|s|, i requires 0 <= i < |s| => ToLower(s[i]))
  }

  function SchemeText(s: Scheme): string {
    match s
    case Stun => "stun"
    case Stuns => "stuns"
    case Turn => "turn"
    case Turns => "turns"
  }

  function ParseScheme(s: string): Option<Scheme> {
    var lower := Lowercase(s);
    if lower == "stun" then Some(Stun)
    else if lower == "stuns" then Some(Stuns)
    else if lower == "turn" then Some(Turn)
    else if lower == "turns" then Some(Turns)
    else None
  }

  /** Host and port of a non-empty authority. */
  function ParseAuthority(authority: string): (r: Option<(string, Option<nat>)>)
    requires authority != ""
    ensures r.Some? && r.value.1.Some? ==> r.value.1.value <= 65_535
  {
    if authority[0] == '[' then
      match SplitOnce(authority[1..], ']')
      case None => None
      case Some((host, after)) =>
        if after == "" then Some((host, None))
        else if after[0] != ':' then None
        else match ParseU16(after[1..])
          case None => None
          case Some(port) => Some((host, Some(port)))
    else
      match SplitOnce(authority, ':')
      case None => Some((authority, None))
      case Some((host, p)) =>
        if ':' in p then None
        else match ParseU16(p)
          case None => None
          case Some(port) => Some((host, Some(port)))
  }

  /** The part after the scheme. */
  function ParseRest(scheme: Scheme, rest: string): (r: Option<IceUrl>)
    ensures r.Some? ==> r.value.host != "" && (r.value.port.Some? ==> r.value.port.value <= 65_535)
  {
    var (authority, query) := match SplitOnce(rest, '?')
                              case Some((a, q)) => (a, Some(q))
                              case None => (rest, None);
    if authority == "" then None
    else match ParseAuthority(authority)
      case None => None
      case Some((host, port)) => if host == "" then None else Some(IceUrl(scheme, host, port, query))
  }

  function ParseIceUrl(url: string): (r: Option<IceUrl>)
    ensures r.Some? ==> r.value.host != "" && (r.value.port.Some? ==> r.value.port.value <= 65_535)
  {
    match SplitOnce(url, ':')
    case None => None
    case Some((schemeText, rest)) =>
      var scheme := ParseScheme(schemeText);
      if scheme.None? then None else ParseRest(scheme.value, rest)
  }

  function PrintPort(port: Option<nat>): string {
    match port
    case None => ""
    case Some(p) => ":" + Decimal(p)
  }

  function PrintQuery(query: Option<string>): string {
    match query
    case None => ""
    case Some(q) => "?" + q
  }

  function PrintHost(ip: IpAddr): string {
    match ip
    case V4(text) => text
    case V6(text) => "[" + text + "]"
  }

  /** The URL with its host replaced by an address. */
  function RewriteIceUrl(url: IceUrl, ip: IpAddr): string {
    SchemeText(url.scheme) + ":" + PrintHost(ip) + PrintPort(url.port) + PrintQuery(url.query)
  }

  // ----- round trip

  /** Characters of an address text: digits and dots, and for IPv6 also hexadecimal letters and colons. */
  predicate AddressText(ip: IpAddr) {
    && ip.text != ""
    && forall i | 0 <= i < |ip.text| ::
         IsDigit(ip.text[i]) || ip.text[i] == '.' || (ip.V6? && ('a' <= ip.text[i] <= 'f' || ip.text[i] == ':'))
  }

  lemma ParsePrintedScheme(s: Scheme)
    ensures ParseScheme(SchemeText(s)) == Some(s) && ':' !in SchemeText(s)
  {
    assert Lowercase(SchemeText(s)) == SchemeText(s);
  }

  lemma AddressAvoids(ip: IpAddr, c: char)
    requires AddressText(ip) && c in "[]?"
    ensures c !in ip.text && (ip.V4? ==> ':' !in ip.text)
  {
  }

  lemma ParseV4Authority(ip: IpAddr, port: Option<nat>)
    requires AddressText(ip) && ip.V4? && (port.Some? ==> port.value <= 65_535)
    ensures PrintHost(ip) + PrintPort(port) != ""
    ensures ParseAuthority(PrintHost(ip) + PrintPort(port)) == Some((ip.text, port))
  {
    AddressAvoids(ip, '[');
    assert ip.text[0] in ip.text;
    if port.Some? {
      var digits := Decimal(port.value);
      ParsePrintedPort(port.value);
      assert PrintHost(ip) + PrintPort(port) == ip.text + [':'] + digits;
      SplitAtFirst(ip.text, ':', digits);
      assert ':' !in digits;
    } else {
      assert PrintHost(ip) + PrintPort(port) == ip.text;
      SplitNowhere(ip.text, ':');
    }
  }

  lemma ParseV6Authority(ip: IpAddr, port: Option<nat>)
    requires AddressText(ip) && ip.V6? && (port.Some? ==> port.value <= 65_535)
    ensures PrintHost(ip) + PrintPort(port) != ""
    ensures ParseAuthority(PrintHost(ip) + PrintPort(port)) == Some((ip.text, port))
  {
    AddressAvoids(ip, ']');
    BracketParts(ip.text, PrintPort(port));
    SplitAtFirst(ip.text, ']', PrintPort(port));
    if port.Some? {
      ParsePrintedPort(port.value);
      assert PrintPort(port)[1..] == Decimal(port.value);
    }
  }

  lemma BracketParts(text: string, after: string)
    ensures var authority := "[" + text + "]" + after;
            authority != "" && authority[0] == '[' && authority[1..] == text + [']'] + after
  {
  }

  lemma NoQuery(ip: IpAddr, port: Option<nat>)
    requires AddressText(ip)
    ensures '?' !in PrintHost(ip) + PrintPort(port)
  {
    AddressAvoids(ip, '?');
    if port.Some? {
      assert '?' !in Decimal(port.value);
    }
  }

  lemma ParsePrintedRest(url: IceUrl, ip: IpAddr)
    requires AddressText(ip) && (url.port.Some? ==> url.port.value <= 65_535)
    ensures ParseRest(url.scheme, PrintHost(ip) + PrintPort(url.port) + PrintQuery(url.query))
         == Some(url.(host := ip.text))
  {
    var authority := PrintHost(ip) + PrintPort(url.port);
    NoQuery(ip, url.port);
    if ip.V4? {
      ParseV4Authority(ip, url.port);
    } else {
      ParseV6Authority(ip, url.port);
    }
    match url.query
    case Some(q) =>
      assert authority + PrintQuery(url.query) == authority + ['?'] + q;
      SplitAtFirst(authority, '?', q);
    case None =>
      assert authority + PrintQuery(url.query) == authority;
      SplitNowhere(authority, '?');
  }

  /** Parsing a rewritten URL gives back scheme, port and query, with the address as host. */
  lemma RewriteRoundTrip(url: IceUrl, ip: IpAddr)
    requires AddressText(ip) && (url.port.Some? ==> url.port.value <= 65_535)
    ensures ParseIceUrl(RewriteIceUrl(url, ip)) == Some(url.(host := ip.text))
  {
    var rest := PrintHost(ip) + PrintPort(url.port) + PrintQuery(url.query);
    PrintedInParts(SchemeText(url.scheme), PrintHost(ip), PrintPort(url.port), PrintQuery(url.query));
    ParseAfterScheme(url.scheme, rest);
    ParsePrintedRest(url, ip);
  }

  lemma PrintedInParts(scheme: string, host: string, port: string, query: string)
    ensures scheme + ":" + host + port + query == scheme + [':'] + (host + port + query)
  {
  }

  lemma ParseAfterScheme(scheme: Scheme, rest: string)
    ensures ParseIceUrl(SchemeText(scheme) + [':'] + rest) == ParseRest(scheme, rest)
  {
    ParsePrintedScheme(scheme);
    SplitAtFirst(SchemeText(scheme), ':', rest);
  }

  /** For every URL the parser accepts. */
  lemma AcceptedUrlRoundTrip(text: string, ip: IpAddr)
    requires ParseIceUrl(text).Some? && AddressText(ip)
    ensures ParseIceUrl(RewriteIceUrl(ParseIceUrl(text).value, ip)) == Some(ParseIceUrl(text).value.(host := ip.text))
  {
    RewriteRoundTrip(ParseIceUrl(text).value, ip);
  }

  /**
   And every URL of the accepted shape is accepted: a scheme in any case, a colon, a host in brackets or free
   of colons, a colon and a port if there is one, a question mark and a query if there is one.
   */
  lemma ShapedUrlIsAccepted(
      schemeText: string, scheme: Scheme, bracketed: bool, host: string, portText: string, port: Option<nat>,
      query: Option<string>)
    requires Lowercase(schemeText) == SchemeText(scheme)
    requires host != "" && '?' !in host && '?' !in portText
    requires if bracketed then ']' !in host else ':' !in host && host[0] != '['
    requires if port.None? then portText == ""
             else portText != "" && portText[0] == ':' && ':' !in portText[1..] && ParseU16(portText[1..]) == port
    ensures var authority := (if bracketed then "[" + host + "]" else host) + portText;
            ParseIceUrl(schemeText + [':'] + (authority + PrintQuery(query))) == Some(IceUrl(scheme, host, port, query))
  {
    var authority := (if bracketed then "[" + host + "]" else host) + portText;
    LowercaseKeepsColons(schemeText);
    assert ':' !in SchemeText(scheme);
    SplitAtFirst(schemeText, ':', authority + PrintQuery(query));
    ShapedAuthority(bracketed, host, portText, port);
    match query
    case Some(q) =>
      assert authority + PrintQuery(query) == authority + ['?'] + q;
      SplitAtFirst(authority, '?', q);
    case None =>
      assert authority + PrintQuery(query) == authority;
      SplitNowhere(authority, '?');
  }

  lemma LowercaseKeepsColons(s: string)
    ensures ':' in s ==> ':' in Lowercase(s)
  {
    if ':' in s {
      var i :| 0 <= i < |s| && s[i] == ':';
      assert Lowercase(s)[i] == ':';
    }
  }

  lemma ShapedAuthority(bracketed: bool, host: string, portText: string, port: Option<nat>)
    requires host != ""
    requires if bracketed then ']' !in host else ':' !in host && host[0] != '['
    requires if port.None? then portText == ""
             else portText != "" && portText[0] == ':' && ':' !in portText[1..] && ParseU16(portText[1..]) == port
    ensures var authority := (if bracketed then "[" + host + "]" else host) + portText;
            authority != "" && ParseAuthority(authority) == Some((host, port))
  {
    if bracketed {
      BracketParts(host, portText);
      SplitAtFirst(host, ']', portText);
    } else if port.Some? {
      assert host + portText == host + [':'] + portText[1..];
      SplitAtFirst(host, ':', portText[1..]);
    } else {
      assert host + portText == host;
      SplitNowhere(host, ':');
    }
  }

  /** Schemes are recognised in any case. */
  lemma SchemeInAnyCase()
    ensures ParseScheme("STUN") == Some(Stun) && ParseScheme("Stuns") == Some(Stuns)
    ensures ParseScheme("tUrN") == Some(Turn) && ParseScheme("TURNS") == Some(Turns)
  {
    assert Lowercase("STUN") == "stun" && Lowercase("Stuns") == "stuns";
    assert Lowercase("tUrN") == "turn" && Lowercase("TURNS") == "turns";
  }

  /** An accepted authority is its host, bracketed or free of colons, and its port. */
  lemma AcceptedAuthority(authority: string) returns (portText: string)
    requires authority != "" && ParseAuthority(authority).Some?
    ensures var (host, port) := ParseAuthority(authority).value;
            && authority == (if authority[0] == '[' then "[" + host + "]" else host) + portText
            && (authority[0] != '[' ==> ':' !in host)
            && (port.None? ==> portText == "")
            && (port.Some? ==> portText != "" && portText[0] == ':' && ParseU16(portText[1..]) == port)
  {
    if authority[0] == '[' {
      assert authority == ['['] + authority[1..];
      portText := SplitOnce(authority[1..], ']').value.1;
    } else {
      var split := SplitOnce(authority, ':');
      portText := if split.Some? then [':'] + split.value.1 else "";
    }
  }

  /**
   The parser only accepts URLs: scheme in any case, a colon, a host that is bracketed or free of
   colons, an optional 16-bit port, an optional query, and it reports exactly those parts.
   */
  lemma AcceptedUrlShape(url: string) returns (schemeText: string, portText: string, bracketed: bool)
    requires ParseIceUrl(url).Some?
    ensures var u := ParseIceUrl(url).value;
            && var host := if bracketed then "[" + u.host + "]" else u.host;
            && url == schemeText + ":" + (host + portText) + PrintQuery(u.query)
            && Lowercase(schemeText) == SchemeText(u.scheme)
            && (!bracketed ==> ':' !in u.host)
            && (u.port.None? ==> portText == "")
            && (u.port.Some? ==> portText != "" && portText[0] == ':' && ParseU16(portText[1..]) == u.port)
  {
    var (scheme, rest) := SplitOnce(url, ':').value;
    schemeText := scheme;
    portText, bracketed := AcceptedRest(ParseScheme(scheme).value, rest);
  }

  lemma AcceptedRest(scheme: Scheme, rest: string) returns (portText: string, bracketed: bool)
    requires ParseRest(scheme, rest).Some?
    ensures var u := ParseRest(scheme, rest).value;
            && u.scheme == scheme
            && rest == (if bracketed then "[" + u.host + "]" else u.host) + portText + PrintQuery(u.query)
            && (!bracketed ==> ':' !in u.host)
            && (u.port.None? ==> portText == "")
            && (u.port.Some? ==> portText != "" && portText[0] == ':' && ParseU16(portText[1..]) == u.port)
  {
    var query := SplitOnce(rest, '?');
    var authority := if query.Some? then query.value.0 else rest;
    portText := AcceptedAuthority(authority);
    bracketed := authority[0] == '[';
  }

  // ----- the rewriting pass

  datatype CredentialType = Password | Oauth

  datatype IceServer = IceServer(
    urls: seq<string>,
    username: Option<string>,
    credential: Option<string>,
    credentialType: CredentialType)

  /** What lookups are known to have given, by `host:port`; `None` is a recent failure. */
  type Cache = map<string, Option<IpAddr>>

  predicate IsTls(s: Scheme) {
    s.Stuns? || s.Turns?
  }

  predicate NeedsResolution(url: IceUrl, literal: string -> bool) {
    !IsTls(url.scheme) && !literal(url.host) && url.host != "localhost"
  }

  function CacheKey(url: IceUrl): string {
    url.host + ":" + Decimal(if url.port.Some? then url.port.value else 3_478)
  }

  /** Hosts that are addresses, `localhost` and all hosts reached over TLS are never looked up, all others are. */
  lemma LookedUpWhen(url: string, literal: string -> bool)
    ensures Wanted(url, literal) == None
       <==> match ParseIceUrl(url)
            case None => true
            case Some(u) => u.scheme == Stuns || u.scheme == Turns || literal(u.host) || u.host == "localhost"
  {
  }

  /** Two URLs share a lookup exactly when they name the same host and port, 3478 if they name none. */
  lemma SharedKey(a: IceUrl, b: IceUrl)
    ensures CacheKey(a) == CacheKey(b) <==>
      a.host == b.host
      && (if a.port.Some? then a.port.value else 3_478) == if b.port.Some? then b.port.value else 3_478
  {
    var p, q := if a.port.Some? then a.port.value else 3_478, if b.port.Some? then b.port.value else 3_478;
    if a.host + ":" + Decimal(p) == b.host + ":" + Decimal(q) {
      SplitAtLast(a.host, Decimal(p), b.host, Decimal(q));
      DecimalValue(p);
      DecimalValue(q);
    }
  }

  lemma SplitAtLast(a: string, x: string, b: string, y: string)
    requires a + ":" + x == b + ":" + y && ':' !in x && ':' !in y
    ensures a == b && x == y
  {
    var s := a + ":" + x;
    assert s[|a|] == ':' && s[|b|] == ':';
    assert forall i | |a| < i < |s| :: s[i] == x[i - |a| - 1];
    assert forall i | |b| < i < |s| :: s[i] == y[i - |b| - 1];
    assert a == s[..|a|] && b == s[..|b|] && x == s[|a| + 1..] && y == s[|b| + 1..];
  }

  /** The key a URL must be looked up under, if any. */
  function Wanted(url: string, literal: string -> bool): Option<string> {
    match ParseIceUrl(url)
    case None => None
    case Some(parsed) => if NeedsResolution(parsed, literal) then Some(CacheKey(parsed)) else None
  }

  /** A URL after the pass; `None` when it is dropped. */
  function RewriteUrl(url: string, literal: string -> bool, cache: Cache): Option<string> {
    match Wanted(url, literal)
    case None => Some(url)
    case Some(key) =>
      if key in cache && cache[key].Some? then Some(RewriteIceUrl(ParseIceUrl(url).value, cache[key].value)) else None
  }

  function RewriteUrls(urls: seq<string>, literal: string -> bool, cache: Cache): seq<string> {
    FilterMap(url => RewriteUrl(url, literal, cache), urls)
  }

  /** A server after the pass; `None` when no URL is left. */
  function RewriteServer(server: IceServer, literal: string -> bool, cache: Cache): Option<IceServer> {
    var urls := RewriteUrls(server.urls, literal, cache);
    if urls == [] then None else Some(server.(urls := urls))
  }

  function RewriteServers(servers: seq<IceServer>, literal: string -> bool, cache: Cache): seq<IceServer> {
    FilterMap(server => RewriteServer(server, literal, cache), servers)
  }

  function WantedOf(urls: seq<string>, literal: string -> bool): seq<string> {
    FilterMap(url => Wanted(url, literal), urls)
  }

  /** The keys that must be looked up for a list of servers. */
  function WantedKeys(servers: seq<IceServer>, literal: string -> bool): set<string> {
    set server <- servers, key <- WantedOf(server.urls, literal) :: key
  }

  /** Every cached address has an address text, which the standard library recognises. */
  ghost predicate Recognised(literal: string -> bool, cache: Cache) {
    forall key | key in cache && cache[key].Some? :: AddressText(cache[key].value) && literal(cache[key].value.text)
  }

  lemma RewrittenUrlIsSettled(url: string, literal: string -> bool, cache: Cache)
    requires Recognised(literal, cache) && RewriteUrl(url, literal, cache).Some?
    ensures Wanted(RewriteUrl(url, literal, cache).value, literal) == None
  {
    var key := Wanted(url, literal);
    if key.Some? {
      RewriteRoundTrip(ParseIceUrl(url).value, cache[key.value].value);
    }
  }

  /** No URL of the server needs a lookup, and there is one. */
  ghost predicate Settled(server: IceServer, literal: string -> bool) {
    server.urls != [] && forall i | 0 <= i < |server.urls| :: Wanted(server.urls[i], literal) == None
  }

  lemma SettledUrlStays(url: string, literal: string -> bool, cache: Cache)
    requires Wanted(url, literal) == None
    ensures RewriteUrl(url, literal, cache) == Some(url)
  {
  }

  lemma RewrittenServerIsSettled(server: IceServer, literal: string -> bool, cache: Cache)
    requires Recognised(literal, cache) && RewriteServer(server, literal, cache).Some?
    ensures Settled(RewriteServer(server, literal, cache).value, literal)
  {
    var urls := RewriteUrls(server.urls, literal, cache);
    forall j | 0 <= j < |urls| ensures Wanted(urls[j], literal) == None {
      var i := FilterMapOrigin(url => RewriteUrl(url, literal, cache), server.urls, j);
      RewrittenUrlIsSettled(server.urls[i], literal, cache);
    }
  }

  lemma SettledServerStays(server: IceServer, literal: string -> bool, cache: Cache)
    requires Settled(server, literal)
    ensures RewriteServer(server, literal, cache) == Some(server) && WantedOf(server.urls, literal) == []
  {
    forall i | 0 <= i < |server.urls| ensures RewriteUrl(server.urls[i], literal, cache) == Some(server.urls[i]) {
      SettledUrlStays(server.urls[i], literal, cache);
    }
    FilterMapFixed(url => RewriteUrl(url, literal, cache), server.urls);
    FilterMapNothing(url => Wanted(url, literal), server.urls);
    assert server.(urls := server.urls) == server;
  }

  /**
   The pass is idempotent: on its own output, with whatever the cache holds by then, it changes
   nothing and finds no host left to look up.
   */
  lemma SecondPassChangesNothing(servers: seq<IceServer>, literal: string -> bool, cache: Cache, later: Cache)
    requires Recognised(literal, cache)
    ensures var once := RewriteServers(servers, literal, cache);
            RewriteServers(once, literal, later) == once && WantedKeys(once, literal) == {}
  {
    var once := RewriteServers(servers, literal, cache);
    forall j | 0 <= j < |once|
      ensures RewriteServer(once[j], literal, later) == Some(once[j]) && WantedOf(once[j].urls, literal) == []
    {
      var i := FilterMapOrigin(server => RewriteServer(server, literal, cache), servers, j);
      RewrittenServerIsSettled(servers[i], literal, cache);
      SettledServerStays(once[j], literal, later);
    }
    FilterMapFixed(server => RewriteServer(server, literal, later), once);
  }

  // ----- the pass in place

  /** The address taken from a lookup: the first IPv4 one, else the first. */
  function Pick(addrs: seq<IpAddr>): Option<IpAddr> {
    if exists i | 0 <= i < |addrs| :: addrs[i].V4? then Some(FirstV4(addrs))
    else if addrs == [] then None
    else Some(addrs[0])
  }

  function FirstV4(addrs: seq<IpAddr>): (ip: IpAddr)
    requires exists i | 0 <= i < |addrs| :: addrs[i].V4?
    ensures ip in addrs && ip.V4?
  {
    if addrs[0].V4? then addrs[0] else FirstV4(addrs[1..])
  }

  /** The first IPv4 address is taken, wherever it is in the answer; without one, the first address. */
  lemma {:induction false} PickPrefersV4(addrs: seq<IpAddr>) returns (i: nat)
    ensures Pick(addrs).None? <==> addrs == []
    ensures addrs != [] ==>
              && i < |addrs| && Pick(addrs) == Some(addrs[i])
              && (if addrs[i].V4? then forall j | 0 <= j < i :: addrs[j].V6?
                  else i == 0 && forall j | 0 <= j < |addrs| :: addrs[j].V6?)
  {
    i := 0;
    if addrs != [] && addrs[0].V6? && exists j | 0 <= j < |addrs| :: addrs[j].V4? {
      var j :| 0 <= j < |addrs| && addrs[j].V4?;
      assert addrs[1..][j - 1].V4?;
      var rest := PickPrefersV4(addrs[1..]);
      i := rest + 1;
      assert forall k | 1 <= k < |addrs| :: addrs[k] == addrs[1..][k - 1];
    }
  }

  // How long a cached outcome serves, an address or a failure, in microseconds.
  const POSITIVE_TTL_US := 60_000_000
  const NEGATIVE_TTL_US := 30_000_000

  datatype Entry = Entry(ip: Option<IpAddr>, at: int)

  type Entries = map<string, Entry>

  predicate IsLive(e: Entry, now: int) {
    Max(0, now - e.at) < if e.ip.Some? then POSITIVE_TTL_US else NEGATIVE_TTL_US
  }

  /** An address serves for a minute, a failure for half a minute. */
  lemma ServesFor(ip: IpAddr, at: int, now: int)
    requires at <= now
    ensures IsLive(Entry(Some(ip), at), now) <==> now - at < 60_000_000
    ensures IsLive(Entry(None, at), now) <==> now - at < 30_000_000
  {
  }

  /** What the entries still answer at `now`. */
  function LiveAt(entries: Entries, now: int): Cache {
    map key | key in entries && IsLive(entries[key], now) :: entries[key].ip
  }

  /** From `now` on, `a` and `b` answer the same. */
  ghost predicate SameFrom(a: Entries, b: Entries, now: int) {
    forall t | now <= t :: LiveAt(a, t) == LiveAt(b, t)
  }

  /** The resolution cache, which forgets an expired entry when it is asked for. */
  class ResolveCache {
    var entries: Entries

    constructor ()
      ensures entries == map[]
    {
      entries := map[];
    }

    method Get(key: string, now: int) returns (hit: Option<Option<IpAddr>>)
      modifies this
      ensures hit == if key in LiveAt(old(entries), now) then Some(LiveAt(old(entries), now)[key]) else None
      ensures entries == old(entries) || entries == old(entries) - {key}
      ensures SameFrom(old(entries), entries, now)
    {
      if key !in entries {
        return None;
      }
      if IsLive(entries[key], now) {
        return Some(entries[key].ip);
      }
      entries := entries - {key};
      hit := None;
    }

    method Put(key: string, ip: Option<IpAddr>, now: int)
      modifies this
      ensures entries == old(entries)[key := Entry(ip, now)]
    {
      entries := entries[key := Entry(ip, now)];
    }
  }

  /** A resolver's answer and how long it took, in microseconds. */
  datatype Answer = Answer(addrs: seq<IpAddr>, took: nat)

  function Outcome(answer: Answer, timeout: nat): Option<IpAddr> {
    if answer.took <= timeout then Pick(answer.addrs) else None
  }

  /** A lookup that takes too long or has no address fails. */
  lemma FoundInTime(answer: Answer, timeout: nat)
    ensures Outcome(answer, timeout).Some? <==> answer.took <= timeout && answer.addrs != []
  {
  }

  /** What the lookups of `keys`, all begun at `start`, put into the cache. */
  function LookedUp(keys: set<string>, lookup: string -> Answer, timeout: nat, start: int): Entries {
    map key | key in keys :: Entry(Outcome(lookup(key), timeout), start + Min(lookup(key).took, timeout))
  }

  lemma LookedUpMore(
      entries: Entries, keys: set<string>, key: string, lookup: string -> Answer, timeout: nat, start: int)
    ensures entries + LookedUp(keys + {key}, lookup, timeout, start)
         == (entries + LookedUp(keys, lookup, timeout, start))
            [key := Entry(Outcome(lookup(key), timeout), start + Min(lookup(key).took, timeout))]
  {
  }

  /** The cache after a pass that began at `start`. */
  function AfterPass(
      servers: seq<IceServer>, literal: string -> bool, entries: Entries, lookup: string -> Answer, timeout: nat,
      start: int): Entries
  {
    entries + LookedUp(WantedKeys(servers, literal) - LiveAt(entries, start).Keys, lookup, timeout, start)
  }

  lemma SameFromPlus(a: Entries, b: Entries, more: Entries, now: int)
    requires SameFrom(a, b, now)
    ensures SameFrom(a + more, b + more, now)
  {
    forall t | now <= t ensures LiveAt(a + more, t) == LiveAt(b + more, t) {
      assert LiveAt(a, t) == LiveAt(b, t);
      LiveAtPlus(a, more, t);
      LiveAtPlus(b, more, t);
    }
  }

  lemma LiveAtPlus(a: Entries, more: Entries, t: int)
    ensures LiveAt(a + more, t) == LiveAt(a, t) - more.Keys + LiveAt(more, t)
  {
  }

  /** `key` has an address at `end`, from the cache or from its lookup. */
  predicate ServesAt(key: string, entries: Entries, lookup: string -> Answer, timeout: nat, start: int, end: int) {
    if key in LiveAt(entries, start) then entries[key].ip.Some? && IsLive(entries[key], end)
    else Outcome(lookup(key), timeout).Some? && end - start - Min(lookup(key).took, timeout) < POSITIVE_TTL_US
  }

  /**
   When a URL that needs a lookup is rewritten in a pass whose lookups begin at `start` and whose servers
   are rewritten at `end`: a key cached at the start if its address has not expired by the end, and any
   other key if its lookup finds an address in time that has not expired by then.
   */
  lemma RewrittenWhen(
      servers: seq<IceServer>, literal: string -> bool, entries: Entries, lookup: string -> Answer, timeout: nat,
      start: int, end: int, url: string)
    requires start <= end && Wanted(url, literal).Some? && Wanted(url, literal).value in WantedKeys(servers, literal)
    ensures RewriteUrl(url, literal, LiveAt(AfterPass(servers, literal, entries, lookup, timeout, start), end)).Some?
       <==> ServesAt(Wanted(url, literal).value, entries, lookup, timeout, start, end)
  {
  }

  /** So a lookup is never wasted while the pass takes less than a minute, 10 s being its longest timeout. */
  lemma FreshAnswersAreUsed(
      servers: seq<IceServer>, literal: string -> bool, entries: Entries, lookup: string -> Answer, timeout: nat,
      start: int, end: int, url: string)
    requires start <= end < start + POSITIVE_TTL_US
    requires Wanted(url, literal).Some? && Wanted(url, literal).value in WantedKeys(servers, literal)
    requires Wanted(url, literal).value !in LiveAt(entries, start)
    ensures RewriteUrl(url, literal, LiveAt(AfterPass(servers, literal, entries, lookup, timeout, start), end)).Some?
       <==> Outcome(lookup(Wanted(url, literal).value), timeout).Some?
  {
    RewrittenWhen(servers, literal, entries, lookup, timeout, start, end, url);
  }

  /** But an address that is live when the pass begins and expires before its end is neither used nor looked up. */
  lemma CachedAddressCanExpire(
      servers: seq<IceServer>, literal: string -> bool, lookup: string -> Answer, timeout: nat, start: int,
      url: string, ip: IpAddr)
    requires Wanted(url, literal).Some? && Wanted(url, literal).value in WantedKeys(servers, literal)
    ensures var entries := map[Wanted(url, literal).value := Entry(Some(ip), start - 59_000_000)];
            var after := AfterPass(servers, literal, entries, lookup, timeout, start);
            && RewriteUrl(url, literal, LiveAt(after, start)).Some?
            && RewriteUrl(url, literal, LiveAt(after, start + 1_000_000)).None?
  {
    var entries := map[Wanted(url, literal).value := Entry(Some(ip), start - 59_000_000)];
    RewrittenWhen(servers, literal, entries, lookup, timeout, start, start, url);
    RewrittenWhen(servers, literal, entries, lookup, timeout, start, start + 1_000_000, url);
  }

  /**
   Looks up the keys that are wanted and not cached, each once and all at once, and rewrites the servers
   with what the cache then answers.  The keys are collected at `start`, the servers rewritten at `end`.
   */
  method ResolveWith(
      servers: seq<IceServer>, literal: string -> bool, lookup: string -> Answer, timeout: nat, cache: ResolveCache,
      start: int, end: int)
    returns (out: seq<IceServer>)
    requires start <= end
    modifies cache
    ensures var after := AfterPass(servers, literal, old(cache.entries), lookup, timeout, start);
            out == RewriteServers(servers, literal, LiveAt(after, end)) && SameFrom(after, cache.entries, end)
  {
    ghost var before := cache.entries;
    var pending := CollectPending(servers, literal, cache, start);
    SameFromPlus(before, cache.entries, LookedUp(pending, lookup, timeout, start), start);
    LookUpAll(pending, lookup, timeout, cache, start);
    ghost var view := LiveAt(AfterPass(servers, literal, before, lookup, timeout, start), end);
    assert LiveAt(cache.entries, end) == view;
    out := RewriteAllServers(servers, literal, cache, end);
  }

  method RewriteAllServers(servers: seq<IceServer>, literal: string -> bool, cache: ResolveCache, now: int)
    returns (out: seq<IceServer>)
    modifies cache
    ensures out == RewriteServers(servers, literal, LiveAt(old(cache.entries), now))
    ensures SameFrom(old(cache.entries), cache.entries, now)
  {
    ghost var view := LiveAt(cache.entries, now);
    out := [];
    for i := 0 to |servers|
      invariant out == RewriteServers(servers[..i], literal, view)
      invariant SameFrom(old(cache.entries), cache.entries, now)
    {
      assert servers[..i + 1][..i] == servers[..i];
      assert LiveAt(cache.entries, now) == view;
      var urls := RewriteAll(servers[i].urls, literal, cache, now);
      if urls != [] {
        out := out + [servers[i].(urls := urls)];
      }
    }
    assert servers[..|servers|] == servers;
  }

  method LookUpAll(keys: set<string>, lookup: string -> Answer, timeout: nat, cache: ResolveCache, start: int)
    modifies cache
    ensures cache.entries == old(cache.entries) + LookedUp(keys, lookup, timeout, start)
  {
    var pending := keys;
    while pending != {}
      invariant pending <= keys
      invariant cache.entries == old(cache.entries) + LookedUp(keys - pending, lookup, timeout, start)
      decreases pending
    {
      var key :| key in pending;
      LookedUpMore(old(cache.entries), keys - pending, key, lookup, timeout, start);
      assert keys - (pending - {key}) == keys - pending + {key};
      cache.Put(key, Outcome(lookup(key), timeout), start + Min(lookup(key).took, timeout));
      pending := pending - {key};
    }
    assert keys - pending == keys;
  }

  method CollectPending(servers: seq<IceServer>, literal: string -> bool, cache: ResolveCache, now: int)
    returns (pending: set<string>)
    modifies cache
    ensures pending == WantedKeys(servers, literal) - LiveAt(old(cache.entries), now).Keys
    ensures SameFrom(old(cache.entries), cache.entries, now)
  {
    ghost var view := LiveAt(cache.entries, now);
    pending := {};
    for i := 0 to |servers|
      invariant pending == WantedKeys(servers[..i], literal) - view.Keys
      invariant SameFrom(old(cache.entries), cache.entries, now)
    {
      assert LiveAt(cache.entries, now) == view;
      var more := CollectFrom(servers[i].urls, literal, cache, now);
      assert servers[..i + 1] == servers[..i] + [servers[i]];
      pending := pending + more;
    }
    assert servers[..|servers|] == servers;
  }

  method CollectFrom(urls: seq<string>, literal: string -> bool, cache: ResolveCache, now: int)
    returns (pending: set<string>)
    modifies cache
    ensures pending == (set key <- WantedOf(urls, literal)) - LiveAt(old(cache.entries), now).Keys
    ensures SameFrom(old(cache.entries), cache.entries, now)
  {
    ghost var view := LiveAt(cache.entries, now);
    pending := {};
    for j := 0 to |urls|
      invariant pending == (set key <- WantedOf(urls[..j], literal)) - view.Keys
      invariant SameFrom(old(cache.entries), cache.entries, now)
    {
      assert urls[..j + 1][..j] == urls[..j];
      assert LiveAt(cache.entries, now) == view;
      var key := Wanted(urls[j], literal);
      if key.Some? {
        var hit := cache.Get(key.value, now);
        if hit.None? {
          pending := pending + {key.value};
        }
      }
    }
    assert urls[..|urls|] == urls;
  }

  method RewriteAll(urls: seq<string>, literal: string -> bool, cache: ResolveCache, now: int)
    returns (out: seq<string>)
    modifies cache
    ensures out == RewriteUrls(urls, literal, LiveAt(old(cache.entries), now))
    ensures SameFrom(old(cache.entries), cache.entries, now)
  {
    ghost var view := LiveAt(cache.entries, now);
    out := [];
    for j := 0 to |urls|
      invariant out == RewriteUrls(urls[..j], literal, view)
      invariant SameFrom(old(cache.entries), cache.entries, now)
    {
      assert urls[..j + 1][..j] == urls[..j];
      assert LiveAt(cache.entries, now) == view;
      var parsed := ParseIceUrl(urls[j]);
      if parsed.None? || !NeedsResolution(parsed.value, literal) {
        out := out + [urls[j]];
        continue;
      }
      var hit := cache.Get(CacheKey(parsed.value), now);
      if hit.Some? && hit.value.Some? {
        out := out + [RewriteIceUrl(parsed.value, hit.value.value)];
      }
    }
    assert urls[..|urls|] == urls;
  }
}
