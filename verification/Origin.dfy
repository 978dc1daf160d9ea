/**
 Backend base URLs and the canonical key of their origin. Parsing a URL, lower-casing
 and recognising IP literals are library calls, taken as parameters; so are trimming and
 splitting a listen address.
 */
module Origin {
  import opened Common

  /** What the URL library reports about a parsed reference. */
  datatype ParsedURL = ParsedURL(
    scheme: string, host: string, hostname: string, port: string,
    hasUser: bool, rawQuery: string, forceQuery: bool, fragment: string, path: string, rootless: string)

  datatype Library = Library(
    trim: string -> string,
    lower: string -> string,
    parseURL: string -> Option<ParsedURL>,
    parseIP: string -> Option<string>,                  // the canonical text of an IP literal
    splitHostPort: string -> Option<(string, string)>)

  /** Lower-casing leaves the two accepted schemes as they are, and the canonical text of an
      IP literal is its own canonical text. */
  ghost predicate LibraryOk(lib: Library) {
    && lib.lower("http") == "http" && lib.lower("https") == "https"
    && forall h :: lib.parseIP(h).Some? ==> lib.parseIP(lib.parseIP(h).value) == lib.parseIP(h)
  }

  /** A bare origin: what remains of an accepted base URL. */
  datatype Base = Base(scheme: string, hostname: string, port: string)

  datatype BaseError =
    | EmptyURL | InvalidURL | BadScheme | NoHost | HasCredentials | DanglingColon | BareIPv6
    | HasQuery | HasFragment | HasPath | Rootless | BadPort

  datatype ParseResult = Accepted(base: Base) | Refused(error: BaseError)

  // ----- decimal numbers ---------------------------------------------------

  predicate IsDigit(c: char) { '0' <= c <= '9' }

  predicate AllDigits(s: string) { forall c | c in s :: IsDigit(c) }

  function Value(s: string): nat
    requires AllDigits(s)
  {
    if s == "" then 0 else
    assert IsDigit(s[|s| - 1]);
    10 * Value(s[..|s| - 1]) + (s[|s| - 1] as int - '0' as int)
  }

  /** strconv.Atoi: an optional sign, then digits, within 64 bits. */
  function Atoi(s: string): Option<int> {
    var signed := s != "" && (s[0] == '-' || s[0] == '+');
    var digits := if signed then s[1..] else s;
    if digits == "" || !AllDigits(digits) then None else
    var n: int := if signed && s[0] == '-' then 0 - Value(digits) else Value(digits);
    if -0x8000_0000_0000_0000 <= n <= 0x7fff_ffff_ffff_ffff then Some(n) else None
  }

  function Digits(n: nat): (s: string)
    ensures s != "" && AllDigits(s)
  {
    var last := '0' + (n % 10) as char;
    if n < 10 then [last] else Digits(n / 10) + [last]
  }

  /** strconv.Itoa. */
  function Itoa(n: int): string {
    if n < 0 then "-" + Digits(-n) else Digits(n)
  }

  /** Reading back what was written gives the number again. */
  lemma {:induction false} DigitsRoundTrip(n: nat)
    ensures Value(Digits(n)) == n
  {
    var s := Digits(n);
    if n >= 10 {
      DigitsRoundTrip(n / 10);
      assert s[..|s| - 1] == Digits(n / 10);
    } else {
      assert s[..|s| - 1] == "";
    }
  }

  /** Re-encoding a port drops formatting such as leading zeroes and nothing else. */
  lemma DigitsInjective(m: nat, n: nat)
    requires Digits(m) == Digits(n)
    ensures m == n
  {
    DigitsRoundTrip(m);
    DigitsRoundTrip(n);
  }

  // ----- accepted base URLs ------------------------------------------------

  predicate HasSuffixColon(s: string) { s != "" && s[|s| - 1] == ':' }

  predicate HasPrefixBracket(s: string) { s != "" && s[0] == '[' }

  function Colons(s: string): nat {
    if s == "" then 0 else Colons(s[1..]) + (if s[0] == ':' then 1 else 0)
  }

  /** Counting colons finds out whether there are none, or at least two. */
  lemma {:induction false} ColonsAreThere(s: string)
    ensures Colons(s) == 0 <==> ':' !in s
    ensures Colons(s) > 1 <==> exists i, j :: 0 <= i < j < |s| && s[i] == ':' && s[j] == ':'
  {
    if s != "" {
      var t := s[1..];
      ColonsAreThere(t);
      assert s == [s[0]] + t;
      if Colons(t) > 1 {
        var i, j :| 0 <= i < j < |t| && t[i] == ':' && t[j] == ':';
        assert s[i + 1] == ':' && s[j + 1] == ':';
      } else if s[0] == ':' && ':' in t {
        var j :| 0 <= j < |t| && t[j] == ':';
        assert s[0] == ':' && s[j + 1] == ':';
      }
      if exists i, j :: 0 <= i < j < |s| && s[i] == ':' && s[j] == ':' {
        var i, j :| 0 <= i < j < |s| && s[i] == ':' && s[j] == ':';
        assert t[j - 1] == ':';
        if i > 0 {
          assert t[i - 1] == ':';
        }
      }
    }
  }

  /** What every accepted base URL satisfies. */
  ghost predicate BaseOk(base: Base) {
    && (base.scheme == "http" || base.scheme == "https")
    && base.hostname != ""
    && (base.port == "" || exists n :: Atoi(base.port) == Some(n) && 1 <= n <= 65535)
  }

  /** A scheme, a host, perhaps a port, and nothing else. */
  ghost predicate BareOrigin(u: ParsedURL) {
    && BaseOk(Base(u.scheme, u.hostname, u.port))
    && (u.host != "" ==> u.host[|u.host| - 1] != ':')
    && ((exists i, j :: 0 <= i < j < |u.host| && u.host[i] == ':' && u.host[j] == ':') ==> u.host[0] == '[')
    && !u.hasUser
    && u.rawQuery == "" && !u.forceQuery
    && u.fragment == ""
    && (u.path == "" || u.path == "/")
    && u.rootless == ""
  }

  /** Accepts exactly the references that are bare origins, and keeps what identifies them. */
  function ParseBaseURL(lib: Library, raw: string): (r: ParseResult)
    ensures r.Accepted? <==>
              && lib.trim(raw) != ""
              && lib.parseURL(lib.trim(raw)).Some?
              && BareOrigin(lib.parseURL(lib.trim(raw)).value)
    ensures r.Accepted? ==>
              && BaseOk(r.base)
              && var u := lib.parseURL(lib.trim(raw)).value;
                 r.base.scheme == u.scheme && r.base.hostname == u.hostname && r.base.port == u.port
  {
    var trimmed := lib.trim(raw);
    if trimmed == "" then Refused(EmptyURL) else
    var parsed := lib.parseURL(trimmed);
    if parsed.None? then Refused(InvalidURL) else
    CheckURL(parsed.value)
  }

  function CheckURL(u: ParsedURL): (r: ParseResult)
    ensures r.Accepted? <==> BareOrigin(u)
    ensures r.Accepted? ==> r.base == Base(u.scheme, u.hostname, u.port)
  {
    ColonsAreThere(u.host);
    if u.scheme != "http" && u.scheme != "https" then Refused(BadScheme)
    else if u.hostname == "" then Refused(NoHost)
    else if u.hasUser then Refused(HasCredentials)
    else if HasSuffixColon(u.host) then Refused(DanglingColon)
    else if Colons(u.host) > 1 && !HasPrefixBracket(u.host) then Refused(BareIPv6)
    else if u.rawQuery != "" || u.forceQuery then Refused(HasQuery)
    else if u.fragment != "" then Refused(HasFragment)
    else if u.path != "" && u.path != "/" then Refused(HasPath)
    else if u.rootless != "" then Refused(Rootless)
    else
      var number := Atoi(u.port);
      if u.port != "" && (number.None? || number.value < 1 || number.value > 65535) then Refused(BadPort)
      else Accepted(Base(u.scheme, u.hostname, u.port))
  }

  // ----- the canonical key -------------------------------------------------

  function NormalHost(lib: Library, hostname: string): string {
    var host := lib.lower(hostname);
    var ip := lib.parseIP(host);
    if ip.Some? then ip.value else host
  }

  /** net.JoinHostPort: a host with a colon in it is bracketed. */
  function JoinHostPort(host: string, port: string): string {
    if ':' in host then "[" + host + "]:" + port else host + ":" + port
  }

  function KeyPort(scheme: string, port: string): string {
    if port == "" then
      (if scheme == "http" then "80" else if scheme == "https" then "443" else "")
    else if Atoi(port).Some? then Itoa(Atoi(port).value) else port
  }

  function CanonicalOriginKey(lib: Library, base: Base): string {
    var scheme := lib.lower(base.scheme);
    scheme + "://" + JoinHostPort(NormalHost(lib, base.hostname), KeyPort(scheme, base.port))
  }

  /** The port number a base URL stands for. */
  function PortNumber(base: Base): int {
    if base.port == "" then (if base.scheme == "http" then 80 else 443)
    else if Atoi(base.port).Some? then Atoi(base.port).value else 0
  }

  /** Two spellings of one host: equal but for case, or literals of one IP address. */
  ghost predicate SameHost(lib: Library, a: string, b: string) {
    var (x, y) := (lib.lower(a), lib.lower(b));
    if lib.parseIP(x).Some? then lib.parseIP(y) == lib.parseIP(x) else x == y
  }

  /** The same origin in the sense of section 5 of RFC 6454. */
  ghost predicate SameOrigin(lib: Library, a: Base, b: Base) {
    a.scheme == b.scheme && SameHost(lib, a.hostname, b.hostname) && PortNumber(a) == PortNumber(b)
  }

  /** Normal forms are equal exactly for two spellings of one host. */
  lemma NormalHostIsExact(lib: Library, a: string, b: string)
    requires LibraryOk(lib)
    ensures NormalHost(lib, a) == NormalHost(lib, b) <==> SameHost(lib, a, b)
  {
    var (x, y) := (lib.lower(a), lib.lower(b));
    if lib.parseIP(x).Some? {
      assert lib.parseIP(lib.parseIP(x).value) == lib.parseIP(x);
    }
    if lib.parseIP(y).Some? {
      assert lib.parseIP(lib.parseIP(y).value) == lib.parseIP(y);
    }
  }

  /** A separator that does not occur in either tail splits in one way only. */
  lemma {:induction false} SplitAtLast(a: string, p: string, b: string, q: string, sep: char)
    requires sep !in p && sep !in q
    requires a + [sep] + p == b + [sep] + q
    ensures a == b && p == q
  {
    var s := a + [sep] + p;
    assert s[|a|] == sep && forall i | |a| < i < |s| :: s[i] == p[i - |a| - 1] && s[i] != sep;
    assert s[|b|] == sep && forall i | |b| < i < |s| :: s[i] == q[i - |b| - 1] && s[i] != sep;
    assert |a| == |b|;
    assert a == s[..|a|] && b == s[..|b|];
    assert p == s[|a| + 1..] && q == s[|b| + 1..];
  }

  /** The bracketed join never confuses two hosts or two ports. */
  lemma JoinInjective(host: string, port: string, host': string, port': string)
    requires ':' !in port && ':' !in port'
    requires JoinHostPort(host, port) == JoinHostPort(host', port')
    ensures host == host' && port == port'
  {
    var x := if ':' in host then "[" + host + "]" else host;
    var y := if ':' in host' then "[" + host' + "]" else host';
    assert JoinHostPort(host, port) == x + [':'] + port;
    assert JoinHostPort(host', port') == y + [':'] + port';
    SplitAtLast(x, port, y, port', ':');
    Unbracketed(host, x);
    Unbracketed(host', y);
    assert ':' in host <==> ':' in host';
    assert ':' in host ==> host == x[1..|x| - 1] && host' == y[1..|y| - 1];
  }

  lemma Unbracketed(host: string, x: string)
    requires x == if ':' in host then "[" + host + "]" else host
    ensures ':' in x <==> ':' in host
  {
    if ':' in host {
      var i :| 0 <= i < |host| && host[i] == ':';
      assert x[i + 1] == ':';
    }
  }

  lemma KeyPortIsDigits(base: Base)
    requires BaseOk(base)
    ensures KeyPort(base.scheme, base.port) == Digits(PortNumber(base))
    ensures ':' !in KeyPort(base.scheme, base.port)
  {
    assert Digits(80) == "80" by {
      assert Digits(8) == "8";
    }
    assert Digits(443) == "443" by {
      assert Digits(4) == "4";
      assert Digits(44) == "44";
    }
  }

  /** For accepted base URLs, keys are equal exactly when the origins are: same scheme, two
      spellings of one host, same port number. */
  lemma OriginKeyIsExact(lib: Library, a: Base, b: Base)
    requires LibraryOk(lib) && BaseOk(a) && BaseOk(b)
    ensures CanonicalOriginKey(lib, a) == CanonicalOriginKey(lib, b) <==> SameOrigin(lib, a, b)
  {
    KeyPortIsDigits(a);
    KeyPortIsDigits(b);
    NormalHostIsExact(lib, a.hostname, b.hostname);
    var (j, k) := (JoinHostPort(NormalHost(lib, a.hostname), KeyPort(a.scheme, a.port)),
                   JoinHostPort(NormalHost(lib, b.hostname), KeyPort(b.scheme, b.port)));
    var (x, y) := (CanonicalOriginKey(lib, a), CanonicalOriginKey(lib, b));
    assert x == a.scheme + "://" + j && y == b.scheme + "://" + k;
    if x == y {
      SchemeIsRead(a.scheme, j, b.scheme, k);
      JoinInjective(NormalHost(lib, a.hostname), KeyPort(a.scheme, a.port),
                    NormalHost(lib, b.hostname), KeyPort(b.scheme, b.port));
      DigitsInjective(PortNumber(a), PortNumber(b));
    }
  }

  /** What one origin covers, spelled out: hosts that differ in case, literals of one address,
      a default port left out or given, and leading zeroes all give the same key. */
  lemma SpellingsShareAKey(lib: Library, a: Base, b: Base)
    requires LibraryOk(lib) && BaseOk(a) && BaseOk(b) && a.scheme == b.scheme
    requires || lib.lower(a.hostname) == lib.lower(b.hostname)
             || (&& lib.parseIP(lib.lower(a.hostname)).Some?
                 && lib.parseIP(lib.lower(a.hostname)) == lib.parseIP(lib.lower(b.hostname)))
    requires || a.port == b.port
             || (a.port == "" && b.port == (if a.scheme == "http" then "80" else "443"))
             || (a.port != "" && AllDigits(a.port) && b.port == "0" + a.port)
    ensures CanonicalOriginKey(lib, a) == CanonicalOriginKey(lib, b)
  {
    OriginKeyIsExact(lib, a, b);
    if a.port == "" {
      DefaultPorts();
    } else if b.port == "0" + a.port {
      LeadingZero(a.port);
    }
  }

  /** Other hosts, other keys. */
  lemma OtherHostsOtherKeys(lib: Library, a: Base, b: Base)
    requires LibraryOk(lib) && BaseOk(a) && BaseOk(b)
    requires lib.parseIP(lib.lower(a.hostname)).None? && lib.parseIP(lib.lower(b.hostname)).None?
    requires lib.lower(a.hostname) != lib.lower(b.hostname)
    ensures CanonicalOriginKey(lib, a) != CanonicalOriginKey(lib, b)
  {
    OriginKeyIsExact(lib, a, b);
  }

  lemma DefaultPorts()
    ensures Atoi("80") == Some(80) && Atoi("443") == Some(443)
  {
    assert "80"[..1] == "8" && "443"[..2] == "44" && "44"[..1] == "4";
    assert "8"[..0] == "" && "4"[..0] == "";
    assert Value("8") == 8 && Value("4") == 4;
    assert Value("80") == 80;
    assert Value("44") == 44;
    assert Value("443") == 443;
  }

  lemma {:induction false} LeadingZero(s: string)
    requires s != "" && AllDigits(s)
    ensures AllDigits("0" + s) && Value("0" + s) == Value(s)
    ensures Atoi("0" + s) == Atoi(s)
    decreases |s|
  {
    var z := "0" + s;
    assert forall c | c in z :: c == '0' || c in s;
    assert z[..|z| - 1] == "0" + s[..|s| - 1];
    if |s| == 1 {
      assert s[..0] == "" && z[..1] == "0" && "0"[..0] == "";
      assert Value("0") == 0;
    } else {
      LeadingZero(s[..|s| - 1]);
    }
    assert IsDigit(s[0]) && z[0] == '0';
  }

  lemma SchemeIsRead(s: string, j: string, t: string, k: string)
    requires (s == "http" || s == "https") && (t == "http" || t == "https")
    requires s + "://" + j == t + "://" + k
    ensures s == t && j == k
  {
    var x := s + "://" + j;
    assert x[4] == if s == "http" then ':' else 's';
    assert x[4] == if t == "http" then ':' else 's';
    assert j == x[|s| + 3..] && k == x[|t| + 3..];
  }
}
