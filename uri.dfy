/**
 * Server URL normalisation and percent-encoding (ppp/auxiliary/UriAuxiliary.cpp).
 *
 * `Parse` lower-cases and trims a server URL, checks its scheme, takes the
 * bracketed address, the port and the path apart, applies default ports and
 * rebuilds a canonical URL. Host name resolution is not modelled: the address
 * it yields is an input. `Encode` and `Decode` are the percent-encoding of
 * section 2.1 of RFC 3986 over the unreserved set of its section 2.3, with
 * '+' for a space as in the application/x-www-form-urlencoded form of the
 * WHATWG URL Standard.
 */
module UriAuxiliary {
  import opened Text

  /** `IPEndPoint::MinPort` and `IPEndPoint::MaxPort`. */
  const MinPort: int := 0
  const MaxPort: int := 65535

  datatype ProtocolType = Ppp | Http | HttpSSL | WebSocket | WebSocketSSL

  /** The out-parameters of `Parse`. */
  datatype UriParts = UriParts(hostname: string, address: string, path: string, port: int, protocol: ProtocolType)

  /** What `Parse` writes to its out-parameters on entry. */
  function DefaultParts(): UriParts {
    UriParts("", "", "", MinPort, Ppp)
  }

  /** The returned URL ("" on failure) and the out-parameters. */
  datatype ParseResult = ParseResult(url: string, parts: UriParts)

  function Failed(): ParseResult {
    ParseResult("", DefaultParts())
  }

  const AcceptedSchemes: set<string> := {"tcp", "ppp", "ws", "wss", "http", "https"}

  // ---------------------------------------------------------------- searching

  predicate OccursAt(s: string, pat: string, k: nat) {
    k + |pat| <= |s| && s[k..k + |pat|] == pat
  }

  ghost predicate Contains(s: string, pat: string) {
    exists k: nat :: OccursAt(s, pat, k)
  }

  /** `std::string::find` from position `from`. */
  function FindFrom(s: string, pat: string, from: nat): (r: Option<nat>)
    ensures r.Some? ==> from <= r.value && OccursAt(s, pat, r.value)
    ensures r.Some? ==> forall k: nat :: from <= k < r.value ==> !OccursAt(s, pat, k)
    ensures r.None? ==> forall k: nat :: from <= k ==> !OccursAt(s, pat, k)
    decreases |s| - from
  {
    if from + |pat| > |s| then None
    else if s[from..from + |pat|] == pat then Some(from)
    else FindFrom(s, pat, from + 1)
  }

  /** `std::string::find_first_of` with one character. */
  function FirstIndexOf(s: string, c: char): (r: Option<nat>)
    ensures r.Some? ==> r.value < |s| && s[r.value] == c && c !in s[..r.value]
    ensures r.None? ==> c !in s
  {
    if s == [] then None
    else if s[0] == c then Some(0)
    else match FirstIndexOf(s[1..], c)
      case None => None
      case Some(i) => assert s[..i + 1] == [s[0]] + s[1..][..i]; Some(i + 1)
  }

  /** `std::string::find_last_of` / `rfind` with one character. */
  function LastIndexOf(s: string, c: char): (r: Option<nat>)
    ensures r.Some? ==> r.value < |s| && s[r.value] == c && c !in s[r.value + 1..]
    ensures r.None? ==> c !in s
  {
    if s == [] then None
    else if s[|s| - 1] == c then Some(|s| - 1)
    else
      var r := LastIndexOf(s[..|s| - 1], c);
      assert s == s[..|s| - 1] + [s[|s| - 1]];
      assert r.Some? ==> s[r.value + 1..] == s[..|s| - 1][r.value + 1..] + [s[|s| - 1]];
      r
  }

  // ------------------------------------------------------------------ stages

  /** The URL after trimming and lower-casing (line 35). */
  function Normalize(url: string): (r: string)
    ensures |r| <= |url| && NoUpper(r)
    ensures r == [] || (!IsSpace(r[0]) && !IsSpace(r[|r| - 1]))
  {
    ToLower(LTrim(RTrim(url)))
  }

  datatype SchemeSplit = SchemeSplit(scheme: string, hostAndPath: string)

  /**
   * Splits at the first "://", or failing that at the first ":/", and demands
   * something after the separator (lines 40-59).
   */
  function SplitScheme(u: string): (r: Option<SchemeSplit>)
    ensures r.Some? ==> r.value.hostAndPath != []
    ensures r.Some? ==> |u| >= |r.value.hostAndPath| + 2 && r.value.hostAndPath == u[|u| - |r.value.hostAndPath|..]
    ensures !Contains(u, "://") && !Contains(u, ":/") ==> r.None?
  {
    var (index, offset) := match FindFrom(u, "://", 0)
      case Some(i) => (Some(i), 3)
      case None => (FindFrom(u, ":/", 0), 2);
    match index
    case None => None
    case Some(i) =>
      if i + offset >= |u| then None
      else
        Some(SchemeSplit(u[..i], u[i + offset..]))
  }

  /**
   * `SplitScheme` cuts at the first "://"; only when there is none does it
   * cut at the first ":/"; it fails exactly when nothing follows the
   * separator it cut at (lines 40-59).
   */
  lemma SchemeSeparator(u: string)
    ensures var r := SplitScheme(u);
            FindFrom(u, "://", 0).Some? ==>
              var i := FindFrom(u, "://", 0).value;
              && (r.Some? <==> i + 3 < |u|)
              && (r.Some? ==> r.value.scheme == u[..i] && r.value.hostAndPath == u[i + 3..])
    ensures var r := SplitScheme(u);
            FindFrom(u, "://", 0).None? ==>
              && (r.Some? <==> FindFrom(u, ":/", 0).Some? && FindFrom(u, ":/", 0).value + 2 < |u|)
              && (r.Some? ==> var i := FindFrom(u, ":/", 0).value;
                              r.value.scheme == u[..i] && r.value.hostAndPath == u[i + 2..])
  {
  }

  /** The scheme table (lines 64-85). */
  function SchemeProtocol(scheme: string): (r: Option<ProtocolType>)
    ensures r.Some? <==> scheme in AcceptedSchemes
    ensures r == Some(Ppp) <==> scheme == "tcp" || scheme == "ppp"
    ensures r == Some(WebSocketSSL) <==> scheme == "wss"
    ensures r == Some(WebSocket) <==> scheme == "ws"
    ensures r == Some(HttpSSL) <==> scheme == "https"
    ensures r == Some(Http) <==> scheme == "http"
  {
    if scheme == "tcp" || scheme == "ppp" then Some(Ppp)
    else if scheme == "wss" then Some(WebSocketSSL)
    else if scheme == "ws" then Some(WebSocket)
    else if scheme == "https" then Some(HttpSSL)
    else if scheme == "http" then Some(Http)
    else None
  }

  datatype HostPath = HostPath(host: string, path: string)

  /**
   * Splits the host part from the path at the first '/' (lines 87-99). The
   * guard at line 90 compares with the length of the whole URL `u`, of which
   * `hostAndPath` is a proper suffix.
   */
  function SplitHostPath(u: string, hostAndPath: string): HostPath {
    match FirstIndexOf(hostAndPath, '/')
    case Some(i) => HostPath(hostAndPath[..i], if |u| > i + 1 then "/" + hostAndPath[i + 1..] else "")
    case None => HostPath(hostAndPath, "/")
  }

  /**
   * The host is the longest prefix of the host part without a '/'; the path
   * is "/" and what follows that '/' (empty when the URL ends there), or "/"
   * when there is no '/'.
   */
  lemma HostPathParts(u: string, hostAndPath: string)
    ensures var r := SplitHostPath(u, hostAndPath);
            |r.host| <= |hostAndPath| && r.host == hostAndPath[..|r.host|] && '/' !in r.host
    ensures var r := SplitHostPath(u, hostAndPath);
            |r.host| < |hostAndPath| ==>
              && hostAndPath[|r.host|] == '/'
              && r.path == if |u| > |r.host| + 1 then "/" + hostAndPath[|r.host| + 1..] else ""
    ensures var r := SplitHostPath(u, hostAndPath);
            |r.host| == |hostAndPath| ==> r.path == "/"
  {
  }

  datatype HostAddress = HostAddress(host: string, address: string)

  /**
   * Takes out a bracketed address: from the first '[' to the last ']'; fails
   * when there is no ']' after the '[' (lines 101-111).
   */
  function ExtractBracketed(host: string): (r: Option<HostAddress>)
    ensures r.None? <==> match FirstIndexOf(host, '[')
                         case None => false
                         case Some(i) => ']' !in host[i..]
  {
    match FirstIndexOf(host, '[')
    case None => Some(HostAddress(host, ""))
    case Some(i) =>
      match LastIndexOf(host, ']')
      case None => None
      case Some(n) =>
        if i > n then
          assert ']' !in host[i..] by {
            forall j | 0 <= j < |host[i..]| ensures host[i..][j] != ']' {
              assert host[i + j] in host[n + 1..] || i + j == n;
            }
          }
          None
        else
          assert host[n] == host[i..][n - i];
          Some(HostAddress(host[..i] + host[n + 1..], host[i + 1..n]))
  }

  /**
   * Without a '[' the host is kept whole; otherwise the address is what lies
   * between the first '[' and the last ']', and the host is what surrounds them.
   */
  lemma BracketedParts(host: string)
    ensures var r := ExtractBracketed(host);
            FirstIndexOf(host, '[').None? ==> r == Some(HostAddress(host, ""))
    ensures var r := ExtractBracketed(host);
            r.Some? && FirstIndexOf(host, '[').Some? ==>
              var i := FirstIndexOf(host, '[').value;
              && LastIndexOf(host, ']').Some? && i < LastIndexOf(host, ']').value
              && var n := LastIndexOf(host, ']').value;
              && r.value.address == host[i + 1..n] && r.value.host == host[..i] + host[n + 1..]
  {
  }

  datatype HostPort = HostPort(host: string, port: int)

  /**
   * Splits the port off at the last ':'; fails when nothing follows the ':'
   * (lines 113-125). Without a ':' the port is 0.
   */
  function SplitPort(host: string): (r: Option<HostPort>)
    ensures r.None? <==> host != [] && host[|host| - 1] == ':'
  {
    match LastIndexOf(host, ':')
    case None => Some(HostPort(host, 0))
    case Some(i) =>
      if i + 1 >= |host| then None
      else Some(HostPort(host[..i], Atoi(Trim(host[i + 1..]))))
  }

  /**
   * The port that is used: the given one when it lies in (MinPort, MaxPort],
   * otherwise the scheme's default, which tcp and ppp lack (lines 129-139).
   */
  function EffectivePort(protocol: ProtocolType, port: int): (r: Option<int>)
    ensures r.Some? ==> MinPort < r.value <= MaxPort
    ensures MinPort < port <= MaxPort ==> r == Some(port)
    ensures !(MinPort < port <= MaxPort) ==>
      r == match protocol
           case Http | WebSocket => Some(80)
           case HttpSSL | WebSocketSSL => Some(443)
           case Ppp => None
  {
    if port <= MinPort || port > MaxPort then
      if protocol == Http || protocol == WebSocket then Some(80)
      else if protocol == HttpSSL || protocol == WebSocketSSL then Some(443)
      else None
    else Some(port)
  }

  /** What `Parse` has taken apart before it settles the port. */
  datatype Components = Components(
    scheme: string, protocol: ProtocolType, hostAndPath: string,
    host: string, bracketed: string, path: string, port: int)

  /**
   * Without a ':' the port is 0; otherwise the host is what precedes the last
   * ':' and the port is `atoi` of the trimmed rest.
   */
  lemma PortParts(host: string)
    ensures var r := SplitPort(host);
            LastIndexOf(host, ':').None? ==> r == Some(HostPort(host, 0))
    ensures var r := SplitPort(host);
            r.Some? && LastIndexOf(host, ':').Some? ==>
              var i := LastIndexOf(host, ':').value;
              r.value.host == host[..i] && r.value.port == Atoi(Trim(host[i + 1..]))
  {
  }

  /** Lines 87-128: path, bracketed address and port, then trimming. */
  function DecomposeHost(u: string, sp: SchemeSplit, protocol: ProtocolType): (r: Option<Components>)
    ensures r.Some? ==> r.value.scheme == sp.scheme && r.value.protocol == protocol
                        && r.value.hostAndPath == sp.hostAndPath
  {
    var hp := SplitHostPath(u, sp.hostAndPath);
    match ExtractBracketed(hp.host)
    case None => None
    case Some(ha) =>
      match SplitPort(ha.host)
      case None => None
      case Some(hpo) =>
        Some(Components(sp.scheme, protocol, sp.hostAndPath, Trim(hpo.host), ha.address, Trim(hp.path), hpo.port))
  }

  /**
   * `DecomposeHost` succeeds exactly when the bracket and port stages do, and
   * then takes the host name, bracketed address, path and port from them.
   */
  lemma DecomposedFrom(u: string, sp: SchemeSplit, protocol: ProtocolType)
    ensures var r := DecomposeHost(u, sp, protocol);
            var hp := SplitHostPath(u, sp.hostAndPath);
            r.Some? <==> ExtractBracketed(hp.host).Some? && SplitPort(ExtractBracketed(hp.host).value.host).Some?
    ensures var r := DecomposeHost(u, sp, protocol);
            r.Some? ==>
              var hp := SplitHostPath(u, sp.hostAndPath);
              var ha := ExtractBracketed(hp.host).value;
              var hpo := SplitPort(ha.host).value;
              && r.value.host == Trim(hpo.host) && r.value.bracketed == ha.address
              && r.value.path == Trim(hp.path) && r.value.port == hpo.port
  {
  }

  /** Lines 31-128: every check up to the port default. */
  function Decompose(url: string): (r: Option<Components>)
    ensures r.Some? ==> url != [] && SplitScheme(Normalize(url)).Some?
    ensures r.Some? ==>
      var sp := SplitScheme(Normalize(url)).value;
      && SchemeProtocol(sp.scheme) == Some(r.value.protocol)
      && r == DecomposeHost(Normalize(url), sp, r.value.protocol)
    ensures (url != [] && SplitScheme(Normalize(url)).Some?
             && SplitScheme(Normalize(url)).value.scheme !in AcceptedSchemes) ==> r.None?
  {
    if url == [] then None else
    var u := Normalize(url);
    if u == [] then None else
    match SplitScheme(u)
    case None => None
    case Some(sp) =>
      match SchemeProtocol(sp.scheme)
      case None => None
      case Some(protocol) => DecomposeHost(u, sp, protocol)
  }

  /**
   * `UriAuxiliary::Parse`. `resolved` is the textual address of the endpoint
   * the host resolves to, or None when that endpoint is invalid.
   */
  function Parse(url: string, resolved: Option<string>): (r: ParseResult)
    ensures r.url == [] ==> r.parts == DefaultParts()
    ensures r.url != [] ==> Decompose(url).Some? && MinPort < r.parts.port <= MaxPort
  {
    match Decompose(url)
    case None => Failed()
    case Some(c) => Assemble(c, resolved)
  }

  /** Lines 129-150: settles the port and rebuilds the URL from what `Decompose` took apart. */
  function Assemble(c: Components, resolved: Option<string>): (r: ParseResult)
    ensures r.url == [] <==> EffectivePort(c.protocol, c.port).None?
    ensures r.url == [] ==> r == Failed()
    ensures r.url != [] ==> && r.parts.port == EffectivePort(c.protocol, c.port).value
                            && r.parts.protocol == c.protocol
                            && r.parts.address == (if resolved.Some? then resolved.value else c.bracketed)
  {
    match EffectivePort(c.protocol, c.port)
    case None => Failed()
    case Some(port) =>
      var address := if resolved.Some? then resolved.value else c.bracketed;
      ParseResult(c.scheme + "://" + c.host + ":" + IntToString(port) + c.path,
                  UriParts(c.host, address, c.path, port, c.protocol))
  }

  // --------------------------------------------------------- Parse properties

  /** Parse succeeds only for an accepted scheme, and the protocol is that scheme's. */
  lemma SchemeCheck(url: string, resolved: Option<string>)
    ensures var r := Parse(url, resolved);
            r.url != [] ==>
              && url != [] && SplitScheme(Normalize(url)).Some?
              && var sp := SplitScheme(Normalize(url)).value;
              && sp.scheme in AcceptedSchemes
              && r.parts.protocol == SchemeProtocol(sp.scheme).value
  {
  }

  /** Parse fails for a URL whose scheme is not accepted. */
  lemma SchemeRefused(url: string, resolved: Option<string>)
    requires url != [] && SplitScheme(Normalize(url)).Some?
    requires SplitScheme(Normalize(url)).value.scheme !in AcceptedSchemes
    ensures Parse(url, resolved) == Failed()
  {
  }

  /** The port defaults of lines 129-139. */
  lemma DefaultPorts(url: string, resolved: Option<string>)
    requires Decompose(url).Some?
    ensures var c := Decompose(url).value;
            var r := Parse(url, resolved);
            && (MinPort < c.port <= MaxPort ==> r.parts.port == c.port)
            && (!(MinPort < c.port <= MaxPort) && (c.protocol == Http || c.protocol == WebSocket) ==> r.parts.port == 80)
            && (!(MinPort < c.port <= MaxPort) && (c.protocol == HttpSSL || c.protocol == WebSocketSSL) ==> r.parts.port == 443)
            && (!(MinPort < c.port <= MaxPort) && c.protocol == Ppp ==> r.url == [])
  {
    var c := Decompose(url).value;
    assert Parse(url, resolved) == Assemble(c, resolved);
  }

  /**
   * A host part ending in ':', or holding a '[' with no ']' after it, is
   * refused (lines 101-125).
   */
  lemma MalformedHost(u: string, sp: SchemeSplit, protocol: ProtocolType)
    ensures var host := SplitHostPath(u, sp.hostAndPath).host;
            ('[' in host && ']' !in host[FirstIndexOf(host, '[').value..]) ==> DecomposeHost(u, sp, protocol).None?
    ensures var host := SplitHostPath(u, sp.hostAndPath).host;
            (host != [] && host[|host| - 1] == ':') ==> DecomposeHost(u, sp, protocol).None?
  {
    var host := SplitHostPath(u, sp.hostAndPath).host;
    if host != [] && host[|host| - 1] == ':' && ExtractBracketed(host).Some? {
      var ha := ExtractBracketed(host).value;
      if FirstIndexOf(host, '[').Some? {
        var i := FirstIndexOf(host, '[').value;
        var n := LastIndexOf(host, ']').value;
        assert n < |host| - 1;
        assert ha.host[|ha.host| - 1] == host[|host| - 1];
      }
      assert SplitPort(ha.host).None?;
    }
  }

  lemma NoUpperOfSlice(s: string, i: nat, j: nat)
    requires NoUpper(s) && i <= j <= |s|
    ensures NoUpper(s[i..j])
  {
    forall k | 0 <= k < j - i ensures !IsUpper(s[i..j][k]) {
      assert s[i..j][k] == s[i + k];
    }
  }

  lemma NoUpperOfTrim(s: string)
    requires NoUpper(s)
    ensures NoUpper(Trim(s))
  {
    var r := RTrim(s);
    NoUpperOfSlice(s, 0, |r|);
    NoUpperOfSlice(r, |r| - |LTrim(r)|, |r|);
  }

  /** The normalised URL does not end with whitespace. */
  lemma NormalizedEnd(url: string)
    ensures var u := Normalize(url); u == [] || !IsSpace(u[|u| - 1])
  {
    var r := RTrim(url);
    var l := LTrim(r);
    if l != [] {
      assert l[|l| - 1] == r[|r| - 1];
    }
  }

  /**
   * The path of lines 87-99 and 128: "/" and everything after the first '/',
   * or "/", when the host part is a proper suffix of a URL that does not end
   * in whitespace.
   */
  lemma PathAfterFirstSlash(u: string, hap: string)
    requires |u| >= |hap| + 2
    requires hap == [] || !IsSpace(hap[|hap| - 1])
    ensures Trim(SplitHostPath(u, hap).path) == SlashPath(hap)
  {
    var p := SlashPath(hap);
    assert SplitHostPath(u, hap).path == p;
    if |p| > 1 {
      assert p[|p| - 1] == hap[|hap| - 1];
    }
    TrimOfPath(p);
  }

  /** "/" and everything after the first '/' of `hap`, or "/" when it has none. */
  function SlashPath(hap: string): (p: string)
    ensures p != [] && p[0] == '/' && |p| <= |hap| + 1
    ensures |p| > 1 ==> p[1..] == hap[|hap| - |p| + 1..]
  {
    match FirstIndexOf(hap, '/')
    case None => "/"
    case Some(i) => "/" + hap[i + 1..]
  }

  lemma EndOfSuffix(u: string, hap: string)
    requires |hap| <= |u| && hap == u[|u| - |hap|..]
    requires u == [] || !IsSpace(u[|u| - 1])
    ensures hap == [] || !IsSpace(hap[|hap| - 1])
  {
    if hap != [] {
      assert hap[|hap| - 1] == u[|u| - 1];
    }
  }

  lemma TrimOfPath(p: string)
    requires p != [] && p[0] == '/' && !IsSpace(p[|p| - 1])
    ensures Trim(p) == p
  {
    RTrimOfNoTrailingSpace(p);
  }

  lemma LowerHostPath(u: string, hap: string)
    requires NoUpper(hap)
    ensures NoUpper(SplitHostPath(u, hap).host) && NoUpper(SplitHostPath(u, hap).path)
  {
    match FirstIndexOf(hap, '/')
    case None =>
    case Some(i) =>
      NoUpperOfSlice(hap, 0, i);
      NoUpperOfSlice(hap, i + 1, |hap|);
  }

  lemma LowerBracketed(host: string)
    requires NoUpper(host) && ExtractBracketed(host).Some?
    ensures NoUpper(ExtractBracketed(host).value.host)
  {
    match FirstIndexOf(host, '[')
    case None =>
    case Some(i) =>
      var n := LastIndexOf(host, ']').value;
      NoUpperOfSlice(host, 0, i);
      NoUpperOfSlice(host, n + 1, |host|);
  }

  lemma LowerSplitPort(host: string)
    requires NoUpper(host) && SplitPort(host).Some?
    ensures NoUpper(SplitPort(host).value.host)
  {
    match LastIndexOf(host, ':')
    case None =>
    case Some(i) => NoUpperOfSlice(host, 0, i);
  }

  /** Host name and path keep the lower case of the host part they come from. */
  lemma LowerCaseParts(u: string, sp: SchemeSplit, protocol: ProtocolType)
    requires NoUpper(sp.hostAndPath) && DecomposeHost(u, sp, protocol).Some?
    ensures NoUpper(DecomposeHost(u, sp, protocol).value.host)
    ensures NoUpper(DecomposeHost(u, sp, protocol).value.path)
  {
    var hp := SplitHostPath(u, sp.hostAndPath);
    LowerHostPath(u, sp.hostAndPath);
    LowerBracketed(hp.host);
    var ha := ExtractBracketed(hp.host).value;
    LowerSplitPort(ha.host);
    NoUpperOfTrim(SplitPort(ha.host).value.host);
    NoUpperOfTrim(hp.path);
  }

  /**
   * On success the result is scheme, "://", host name, ":", port and path;
   * the path is "/" and everything after the first '/' of the host part (or
   * "/" when it has none); host name and path hold no upper-case letter.
   */
  lemma CanonicalResult(url: string, resolved: Option<string>)
    ensures var r := Parse(url, resolved);
            r.url != [] ==>
              var c := Decompose(url).value;
              && r.url == c.scheme + "://" + r.parts.hostname + ":" + IntToString(r.parts.port) + r.parts.path
              && r.parts.path == SlashPath(c.hostAndPath)
              && NoUpper(r.parts.hostname) && NoUpper(r.parts.path)
  {
    var r := Parse(url, resolved);
    if r.url != [] {
      var c := Decompose(url).value;
      var sp := SplitScheme(Normalize(url)).value;
      NormalizedEnd(url);
      CanonicalParts(Normalize(url), sp, c.protocol);
    }
  }

  /** Path and host name as the normalised URL `u` yields them. */
  lemma CanonicalParts(u: string, sp: SchemeSplit, protocol: ProtocolType)
    requires NoUpper(u) && (u == [] || !IsSpace(u[|u| - 1]))
    requires SplitScheme(u) == Some(sp) && DecomposeHost(u, sp, protocol).Some?
    ensures DecomposeHost(u, sp, protocol).value.path == SlashPath(sp.hostAndPath)
    ensures NoUpper(DecomposeHost(u, sp, protocol).value.host)
    ensures NoUpper(DecomposeHost(u, sp, protocol).value.path)
  {
    var hap := sp.hostAndPath;
    CanonicalPath(u, sp, protocol);
    NoUpperOfSlice(u, |u| - |hap|, |u|);
    LowerCaseParts(u, sp, protocol);
  }

  lemma CanonicalPath(u: string, sp: SchemeSplit, protocol: ProtocolType)
    requires u == [] || !IsSpace(u[|u| - 1])
    requires SplitScheme(u) == Some(sp) && DecomposeHost(u, sp, protocol).Some?
    ensures DecomposeHost(u, sp, protocol).value.path == SlashPath(sp.hostAndPath)
  {
    EndOfSuffix(u, sp.hostAndPath);
    PathAfterFirstSlash(u, sp.hostAndPath);
    DecomposedFrom(u, sp, protocol);
  }

  // --------------------------------------------------------- percent-encoding

  /** The unreserved characters of section 2.3 of RFC 3986. */
  predicate Unreserved(c: char) {
    IsAlnum(c) || c == '-' || c == '_' || c == '.' || c == '~'
  }

  /** The encoding of one byte: itself, '+' for a space, or '%' and two hex digits. */
  function EncodedByte(c: Byte): (r: seq<Byte>)
    ensures |r| == 1 || |r| == 3
  {
    if Unreserved(c) then [c]
    else if c == ' ' then ['+']
    else ['%', ToHex(c as int / 16), ToHex(c as int % 16)]
  }

  function Encoded(s: seq<Byte>): (r: seq<Byte>)
  {
    if s == [] then [] else EncodedByte(s[0]) + Encoded(s[1..])
  }

  /** The byte `%XY` stands for. */
  function HexByte(high: char, low: char): Byte {
    (FromHex(high) * 16 + FromHex(low)) as char
  }

  function Decoded(s: seq<Byte>): (r: seq<Byte>)
    ensures |r| <= |s|
  {
    if s == [] then []
    else if s[0] == '+' then [' '] + Decoded(s[1..])
    else if s[0] == '%' then
      if |s| >= 3 then [HexByte(s[1], s[2])] + Decoded(s[3..]) else []
    else [s[0]] + Decoded(s[1..])
  }

  /** Whether the byte is written as '%' and two hex digits. */
  predicate Escaped(c: Byte) {
    !Unreserved(c) && c != ' '
  }

  function EscapedCount(s: seq<Byte>): nat {
    if s == [] then 0 else (if Escaped(s[0]) then 1 else 0) + EscapedCount(s[1..])
  }

  lemma {:induction false} EncodedAppend(s: seq<Byte>, c: Byte)
    ensures Encoded(s + [c]) == Encoded(s) + EncodedByte(c)
  {
    if s == [] {
      assert [c][1..] == [];
    } else {
      assert (s + [c])[1..] == s[1..] + [c];
      EncodedAppend(s[1..], c);
    }
  }

  /** Each input byte takes one output byte, or three when it is escaped. */
  lemma {:induction false} EncodedLength(s: seq<Byte>)
    ensures |Encoded(s)| == |s| + 2 * EscapedCount(s)
  {
    if s != [] {
      EncodedLength(s[1..]);
    }
  }

  /** The encoding holds only unreserved characters, '+' and '%'. */
  lemma {:induction false} EncodedAlphabet(s: seq<Byte>)
    ensures forall i :: 0 <= i < |Encoded(s)| ==> Unreserved(Encoded(s)[i]) || Encoded(s)[i] in "+%"
  {
    if s != [] {
      EncodedAlphabet(s[1..]);
      var e := EncodedByte(s[0]);
      forall i | 0 <= i < |Encoded(s)|
        ensures Unreserved(Encoded(s)[i]) || Encoded(s)[i] in "+%"
      {
        if i >= |e| {
          assert Encoded(s)[i] == Encoded(s[1..])[i - |e|];
        }
      }
    }
  }

  lemma HexByteOfHex(c: Byte)
    ensures HexByte(ToHex(c as int / 16), ToHex(c as int % 16)) == c
  {
    FromHexToHex(c as int / 16);
    FromHexToHex(c as int % 16);
  }

  lemma DecodedEncodedByte(c: Byte, t: seq<Byte>)
    ensures Decoded(EncodedByte(c) + t) == [c] + Decoded(t)
  {
    var e := EncodedByte(c) + t;
    if Unreserved(c) {
      assert e[1..] == t;
    } else if c == ' ' {
      assert e[1..] == t;
    } else {
      assert e[3..] == t;
      HexByteOfHex(c);
    }
  }

  /** Decoding an encoding followed by anything yields the original bytes first. */
  lemma {:induction false} DecodedEncodedPrefix(s: seq<Byte>, t: seq<Byte>)
    ensures Decoded(Encoded(s) + t) == s + Decoded(t)
  {
    if s == [] {
      assert Encoded(s) + t == t;
    } else {
      calc {
        Decoded(Encoded(s) + t);
        { Regroup(EncodedByte(s[0]), Encoded(s[1..]), t); }
        Decoded(EncodedByte(s[0]) + (Encoded(s[1..]) + t));
        { DecodedEncodedByte(s[0], Encoded(s[1..]) + t); }
        [s[0]] + Decoded(Encoded(s[1..]) + t);
        { DecodedEncodedPrefix(s[1..], t); }
        [s[0]] + (s[1..] + Decoded(t));
        { Regroup([s[0]], s[1..], Decoded(t)); assert [s[0]] + s[1..] == s; }
        s + Decoded(t);
      }
    }
  }

  /** `Decode` inverts `Encode`. */
  lemma DecodeEncodeRoundTrip(s: seq<Byte>)
    ensures Decoded(Encoded(s)) == s
  {
    DecodedEncodedPrefix(s, []);
    assert Encoded(s) + [] == Encoded(s);
  }

  /** A '%' followed by fewer than two characters ends decoding, dropping it and the rest. */
  lemma DecodeStopsAtShortEscape(s: seq<Byte>, rest: seq<Byte>)
    requires |rest| < 2
    ensures Decoded(Encoded(s) + ['%'] + rest) == s
  {
    DecodedEncodedPrefix(s, ['%'] + rest);
    Regroup(Encoded(s), ['%'], rest);
  }

  /** `UriAuxiliary::Encode`. */
  method Encode(input: seq<Byte>) returns (encoded: seq<Byte>)
    ensures encoded == Encoded(input)
  {
    encoded := [];
    var i := 0;
    while i < |input|
      invariant 0 <= i <= |input|
      invariant encoded == Encoded(input[..i])
    {
      EncodedAppend(input[..i], input[i]);
      assert input[..i + 1] == input[..i] + [input[i]];
      if Unreserved(input[i]) {
        encoded := encoded + [input[i]];
      } else if input[i] == ' ' {
        encoded := encoded + ['+'];
      } else {
        encoded := encoded + ['%'];
        encoded := encoded + [ToHex(input[i] as int / 16)];
        encoded := encoded + [ToHex(input[i] as int % 16)];
      }
      i := i + 1;
    }
    assert input[..i] == input;
  }

  /** `UriAuxiliary::Decode`. */
  method Decode(input: seq<Byte>) returns (decoded: seq<Byte>)
    ensures decoded == Decoded(input)
  {
    decoded := [];
    var i := 0;
    var length := |input|;
    while i < length
      invariant 0 <= i <= length
      invariant decoded + Decoded(input[i..]) == Decoded(input)
    {
      if input[i] == '+' {
        assert input[i..][1..] == input[i + 1..];
        Regroup(decoded, [' '], Decoded(input[i + 1..]));
        decoded := decoded + [' '];
      } else if input[i] == '%' {
        if i + 2 < length {
          assert input[i..][3..] == input[i + 3..];
          Regroup(decoded, [HexByte(input[i + 1], input[i + 2])], Decoded(input[i + 3..]));
          i := i + 1;
          var high := FromHex(input[i]);
          i := i + 1;
          var low := FromHex(input[i]);
          decoded := decoded + [(high * 16 + low) as char];
        } else {
          break;
        }
      } else {
        assert input[i..][1..] == input[i + 1..];
        Regroup(decoded, [input[i]], Decoded(input[i + 1..]));
        decoded := decoded + [input[i]];
      }
      i := i + 1;
    }
  }
}
