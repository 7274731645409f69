/** The scheme, host and port a caller used, read from a WSGI environ and, where they are
    trusted, from the forwarded headers. Header text is taken as ASCII. */
module BaseUrl {
  import opened Options
  import opened Text

  type Environ = map<string, string>

  const PROTO := "HTTP_X_FORWARDED_PROTO"
  const FORWARDED_HOST := "HTTP_X_FORWARDED_HOST"
  const PORT := "HTTP_X_FORWARDED_PORT"
  const HOST := "HTTP_HOST"
  const SERVER_NAME := "SERVER_NAME"
  const SERVER_PORT := "SERVER_PORT"
  const URL_SCHEME := "wsgi.url_scheme"

  function Lookup(env: Environ, key: string): Option<string> {
    if key in env then Some(env[key]) else None
  }

  // ---- Text ----

  predicate IsSpace(c: char) {
    c == ' ' || 9 as char <= c <= 13 as char || 28 as char <= c <= 31 as char
  }

  predicate NotSpace(c: char) {
    !IsSpace(c)
  }

  function StripRight(s: string): string {
    if s != "" && IsSpace(s[|s| - 1]) then StripRight(s[..|s| - 1]) else s
  }

  function Strip(s: string): string {
    StripRight(s[Span(s, IsSpace)..])
  }

  function LowerChar(c: char): char {
    if 'A' <= c <= 'Z' then c + ('a' - 'A') else c
  }

  function Lower(s: string): string {
    seq(|s|, i requires 0 <= i < |s| => LowerChar(s[i]))
  }

  predicate All(s: string, kind: char -> bool) {
    forall i :: 0 <= i < |s| ==> kind(s[i])
  }

  function Count(s: string, c: char): nat {
    if s == "" then 0 else (if s[0] == c then 1 else 0) + Count(s[1..], c)
  }

  /** Where `c` first occurs, or |s|. */
  function FirstAt(s: string, c: char): (n: nat)
    ensures n <= |s|
    ensures n < |s| ==> s[n] == c
    ensures forall i :: 0 <= i < n ==> s[i] != c
  {
    if s == "" || s[0] == c then 0 else 1 + FirstAt(s[1..], c)
  }

  // ---- The helpers of base_url ----

  function Hops(value: string): seq<string>
    decreases |value|
  {
    var i := FirstAt(value, ',');
    if i == |value| then NonBlank(value)
    else NonBlank(value[..i]) + Hops(value[i + 1..])
  }

  function NonBlank(hop: string): seq<string> {
    if Strip(hop) == "" then [] else [Strip(hop)]
  }

  function LastHop(value: Option<string>): Option<string> {
    if value.None? || Hops(value.value) == [] then None
    else Some(Hops(value.value)[|Hops(value.value)| - 1])
  }

  // Host and port of an authority, before either is checked.
  datatype Authority = Authority(host: Option<string>, port: Option<string>)

  function SplitAuthority(value: Option<string>): Authority {
    if value.None? then Authority(None, None)
    else
      var authority := Strip(value.value);
      if authority != "" && authority[0] == '[' then
        var close := FirstAt(authority, ']');
        if close == |authority| then Authority(None, None)
        else
          var rest := authority[close + 1..];
          Authority(Some(authority[..close + 1]), if rest != "" && rest[0] == ':' then Some(rest[1..]) else None)
      else if Count(authority, ':') == 1 then
        var colon := FirstAt(authority, ':');
        Authority(Some(authority[..colon]), if colon < |authority| then Some(authority[colon + 1..]) else None)
      else Authority(Some(authority), None)
  }

  predicate SchemeChar(c: char) {
    'a' <= c <= 'z' || IsDigit(c) || c == '+' || c == '.' || c == '-'
  }

  predicate SchemeShape(s: string) {
    1 <= |s| <= 32 && 'a' <= s[0] <= 'z' && All(s, SchemeChar)
  }

  function CleanScheme(value: Option<string>): Option<string> {
    if value.None? then None
    else
      var text := Lower(Strip(value.value));
      var scheme := if text != "" && text[|text| - 1] == ':' then text[..|text| - 1] else text;
      if SchemeShape(scheme) then Some(scheme) else None
  }

  predicate NameChar(c: char) {
    'a' <= c <= 'z' || IsDigit(c) || c == '.' || c == '_' || c == '-'
  }

  predicate Ipv6Char(c: char) {
    'a' <= c <= 'f' || IsDigit(c) || c == ':' || c == '.'
  }

  predicate HostShape(s: string) {
    && 1 <= |s| <= 253
    && (All(s, NameChar)
        || (|s| >= 3 && s[0] == '[' && s[|s| - 1] == ']' && All(s[1..|s| - 1], Ipv6Char)))
  }

  function CleanHost(value: Option<string>): Option<string> {
    if value.None? then None
    else
      var host := Lower(Strip(value.value));
      if HostShape(host) then Some(host) else None
  }

  function ValidPort(value: Option<string>): Option<nat> {
    if value.None? then None
    else
      var raw := Strip(value.value);
      if raw != "" && AllDigits(raw) && 1 <= DecimalValue(raw) <= 65535 then Some(DecimalValue(raw)) else None
  }

  function DefaultPort(scheme: string): Option<nat> {
    if scheme == "http" then Some(80) else if scheme == "https" then Some(443) else None
  }

  function CleanPort(value: Option<string>, scheme: string): Option<nat> {
    var port := ValidPort(value);
    if port.Some? && DefaultPort(scheme) == port then None else port
  }

  /** An empty Host header counts as none. */
  function HostAuthority(env: Environ): Option<string> {
    var header := Lookup(env, HOST);
    if header.Some? && header.value != "" then header else Lookup(env, SERVER_NAME)
  }

  // What the forwarded headers prove, each on its own.
  datatype Evidence = Evidence(scheme: Option<string>, host: Option<string>, hostPort: Option<string>, port: Option<nat>)

  function ForwardedEvidence(proto: Option<string>, host: Option<string>, port: Option<string>): Evidence {
    var authority := SplitAuthority(LastHop(host));
    var cleaned := CleanHost(authority.host);
    Evidence(
      CleanScheme(LastHop(proto)),
      cleaned,
      if cleaned.Some? then authority.port else None,
      ValidPort(LastHop(port)))
  }

  datatype Resolved = Resolved(scheme: Option<string>, host: Option<string>, port: Option<nat>)

  function Resolve(env: Environ, trust: bool): Resolved {
    ResolveWith(env,
      if trust then ForwardedEvidence(Lookup(env, PROTO), Lookup(env, FORWARDED_HOST), Lookup(env, PORT))
      else Evidence(None, None, None, None))
  }

  function ResolveWith(env: Environ, forwarded: Evidence): Resolved {
    var proxied := forwarded.scheme.Some? || forwarded.port.Some?;
    var scheme :=
      if forwarded.scheme.Some? then forwarded.scheme
      else if proxied then None
      else CleanScheme(Lookup(env, URL_SCHEME));
    var authority := SplitAuthority(HostAuthority(env));
    var host := if forwarded.host.Some? then forwarded.host else CleanHost(authority.host);
    var hostPort := if forwarded.host.Some? then forwarded.hostPort else authority.port;
    var portText :=
      if forwarded.port.Some? then Some(Decimal(forwarded.port.value))
      else if hostPort.Some? && hostPort.value != "" then hostPort
      else if proxied then None
      else Lookup(env, SERVER_PORT);
    Resolved(scheme, host, if scheme.Some? then CleanPort(portText, scheme.value) else None)
  }

  /** The host for the authorize path: never from a forwarded header. */
  function Hostname(env: Environ): Option<string> {
    CleanHost(SplitAuthority(HostAuthority(env)).host)
  }

  // ---- What comes out is well-formed ----

  /** A port is never reported without a scheme, out of range, or equal to the default. */
  lemma ResolvedShape(env: Environ, trust: bool)
    ensures var r := Resolve(env, trust);
      && (r.scheme.Some? ==> SchemeShape(r.scheme.value))
      && (r.host.Some? ==> HostShape(r.host.value))
      && (r.port.Some? ==> r.scheme.Some? && 1 <= r.port.value <= 65535 && DefaultPort(r.scheme.value) != r.port)
  {
  }

  // ---- Resolving a rendered answer again ----

  function HostHeader(r: Resolved): string {
    (if r.host.Some? then r.host.value else "") + (if r.port.Some? then ":" + Decimal(r.port.value) else "")
  }

  /** The environ of a direct request to the resolved origin. */
  function Render(r: Resolved): Environ {
    (if r.scheme.Some? then map[URL_SCHEME := r.scheme.value] else map[]) + map[HOST := HostHeader(r)]
  }

  lemma StripNothing(s: string)
    requires All(s, NotSpace)
    ensures Strip(s) == s
  {
    assert s[0..] == s;
    assert Span(s, IsSpace) == 0;
  }

  lemma LowerNothing(s: string)
    requires forall i :: 0 <= i < |s| ==> !('A' <= s[i] <= 'Z')
    ensures Lower(s) == s
  {
  }

  lemma CleanSchemeKeeps(s: string)
    requires SchemeShape(s)
    ensures CleanScheme(Some(s)) == Some(s)
  {
    StripNothing(s);
    LowerNothing(s);
    assert SchemeChar(s[|s| - 1]);
  }

  /** The characters of a host: no space, no capital, and a colon only in brackets. */
  lemma HostChars(h: string)
    requires HostShape(h)
    ensures All(h, NotSpace) && forall i :: 0 <= i < |h| ==> !('A' <= h[i] <= 'Z')
    ensures h[0] == '[' ==> FirstAt(h, ']') == |h| - 1
    ensures h[0] != '[' ==> All(h, NameChar)
  {
    if !All(h, NameChar) {
      var inner := h[1..|h| - 1];
      assert forall i :: 1 <= i < |h| - 1 ==> h[i] == inner[i - 1] && Ipv6Char(inner[i - 1]);
    } else {
      assert NameChar(h[0]);
    }
  }

  lemma CleanHostKeeps(h: string)
    requires HostShape(h)
    ensures CleanHost(Some(h)) == Some(h)
  {
    HostChars(h);
    StripNothing(h);
    LowerNothing(h);
  }

  lemma PortKeeps(p: nat)
    requires 1 <= p <= 65535
    ensures ValidPort(Some(Decimal(p))) == Some(p)
  {
    var ds := Decimal(p);
    assert forall i :: 0 <= i < |ds| ==> IsDigit(ds[i]);
    StripNothing(ds);
  }

  lemma {:induction false} CountNone(s: string, c: char)
    requires forall i :: 0 <= i < |s| ==> s[i] != c
    ensures Count(s, c) == 0
    decreases |s|
  {
    if s != "" {
      CountNone(s[1..], c);
    }
  }

  lemma {:induction false} CountOne(a: string, b: string, c: char)
    requires forall i :: 0 <= i < |a| ==> a[i] != c
    requires forall i :: 0 <= i < |b| ==> b[i] != c
    ensures Count(a + [c] + b, c) == 1 && FirstAt(a + [c] + b, c) == |a|
    decreases |a|
  {
    var s := a + [c] + b;
    if a == "" {
      assert s[1..] == b;
      CountNone(b, c);
    } else {
      assert s[1..] == a[1..] + [c] + b && s[0] == a[0];
      CountOne(a[1..], b, c);
    }
  }

  /** Splitting a rendered Host header gives back its host and port. */
  lemma SplitRendered(r: Resolved)
    requires r.host.Some? ==> HostShape(r.host.value)
    ensures SplitAuthority(Some(HostHeader(r))) ==
      Authority(Some(if r.host.Some? then r.host.value else ""), if r.port.Some? then Some(Decimal(r.port.value)) else None)
  {
    var h := if r.host.Some? then r.host.value else "";
    if r.host.Some? {
      HostChars(h);
    }
    if r.port.None? {
      SplitHostOnly(h);
      assert HostHeader(r) == h;
    } else {
      SplitHostPort(h, Decimal(r.port.value));
      assert HostHeader(r) == h + ":" + Decimal(r.port.value);
    }
  }

  lemma SplitHostOnly(h: string)
    requires h == "" || HostShape(h)
    ensures SplitAuthority(Some(h)) == Authority(Some(h), None)
  {
    if h != "" {
      HostChars(h);
    }
    StripNothing(h);
    if h != "" && h[0] == '[' {
      assert h[..|h|] == h;
    } else {
      assert forall i :: 0 <= i < |h| ==> NameChar(h[i]);
      CountNone(h, ':');
    }
  }

  lemma NoSpaceInHostPort(h: string, ds: string)
    requires h == "" || HostShape(h)
    requires AllDigits(ds)
    ensures Strip(h + ":" + ds) == h + ":" + ds
  {
    var s := h + ":" + ds;
    if h != "" {
      HostChars(h);
    }
    assert forall i :: 0 <= i < |ds| ==> IsDigit(ds[i]);
    assert forall i :: 0 <= i < |s| ==>
      s[i] == if i < |h| then h[i] else if i == |h| then ':' else ds[i - |h| - 1];
    StripNothing(s);
  }

  lemma SplitHostPort(h: string, ds: string)
    requires h == "" || HostShape(h)
    requires ds != "" && AllDigits(ds)
    ensures SplitAuthority(Some(h + ":" + ds)) == Authority(Some(h), Some(ds))
  {
    NoSpaceInHostPort(h, ds);
    if h != "" && h[0] == '[' {
      SplitBracketed(h, ":" + ds);
      assert h + ":" + ds == h + (":" + ds);
      assert (":" + ds)[1..] == ds;
    } else {
      NoColon(h, ds);
      SplitNamed(h, ds, h + ":" + ds);
    }
  }

  lemma SplitBracketed(h: string, rest: string)
    requires HostShape(h) && h[0] == '[' && rest != "" && rest[0] == ':'
    requires Strip(h + rest) == h + rest
    ensures SplitAuthority(Some(h + rest)) == Authority(Some(h), Some(rest[1..]))
  {
    HostChars(h);
    FirstAtPrefix(h, rest, ']');
    assert (h + rest)[..|h|] == h && (h + rest)[|h|..] == rest;
  }

  lemma SplitNamed(h: string, ds: string, s: string)
    requires ':' !in h && ':' !in ds && (h == "" || h[0] != '[')
    requires s == h + ":" + ds && Strip(s) == s
    ensures SplitAuthority(Some(s)) == Authority(Some(h), Some(ds))
  {
    CountOne(h, ds, ':');
    assert s[..|h|] == h && s[|h| + 1..] == ds;
    assert s[0] == if h == "" then ':' else h[0];
  }

  lemma NoColon(h: string, ds: string)
    requires h == "" || (HostShape(h) && h[0] != '[')
    requires AllDigits(ds)
    ensures ':' !in h && ':' !in ds
  {
    if h != "" {
      HostChars(h);
    }
    assert forall i :: 0 <= i < |h| ==> NameChar(h[i]);
    assert forall i :: 0 <= i < |ds| ==> IsDigit(ds[i]);
  }

  lemma {:induction false} FirstAtPrefix(a: string, b: string, c: char)
    requires FirstAt(a, c) < |a|
    ensures FirstAt(a + b, c) == FirstAt(a, c)
    decreases |a|
  {
    if a[0] != c {
      assert (a + b)[1..] == a[1..] + b;
      FirstAtPrefix(a[1..], b, c);
    }
  }

  /** Resolving is stable: a direct request to the origin found resolves to that origin. */
  lemma ResolveRendered(env: Environ, trust: bool, again: bool)
    ensures Resolve(Render(Resolve(env, trust)), again) == Resolve(env, trust)
  {
    var r := Resolve(env, trust);
    ResolvedShape(env, trust);
    ResolveOrigin(r, again);
  }

  /** Without forwarded headers there is only the connection. */
  lemma DirectParts(env: Environ, trust: bool)
    requires Lookup(env, PROTO).None? && Lookup(env, FORWARDED_HOST).None? && Lookup(env, PORT).None?
    ensures var scheme, a := CleanScheme(Lookup(env, URL_SCHEME)), SplitAuthority(HostAuthority(env));
      Resolve(env, trust) == Resolved(
        scheme, CleanHost(a.host),
        if scheme.None? then None
        else CleanPort(if a.port.Some? && a.port.value != "" then a.port else Lookup(env, SERVER_PORT), scheme.value))
  {
  }

  lemma ResolveOrigin(r: Resolved, again: bool)
    requires r.scheme.Some? ==> SchemeShape(r.scheme.value)
    requires r.host.Some? ==> HostShape(r.host.value)
    requires r.port.Some? ==> r.scheme.Some? && 1 <= r.port.value <= 65535 && DefaultPort(r.scheme.value) != r.port
    ensures Resolve(Render(r), again) == r
  {
    var env := Render(r);
    RenderedHeaders(r);
    DirectParts(env, again);
    if r.scheme.Some? {
      CleanSchemeKeeps(r.scheme.value);
    }
    if r.host.Some? {
      CleanHostKeeps(r.host.value);
    }
    if r.port.Some? {
      PortKeeps(r.port.value);
    }
    SplitRendered(r);
    assert CleanHost(Some("")) == None by { StripNothing(""); }
    assert HostAuthority(env) == if HostHeader(r) == "" then None else Some(HostHeader(r));
  }

  lemma RenderedHeaders(r: Resolved)
    ensures var env := Render(r);
      && Lookup(env, PROTO).None? && Lookup(env, FORWARDED_HOST).None? && Lookup(env, PORT).None?
      && Lookup(env, SERVER_PORT).None? && Lookup(env, SERVER_NAME).None?
      && Lookup(env, URL_SCHEME) == r.scheme && Lookup(env, HOST) == Some(HostHeader(r))
  {
    KeysDiffer();
  }

  lemma KeysDiffer()
    ensures |PROTO| == |FORWARDED_HOST| + 1 == |PORT| + 1 == 22
    ensures |HOST| == 9 && |SERVER_NAME| == |SERVER_PORT| == 11 && |URL_SCHEME| == 15
  {
  }

  // ---- What a forwarded header is worth ----

  /** With `b` after a comma, only `b` counts unless it is blank. */
  lemma {:induction false} HopsConcat(a: string, b: string)
    ensures Hops(a + "," + b) == Hops(a) + Hops(b)
    decreases |a|
  {
    var s := a + "," + b;
    var i := FirstAt(a, ',');
    if i == |a| {
      FirstComma(a, b);
      assert s[..i] == a && s[i + 1..] == b;
    } else {
      assert a == a[..i] + "," + a[i + 1..];
      FirstComma(a[..i], a[i + 1..] + "," + b);
      assert s == a[..i] + "," + (a[i + 1..] + "," + b);
      assert s[..i] == a[..i] && s[i + 1..] == a[i + 1..] + "," + b;
      HopsConcat(a[i + 1..], b);
    }
  }

  lemma {:induction false} FirstComma(a: string, b: string)
    requires forall i :: 0 <= i < |a| ==> a[i] != ','
    ensures FirstAt(a + "," + b, ',') == |a|
    decreases |a|
  {
    var s := a + "," + b;
    if a != "" {
      assert s[0] == a[0] && s[1..] == a[1..] + "," + b;
      FirstComma(a[1..], b);
    }
  }

  /** What an earlier hop sent is ignored once a later hop says anything. */
  lemma EarlierHopsIgnored(a: string, b: string)
    ensures LastHop(Some(a + "," + b)) == if LastHop(Some(b)).Some? then LastHop(Some(b)) else LastHop(Some(a))
  {
    HopsConcat(a, b);
  }

  /** Two requests alike but for their forwarded headers resolve alike as soon as each header's
      last hop cleans to the same thing; in particular earlier hops do not matter, and one whose
      last hop is blank or malformed is as good as absent. */
  lemma OnlyCleanedLastHopMatters(env: Environ, other: Environ)
    requires forall k :: k !in {PROTO, FORWARDED_HOST, PORT} ==> Lookup(env, k) == Lookup(other, k)
    requires CleanScheme(LastHop(Lookup(env, PROTO))) == CleanScheme(LastHop(Lookup(other, PROTO)))
    requires ValidPort(LastHop(Lookup(env, PORT))) == ValidPort(LastHop(Lookup(other, PORT)))
    requires var a, b := SplitAuthority(LastHop(Lookup(env, FORWARDED_HOST))), SplitAuthority(LastHop(Lookup(other, FORWARDED_HOST)));
      CleanHost(a.host) == CleanHost(b.host) && (CleanHost(a.host).Some? ==> a.port == b.port)
    ensures Resolve(env, true) == Resolve(other, true)
  {
    var a := ForwardedEvidence(Lookup(env, PROTO), Lookup(env, FORWARDED_HOST), Lookup(env, PORT));
    var b := ForwardedEvidence(Lookup(other, PROTO), Lookup(other, FORWARDED_HOST), Lookup(other, PORT));
    assert a == b;
    SameConnection(env, other, a);
  }

  lemma SameConnection(env: Environ, other: Environ, forwarded: Evidence)
    requires forall k :: k !in {PROTO, FORWARDED_HOST, PORT} ==> Lookup(env, k) == Lookup(other, k)
    ensures ResolveWith(env, forwarded) == ResolveWith(other, forwarded)
    ensures HostAuthority(env) == HostAuthority(other)
  {
    OtherKeys();
    assert Lookup(env, HOST) == Lookup(other, HOST) && Lookup(env, SERVER_NAME) == Lookup(other, SERVER_NAME);
    assert Lookup(env, SERVER_PORT) == Lookup(other, SERVER_PORT) && Lookup(env, URL_SCHEME) == Lookup(other, URL_SCHEME);
  }

  lemma OtherKeys()
    ensures {HOST, SERVER_NAME, SERVER_PORT, URL_SCHEME} !! {PROTO, FORWARDED_HOST, PORT}
  {
    KeysDiffer();
  }

  /** Untrusted, the forwarded headers are not read at all; and the authorize path never reads
      them, agreeing with the resolved host whenever none was usable. */
  lemma UntrustedHeadersIgnored(env: Environ, other: Environ)
    requires forall k :: k !in {PROTO, FORWARDED_HOST, PORT} ==> Lookup(env, k) == Lookup(other, k)
    ensures Resolve(env, false) == Resolve(other, false)
    ensures Hostname(env) == Hostname(other) == Resolve(env, false).host
    ensures CleanHost(SplitAuthority(LastHop(Lookup(env, FORWARDED_HOST))).host).None? ==>
      Hostname(env) == Resolve(env, true).host
  {
    SameConnection(env, other, Evidence(None, None, None, None));
  }

  /** A request is taken as proxied on a usable scheme or port alone; the connection's own scheme
      and port are then never reported. */
  lemma ProxiedHidesConnection(env: Environ, scheme: string, port: string)
    requires CleanScheme(LastHop(Lookup(env, PROTO))).Some? || ValidPort(LastHop(Lookup(env, PORT))).Some?
    ensures Resolve(env[URL_SCHEME := scheme][SERVER_PORT := port], true) == Resolve(env, true)
  {
    KeysDiffer();
    OtherKeys();
    var other := env[URL_SCHEME := scheme][SERVER_PORT := port];
    assert SERVER_PORT != SERVER_NAME by { assert SERVER_PORT[7] != SERVER_NAME[7]; }
    assert Lookup(other, PROTO) == Lookup(env, PROTO) && Lookup(other, PORT) == Lookup(env, PORT);
    assert Lookup(other, FORWARDED_HOST) == Lookup(env, FORWARDED_HOST);
    assert Lookup(other, HOST) == Lookup(env, HOST) && Lookup(other, SERVER_NAME) == Lookup(env, SERVER_NAME);
  }
}
