/** Where a resolved origin comes from: the text of the headers, in any case and with any spaces
    around it, and which header is believed when. */
module BaseUrlHeaders {
  import opened Options
  import opened Text
  import opened BaseUrl

  // ---- What a header says ----

  /** Space, tab to carriage return, and the four separators. */
  predicate Blank(c: char) {
    c == ' ' || 9 <= c as int <= 13 || 28 <= c as int <= 31
  }

  predicate AllSpace(s: string) {
    forall i :: 0 <= i < |s| ==> Blank(s[i])
  }

  /** Text with no spaces around it. */
  predicate Trimmed(x: string) {
    x != "" && !Blank(x[0]) && !Blank(x[|x| - 1])
  }

  /** The text `x` behind whatever was sent before a comma, with spaces around it. */
  predicate Written(value: string, earlier: string, left: string, x: string, right: string) {
    && value == earlier + (left + (x + right))
    && (earlier == "" || earlier[|earlier| - 1] == ',')
    && AllSpace(left) && AllSpace(right) && Trimmed(x) && ',' !in x
  }

  /** The last thing a proxy wrote into the header. */
  ghost predicate LastSent(value: Option<string>, x: string) {
    value.Some? && exists earlier, left, right :: Written(value.value, earlier, left, x, right)
  }

  lemma {:induction false} StripRightPads(x: string, right: string)
    requires AllSpace(right) && (x == "" || !IsSpace(x[|x| - 1]))
    ensures StripRight(x + right) == x
    decreases |right|
  {
    if right == "" {
      assert x + right == x;
    } else {
      var n := |right| - 1;
      assert (x + right)[..|x + right| - 1] == x + right[..n];
      StripRightPads(x, right[..n]);
    }
  }

  lemma StripPads(left: string, x: string, right: string)
    requires AllSpace(left) && AllSpace(right) && Trimmed(x)
    ensures Strip(left + (x + right)) == x
  {
    SpanStops(left, x + right, IsSpace);
    assert (left + (x + right))[|left|..] == x + right;
    StripRightPads(x, right);
  }

  lemma NoCommaAt(s: string)
    requires forall i :: 0 <= i < |s| ==> s[i] != ','
    ensures FirstAt(s, ',') == |s|
  {
  }

  lemma OneHop(left: string, x: string, right: string)
    requires AllSpace(left) && AllSpace(right) && Trimmed(x) && ',' !in x
    ensures Hops(left + (x + right)) == [x]
  {
    var s := left + (x + right);
    StripPads(left, x, right);
    assert forall i :: 0 <= i < |s| ==> s[i] == (if i < |left| then left[i] else if i < |left + x| then x[i - |left|] else right[i - |left + x|]);
    NoCommaAt(s);
  }

  lemma CommaSplit(earlier: string, rest: string)
    requires earlier != "" && earlier[|earlier| - 1] == ','
    ensures earlier + rest == earlier[..|earlier| - 1] + "," + rest
  {
    assert earlier == earlier[..|earlier| - 1] + ",";
  }

  lemma WrittenIsLastHop(value: string, earlier: string, left: string, x: string, right: string)
    requires Written(value, earlier, left, x, right)
    ensures LastHop(Some(value)) == Some(x)
  {
    var last := left + (x + right);
    assert Hops(last) == [x] && LastHop(Some(last)) == Some(x) by {
      OneHop(left, x, right);
    }
    if earlier == "" {
      assert earlier + last == last;
    } else {
      CommaSplit(earlier, last);
      EarlierHopsIgnored(earlier[..|earlier| - 1], last);
    }
  }

  lemma LastSentIsLastHop(value: Option<string>, x: string)
    requires LastSent(value, x)
    ensures LastHop(value) == Some(x)
  {
    var earlier, left, right :| Written(value.value, earlier, left, x, right);
    WrittenIsLastHop(value.value, earlier, left, x, right);
  }

  // ---- What counts as a scheme, a host and a port ----

  /** A scheme: a small letter, then up to 31 small letters, digits, `+`, `.` and `-`. */
  predicate IsScheme(s: string) {
    1 <= |s| <= 32 && 'a' <= s[0] <= 'z' &&
    forall i :: 0 <= i < |s| ==>
      'a' <= s[i] <= 'z' || '0' <= s[i] <= '9' || s[i] == '+' || s[i] == '.' || s[i] == '-'
  }

  /** A name of small letters, digits, `.`, `_` and `-`, or an IPv6 literal in brackets; at most 253
      characters. */
  predicate IsHost(s: string) {
    1 <= |s| <= 253 &&
    ((forall i :: 0 <= i < |s| ==>
        'a' <= s[i] <= 'z' || '0' <= s[i] <= '9' || s[i] == '.' || s[i] == '_' || s[i] == '-')
     || (|s| >= 3 && s[0] == '[' && s[|s| - 1] == ']' &&
         forall i :: 1 <= i < |s| - 1 ==>
           'a' <= s[i] <= 'f' || '0' <= s[i] <= '9' || s[i] == ':' || s[i] == '.'))
  }

  lemma ShapesAreThese(s: string)
    ensures SchemeShape(s) <==> IsScheme(s)
    ensures HostShape(s) <==> IsHost(s)
  {
    if |s| >= 3 {
      var inner := s[1..|s| - 1];
      assert forall i :: 1 <= i < |s| - 1 ==> s[i] == inner[i - 1];
    }
  }

  /** What is resolved is always of these shapes, and no scheme's own port is ever reported. */
  lemma ResolvedIsWellFormed(env: Environ, trust: bool)
    ensures var r := Resolve(env, trust);
      && (r.scheme.Some? ==> IsScheme(r.scheme.value))
      && (r.host.Some? ==> IsHost(r.host.value))
      && (r.port.Some? ==> r.scheme.Some? && 1 <= r.port.value <= 65535 && !GoesUnsaid(r.scheme.value, r.port.value))
  {
    var r := Resolve(env, trust);
    ResolvedShape(env, trust);
    if r.scheme.Some? {
      ShapesAreThese(r.scheme.value);
    }
    if r.host.Some? {
      ShapesAreThese(r.host.value);
    }
  }

  /** The port of the scheme itself. */
  predicate GoesUnsaid(scheme: string, port: nat) {
    (scheme == "http" && port == 80) || (scheme == "https" && port == 443)
  }

  /** The same text, capitals aside. */
  predicate SameButCase(text: string, lower: string) {
    |text| == |lower| && forall i :: 0 <= i < |text| ==>
      if 'A' <= text[i] <= 'Z' then lower[i] as int == text[i] as int + 32 else lower[i] == text[i]
  }

  lemma SameButCaseIsLower(text: string, lower: string)
    requires SameButCase(text, lower)
    ensures Lower(text) == lower
  {
  }

  lemma TrimmedStays(text: string)
    requires Trimmed(text)
    ensures Strip(text) == text
  {
    StripPads("", text, "");
    assert "" + (text + "") == text;
  }

  lemma SchemeIsItself(scheme: string)
    requires IsScheme(scheme)
    ensures scheme[|scheme| - 1] != ':' && SchemeShape(scheme) && (scheme + ":")[..|scheme|] == scheme
  {
    ShapesAreThese(scheme);
  }

  /** In any case, with or without a colon behind it. */
  lemma SchemeSaid(text: string, scheme: string)
    requires IsScheme(scheme) && Trimmed(text)
    requires SameButCase(text, scheme) || SameButCase(text, scheme + ":")
    ensures CleanScheme(Some(text)) == Some(scheme)
  {
    TrimmedStays(text);
    SchemeIsItself(scheme);
    SameButCaseIsLower(text, if SameButCase(text, scheme) then scheme else scheme + ":");
  }

  lemma HostSaid(text: string, host: string)
    requires IsHost(host) && SameButCase(text, host)
    ensures CleanHost(Some(text)) == Some(host)
  {
    HostText(text, host);
    TrimmedStays(text);
    ShapesAreThese(host);
    SameButCaseIsLower(text, host);
  }

  lemma HostText(text: string, host: string)
    requires IsHost(host) && SameButCase(text, host)
    ensures Trimmed(text) && forall i :: 0 <= i < |text| ==> NotSpace(text[i])
    ensures host[0] == '[' <==> text[0] == '['
    ensures host[0] != '[' ==> ':' !in text
    ensures host[0] == '[' ==> FirstAt(text, ']') == |text| - 1
  {
    ShapesAreThese(host);
    HostChars(host);
    if host[0] == '[' {
      BracketEnds(text, |text| - 1);
    }
  }

  lemma BracketEnds(text: string, n: nat)
    requires n < |text| && text[n] == ']' && forall i :: 0 <= i < n ==> text[i] != ']'
    ensures FirstAt(text, ']') == n
  {
  }

  // ---- An authority: a host, and maybe a port ----

  /** A port behind a host, or the colon alone. */
  predicate PortText(text: string, port: Option<nat>) {
    if port.Some? then text == ":" + Decimal(port.value) else text == "" || text == ":"
  }

  /** `host`, `host:` or `host:port`, in any case. */
  ghost predicate Authoritative(text: string, host: string, port: Option<nat>) {
    exists h, p :: SameButCase(h, host) && PortText(p, port) && text == h + p
  }

  /** Neither a space nor a comma. */
  predicate Inside(c: char) {
    NotSpace(c) && c != ','
  }

  lemma InsideText(s: string)
    requires s != "" && All(s, Inside)
    ensures Trimmed(s) && ',' !in s && Strip(s) == s
  {
    StripNothing(s);
  }

  lemma InsideBoth(a: string, b: string)
    requires All(a, Inside) && All(b, Inside)
    ensures All(a + b, Inside)
  {
  }

  lemma HostInside(h: string, host: string)
    requires IsHost(host) && SameButCase(h, host)
    ensures All(h, Inside)
  {
  }

  lemma DigitsInside(ds: string)
    requires AllDigits(ds)
    ensures All(":" + ds, Inside) && ':' !in ds
  {
    assert forall i :: 0 <= i < |ds| ==> IsDigit(ds[i]);
  }

  lemma PortInside(p: string, port: Option<nat>)
    requires PortText(p, port) && p != ""
    ensures All(p, Inside) && p[0] == ':' && ':' !in p[1..] && p == ":" + p[1..]
  {
    if port.Some? {
      DigitsInside(Decimal(port.value));
      assert p[1..] == Decimal(port.value);
    }
  }

  lemma PlainText(h: string, host: string, p: string, port: Option<nat>, text: string)
    requires IsHost(host) && SameButCase(h, host) && PortText(p, port) && text == h + p
    ensures Trimmed(text) && ',' !in text && Strip(text) == text
  {
    HostInside(h, host);
    if p != "" {
      PortInside(p, port);
    }
    InsideBoth(h, p);
    InsideText(text);
  }

  lemma NamedText(h: string, ds: string)
    ensures h + (":" + ds) == h + ":" + ds
  {
  }

  lemma AuthoritySplit(h: string, host: string, p: string, port: Option<nat>, text: string)
    requires IsHost(host) && SameButCase(h, host) && PortText(p, port) && text == h + p
    ensures SplitAuthority(Some(text)) == Authority(Some(h), if p == "" then None else Some(p[1..]))
  {
    HostText(h, host);
    PlainText(h, host, p, port, text);
    if p != "" {
      PortInside(p, port);
    }
    if host[0] == '[' {
      BracketSplit(h, p, text);
    } else if p != "" {
      NamedText(h, p[1..]);
      SplitNamed(h, p[1..], text);
    } else {
      assert text == h;
      CountNone(h, ':');
    }
  }

  lemma BracketSplit(h: string, rest: string, text: string)
    requires h != "" && h[0] == '[' && FirstAt(h, ']') == |h| - 1 && text == h + rest && Strip(text) == text
    requires rest == "" || rest[0] == ':'
    ensures SplitAuthority(Some(text)) == Authority(Some(h), if rest == "" then None else Some(rest[1..]))
  {
    FirstAtPrefix(h, rest, ']');
    assert text[..|h|] == h && text[|h|..] == rest;
  }

  lemma AuthoritySaid(text: string, host: string, port: Option<nat>)
    requires IsHost(host) && Authoritative(text, host, port)
    ensures Trimmed(text) && ',' !in text
    ensures var a := SplitAuthority(Some(text));
      && CleanHost(a.host) == Some(host)
      && (if port.Some? then a.port == Some(Decimal(port.value)) else a.port == None || a.port == Some(""))
  {
    var h, p :| SameButCase(h, host) && PortText(p, port) && text == h + p;
    PlainText(h, host, p, port, text);
    AuthorityParts(h, host, p, port, text);
  }

  lemma PortBehind(p: string, port: Option<nat>)
    requires PortText(p, port)
    ensures port.Some? ==> p != "" && p[1..] == Decimal(port.value)
    ensures port.None? && p != "" ==> p[1..] == ""
  {
  }

  lemma AuthorityParts(h: string, host: string, p: string, port: Option<nat>, text: string)
    requires IsHost(host) && SameButCase(h, host) && PortText(p, port) && text == h + p
    ensures var a := SplitAuthority(Some(text));
      && CleanHost(a.host) == Some(host)
      && (if port.Some? then a.port == Some(Decimal(port.value)) else a.port == None || a.port == Some(""))
  {
    AuthoritySplit(h, host, p, port, text);
    HostSaid(h, host);
    PortBehind(p, port);
  }

  // ---- Who is believed ----

  ghost predicate SaysScheme(text: string, scheme: string) {
    IsScheme(scheme) && Trimmed(text) && (SameButCase(text, scheme) || SameButCase(text, scheme + ":"))
  }

  /** A trusted header whose last hop is a scheme is the scheme. */
  lemma ForwardedScheme(env: Environ, text: string, scheme: string)
    requires LastSent(Lookup(env, "HTTP_X_FORWARDED_PROTO"), text) && SaysScheme(text, scheme)
    ensures Resolve(env, true).scheme == Some(scheme)
  {
    LastSentIsLastHop(Lookup(env, PROTO), text);
    SchemeSaid(text, scheme);
  }

  /** A trusted header whose last hop is an authority is the host. */
  lemma ForwardedHost(env: Environ, text: string, host: string, port: Option<nat>)
    requires LastSent(Lookup(env, "HTTP_X_FORWARDED_HOST"), text) && IsHost(host) && Authoritative(text, host, port)
    ensures Resolve(env, true).host == Some(host)
  {
    LastSentIsLastHop(Lookup(env, FORWARDED_HOST), text);
    AuthoritySaid(text, host, port);
  }

  function Reported(scheme: string, port: nat): Option<nat> {
    if GoesUnsaid(scheme, port) then None else Some(port)
  }

  lemma PortSaid(port: nat, scheme: string)
    requires 1 <= port <= 65535
    ensures Trimmed(Decimal(port)) && ValidPort(Some(Decimal(port))) == Some(port)
    ensures CleanPort(Some(Decimal(port)), scheme) == Reported(scheme, port)
  {
    PortKeeps(port);
    assert forall i :: 0 <= i < |Decimal(port)| ==> IsDigit(Decimal(port)[i]);
  }

  /** A trusted header whose last hop is a port is the port, wherever a scheme is known. */
  lemma ForwardedPort(env: Environ, port: nat)
    requires LastSent(Lookup(env, "HTTP_X_FORWARDED_PORT"), Decimal(port)) && 1 <= port <= 65535
    ensures var r := Resolve(env, true);
      r.port == if r.scheme.Some? then Reported(r.scheme.value, port) else None
  {
    LastSentIsLastHop(Lookup(env, PORT), Decimal(port));
    PortKeeps(port);
    var r := Resolve(env, true);
    if r.scheme.Some? {
      PortSaid(port, r.scheme.value);
    }
  }

  /** Without a usable port header, the port that came with the forwarded host. */
  lemma ForwardedHostPort(env: Environ, text: string, host: string, port: nat)
    requires LastSent(Lookup(env, "HTTP_X_FORWARDED_HOST"), text) && IsHost(host) && Authoritative(text, host, Some(port))
    requires ValidPort(LastHop(Lookup(env, "HTTP_X_FORWARDED_PORT"))).None? && 1 <= port <= 65535
    ensures var r := Resolve(env, true);
      r.port == if r.scheme.Some? then Reported(r.scheme.value, port) else None
  {
    LastSentIsLastHop(Lookup(env, FORWARDED_HOST), text);
    AuthoritySaid(text, host, Some(port));
    var r := Resolve(env, true);
    if r.scheme.Some? {
      PortSaid(port, r.scheme.value);
    }
  }

  // ---- The connection ----

  /** What a request says when no forwarded header is trusted or usable. */
  ghost predicate NothingForwarded(env: Environ, trust: bool) {
    !trust || (CleanScheme(LastHop(Lookup(env, "HTTP_X_FORWARDED_PROTO"))).None?
               && CleanHost(SplitAuthority(LastHop(Lookup(env, "HTTP_X_FORWARDED_HOST"))).host).None?
               && ValidPort(LastHop(Lookup(env, "HTTP_X_FORWARDED_PORT"))).None?)
  }

  /** The Host header, or the server's name if that is absent or empty. */
  predicate Addressed(env: Environ, authority: string) {
    authority != "" &&
    (Lookup(env, "HTTP_HOST") == Some(authority)
     || ((Lookup(env, "HTTP_HOST") == None || Lookup(env, "HTTP_HOST") == Some("")) && Lookup(env, "SERVER_NAME") == Some(authority)))
  }

  /** Then the connection's scheme, the host it addresses, and the port named with the host or else the
      server's own. */
  lemma DirectOrigin(env: Environ, trust: bool, schemeText: string, scheme: string, text: string, host: string,
                     named: Option<nat>, port: nat)
    requires NothingForwarded(env, trust)
    requires Lookup(env, "wsgi.url_scheme") == Some(schemeText) && SaysScheme(schemeText, scheme)
    requires Addressed(env, text) && IsHost(host) && Authoritative(text, host, named)
    requires 1 <= port <= 65535
    requires if named.Some? then named == Some(port) else Lookup(env, "SERVER_PORT") == Some(Decimal(port))
    ensures Resolve(env, trust) == Resolved(Some(scheme), Some(host), Reported(scheme, port))
  {
    SchemeSaid(schemeText, scheme);
    AuthoritySaid(text, host, named);
    PortSaid(port, scheme);
    assert Resolve(env, trust) == ResolveWith(env, Evidence(None, None, None, None));
    ConnectionOrigin(env, SplitAuthority(Some(text)), scheme, host, named, port, text);
  }

  lemma ConnectionOrigin(env: Environ, authority: Authority, scheme: string, host: string, named: Option<nat>, port: nat, text: string)
    requires CleanScheme(Lookup(env, URL_SCHEME)) == Some(scheme)
    requires HostAuthority(env) == Some(text) && SplitAuthority(Some(text)) == authority && CleanHost(authority.host) == Some(host)
    requires if named.Some? then authority.port == Some(Decimal(named.value)) else authority.port == None || authority.port == Some("")
    requires if named.Some? then named == Some(port) else Lookup(env, SERVER_PORT) == Some(Decimal(port))
    ensures ResolveWith(env, Evidence(None, None, None, None))
         == Resolved(Some(scheme), Some(host), CleanPort(Some(Decimal(port)), scheme))
  {
  }

  /** The authorize path takes the addressed host, whatever was forwarded. */
  lemma HostnameIsAddressed(env: Environ, text: string, host: string, port: Option<nat>)
    requires Addressed(env, text) && IsHost(host) && Authoritative(text, host, port)
    ensures Hostname(env) == Some(host)
  {
    AuthoritySaid(text, host, port);
    assert HostAuthority(env) == Some(text);
  }
}
