/**
 * Route patterns: the decorators' normalizer and the two registrars' own. `re.sub` with the
 * parameter expression is modelled by a hand-written scanner.
 */
module RoutePath {
  import opened Options
  import opened Text

  // ----- The parameter expression `<(?:[^:>]+:)?([^>]+)>` -----

  predicate InParam(c: char) { c != '>' }

  predicate InConverter(c: char) { c != ':' && c != '>' }

  /** What one left-to-right substitution sees: a character it copies, or a parameter it rewrites. */
  datatype Piece = Copied(c: char) | Param(name: string)

  /** A match: the captured name, and how much of the text after the opening bracket it uses. */
  datatype Match = Match(name: string, length: nat)

  /** The name between the brackets. The converter is tried first and given up if no name would be left. */
  function NameIn(inner: string): (name: string)
    requires inner != "" && '>' !in inner
    ensures name != "" && '>' !in name
  {
    var c := Span(inner, InConverter);
    if 0 < c < |inner| - 1 then inner[c + 1..] else inner
  }

  /** Match the rest of a parameter after its `<`. */
  function ParamAfter(s: string): (r: Option<Match>)
    ensures r.Some? ==> r.value.length <= |s| && r.value.name != "" && '>' !in r.value.name
    ensures r.None? <==> ('>' !in s || s[0] == '>')
  {
    var close := Span(s, InParam);
    if close == 0 || close == |s| then None
    else Some(Match(NameIn(s[..close]), close + 1))
  }

  function Pieces(s: string): (ps: seq<Piece>) {
    if s == "" then []
    else if s[0] == '<' && ParamAfter(s[1..]).Some? then
      var m := ParamAfter(s[1..]).value;
      [Param(m.name)] + Pieces(s[1 + m.length..])
    else [Copied(s[0])] + Pieces(s[1..])
  }

  function RenderPiece(p: Piece, open: string, close: string): string {
    match p
    case Copied(c) => [c]
    case Param(name) => open + name + close
  }

  function Render(ps: seq<Piece>, open: string, close: string): string {
    if ps == [] then "" else RenderPiece(ps[0], open, close) + Render(ps[1..], open, close)
  }

  /** `re.sub` with the template `open + \1 + close`. */
  function Substitute(s: string, open: string, close: string): string {
    Render(Pieces(s), open, close)
  }

  /** `str.lstrip("/")`. */
  function StripSlashes(s: string): (r: string)
    ensures r == "" || r[0] != '/'
  {
    if s != "" && s[0] == '/' then StripSlashes(s[1..]) else s
  }

  // ----- The three paths -----

  /** What the decorators send. */
  function NormalizeRoutePattern(pattern: string): string {
    "/" + StripSlashes(Substitute(pattern, "{", "}"))
  }

  /** What the Django registrar publishes. */
  function DjangoPath(path: string): string {
    Substitute("/" + StripSlashes(path), ":", "")
  }

  /** What the Flask registrar publishes. */
  function FlaskPath(rule: string): string {
    Substitute(rule, "{", "}")
  }

  // ----- The scanner against written patterns -----

  /** A pattern as its author writes it. */
  datatype Segment = Literal(text: string) | Variable(converter: Option<string>, name: string)

  /** Nothing in front of a colon that could be a converter with a name behind it: the first colon, if
      there is one, begins or ends the text. */
  predicate Unconverted(name: string) {
    forall c :: 0 < c < |name| - 1 && name[c] == ':' ==> ':' in name[..c]
  }

  predicate WellFormedSegment(g: Segment) {
    match g
    case Literal(text) => '<' !in text
    case Variable(None, name) => name != "" && '>' !in name && Unconverted(name)
    case Variable(Some(c), name) =>
      c != "" && ':' !in c && '>' !in c && name != "" && '>' !in name
  }

  function WriteSegment(g: Segment): string {
    match g
    case Literal(text) => text
    case Variable(None, name) => "<" + name + ">"
    case Variable(Some(c), name) => "<" + c + ":" + name + ">"
  }

  function Write(gs: seq<Segment>): string {
    if gs == [] then "" else WriteSegment(gs[0]) + Write(gs[1..])
  }

  function Copies(text: string): (ps: seq<Piece>)
    ensures |ps| == |text| && forall i :: 0 <= i < |text| ==> ps[i] == Copied(text[i])
  {
    seq(|text|, i requires 0 <= i < |text| => Copied(text[i]))
  }

  function MeantBySegment(g: Segment): seq<Piece> {
    match g
    case Literal(text) => Copies(text)
    case Variable(_, name) => [Param(name)]
  }

  function Meant(gs: seq<Segment>): seq<Piece> {
    if gs == [] then [] else MeantBySegment(gs[0]) + Meant(gs[1..])
  }

  /** A literal, one character at a time. */
  lemma CopiesHead(c: char, rest: string, text: string, more: seq<Piece>)
    requires text == [c] + rest
    ensures Copies(text) + more == [Copied(c)] + (Copies(rest) + more)
  {
    assert Copies(text) == [Copied(c)] + Copies(rest);
  }

  lemma CopiedPiece(c: char, s: string)
    requires c != '<'
    ensures Pieces([c] + s) == [Copied(c)] + Pieces(s)
  {
    assert ([c] + s)[1..] == s;
  }

  lemma {:induction false} LiteralPieces(text: string, rest: string)
    requires '<' !in text
    ensures Pieces(text + rest) == Copies(text) + Pieces(rest)
    decreases |text|
  {
    if text == "" {
      assert text + rest == rest && Copies(text) == [];
    } else {
      var c, more := text[0], text[1..];
      assert text == [c] + more && text + rest == [c] + (more + rest);
      CopiedPiece(c, more + rest);
      LiteralPieces(more, rest);
      CopiesHead(c, more, text, Pieces(rest));
    }
  }

  lemma NameAfterConverter(inner: string, c: string, name: string)
    requires inner == c + ":" + name
    requires c != "" && ':' !in c && '>' !in inner && name != ""
    ensures NameIn(inner) == name
  {
    assert inner == c + (":" + name);
    assert forall i :: 0 <= i < |c| ==> c[i] in inner by {
      assert forall i :: 0 <= i < |c| ==> inner[i] == c[i];
    }
    SpanStops(c, ":" + name, InConverter);
  }

  lemma NameAlone(inner: string)
    requires inner != "" && '>' !in inner && Unconverted(inner)
    ensures NameIn(inner) == inner
  {
  }

  lemma BracketedPieces(inner: string, rest: string)
    requires inner != "" && '>' !in inner
    ensures Pieces("<" + inner + ">" + rest) == [Param(NameIn(inner))] + Pieces(rest)
  {
    var s := "<" + inner + ">" + rest;
    assert s[1..] == inner + (">" + rest);
    SpanStops(inner, ">" + rest, InParam);
    assert s[1..][..|inner|] == inner;
    assert s[1 + (|inner| + 1)..] == rest;
  }

  lemma ConverterPieces(c: string, name: string, rest: string)
    requires c != "" && ':' !in c && '>' !in c && name != "" && '>' !in name
    ensures Pieces(WriteSegment(Variable(Some(c), name)) + rest) == [Param(name)] + Pieces(rest)
  {
    var inner := c + ":" + name;
    assert WriteSegment(Variable(Some(c), name)) == "<" + inner + ">";
    NameAfterConverter(inner, c, name);
    BracketedPieces(inner, rest);
  }

  lemma PlainVariablePieces(name: string, rest: string)
    requires name != "" && '>' !in name && Unconverted(name)
    ensures Pieces(WriteSegment(Variable(None, name)) + rest) == [Param(name)] + Pieces(rest)
  {
    NameAlone(name);
    BracketedPieces(name, rest);
  }

  lemma SegmentPieces(g: Segment, rest: string)
    requires WellFormedSegment(g)
    ensures Pieces(WriteSegment(g) + rest) == MeantBySegment(g) + Pieces(rest)
  {
    match g
    case Literal(text) => LiteralPieces(text, rest);
    case Variable(None, name) => PlainVariablePieces(name, rest);
    case Variable(Some(c), name) => ConverterPieces(c, name, rest);
  }

  /** Scanning a written pattern recovers exactly its literals and its parameter names. */
  lemma {:induction false} PiecesOfWritten(gs: seq<Segment>)
    requires forall g :: g in gs ==> WellFormedSegment(g)
    ensures Pieces(Write(gs)) == Meant(gs)
  {
    if gs != [] {
      PiecesOfWritten(gs[1..]);
      SegmentPieces(gs[0], Write(gs[1..]));
    }
  }

  // ----- Leading slashes -----

  lemma {:induction false} StripCommutes(s: string, open: string, close: string)
    requires open != "" && open[0] != '/'
    ensures StripSlashes(Substitute(s, open, close)) == Substitute(StripSlashes(s), open, close)
  {
    if s != "" && s[0] == '/' {
      StripCommutes(s[1..], open, close);
      assert Substitute(s, open, close)[1..] == Substitute(s[1..], open, close);
    }
  }

  lemma SlashPieces(s: string)
    ensures Pieces("/" + s) == [Copied('/')] + Pieces(s)
  {
    assert ("/" + s)[1..] == s;
  }

  /** The decorators' and the Django registrar's paths differ only in how they spell a parameter. */
  lemma SamePieces(p: string)
    ensures NormalizeRoutePattern(p) == "/" + Render(Pieces(StripSlashes(p)), "{", "}")
    ensures DjangoPath(p) == "/" + Render(Pieces(StripSlashes(p)), ":", "")
  {
    StripCommutes(p, "{", "}");
    SlashPieces(StripSlashes(p));
  }

  lemma SlashKept(rest: string)
    ensures FlaskPath("/" + rest) == "/" + Substitute(rest, "{", "}")
    ensures StripSlashes("/" + rest) == StripSlashes(rest)
  {
    SlashPieces(rest);
    assert ("/" + rest)[1..] == rest;
  }

  /** Slashes that are stripped are never put back: the decorators send exactly one. */
  lemma OneSlash(rest: string)
    ensures NormalizeRoutePattern("/" + rest) == "/" + StripSlashes(Substitute(rest, "{", "}"))
  {
    SlashKept(rest);
    StripCommutes(rest, "{", "}");
    StripCommutes("/" + rest, "{", "}");
  }

  lemma SlashRendered(rest: string, out: string)
    requires out == Substitute(rest, "{", "}")
    ensures StripSlashes(out) == out <==> rest == "" || rest[0] != '/'
  {
    if rest != "" && rest[0] == '/' {
      assert rest == "/" + rest[1..];
      SlashPieces(rest[1..]);
      assert out[0] == '/';
    }
  }

  /** The Flask registrar publishes the decorators' very string exactly for rules with one leading slash. */
  lemma FlaskAgrees(rule: string)
    ensures FlaskPath(rule) == NormalizeRoutePattern(rule)
       <==> rule != "" && rule[0] == '/' && (|rule| > 1 ==> rule[1] != '/')
  {
    SamePieces(rule);
    if rule != "" && rule[0] == '/' {
      var rest := rule[1..];
      var out := Substitute(rest, "{", "}");
      assert rule == "/" + rest;
      SlashKept(rest);
      OneSlash(rest);
      SlashRendered(rest, out);
      SameBehindSlash(out, StripSlashes(out));
    }
  }

  lemma SameBehindSlash(x: string, y: string)
    ensures "/" + x == "/" + y <==> x == y
  {
    assert ("/" + x)[1..] == x && ("/" + y)[1..] == y;
  }

  // ----- Normalizing twice -----

  /** The scanner rewrites something at the front. */
  predicate Opens(s: string) {
    s != "" && s[0] == '<' && ParamAfter(s[1..]).Some?
  }

  /** Nothing in the text is a parameter. */
  predicate Plain(s: string) {
    s == "" || (!Opens(s) && Plain(s[1..]))
  }

  /** A closing bracket that survives the substitution. */
  predicate LeavesClose(ps: seq<Piece>) {
    Copied('>') in ps
  }

  /** No parameter whose name holds `<` is followed by a closing bracket that survives. */
  predicate Settled(ps: seq<Piece>) {
    ps == [] ||
    (Settled(ps[1..]) && (ps[0].Param? && '<' in ps[0].name ==> !LeavesClose(ps[1..])))
  }

  lemma OpensChanges(s: string)
    requires Opens(s)
    ensures Substitute(s, "{", "}") != s
  {
    assert Substitute(s, "{", "}")[0] == '{';
  }

  lemma CopiedSubstitute(s: string, c: char, rest: string)
    requires s == [c] + rest && !Opens(s)
    ensures Pieces(s) == [Copied(c)] + Pieces(rest)
    ensures Substitute(s, "{", "}") == [c] + Substitute(rest, "{", "}")
  {
    assert s[1..] == rest;
    assert ([Copied(c)] + Pieces(rest))[1..] == Pieces(rest);
  }

  lemma FixedBehind(s: string, c: char, rest: string)
    requires s == [c] + rest && !Opens(s)
    ensures Substitute(s, "{", "}") == s <==> Substitute(rest, "{", "}") == rest
  {
    CopiedSubstitute(s, c, rest);
    assert s[1..] == rest && Substitute(s, "{", "}")[1..] == Substitute(rest, "{", "}");
  }

  lemma {:induction false} PlainIsFixed(s: string)
    ensures Substitute(s, "{", "}") == s <==> Plain(s)
  {
    if s == "" {
    } else if Opens(s) {
      OpensChanges(s);
    } else {
      PlainIsFixed(s[1..]);
      assert s == [s[0]] + s[1..];
      FixedBehind(s, s[0], s[1..]);
    }
  }

  lemma {:induction false} NoCloseIsPlain(s: string)
    requires '>' !in s
    ensures Plain(s)
  {
    if s != "" {
      NoCloseIsPlain(s[1..]);
    }
  }

  /** Text without brackets in front changes nothing. */
  lemma {:induction false} PlainPrefix(x: string, s: string)
    requires '<' !in x
    ensures Plain(x + s) <==> Plain(s)
  {
    if x == "" {
      assert x + s == s;
    } else {
      assert (x + s)[1..] == x[1..] + s;
      PlainPrefix(x[1..], s);
    }
  }

  /** An opening bracket with something between it and a later closing one is a parameter. */
  lemma {:induction false} OpenThenClose(x: string, s: string)
    requires '<' in x && '>' !in x
    requires '>' in s
    ensures !Plain(x + "}" + s)
  {
    var t := x + "}" + s;
    assert t[1..] == x[1..] + "}" + s;
    if x[0] == '<' {
      assert t[1..][0] != '>';
      assert s[..] == t[|x| + 1..];
      assert '>' in t[1..];
    } else {
      assert '<' in x[1..];
      OpenThenClose(x[1..], s);
    }
  }

  lemma {:induction false} SurvivingClose(s: string)
    ensures '>' in Substitute(s, "{", "}") <==> LeavesClose(Pieces(s))
    ensures '>' !in s ==> '>' !in Substitute(s, "{", "}")
  {
    if s == "" {
    } else if Opens(s) {
      var m := ParamAfter(s[1..]).value;
      var rest := s[1 + m.length..];
      SurvivingClose(rest);
      assert Pieces(s) == [Param(m.name)] + Pieces(rest);
      ParamSubstitute(s, m);
      CloseBehindParam(m.name, Substitute(rest, "{", "}"));
    } else {
      var c, rest := s[0], s[1..];
      SurvivingClose(rest);
      assert s == [c] + rest;
      CopiedSubstitute(s, c, rest);
    }
  }

  lemma ParamSubstitute(s: string, m: Match)
    requires Opens(s) && ParamAfter(s[1..]) == Some(m)
    ensures Substitute(s, "{", "}") == "{" + m.name + "}" + Substitute(s[1 + m.length..], "{", "}")
  {
    assert Pieces(s)[1..] == Pieces(s[1 + m.length..]);
  }

  lemma CloseBehindParam(name: string, out: string)
    requires '>' !in name
    ensures '>' in "{" + name + "}" + out <==> '>' in out
  {
  }

  lemma SettledCopied(s: string, out: string)
    requires s != "" && !Opens(s) && out == Substitute(s[1..], "{", "}")
    ensures Plain([s[0]] + out) <==> Plain(out)
  {
    assert ([s[0]] + out)[1..] == out;
    if s[0] == '<' {
      if '>' !in s[1..] {
        SurvivingClose(s[1..]);
      } else {
        assert out[0] == '>';
      }
    }
  }

  lemma SettledParam(name: string, rest: string)
    requires '>' !in name
    ensures Plain("{" + name + "}" + rest) <==> Plain(rest) && ('<' in name ==> '>' !in rest)
  {
    var x := "{" + name;
    assert x + "}" + rest == "{" + name + "}" + rest;
    if '<' !in name {
      PlainPrefix(x + "}", rest);
    } else if '>' in rest {
      assert '<' in x;
      OpenThenClose(x, rest);
    } else {
      NoCloseIsPlain(x + "}" + rest);
      NoCloseIsPlain(rest);
    }
  }

  lemma {:induction false} PlainWhenSettled(s: string)
    ensures Plain(Substitute(s, "{", "}")) <==> Settled(Pieces(s))
  {
    if s == "" {
    } else if Opens(s) {
      var m := ParamAfter(s[1..]).value;
      var rest := s[1 + m.length..];
      PlainWhenSettled(rest);
      ParamSubstitute(s, m);
      SettledParam(m.name, Substitute(rest, "{", "}"));
      SurvivingClose(rest);
      assert Pieces(s)[1..] == Pieces(rest);
    } else {
      var c, rest := s[0], s[1..];
      PlainWhenSettled(rest);
      assert s == [c] + rest;
      CopiedSubstitute(s, c, rest);
      SettledCopied(s, Substitute(rest, "{", "}"));
      assert Pieces(s)[1..] == Pieces(rest);
    }
  }

  /** Normalizing a normalized pattern changes nothing exactly when its parameters have settled. */
  lemma NormalizeTwice(p: string)
    ensures NormalizeRoutePattern(NormalizeRoutePattern(p)) == NormalizeRoutePattern(p)
       <==> Settled(Pieces(StripSlashes(p)))
  {
    var bare := StripSlashes(p);
    var once := Substitute(bare, "{", "}");
    StripCommutes(p, "{", "}");
    assert NormalizeRoutePattern(p) == "/" + once;
    assert StripSlashes("/" + once) == once by {
      assert ("/" + once)[1..] == once;
    }
    StripCommutes("/" + once, "{", "}");
    var twice := Substitute(once, "{", "}");
    assert NormalizeRoutePattern("/" + once) == "/" + twice;
    assert "/" + twice == "/" + once <==> twice == once by {
      assert ("/" + twice)[1..] == twice && ("/" + once)[1..] == once;
    }
    PlainIsFixed(once);
    PlainWhenSettled(bare);
  }

  lemma {:induction false} NamesWithoutOpenSettle(ps: seq<Piece>)
    requires forall q :: q in ps && q.Param? ==> '<' !in q.name
    ensures Settled(ps)
  {
    if ps != [] {
      assert ps[0] in ps;
      NamesWithoutOpenSettle(ps[1..]);
    }
  }

  /** So every pattern whose parameter names hold no `<` normalizes once and for all. */
  lemma IdentifiersSettle(p: string)
    requires forall q :: q in Pieces(StripSlashes(p)) && q.Param? ==> '<' !in q.name
    ensures NormalizeRoutePattern(NormalizeRoutePattern(p)) == NormalizeRoutePattern(p)
  {
    NamesWithoutOpenSettle(Pieces(StripSlashes(p)));
    NormalizeTwice(p);
  }

  /** A doubled bracket normalizes further every time. */
  lemma DoubledBracketUnsettled()
    ensures Pieces("<<a>>") == [Param("<a"), Copied('>')]
    ensures NormalizeRoutePattern(NormalizeRoutePattern("<<a>>")) != NormalizeRoutePattern("<<a>>")
  {
    var p, name, close := "<<a>>", "<a", ">";
    assert p == "<" + name + ">" + close;
    DoubledBracket(p, name, close);
  }

  lemma DoubledBracket(p: string, name: string, close: string)
    requires p == "<" + name + ">" + close && close == ">"
    requires name != "" && name[0] == '<' && ':' !in name && '>' !in name
    ensures Pieces(p) == [Param(name), Copied('>')]
    ensures NormalizeRoutePattern(NormalizeRoutePattern(p)) != NormalizeRoutePattern(p)
  {
    BracketedPieces(name, close);
    NameAlone(name);
    CopiedPiece('>', "");
    assert close == ['>'] + "" && p[0] == '<';
    var ps := Pieces(p);
    assert ps == [Param(name)] + [Copied('>')] && ps[1..] == [Copied('>')];
    NormalizeTwice(p);
  }
}
