/**
 * Families of route patterns whose two paths differ at intake, with both results; and families that
 * agree by accident, which mark where the conditions of `RouteAgreement` and `RouteBraces` are needed.
 */
module RouteExamples {
  import opened Options
  import opened RoutePath
  import opened RouteIntake
  import opened RoutePieces
  import opened RouteAgreement
  import opened RouteBraces

  // ----- A scanned name with a slash -----

  /**
   * A regular expression with a character class: the scanner takes the class's `<` for an opening
   * bracket and everything up to the next `>` for a name. With a slash in it, intake leaves braces
   * in one path and a colon in the other.
   */
  lemma SlashNameDisagrees(front: string, t: string, middle: string, name: string, back: string)
    requires front != "" && front[0] != '/' && '<' !in front && '{' !in front
    requires SafeName(t) && '>' !in t && '<' !in middle && '{' !in middle && '<' !in back && '{' !in back
    requires SlashName(name) && '>' !in name && ':' !in name
    ensures var p := front + ("<" + t + ">" + (middle + ("<" + name + ">" + back)));
      && IntakeNormalize(NormalizeRoutePattern(p)) == "/" + (front + (":" + (t + (middle + ("{" + (name + ("}" + back)))))))
      && IntakeNormalize(DjangoPath(p)) == "/" + (front + (":" + (t + (middle + (":" + (name + back))))))
      && IntakeNormalize(NormalizeRoutePattern(p)) != IntakeNormalize(DjangoPath(p))
  {
    var last := [Param(name)] + Copies(back);
    var p := front + ("<" + t + ">" + (middle + ("<" + name + ">" + back)));
    SlashNamePieces(front, t, middle, name, back, p);
    PathsUnderIntake(p);
    LiteralAlone(back);
    StuckStep(name, Copies(back));
    LiteralStep(middle, last);
    SafeStep(t, Copies(middle) + last);
    LiteralStep(front, [Param(t)] + (Copies(middle) + last));
    DiffersBehind(front, t, middle, "{" + (name + ("}" + back)), ":" + (name + back));
  }

  /** A Django `re_path` with the identifiers `t` and `id`, in which no literal brace occurs. */
  lemma SlashNameExample(p: string, decorators: string, registrar: string)
    requires p == "^t/(?P<t>[^<]+)/(?P<id>x)/$"
    requires decorators == "/^t/(?P:t[^{]+)/(?P<id}x)/$" && registrar == "/^t/(?P:t[^:]+)/(?P<idx)/$"
    ensures IntakeNormalize(NormalizeRoutePattern(p)) == decorators
    ensures IntakeNormalize(DjangoPath(p)) == registrar
    ensures decorators != registrar
  {
    var front, t, middle, name, back := "^t/(?P", "t", "[^", "]+)/(?P<id", "x)/$";
    ExamplePattern(p, front, t, middle, name, back);
    ExampleNames(front, t, middle, name, back);
    ExampleDecorators(decorators, front, t, middle, name, back);
    ExampleRegistrar(registrar, front, t, middle, name, back);
    SlashNameDisagrees(front, t, middle, name, back);
  }

  lemma ExamplePattern(p: string, front: string, t: string, middle: string, name: string, back: string)
    requires p == "^t/(?P<t>[^<]+)/(?P<id>x)/$"
    requires front == "^t/(?P" && t == "t" && middle == "[^" && name == "]+)/(?P<id" && back == "x)/$"
    ensures p == front + ("<" + t + ">" + (middle + ("<" + name + ">" + back)))
  {
  }

  lemma ExampleDecorators(path: string, front: string, t: string, middle: string, name: string, back: string)
    requires path == "/^t/(?P:t[^{]+)/(?P<id}x)/$"
    requires front == "^t/(?P" && t == "t" && middle == "[^" && name == "]+)/(?P<id" && back == "x)/$"
    ensures path == "/" + (front + (":" + (t + (middle + ("{" + (name + ("}" + back)))))))
  {
  }

  lemma ExampleRegistrar(path: string, front: string, t: string, middle: string, name: string, back: string)
    requires path == "/^t/(?P:t[^:]+)/(?P<idx)/$"
    requires front == "^t/(?P" && t == "t" && middle == "[^" && name == "]+)/(?P<id" && back == "x)/$"
    ensures path == "/" + (front + (":" + (t + (middle + (":" + (name + back))))))
  {
  }

  lemma ExampleNames(front: string, t: string, middle: string, name: string, back: string)
    requires front == "^t/(?P" && t == "t" && middle == "[^" && name == "]+)/(?P<id" && back == "x)/$"
    ensures '<' !in front && '{' !in front && SafeName(t) && '>' !in t && '<' !in middle && '{' !in middle
    ensures SlashName(name) && '>' !in name && ':' !in name && '<' !in back && '{' !in back
  {
    NameEndIs(name, 3);
  }

  lemma DiffersBehind(front: string, t: string, middle: string, x: string, y: string)
    requires x != y
    ensures "/" + (front + (":" + (t + (middle + x)))) != "/" + (front + (":" + (t + (middle + y))))
  {
    SameRest(middle, x, y);
    SameRest(t, middle + x, middle + y);
    SameRest(":", t + (middle + x), t + (middle + y));
    SameRest(front, ":" + (t + (middle + x)), ":" + (t + (middle + y)));
    SameRest("/", front + (":" + (t + (middle + x))), front + (":" + (t + (middle + y))));
  }

  lemma SlashNamePieces(front: string, t: string, middle: string, name: string, back: string, p: string)
    requires front != "" && front[0] != '/' && '<' !in front
    requires t != "" && '>' !in t && ':' !in t && '<' !in middle && '<' !in back
    requires name != "" && '>' !in name && ':' !in name
    requires p == front + ("<" + t + ">" + (middle + ("<" + name + ">" + back)))
    ensures StripSlashes(p) == p
    ensures Pieces(p) == Copies(front) + ([Param(t)] + (Copies(middle) + ([Param(name)] + Copies(back))))
  {
    LiteralPieces(back, "");
    assert back + "" == back && Copies(back) + [] == Copies(back);
    NameAlone(name);
    BracketedPieces(name, back);
    LiteralPieces(middle, "<" + name + ">" + back);
    NameAlone(t);
    BracketedPieces(t, middle + ("<" + name + ">" + back));
    LiteralPieces(front, "<" + t + ">" + (middle + ("<" + name + ">" + back)));
  }

  // ----- A brace in a name with a constraint -----

  lemma ConstrainedStep(x: string, c: string, after: seq<Piece>)
    requires WholeName(x) && '}' !in c
    ensures Braced([Param(x + ([':'] + c))] + after) == [':'] + (x + Braced(after))
  {
    BracedParam(x + ([':'] + c), after);
    ConstrainedVariable(x, c, Render(after, "{", "}"));
  }

  lemma NamesBraced(x: string, c: string, pre: string, z: string)
    requires WholeName(x) && '}' !in c && '{' !in pre && WholeName(z) && '{' !in z
    ensures var last := [Param(z + ([':'] + z))] + [];
      Braced([Param(x + ([':'] + c))] + (Copies(pre) + Behind(z + ['}'], last)))
        == [':'] + (x + (pre + ([':'] + (z + ([':'] + z)))))
  {
    var last := [Param(z + ([':'] + z))] + [];
    var r := Render(last, "{", "}");
    ConstrainedStep(x, c, Copies(pre) + Behind(z + ['}'], last));
    LiteralStep(pre, Behind(z + ['}'], last));
    CopiedRender('{', Copies(z + ['}']) + last, "{", "}");
    CopiesRender(z + ['}'], last, "{", "}");
    Regroup(z, ['}'], r);
    ClosedVariable(z, r);
    ConstrainedStep(z, z, []);
    assert z + "" == z;
  }

  lemma NamesRender(x: string, c: string, z: string, last: seq<Piece>)
    ensures var pre, r := [':'] + ([':'] + c), Render(last, ":", "");
      (x + ([':'] + (['{'] + c))) + Render(Copies(pre) + Behind(z + ['}'], last), ":", "")
        == (x + [':']) + (['{'] + ((c + ([':'] + (([':'] + c) + (['{'] + z)))) + (['}'] + r)))
  {
    var pre, r := [':'] + ([':'] + c), Render(last, ":", "");
    CopiesRender(pre, Behind(z + ['}'], last), ":", "");
    CopiedRender('{', Copies(z + ['}']) + last, ":", "");
    CopiesRender(z + ['}'], last, ":", "");
    NamesText(x, [':'], ['{'], c, z, ['}'], r);
  }

  /** Behind a name that ends in `{c`, the literal up to its `}` is a constraint. */
  lemma NamesColon(x: string, c: string, z: string, last: seq<Piece>)
    requires '{' !in x && WholeName(c) && '}' !in c && '}' !in z
    ensures Colon([Param(x + ([':'] + (['{'] + c)))] + (Copies([':'] + ([':'] + c)) + Behind(z + ['}'], last)))
         == [':'] + ((x + [':']) + ([':'] + (c + Colon(last))))
  {
    var constraint, r := ([':'] + c) + (['{'] + z), Render(last, ":", "");
    ColonParam(x + ([':'] + (['{'] + c)), Copies([':'] + ([':'] + c)) + Behind(z + ['}'], last));
    NamesRender(x, c, z, last);
    IntakeCopiesAll(x + [':'], ['{'] + ((c + ([':'] + constraint)) + (['}'] + r)));
    ConstrainedVariable(c, constraint, r);
  }

  lemma NamesText(x: string, colon: string, open: string, c: string, z: string, close: string, r: string)
    ensures (x + (colon + (open + c))) + ((colon + (colon + c)) + (open + ((z + close) + r)))
         == (x + colon) + (open + ((c + (colon + ((colon + c) + (open + z)))) + (close + r)))
  {
    var tail := open + ((z + close) + r);
    Regroup(z, close, r);
    Regroup(open, z, close + r);
    Regroup(colon + c, open + z, close + r);
    Regroup(colon, (colon + c) + (open + z), close + r);
    Regroup(c, colon + ((colon + c) + (open + z)), close + r);
    Regroup(colon, colon + c, tail);
    Regroup(open, c, colon + ((colon + c) + tail));
    Regroup(colon, open + c, colon + ((colon + c) + tail));
    Regroup(x, colon + (open + c), (colon + (colon + c)) + tail);
    Regroup(x, colon, open + (c + (colon + ((colon + c) + tail))));
  }

  lemma NamesSame(x: string, c: string, z: string, second: string)
    requires second == z + ([':'] + z) && '{' !in z
    ensures Colon([Param(second)] + []) == [':'] + second
    ensures [':'] + (x + (([':'] + ([':'] + c)) + ([':'] + second)))
         == [':'] + ((x + [':']) + ([':'] + (c + ([':'] + second))))
  {
    ColonStep(second, []);
    assert second + "" == second;
    Regroup([':'], [':'] + c, [':'] + second);
    Regroup([':'], c, [':'] + second);
    Regroup(x, [':'], [':'] + (c + ([':'] + second)));
  }

  lemma NamesSettle(name: string, pre: string, z: string, second: string)
    requires '{' !in pre
    ensures BracesSettle([Param(name)] + (Copies(pre) + Behind(z + ['}'], [Param(second)] + [])))
  {
    var last := [Param(second)] + [];
    assert z + (['}'] + "") == z + ['}'] && Copies("") + last == last;
    SkippedSettles(z, "", last);
    BracesSettleAt(Param(second), []);
    LeadingCopies(z + ['}'], last);
    CloseSettles(z + ['}'], |z|);
    BracesSettleAt(Copied('{'), Copies(z + ['}']) + last);
    LiteralKeepsSettled(pre, Behind(z + ['}'], last));
    BracesSettleAt(Param(name), Copies(pre) + Behind(z + ['}'], last));
  }

  lemma {:induction false} LiteralKeepsSettled(t: string, more: seq<Piece>)
    requires '{' !in t
    ensures BracesSettle(Copies(t) + more) <==> BracesSettle(more)
    decreases |t|
  {
    if t == "" {
      assert Copies(t) + more == more;
    } else {
      var c, rest := t[0], t[1..];
      assert t == [c] + rest;
      CopiesHead(c, rest, t, more);
      LiteralKeepsSettled(rest, more);
      BracesSettleAt(Copied(c), Copies(rest) + more);
    }
  }

  /** The names `x:{c` and `z:z` with the literal `::c{z}` between them: intake gives neither back, and
      both spellings come to `:x::c:z:z`. */
  lemma NamesByAccident(x: string, c: string, z: string) returns (ps: seq<Piece>)
    requires SafeName(x) && SafeName(c) && SafeName(z)
    ensures ps == [Param(x + ([':'] + (['{'] + c)))]
      + (Copies([':'] + ([':'] + c)) + Behind(z + ['}'], [Param(z + ([':'] + z))] + []))
    ensures BracesSettle(ps) && !ReadsAlike(ps) && Braced(ps) == Colon(ps)
  {
    var name, pre, second := x + ([':'] + (['{'] + c)), [':'] + ([':'] + c), z + ([':'] + z);
    var rest := Copies(pre) + Behind(z + ['}'], [Param(second)] + []);
    ps := [Param(name)] + rest;
    SafeIsWhole(x);
    SafeIsWhole(c);
    SafeIsWhole(z);
    NamesBraced(x, ['{'] + c, pre, z);
    NamesColon(x, c, z, [Param(second)] + []);
    NamesSame(x, c, z, second);
    NamesSettle(name, pre, z, second);
    NamesAt(Param(name), rest);
    NameGoesOn(x, ':', ['{'] + c, name);
    assert name[|x|..][0] == ':';
  }

  // ----- A brace directly in front of a parameter -----

  /** With a `}` behind it, in a pattern Django accepts: the decorators' path loses the second brace
      at intake, the registrar's path none. */
  lemma OpenBraceDisagrees(front: string, name: string, back: string)
    requires front != "" && front[0] != '/' && '<' !in front && '{' !in front
    requires SafeName(name) && '>' !in name && '<' !in back && '{' !in back
    ensures var p := front + ("{" + ("<" + name + ">" + back));
      && IntakeNormalize(NormalizeRoutePattern(p)) == "/" + (front + (":" + ("{" + name + back)))
      && IntakeNormalize(DjangoPath(p)) == "/" + (front + ("{" + (":" + name + back)))
      && IntakeNormalize(NormalizeRoutePattern(p)) != IntakeNormalize(DjangoPath(p))
  {
    var p := front + ("{" + ("<" + name + ">" + back));
    var ps := Behind("", [Param(name)] + Copies(back));
    OpenBracePieces(front, name, back, p);
    PathsUnderIntake(p);
    LiteralStep(front, ps);
    LiteralAlone(back);
    SafeIsWhole(name);
    BracedName("", name, Copies(back));
    NothingInFront("{" + name);
    ColonEmpty(name, Copies(back));
    Regroup(":", name, back);
    Regroup("{", name, back);
    HeadsDiffer(':', "{" + name + back, '{', ":" + name + back);
    SameRest(front, ":" + ("{" + name + back), "{" + (":" + name + back));
    SameRest("/", front + (":" + ("{" + name + back)), front + ("{" + (":" + name + back)));
  }

  lemma OpenBracePieces(front: string, name: string, back: string, p: string)
    requires front != "" && front[0] != '/' && '<' !in front
    requires name != "" && ':' !in name && '>' !in name && '<' !in back
    requires p == front + ("{" + ("<" + name + ">" + back))
    ensures StripSlashes(p) == p
    ensures Pieces(p) == Copies(front) + Behind("", [Param(name)] + Copies(back))
  {
    var rest := "<" + name + ">" + back;
    LiteralPieces(back, "");
    assert back + "" == back && Copies(back) + [] == Copies(back);
    NameAlone(name);
    BracketedPieces(name, back);
    CopiedPiece('{', rest);
    LiteralPieces(front, "{" + rest);
    assert Copies("") + ([Param(name)] + Copies(back)) == [Param(name)] + Copies(back);
  }

  lemma OpenBraceExample(p: string, decorators: string, registrar: string)
    requires p == "a{<id>}/" && decorators == "/a:{id}/" && registrar == "/a{:id}/"
    ensures IntakeNormalize(NormalizeRoutePattern(p)) == decorators
    ensures IntakeNormalize(DjangoPath(p)) == registrar
    ensures decorators != registrar
  {
    var front, name, back := ['a'], ['i', 'd'], ['}', '/'];
    assert p == front + ("{" + ("<" + name + ">" + back));
    assert decorators == "/" + (front + (":" + ("{" + name + back)));
    assert registrar == "/" + (front + ("{" + (":" + name + back)));
    assert decorators[2] != registrar[2];
    OpenBraceDisagrees(front, name, back);
  }

  // ----- A constraint left open behind the last `}` -----

  // It can make up for one that was closed: here both spellings lose something, and what is left
  // happens to be the same.

  lemma NameThenColon(name: string, q: string, text: string)
    requires SafeName(name) && SafeName(q) && text == name + ([':'] + q)
    ensures NameEnd(text) == |name| && !Settles(text) && text != ""
  {
    SafeIsWhole(name);
    NameGoesOn(name, ':', q, text);
    CloseFromIs(text, |name| + 1, |text|);
  }

  lemma NameThenClose(q: string, tail: string, text: string, k: nat)
    requires SafeName(q) && text == q + (['}'] + tail) && k == |q| + 1
    ensures Settles(text) && VariableAfter(text) == Some(Match(q, k)) && text[k..] == tail
  {
    SafeIsWhole(q);
    ClosedMatch(q, tail, text, k);
    CloseSettles(text, |q|);
  }

  lemma NameOnly(b: string)
    requires SafeName(b)
    ensures !Settles(b) && b[..NameEnd(b)] == b
  {
    SafeIsWhole(b);
  }

  /** The last brace, whose constraint reaches the parameter and never ends. */
  lemma AccidentEnd(name: string, q: string, text: string, second: string)
    requires SafeName(name) && SafeName(q) && SafeName(second) && text == name + ([':'] + q)
    ensures var rest := Behind(text, [Param(second)] + []);
      Braced(rest) == [':'] + name && Colon(rest) == ['{'] + (text + ([':'] + second))
  {
    NameThenColon(name, q, text);
    SafeIsWhole(name);
    ParamRender(second, [], ":", "");
    BracedConstraint(name, q, text, second, []);
    ColonOpen(text, second, []);
    assert name + "" == name && second + "" == second;
  }

  /** The one before it, which settles. */
  lemma AccidentMiddle(q: string, tail: string, more: seq<Piece>, text: string)
    requires SafeName(q) && text == q + (['}'] + (['{'] + tail))
    ensures Braced(Behind(text, more)) == [':'] + (q + Braced(Behind(tail, more)))
  {
    NameThenClose(q, ['{'] + tail, text, |q| + 1);
    SettledRead(text, q, |q| + 1, ['{'] + tail, more, "{", "}");
    CopiesHead('{', tail, ['{'] + tail, more);
  }

  lemma MiddlePieces(q: string, tail: string, more: seq<Piece>, text: string)
    requires text == q + (['}'] + (['{'] + tail))
    ensures Behind(text, more) == ([Copied('{')] + Copies(q)) + ([Copied('}')] + Behind(tail, more))
  {
    CopiesHead('{', tail, ['{'] + tail, more);
    CopiesHead('}', ['{'] + tail, ['}'] + (['{'] + tail), more);
    CopiesParts(q, ['}'] + (['{'] + tail), more);
    assert Behind(text, more) == [Copied('{')] + (Copies(q) + ([Copied('}')] + Behind(tail, more)));
  }

  lemma AccidentReaches(b: string, first: string, text: string, second: string)
    requires SafeName(b) && SafeName(first) && SafeName(second)
    ensures var ps := Behind(b, [Param(first)] + Behind(text, [Param(second)] + []));
      SafeNames(ps) && !BracesSettle(ps)
  {
    var last := [Param(second)] + [];
    var after := Behind(text, last);
    var more := [Param(first)] + after;
    NameOnly(b);
    LeadingCopies(b, more);
    BracesSettleAt(Copied('{'), Copies(b) + more);
    NamesAt(Param(second), []);
    BehindKeepsNames(text, "", last);
    assert Copies("") + last == last && Copies("") + more == more;
    NamesAt(Param(first), after);
    BehindKeepsNames(b, "", more);
  }

  lemma AccidentColon(b: string, first: string, q: string, back: seq<Piece>)
    requires SafeName(b) && SafeName(first) && '}' !in q
    ensures Colon(Behind(b, [Param(first)] + (([Copied('{')] + Copies(q)) + ([Copied('}')] + back))))
         == [':'] + (b + Colon(back))
  {
    var more := ([Copied('{')] + Copies(q)) + ([Copied('}')] + back);
    NameOnly(b);
    ClosedRender(q, back);
    ColonClosedLater(b, first, more, ['{'] + q, Render(back, ":", ""), b);
  }

  lemma ClosedRender(q: string, back: seq<Piece>)
    ensures Render(([Copied('{')] + Copies(q)) + ([Copied('}')] + back), ":", "")
         == (['{'] + q) + (['}'] + Render(back, ":", ""))
  {
    var more := Copies(q) + ([Copied('}')] + back);
    assert ([Copied('{')] + Copies(q)) + ([Copied('}')] + back) == [Copied('{')] + more;
    CopiedRender('{', more, ":", "");
    CopiesRender(q, [Copied('}')] + back, ":", "");
    CopiedRender('}', back, ":", "");
    Regroup(['{'], q, ['}'] + Render(back, ":", ""));
  }

  /** The pattern `{b<first>{q}{name:q<second>` reaches into its parameters, and whether it comes to one
      path all the same depends on what they are called. */
  lemma AgreesByAccident(b: string, first: string, q: string, name: string, second: string) returns (ps: seq<Piece>)
    requires SafeName(b) && SafeName(first) && SafeName(q) && SafeName(name) && SafeName(second)
    ensures ps == Behind(b, [Param(first)]
      + Behind(q + (['}'] + (['{'] + (name + ([':'] + q)))), [Param(second)] + []))
    ensures SafeNames(ps) && !BracesSettle(ps)
    ensures Braced(ps) == Colon(ps) <==> first == name == second
  {
    var tail := name + ([':'] + q);
    var text, last := q + (['}'] + (['{'] + tail)), [Param(second)] + [];
    ps := Behind(b, [Param(first)] + Behind(text, last));
    AccidentReaches(b, first, text, second);
    AccidentMiddle(q, tail, last, text);
    MiddlePieces(q, tail, last, text);
    AccidentEnd(name, q, tail, second);
    SafeIsWhole(b);
    SafeIsWhole(first);
    BracedName(b, first, Behind(text, last));
    AccidentColon(b, first, q, Behind(tail, last));
    AccidentText(b, first, q, name, second);
  }

  lemma AccidentText(b: string, first: string, q: string, name: string, second: string)
    requires ':' !in first && ':' !in name
    ensures [':'] + ((b + (['{'] + first)) + ([':'] + (q + ([':'] + name))))
         == [':'] + (b + (['{'] + ((name + ([':'] + q)) + ([':'] + second))))
       <==> first == name == second
  {
    var u, v := [':'] + (q + ([':'] + name)), [':'] + (q + ([':'] + second));
    Regroup(['{'], first, u);
    Regroup(b, ['{'] + first, u);
    Regroup([':'], q, [':'] + second);
    Regroup(name, [':'] + q, [':'] + second);
    SameRest([':'], b + (['{'] + (first + u)), b + (['{'] + (name + v)));
    SameRest(b, ['{'] + (first + u), ['{'] + (name + v));
    SameRest(['{'], first + u, name + v);
    NameTellsApart(first, q + ([':'] + name), name, q + ([':'] + second));
    SameRest(q, [':'] + name, [':'] + second);
    SameRest([':'], name, second);
  }

  lemma NameTellsApart(a: string, x: string, b: string, y: string)
    requires ':' !in a && ':' !in b
    ensures a + ([':'] + x) == b + ([':'] + y) <==> a == b && x == y
  {
    var u, v := a + ([':'] + x), b + ([':'] + y);
    assert u[|a|] == ':' && v[|b|] == ':';
    assert forall i :: 0 <= i < |a| ==> u[i] == a[i];
    assert forall i :: 0 <= i < |b| ==> v[i] == b[i];
    assert u[..|a|] == a && v[..|b|] == b && u[|a| + 1..] == x && v[|b| + 1..] == y;
    if u == v {
      assert |a| == |b|;
    }
  }

  // ----- Names a brace cuts short -----

  lemma EndsAt(p: Piece, rest: seq<Piece>)
    ensures ConstraintsEnd([p] + rest)
       <==> ConstraintsEnd(rest) &&
            (p == Copied('{') && Reaches(rest) && NameEnd(Leading(rest)) < |Leading(rest)| ==> '}' in Render(rest, ":", ""))
  {
    assert ([p] + rest)[1..] == rest;
  }

  lemma {:induction false} PlainTextEnds(t: string, more: seq<Piece>)
    requires '{' !in t
    ensures ConstraintsEnd(Copies(t) + more) <==> ConstraintsEnd(more)
    decreases |t|
  {
    if t == "" {
      assert Copies(t) + more == more;
    } else {
      var c, rest := t[0], t[1..];
      assert t == [c] + rest;
      CopiesHead(c, rest, t, more);
      PlainTextEnds(rest, more);
      EndsAt(Copied(c), Copies(rest) + more);
    }
  }

  lemma Unsettled(b: string, more: seq<Piece>)
    requires more != [] && more[0].Param? && !Settles(b)
    ensures !BracesSettle(Behind(b, more))
  {
    LeadingCopies(b, more);
    BracesSettleAt(Copied('{'), Copies(b) + more);
  }

  /** The pattern `{x:c<f>{q}<q:q>`, with a colon in the last name: both spellings come to `:x:q:q`. */
  lemma ColonByAccident(x: string, c: string, f: string, q: string) returns (ps: seq<Piece>)
    requires SafeName(x) && SafeName(c) && SafeName(f) && SafeName(q)
    ensures ps == Behind(x + ([':'] + c), [Param(f)] + Behind(q + ['}'], [Param(q + ([':'] + q))] + []))
    ensures NoBraceNames(ps) && ConstraintsEnd(ps) && !BracesSettle(ps) && Braced(ps) == Colon(ps)
  {
    var t, last := x + ([':'] + c), [Param(q + ([':'] + q))] + [];
    var after := Behind(q + ['}'], last);
    ps := Behind(t, [Param(f)] + after);
    NameThenColon(x, c, t);
    Unsettled(t, [Param(f)] + after);
    BehindKeepsNames(q + ['}'], "", last);
    BehindKeepsNames(t, "", [Param(f)] + after);
    NamesAt(Param(f), after);
    NamesAt(last[0], []);
    assert Copies("") + last == last && Copies("") + ([Param(f)] + after) == [Param(f)] + after;
    SafeIsWhole(x);
    SafeIsWhole(q);
    BracedConstraint(x, c, t, f, after);
    ColonAccidentEnds(t, f, q, last[0].name);
    ColonAccidentBraced(q, last);
    ColonAccidentColon(t, f, q, x, last);
    ColonStep(q + ([':'] + q), []);
    assert (q + ([':'] + q)) + "" == q + ([':'] + q);
  }

  lemma ColonAccidentEnds(t: string, f: string, q: string, name: string)
    requires '{' !in t && '{' !in q
    ensures ConstraintsEnd(Behind(t, [Param(f)] + Behind(q + ['}'], [Param(name)] + [])))
  {
    var last := [Param(name)] + [];
    var after := Behind(q + ['}'], last);
    EndsAt(Param(name), []);
    PlainTextEnds(q + ['}'], last);
    LeadingCopies(q + ['}'], last);
    CloseSettles(q + ['}'], |q|);
    EndsAt(Copied('{'), Copies(q + ['}']) + last);
    EndsAt(Param(f), after);
    PlainTextEnds(t, [Param(f)] + after);
    CopiesRender(t, [Param(f)] + after, ":", "");
    ParamRender(f, after, ":", "");
    CopiedRender('{', Copies(q + ['}']) + last, ":", "");
    CopiesRender(q + ['}'], last, ":", "");
    EndsAt(Copied('{'), Copies(t) + ([Param(f)] + after));
  }

  lemma ColonAccidentBraced(q: string, last: seq<Piece>)
    requires SafeName(q) && last == [Param(q + ([':'] + q))] + []
    ensures Braced(Behind(q + ['}'], last)) == [':'] + (q + ([':'] + q))
  {
    SafeIsWhole(q);
    assert q + ['}'] == q + (['}'] + "");
    NameThenClose(q, "", q + ['}'], |q| + 1);
    SettledRead(q + ['}'], q, |q| + 1, "", last, "{", "}");
    assert Copies("") + last == last;
    ConstrainedStep(q, q, []);
    assert q + "" == q;
  }

  lemma ColonAccidentColon(t: string, f: string, q: string, x: string, last: seq<Piece>)
    requires !Settles(t) && t != "" && SafeName(f) && SafeName(q) && x == t[..NameEnd(t)]
    ensures Colon(Behind(t, [Param(f)] + Behind(q + ['}'], last))) == [':'] + (x + Colon(last))
  {
    var r := Render(last, ":", "");
    CopiedRender('{', Copies(q + ['}']) + last, ":", "");
    CopiesRender(q + ['}'], last, ":", "");
    Regroup(q, ['}'], r);
    Regroup(['{'], q, ['}'] + r);
    ColonClosedLater(t, f, Behind(q + ['}'], last), ['{'] + q, r, x);
  }

  /** The pattern `{b<f}{f:f>`, with a `}` and a `{` in the name: both spellings come to `:b{f:f`. */
  lemma BraceByAccident(b: string, f: string) returns (ps: seq<Piece>)
    requires SafeName(b) && SafeName(f)
    ensures ps == Behind(b, [Param(f + (['}'] + (['{'] + (f + ([':'] + f)))))] + [])
    ensures ConstraintsEnd(ps) && !BracesSettle(ps) && Braced(ps) == Colon(ps)
  {
    var rest := ['{'] + (f + ([':'] + f));
    var name := f + (['}'] + rest);
    ps := Behind(b, [Param(name)] + []);
    NameOnly(b);
    SafeIsWhole(b);
    SafeIsWhole(f);
    Unsettled(b, [Param(name)] + []);
    BraceAccidentEnds(b, name);
    BehindParam(b, name, []);
    BraceAccidentBraced(b, f, name);
    Regroup(f, ['}'] + rest, "");
    assert rest + "" == rest && (['}'] + rest) + "" == ['}'] + rest;
    ColonClosed(b, f, rest, b);
    NoCloseUntouched(rest);
    BraceAccidentText(b, ['{'], f, [':']);
  }

  lemma BraceAccidentText(b: string, open: string, f: string, colon: string)
    ensures colon + ((b + (open + f)) + (colon + f)) == colon + (b + (open + (f + (colon + f))))
  {
    Regroup(open, f, colon + f);
    Regroup(b, open + f, colon + f);
  }

  lemma BraceAccidentBraced(b: string, f: string, name: string)
    requires WholeName(b) && WholeName(f) && '}' !in f && name == f + (['}'] + (['{'] + (f + ([':'] + f))))
    ensures IntakeNormalize(['{'] + (b + (['{'] + (name + (['}'] + ""))))) == [':'] + ((b + (['{'] + f)) + ([':'] + f))
  {
    var x, s := b + (['{'] + f), f + ([':'] + f);
    BraceJoins(f);
    NamesJoin(b, ['{'] + f);
    BraceCutText(b, ['{'], f, ['}'], s, name);
    ClosedVariable(x, ['{'] + (s + (['}'] + "")));
    ConstrainedVariable(f, f, "");
    assert f + "" == f;
  }

  lemma BraceCutText(b: string, open: string, f: string, close: string, s: string, name: string)
    requires name == f + (close + (open + s))
    ensures b + (open + (name + (close + ""))) == (b + (open + f)) + (close + (open + (s + (close + ""))))
  {
    var z := close + "";
    Regroup(open, s, z);
    Regroup(close, open + s, z);
    Regroup(f, close + (open + s), z);
    Regroup(open, f, close + (open + (s + z)));
    Regroup(b, open + f, close + (open + (s + z)));
  }

  lemma BraceAccidentEnds(b: string, name: string)
    requires '{' !in b && NameEnd(b) == |b|
    ensures ConstraintsEnd(Behind(b, [Param(name)] + []))
  {
    var more := [Param(name)] + [];
    EndsAt(Param(name), []);
    PlainTextEnds(b, more);
    EndsAt(Copied('{'), Copies(b) + more);
    LeadingCopies(b, more);
  }
}
