/**
 * Patterns in which a literal `{` reaches into a parameter: as long as no constraint it opens is left
 * open, the decorators' path and the Django registrar's come apart at intake.
 */
module RouteBraces {
  import opened RoutePath
  import opened RouteIntake
  import opened RoutePieces
  import opened RouteAgreement

  /** Where a literal `{name:` reaches into a parameter, a `}` comes later in a literal or a name. */
  predicate ConstraintsEnd(ps: seq<Piece>) {
    ps == [] || (ConstraintsEnd(ps[1..]) &&
      (ps[0] == Copied('{') && Reaches(ps[1..]) && NameEnd(Leading(ps[1..])) < |Leading(ps[1..])| ==>
         '}' in Render(ps[1..], ":", "")))
  }

  /** No `{`, and the first `/`, `:` or `}`, if there is one, is no colon. */
  predicate PlainName(name: string) {
    var n := NameEnd(name);
    name != "" && '{' !in name && (n < |name| ==> name[n] != ':')
  }

  predicate PlainNames(ps: seq<Piece>) {
    ps == [] || (PlainNames(ps[1..]) && (ps[0].Param? ==> PlainName(ps[0].name)))
  }

  lemma PlainAt(p: Piece, rest: seq<Piece>)
    ensures PlainNames([p] + rest) <==> PlainNames(rest) && (p.Param? ==> PlainName(p.name))
    ensures ConstraintsEnd([p] + rest) ==> ConstraintsEnd(rest)
  {
    assert ([p] + rest)[1..] == rest;
  }

  lemma {:induction false} PlainParts(a: seq<Piece>, b: seq<Piece>)
    ensures PlainNames(a + b) <==> PlainNames(a) && PlainNames(b)
    ensures ConstraintsEnd(a + b) ==> ConstraintsEnd(b)
    decreases |a|
  {
    if a == [] {
      assert a + b == b;
    } else {
      var p, rest := a[0], a[1..];
      assert a == [p] + rest && a + b == [p] + (rest + b);
      PlainParts(rest, b);
      PlainAt(p, rest);
      PlainAt(p, rest + b);
    }
  }

  lemma {:induction false} LiteralIsPlain(t: string)
    ensures PlainNames(Copies(t))
    decreases |t|
  {
    if t != "" {
      var c, rest := t[0], t[1..];
      LiteralIsPlain(rest);
      assert Copies(t) == [Copied(c)] + Copies(rest);
      PlainAt(Copied(c), Copies(rest));
    }
  }

  lemma PlainBehind(t: string, more: seq<Piece>)
    ensures PlainNames(Behind(t, more)) <==> PlainNames(more)
    ensures ConstraintsEnd(Behind(t, more)) ==> ConstraintsEnd(Copies(t) + more) && ConstraintsEnd(more)
  {
    PlainAt(Copied('{'), Copies(t) + more);
    PlainParts(Copies(t), more);
    LiteralIsPlain(t);
  }

  // ----- The reaching brace in the decorators' spelling -----

  lemma ReachesNoClose(t: string)
    requires !Settles(t)
    ensures '}' !in t
  {
    forall i | 0 <= i < |t| ensures t[i] != '}' {
      if t[i] == '}' {
        CloseSettles(t, i);
      }
    }
  }

  /** A literal that reaches is a name, or a name with a constraint. */
  lemma ReachingText(t: string) returns (x: string, c: string)
    requires !Settles(t) && NameEnd(t) < |t|
    ensures WholeName(x) && '}' !in c && t == x + ([':'] + c) && x == t[..NameEnd(t)]
  {
    var n := NameEnd(t);
    x, c := t[..n], t[n + 1..];
    NameSplit(t, n);
    ReachesNoClose(t);
  }

  lemma BehindParam(t: string, name: string, after: seq<Piece>)
    ensures Render(Behind(t, [Param(name)] + after), "{", "}")
         == ['{'] + (t + (['{'] + (name + (['}'] + Render(after, "{", "}")))))
    ensures Render(Behind(t, [Param(name)] + after), ":", "")
         == ['{'] + (t + ([':'] + (name + Render(after, ":", ""))))
  {
    var more := [Param(name)] + after;
    CopiedRender('{', Copies(t) + more, "{", "}");
    CopiesRender(t, more, "{", "}");
    ParamRender(name, after, "{", "}");
    CopiedRender('{', Copies(t) + more, ":", "");
    CopiesRender(t, more, ":", "");
    ParamRender(name, after, ":", "");
    NothingInFront(Render(after, ":", ""));
  }

  /** A literal that cannot end before the slash, and the name, come through unread. */
  lemma SlashUnread(t: string, name: string, r: string)
    requires NameEnd(t) == |t| && SlashName(name)
    ensures IntakeNormalize(t + (['{'] + (name + (['}'] + r)))) == t + (['{'] + (name + (['}'] + IntakeNormalize(r))))
  {
    var n, out := NameEnd(name), IntakeNormalize(r);
    var u, v := name[..n], name[n + 1..];
    var x := t + (['{'] + u);
    NameSplit(name, n);
    BraceJoins(u);
    NamesJoin(t, ['{'] + u);
    assert '{' !in v + ['}'] by {
      assert forall i :: 0 <= i < |v| ==> v[i] == name[n + 1 + i];
    }
    StoppedCopies(x, (v + ['}']) + r);
    IntakeCopiesAll(v + ['}'], r);
    NameText(t, ['{'], u, ['/'], v, ['}'], r, name);
    NameText(t, ['{'], u, ['/'], v, ['}'], out, name);
  }

  lemma NameText(t: string, open: string, u: string, sign: string, v: string, close: string, r: string, name: string)
    requires name == u + (sign + v)
    ensures t + (open + (name + (close + r))) == (t + (open + u)) + (sign + ((v + close) + r))
  {
    Regroup(v, close, r);
    Regroup(sign, v, close + r);
    Regroup(u, sign + v, close + r);
    Regroup(open, u, sign + (v + (close + r)));
    Regroup(t, open + u, sign + (v + (close + r)));
  }

  /** A name swallows the parameter's own brace and its name ... */
  lemma BracedName(t: string, name: string, after: seq<Piece>)
    requires NameEnd(t) == |t| && NameEnd(name) == |name|
    ensures Braced(Behind(t, [Param(name)] + after)) == [':'] + ((t + (['{'] + name)) + Braced(after))
  {
    var x, r := t + (['{'] + name), Render(after, "{", "}");
    BehindParam(t, name, after);
    BraceJoins(name);
    NamesJoin(t, ['{'] + name);
    Regroup(['{'], name, ['}'] + r);
    Regroup(t, ['{'] + name, ['}'] + r);
    ClosedVariable(x, r);
  }

  /** ... or stops at a slash ... */
  lemma BracedSlash(t: string, name: string, after: seq<Piece>)
    requires NameEnd(t) == |t| && SlashName(name)
    ensures Braced(Behind(t, [Param(name)] + after)) == ['{'] + (t + (['{'] + (name + (['}'] + Braced(after)))))
  {
    var r, x := Render(after, "{", "}"), ['{'] + t;
    BehindParam(t, name, after);
    BraceJoins(t);
    Regroup(['{'], t, ['{'] + (name + (['}'] + r)));
    SlashUnread(x, name, r);
    Regroup(['{'], t, ['{'] + (name + (['}'] + IntakeNormalize(r))));
  }

  /** ... and a constraint swallows both. */
  lemma BracedConstraint(x: string, c: string, t: string, name: string, after: seq<Piece>)
    requires WholeName(x) && '}' !in c && t == x + ([':'] + c) && '}' !in name
    ensures Braced(Behind(t, [Param(name)] + after)) == [':'] + (x + Braced(after))
  {
    var more, r := c + (['{'] + name), Render(after, "{", "}");
    BehindParam(t, name, after);
    ConstraintText(x, [':'], c, ['{'], name, ['}'] + r);
    ConstrainedVariable(x, more, r);
  }

  lemma ConstraintText(x: string, colon: string, c: string, sign: string, name: string, z: string)
    ensures (x + (colon + c)) + (sign + (name + z)) == (x + (colon + (c + (sign + name)))) + z
  {
    Regroup(sign, name, z);
    Regroup(c, sign + name, z);
    Regroup(colon, c + (sign + name), z);
    Regroup(x, colon + (c + (sign + name)), z);
    Regroup(colon, c, sign + (name + z));
    Regroup(x, colon + c, sign + (name + z));
  }

  /** A `}` in the name ends either early. */
  lemma BracedCut(t: string, u: string, v: string, name: string, after: seq<Piece>)
    requires NameEnd(t) == |t| && NameEnd(u) == |u| && '{' !in v && name == u + (['}'] + v)
    ensures Braced(Behind(t, [Param(name)] + after)) == [':'] + ((t + (['{'] + u)) + ((v + ['}']) + Braced(after)))
  {
    var x, r := t + (['{'] + u), Render(after, "{", "}");
    BehindParam(t, name, after);
    BraceJoins(u);
    NamesJoin(t, ['{'] + u);
    NameText(t, ['{'], u, ['}'], v, ['}'], r, name);
    ClosedVariable(x, (v + ['}']) + r);
    IntakeCopiesAll(v + ['}'], r);
  }


  lemma BracedConstraintCut(x: string, c: string, t: string, u: string, v: string, name: string, after: seq<Piece>)
    requires WholeName(x) && '}' !in c && t == x + ([':'] + c) && '}' !in u && '{' !in v && name == u + (['}'] + v)
    ensures Braced(Behind(t, [Param(name)] + after)) == [':'] + (x + ((v + ['}']) + Braced(after)))
  {
    var r := Render(after, "{", "}");
    BehindParam(t, name, after);
    NameText(t, ['{'], u, ['}'], v, ['}'], r, name);
    ConstraintCutText(x, [':'], c, ['{'] + u);
    ConstrainedVariable(x, c + (['{'] + u), (v + ['}']) + r);
    IntakeCopiesAll(v + ['}'], r);
  }

  lemma ConstraintCutText(x: string, colon: string, c: string, more: string)
    ensures (x + (colon + c)) + more == x + (colon + (c + more))
  {
    Regroup(colon, c, more);
    Regroup(x, colon + c, more);
  }

  /** What stands behind the first `}` of a name, and that `}`. */
  function Tail(name: string): nat {
    |name| - CloseFrom(name, 0)
  }

  lemma CutName(name: string) returns (u: string, v: string)
    requires '}' in name && '{' !in name
    ensures name == u + (['}'] + v) && '}' !in u && '{' !in v && Tail(name) == 1 + |v|
  {
    var j := CloseFrom(name, 0);
    u, v := name[..j], name[j + 1..];
    SplitAt(name, j);
    assert forall i :: 0 <= i < |v| ==> v[i] == name[j + 1 + i];
  }

  lemma UncutName(name: string)
    requires '}' !in name
    ensures Tail(name) == 0
  {
  }

  /** A plain name with a `}` before any slash. */
  lemma CloseFirst(name: string) returns (u: string, v: string)
    requires PlainName(name) && NameEnd(name) < |name| && !SlashName(name)
    ensures name == u + (['}'] + v) && NameEnd(u) == |u| && '{' !in v && '}' in name && Tail(name) == 1 + |v|
  {
    var n := NameEnd(name);
    u, v := name[..n], name[n + 1..];
    NameSplit(name, n);
    CloseFromIs(name, 0, n);
    assert forall i :: 0 <= i < |v| ==> v[i] == name[n + 1 + i];
  }

  /** Whichever it is, it comes to more than the name alone and what the name has behind a `}`. */
  lemma BracedLonger(t: string, name: string, after: seq<Piece>)
    requires !Settles(t) && PlainName(name)
    ensures |Braced(Behind(t, [Param(name)] + after))| >= 1 + NameEnd(t) + Tail(name) + |Braced(after)|
  {
    if NameEnd(t) < |t| {
      var x, c := ReachingText(t);
      if '}' in name {
        var u, v := CutName(name);
        BracedConstraintCut(x, c, t, u, v, name, after);
      } else {
        UncutName(name);
        BracedConstraint(x, c, t, name, after);
      }
    } else if NameEnd(name) == |name| {
      UncutName(name);
      BracedName(t, name, after);
    } else if SlashName(name) {
      BracedSlash(t, name, after);
    } else {
      var u, v := CloseFirst(name);
      BracedCut(t, u, v, name, after);
    }
  }

  // ----- ... and in the registrar's -----

  /** A brace directly before a parameter is an empty name. */
  lemma ColonEmpty(name: string, after: seq<Piece>)
    requires '{' !in name
    ensures Colon(Behind("", [Param(name)] + after)) == ['{'] + ([':'] + (name + Colon(after)))
  {
    var r := Render(after, ":", "");
    var s := [':'] + (name + r);
    BehindParam("", name, after);
    NothingInFront(s);
    NoName(s);
    IntakeUnread(s);
    IntakeCopies(':', name + r);
    IntakeCopiesAll(name, r);
  }

  /** Any other reaching brace takes everything up to the next `}` ... */
  lemma ColonClosed(t: string, f: string, y: string, x: string)
    requires !Settles(t) && t != "" && '}' !in f && x == t[..NameEnd(t)]
    ensures IntakeNormalize(['{'] + (t + ([':'] + (f + (['}'] + y))))) == [':'] + (x + IntakeNormalize(y))
  {
    if NameEnd(t) == |t| {
      assert x == t;
      Regroup([':'], f, ['}'] + y);
      Regroup(t, [':'] + f, ['}'] + y);
      ConstrainedVariable(t, f, y);
    } else {
      var u, c := ReachingText(t);
      ConstraintText(u, [':'], c, [':'], f, ['}'] + y);
      ConstrainedVariable(u, c + ([':'] + f), y);
    }
  }

  /** ... in the parameter's own name ... */
  lemma ColonClosedWithin(t: string, u: string, v: string, name: string, after: seq<Piece>, x: string)
    requires !Settles(t) && t != "" && x == t[..NameEnd(t)]
    requires '}' !in u && '{' !in v && name == u + (['}'] + v)
    ensures Colon(Behind(t, [Param(name)] + after)) == [':'] + (x + (v + Colon(after)))
  {
    var r := Render(after, ":", "");
    BehindParam(t, name, after);
    Regroup(u, ['}'] + v, r);
    Regroup(['}'], v, r);
    ColonClosed(t, u, v + r, x);
    IntakeCopiesAll(v, r);
  }

  /** ... or behind it ... */
  lemma ColonClosedLater(t: string, name: string, after: seq<Piece>, f: string, y: string, x: string)
    requires !Settles(t) && t != "" && '}' !in name && x == t[..NameEnd(t)]
    requires Render(after, ":", "") == f + (['}'] + y) && '}' !in f
    ensures Colon(Behind(t, [Param(name)] + after)) == [':'] + (x + IntakeNormalize(y))
  {
    BehindParam(t, name, after);
    Regroup(name, f, ['}'] + y);
    ColonClosed(t, name + f, y, x);
  }

  /** ... and fails if there is none. */
  lemma ColonOpen(t: string, name: string, after: seq<Piece>)
    requires !Settles(t) && '}' !in name && '}' !in Render(after, ":", "")
    ensures Colon(Behind(t, [Param(name)] + after)) == ['{'] + (t + ([':'] + (name + Colon(after))))
  {
    BehindParam(t, name, after);
    ReachesNoClose(t);
    NoCloseUntouched(Render(after, ":", ""));
    NoCloseUntouched(['{'] + (t + ([':'] + (name + Render(after, ":", "")))));
  }

  /** The first `}` of the registrar's spelling: behind it comes the rest `v` of a name, or nothing,
      and then the pieces `back`. In the decorators' spelling there is a `}` with no less behind it. */
  lemma {:induction false} FirstClose(ps: seq<Piece>) returns (f: string, v: string, back: seq<Piece>, g: string, y: string)
    requires PlainNames(ps) && '}' in Render(ps, ":", "")
    ensures Render(ps, ":", "") == f + (['}'] + (v + Render(back, ":", ""))) && '}' !in f && '{' !in v
    ensures Render(ps, "{", "}") == g + (['}'] + y) && |IntakeNormalize(y)| >= |v| + |Braced(back)|
    ensures |back| < |ps| && PlainNames(back) && (ConstraintsEnd(ps) ==> ConstraintsEnd(back))
    decreases |ps|
  {
    var p, rest := ps[0], ps[1..];
    assert ps == [p] + rest;
    PlainAt(p, rest);
    if p == Copied('}') {
      f, v, back, g, y := "", "", rest, "", Render(rest, "{", "}");
      CloseHere(rest);
    } else if p.Param? && '}' in p.name {
      var u;
      u, v := CutName(p.name);
      f, back, g, y := [':'] + u, rest, ['{'] + u, (v + ['}']) + Render(rest, "{", "}");
      CloseInName(p.name, u, v, rest);
      IntakeCopiesAll(v + ['}'], Render(rest, "{", "}"));
    } else {
      ClosesLater(p, rest);
      f, v, back, g, y := FirstClose(rest);
      Regroup(RenderPiece(p, ":", ""), f, ['}'] + (v + Render(back, ":", "")));
      Regroup(RenderPiece(p, "{", "}"), g, ['}'] + y);
      f, g := RenderPiece(p, ":", "") + f, RenderPiece(p, "{", "}") + g;
    }
  }

  lemma CloseHere(rest: seq<Piece>)
    ensures Render([Copied('}')] + rest, ":", "") == "" + (['}'] + ("" + Render(rest, ":", "")))
    ensures Render([Copied('}')] + rest, "{", "}") == "" + (['}'] + Render(rest, "{", "}"))
  {
    CopiedRender('}', rest, ":", "");
    CopiedRender('}', rest, "{", "}");
    NothingInFront(Render(rest, ":", ""));
    NothingInFront(['}'] + Render(rest, ":", ""));
    NothingInFront(['}'] + Render(rest, "{", "}"));
  }

  lemma CloseInName(name: string, u: string, v: string, rest: seq<Piece>)
    requires name == u + (['}'] + v)
    ensures Render([Param(name)] + rest, ":", "") == ([':'] + u) + (['}'] + (v + Render(rest, ":", "")))
    ensures Render([Param(name)] + rest, "{", "}") == (['{'] + u) + (['}'] + ((v + ['}']) + Render(rest, "{", "}")))
  {
    var r := Render(rest, ":", "");
    ParamRender(name, rest, ":", "");
    ParamRender(name, rest, "{", "}");
    NothingInFront(r);
    Regroup(u, ['}'] + v, r);
    Regroup(['}'], v, r);
    Regroup([':'], u, ['}'] + (v + r));
    NameText("", ['{'], u, ['}'], v, ['}'], Render(rest, "{", "}"), name);
    NothingInFront(['{'] + (name + (['}'] + Render(rest, "{", "}"))));
    NothingInFront(['{'] + u);
  }

  lemma ClosesLater(p: Piece, rest: seq<Piece>)
    requires p != Copied('}') && (p.Param? ==> '}' !in p.name)
    ensures '}' in Render([p] + rest, ":", "") ==> '}' in Render(rest, ":", "")
    ensures Render([p] + rest, ":", "") == RenderPiece(p, ":", "") + Render(rest, ":", "")
    ensures Render([p] + rest, "{", "}") == RenderPiece(p, "{", "}") + Render(rest, "{", "}")
    ensures '}' !in RenderPiece(p, ":", "")
  {
    assert ([p] + rest)[1..] == rest;
    assert '}' !in RenderPiece(p, ":", "");
  }

  // ----- Reaching braces tell the paths apart -----

  /** The decorators' spelling is never read shorter than the registrar's. */
  predicate NotShorter(ps: seq<Piece>) {
    |Braced(ps)| >= |Colon(ps)|
  }

  lemma EmptyDiffers(name: string, after: seq<Piece>, ps: seq<Piece>)
    requires PlainName(name) && NotShorter(after) && ps == Behind("", [Param(name)] + after)
    ensures NotShorter(ps) && Braced(ps) != Colon(ps)
  {
    var colon := [':'] + (name + Colon(after));
    ColonEmpty(name, after);
    if NameEnd(name) == |name| {
      BracedName("", name, after);
      HeadsDiffer(':', "" + (['{'] + name) + Braced(after), '{', colon);
    } else if SlashName(name) {
      BracedSlash("", name, after);
      var braced := ['{'] + (name + (['}'] + Braced(after)));
      NothingInFront(braced);
      HeadsDiffer('{', name + (['}'] + Braced(after)), ':', name + Colon(after));
      SameRest(['{'], braced, colon);
    } else {
      var u, v := CloseFirst(name);
      BracedCut("", u, v, name, after);
      HeadsDiffer(':', "" + (['{'] + u) + ((v + ['}']) + Braced(after)), '{', colon);
    }
  }

  lemma LongerDiffers(b: string, c: string)
    requires |b| > |c|
    ensures |b| >= |c| && b != c
  {
  }

  lemma ClosedDiffers(t: string, name: string, after: seq<Piece>, ps: seq<Piece>)
    requires !Settles(t) && t != "" && PlainName(name) && '}' in name
    requires NotShorter(after) && ps == Behind(t, [Param(name)] + after)
    ensures NotShorter(ps) && Braced(ps) != Colon(ps)
  {
    var u, v := CutName(name);
    BracedLonger(t, name, after);
    ColonClosedWithin(t, u, v, name, after, t[..NameEnd(t)]);
    LongerDiffers(Braced(ps), Colon(ps));
  }

  lemma ClosedLaterDiffers(t: string, name: string, after: seq<Piece>, v: string, back: seq<Piece>, ps: seq<Piece>)
    requires !Settles(t) && PlainName(name) && '}' !in name && ps == Behind(t, [Param(name)] + after)
    requires Colon(ps) == [':'] + (t[..NameEnd(t)] + (v + Colon(back)))
    requires NotShorter(back) && |Braced(after)| >= 1 + |v| + |Braced(back)|
    ensures NotShorter(ps) && Braced(ps) != Colon(ps)
  {
    UncutName(name);
    BracedLonger(t, name, after);
    LongerDiffers(Braced(ps), Colon(ps));
  }

  lemma OpenDiffers(t: string, name: string, after: seq<Piece>, y: string, c: string)
    requires NameEnd(t) == |t| && PlainName(name) && '}' !in name
    requires c == ['{'] + (t + ([':'] + (name + y))) && |Braced(after)| >= |y|
    ensures var b := Braced(Behind(t, [Param(name)] + after)); |b| >= |c| && b != c
  {
    if NameEnd(name) == |name| {
      BracedName(t, name, after);
      HeadsDiffer(':', (t + (['{'] + name)) + Braced(after), '{', t + ([':'] + (name + y)));
    } else {
      assert SlashName(name) by {
        if !SlashName(name) {
          var u, v := CloseFirst(name);
        }
      }
      BracedSlash(t, name, after);
      var braced := ['{'] + (name + (['}'] + Braced(after)));
      HeadsDiffer('{', name + (['}'] + Braced(after)), ':', name + y);
      SameRest(['{'], t + braced, t + ([':'] + (name + y)));
      SameRest(t, braced, [':'] + (name + y));
    }
  }

  /** With no `}` to come, what reaches the parameter is a name and no constraint. */
  lemma NameReaches(t: string, more: seq<Piece>)
    requires more != [] && more[0].Param? && !Settles(t)
    requires ConstraintsEnd(Behind(t, more)) && '}' !in Render(more, ":", "")
    ensures NameEnd(t) == |t|
  {
    var ps := Behind(t, more);
    assert ps[1..] == Copies(t) + more;
    LeadingCopies(t, more);
    ReachesNoClose(t);
    CopiesRender(t, more, ":", "");
  }

  /** Never shorter, and different if a brace reaches into a parameter or a name is not given back. */
  predicate ComesApart(ps: seq<Piece>) {
    NotShorter(ps) && ((BracesSettle(ps) && ReadsAlike(ps)) || Braced(ps) != Colon(ps))
  }

  /** As long as no constraint is left open behind the last literal `}`. */
  lemma {:induction false} ReachingDiffer(ps: seq<Piece>)
    requires PlainNames(ps) && ConstraintsEnd(ps)
    ensures ComesApart(ps)
    decreases |ps|, 2
  {
    if ps != [] {
      if ps[0] == Copied('{') {
        BraceApart(ps);
      } else {
        var p, rest := ps[0], ps[1..];
        assert ps == [p] + rest;
        PlainAt(p, rest);
        ReachingDiffer(rest);
        match p {
          case Copied(c) => CopiedApart(c, rest);
          case Param(name) => NameApart(name, rest);
        }
      }
    }
  }

  lemma {:induction false} BraceApart(ps: seq<Piece>)
    requires PlainNames(ps) && ConstraintsEnd(ps) && ps != [] && ps[0] == Copied('{')
    ensures ComesApart(ps)
    decreases |ps|, 1
  {
    var t, more := BraceFront(ps);
    if more == [] {
      LiteralSame(t, ps);
    } else if Settles(t) {
      SettledApart(t, more, ps);
    } else {
      ReachingStep(t, more[0].name, more[1..], more, ps);
    }
  }

  lemma CopiedApart(c: char, rest: seq<Piece>)
    requires c != '{' && ComesApart(rest)
    ensures ComesApart([Copied(c)] + rest)
  {
    NamesAt(Copied(c), rest);
    BracesSettleAt(Copied(c), rest);
    CopiedStep(c, rest);
    SameRest([c], Braced(rest), Colon(rest));
  }

  lemma NameApart(name: string, after: seq<Piece>)
    requires PlainName(name) && ComesApart(after)
    ensures ComesApart([Param(name)] + after)
  {
    NamesAt(Param(name), after);
    BracesSettleAt(Param(name), after);
    NameDecides(name, after);
    if Stuck(name) {
      StuckStep(name, after);
    } else {
      var a := ParamRead(name, after);
      ColonStep(name, after);
    }
  }

  lemma LiteralSame(t: string, ps: seq<Piece>)
    requires ps == Behind(t, [])
    ensures ComesApart(ps)
  {
    assert Copies("") + [] == [] && ps == Copies(['{'] + t) + [];
    LeadingCopies(['{'] + t, []);
    LiteralAlike(ps);
    BehindKeepsNames(t, "", []);
  }

  lemma {:induction false} SettledApart(t: string, more: seq<Piece>, ps: seq<Piece>)
    requires ps == Behind(t, more) && more != [] && more[0].Param? && Settles(t)
    requires PlainNames(ps) && ConstraintsEnd(ps)
    ensures ComesApart(ps)
    decreases |ps|, 0
  {
    var read, rest := SettledStep(t, more);
    var after := Copies(rest) + more;
    BehindKeepsNames(t, rest, more);
    PlainRest(t, more, t[..|t| - |rest|], rest);
    SameRest(read, Braced(after), Colon(after));
    ReachingDiffer(after);
  }

  lemma PlainRest(t: string, more: seq<Piece>, x: string, rest: string)
    requires t == x + rest && PlainNames(Behind(t, more)) && ConstraintsEnd(Behind(t, more))
    ensures PlainNames(Copies(rest) + more) && ConstraintsEnd(Copies(rest) + more)
  {
    PlainAt(Copied('{'), Copies(t) + more);
    CopiesParts(x, rest, more);
    PlainParts(Copies(x), Copies(rest) + more);
  }

  lemma {:induction false} ReachingStep(t: string, name: string, after: seq<Piece>, more: seq<Piece>, ps: seq<Piece>)
    requires more == [Param(name)] + after && ps == Behind(t, more) && !Settles(t)
    requires PlainNames(ps) && ConstraintsEnd(ps)
    ensures NotShorter(ps) && Braced(ps) != Colon(ps)
    decreases |ps|, 0
  {
    PlainBehind(t, more);
    PlainAt(Param(name), after);
    if t == "" {
      ReachingDiffer(after);
      EmptyDiffers(name, after, ps);
    } else if '}' in name {
      ReachingDiffer(after);
      ClosedDiffers(t, name, after, ps);
    } else if '}' in Render(after, ":", "") {
      var f, v, back, g, y := FirstClose(after);
      ReachingDiffer(back);
      FreshAfterClose(g, y);
      ColonClosedLater(t, name, after, f, v + Render(back, ":", ""), t[..NameEnd(t)]);
      IntakeCopiesAll(v, Render(back, ":", ""));
      ClosedLaterDiffers(t, name, after, v, back, ps);
    } else {
      ParamRender(name, after, ":", "");
      NameReaches(t, more);
      ReachingDiffer(after);
      ColonOpen(t, name, after);
      OpenDiffers(t, name, after, Colon(after), Colon(ps));
    }
  }

  /**
   * Of patterns with plain names whose constraints end, exactly those reach one path at intake in
   * which no literal `{` reaches into a parameter and intake gives every name back. For a constraint
   * left open and for other names see `AgreesByAccident`, `ColonByAccident` and `BraceByAccident` in
   * `RouteExamples`.
   */
  lemma IntakeAgreesExactly(p: string)
    requires PlainNames(Pieces(StripSlashes(p))) && ConstraintsEnd(Pieces(StripSlashes(p)))
    ensures IntakeNormalize(NormalizeRoutePattern(p)) == IntakeNormalize(DjangoPath(p))
       <==> BracesSettle(Pieces(StripSlashes(p))) && ReadsAlike(Pieces(StripSlashes(p)))
  {
    var ps := Pieces(StripSlashes(p));
    ReachingDiffer(ps);
    if BracesSettle(ps) && ReadsAlike(ps) {
      IntakeAgrees(p);
    }
    PathsUnderIntake(p);
    SameRest(['/'], Braced(ps), Colon(ps));
  }
}
