/**
 * Whether what a decorator sends and what the Django registrar publishes for one pattern become one
 * path at intake. Here: patterns in which no literal `{` reaches into a parameter, whatever the
 * scanner takes for a parameter's name. `RouteBraces` has those in which one does.
 */
module RouteAgreement {
  import opened Text
  import opened RoutePath
  import opened RouteIntake
  import opened RoutePieces

  // ----- One name in both spellings -----

  /** Intake's expression fails at a name that begins with its syntax, or has a slash first. */
  predicate Stuck(name: string) {
    var n := NameEnd(name);
    n == 0 || (n < |name| && name[n] == '/')
  }

  lemma SplitAt(s: string, n: nat)
    requires n < |s|
    ensures s == s[..n] + ([s[n]] + s[n + 1..])
  {
  }

  lemma NameSplit(name: string, n: nat)
    requires n == NameEnd(name) < |name|
    ensures name == name[..n] + ([name[n]] + name[n + 1..]) && NameEnd(name[..n]) == n
  {
    SplitAt(name, n);
    NamePart(name, name[..n]);
  }

  lemma StuckUnread(name: string, y: string)
    requires Stuck(name)
    ensures VariableAfter(name + (['}'] + y)).None?
  {
    if name == "" {
      NoName(name + (['}'] + y));
    } else {
      NamePrefix(name, ['}'] + y);
      assert (name + (['}'] + y))[NameEnd(name)] == name[NameEnd(name)];
    }
  }

  lemma StuckDiffers(name: string, after: seq<Piece>)
    requires Stuck(name)
    ensures Braced([Param(name)] + after) != "" && Braced([Param(name)] + after)[0] == '{'
    ensures Braced([Param(name)] + after) != Colon([Param(name)] + after)
  {
    var r := Render(after, "{", "}");
    BracedParam(name, after);
    ColonParam(name, after);
    StuckUnread(name, r);
    IntakeUnread(name + (['}'] + r));
  }

  /** Closing braces are told apart by their number only. */
  lemma {:induction false} CloseCommutes(y: string, r: string)
    requires AllClose(y)
    ensures y + (['}'] + r) == ['}'] + (y + r)
    decreases |y|
  {
    if y == "" {
      assert y + (['}'] + r) == ['}'] + r && y + r == r;
    } else {
      var rest := y[1..];
      assert y == ['}'] + rest;
      CloseCommutes(rest, r);
      Regroup(['}'], rest, ['}'] + r);
      Regroup(['}'], rest, r);
    }
  }

  lemma TidyRead(x: string, y: string, r: string)
    requires WholeName(x) && AllClose(y)
    ensures IntakeNormalize(['{'] + ((x + y) + (['}'] + r))) == [':'] + ((x + y) + IntakeNormalize(r))
  {
    Regroup(x, y, ['}'] + r);
    CloseCommutes(y, r);
    ClosedVariable(x, y + r);
    IntakeCopiesAll(y, r);
    Regroup(x, y, IntakeNormalize(r));
  }

  /** A name and nothing but `}` behind it is read, and agrees if its own braces are quiet. */
  lemma TidyParam(x: string, y: string, after: seq<Piece>)
    requires WholeName(x) && AllClose(y)
    ensures Braced([Param(x + y)] + after) == Colon([Param(x + y)] + after)
       <==> Quiet(x + y, Render(after, ":", "")) && Braced(after) == Colon(after)
  {
    var name, q := x + y, Render(after, ":", "");
    BracedParam(name, after);
    ColonParam(name, after);
    TidyRead(x, y, Render(after, "{", "}"));
    CopiedExactly(name, q, Braced(after));
    SameRest([':'], name + Braced(after), IntakeNormalize(name + q));
  }

  /** What intake makes of text that does not begin with `}` does not either. */
  lemma NotClosing(c: char, s: string)
    requires c != '}'
    ensures IntakeNormalize([c] + s) != "" && IntakeNormalize([c] + s)[0] != '}'
  {
    if c == '{' && VariableAfter(s).Some? {
      IntakeReadHead(s);
    } else if c == '{' {
      IntakeUnread(s);
    } else {
      IntakeCopies(c, s);
    }
  }

  /** A name that goes on behind a `}`: the decorators' spelling has lost a `}` there. */
  lemma LeftoverDiffers(x: string, y: string, c: char, w: string, name: string, after: seq<Piece>)
    requires WholeName(x) && AllClose(y) && c != '}' && name == (x + y) + (['}'] + ([c] + w))
    ensures Braced([Param(name)] + after) != Colon([Param(name)] + after)
  {
    var r, q := Render(after, "{", "}"), Render(after, ":", "");
    var v := w + (['}'] + r);
    BracedParam(name, after);
    ColonParam(name, after);
    LeftoverText(x + y, ['}'], [c], w, name, ['}'] + r);
    TidyRead(x, y, [c] + v);
    Regroup(x + y, ['}'] + ([c] + w), q);
    IntakeCopies('}', ([c] + w) + q);
    Regroup(['}'], [c] + w, q);
    NotClosing(c, v);
    CopiedExactly(x + y, (['}'] + ([c] + w)) + q, IntakeNormalize([c] + v));
    SameRest([':'], (x + y) + IntakeNormalize([c] + v), IntakeNormalize(name + q));
  }

  lemma LeftoverText(a: string, b: string, c: string, w: string, name: string, z: string)
    requires name == a + (b + (c + w))
    ensures name + z == a + (b + (c + (w + z)))
  {
    Regroup(a, b + (c + w), z);
    Regroup(b, c + w, z);
    Regroup(c, w, z);
  }

  lemma {:induction false} FirstOther(s: string) returns (y: string, c: char, w: string)
    requires s != "" && s[0] == '}' && !AllClose(s)
    ensures AllClose(y) && c != '}' && s == y + (['}'] + ([c] + w))
    decreases |s|
  {
    var rest := s[1..];
    assert s == ['}'] + rest;
    if rest[0] == '}' {
      y, c, w := FirstOther(rest);
      Regroup(['}'], y, ['}'] + ([c] + w));
      y := ['}'] + y;
    } else {
      y, c, w := "", rest[0], rest[1..];
      assert rest == [c] + w && y + s == s;
    }
  }

  lemma LeftoverParam(name: string, n: nat, after: seq<Piece>)
    requires n == NameEnd(name) && 0 < n < |name| && name[n] == '}' && !AllClose(name[n..])
    ensures Braced([Param(name)] + after) != Colon([Param(name)] + after)
  {
    var x, z := name[..n], name[n..];
    assert name == x + z;
    NameSplit(name, n);
    var y, c, w := FirstOther(z);
    Regroup(x, y, ['}'] + ([c] + w));
    LeftoverDiffers(x, y, c, w, name, after);
  }

  /** The first `}` of a constraint that has one. */
  lemma FirstClosing(c: string) returns (u: string, v: string)
    requires '}' in c
    ensures c == u + (['}'] + v) && '}' !in u
  {
    var j := CloseFrom(c, 0);
    u, v := c[..j], c[j + 1..];
  }

  /** The constraint is lost: what is left of it is shorter than the name itself. */
  lemma ConstraintShorter(x: string, c: string, name: string, r: string) returns (a: string)
    requires WholeName(x) && '{' !in c && name == x + ([':'] + c)
    ensures IntakeNormalize(['{'] + (name + (['}'] + r))) == a + IntakeNormalize(r) && |a| <= |name|
  {
    if '}' !in c {
      a := [':'] + x;
      ConstrainedVariable(x, c, r);
      Regroup([':'], x, IntakeNormalize(r));
    } else {
      var u, v := FirstClosing(c);
      a := [':'] + (x + (v + ['}']));
      assert '{' !in v + ['}'] by {
        assert forall i :: 0 <= i < |v| ==> v[i] == c[|u| + 1 + i];
      }
      ConstraintCut(x, u, v, name, r);
      IntakeCopiesAll(v + ['}'], r);
      Regroup(x, v + ['}'], IntakeNormalize(r));
      Regroup([':'], x + (v + ['}']), IntakeNormalize(r));
    }
  }

  lemma ConstraintCut(x: string, u: string, v: string, name: string, r: string)
    requires WholeName(x) && '}' !in u && name == x + ([':'] + (u + (['}'] + v)))
    ensures IntakeNormalize(['{'] + (name + (['}'] + r))) == [':'] + (x + IntakeNormalize((v + ['}']) + r))
  {
    var a, y := x + ([':'] + u), (v + ['}']) + r;
    CutText(x, [':'], u, ['}'], v, name, r);
    ConstrainedVariable(x, u, y);
  }

  lemma CutText(x: string, colon: string, u: string, close: string, v: string, name: string, r: string)
    requires name == x + (colon + (u + (close + v)))
    ensures name + (close + r) == (x + (colon + u)) + (close + ((v + close) + r))
  {
    var z := close + r;
    Regroup(x, colon + (u + (close + v)), z);
    Regroup(colon, u + (close + v), z);
    Regroup(u, close + v, z);
    Regroup(close, v, z);
    Regroup(v, close, r);
    Regroup(x, colon + u, close + ((v + close) + r));
    Regroup(colon, u, close + ((v + close) + r));
  }

  /** A name without braces that intake does not get stuck at is read as no more than itself. */
  lemma ParamRead(name: string, after: seq<Piece>) returns (a: string)
    requires '{' !in name && !Stuck(name)
    ensures Braced([Param(name)] + after) == a + Braced(after) && |a| <= 1 + |name|
    ensures if Constrained(name) then |a| <= |name| else |a| == 1 + |name|
  {
    var n, r := NameEnd(name), Render(after, "{", "}");
    BracedParam(name, after);
    if n == |name| {
      a := [':'] + name;
      ClosedVariable(name, r);
      Regroup([':'], name, IntakeNormalize(r));
    } else {
      NameSplit(name, n);
      if name[n] == ':' {
        a := ConstraintShorter(name[..n], name[n + 1..], name, r);
      } else {
        a := ClosedName(name[..n], name[n + 1..], name, r);
      }
    }
  }

  lemma ClosedName(x: string, v: string, name: string, r: string) returns (a: string)
    requires WholeName(x) && '{' !in v && name == x + (['}'] + v)
    ensures IntakeNormalize(['{'] + (name + (['}'] + r))) == a + IntakeNormalize(r) && |a| == 1 + |name|
  {
    a := [':'] + (x + (v + ['}']));
    Regroup(x, ['}'] + v, ['}'] + r);
    Regroup(['}'], v, ['}'] + r);
    Regroup(v, ['}'], r);
    ClosedVariable(x, (v + ['}']) + r);
    IntakeCopiesAll(v + ['}'], r);
    Regroup(x, v + ['}'], IntakeNormalize(r));
    Regroup([':'], x + (v + ['}']), IntakeNormalize(r));
  }

  // ----- No spelling runs ahead of the other -----

  predicate NoOpening(c: char) { c != '{' }

  /** Shifting a text that holds a `{` moves its first one. */
  lemma BraceMoves(read: string, w: string, x: string, y: string)
    requires '{' in read && w != "" && '{' !in w
    ensures read + x != w + (read + y)
  {
    var i := Span(read, NoOpening);
    var b := w + (read + y);
    assert (read + x)[i] == '{';
    if i < |w| {
      assert b[i] == w[i];
    } else {
      assert b[i] == read[i - |w|];
    }
  }

  /** One step of both spellings, in which the decorators' comes to no more than the registrar's. */
  lemma AheadStep(w: string, a: string, x: string, b: string, y: string) returns (v: string)
    requires w != "" && '{' !in w && '{' !in b && |a| <= |b|
    ensures v != "" && '{' !in v && (a + x == w + (b + y) ==> x == v + y)
  {
    var wb := w + b;
    v := wb[|a|..];
    assert forall i :: 0 <= i < |v| ==> v[i] == wb[|a| + i];
    Regroup(w, b, y);
    if a + x == w + (b + y) {
      LongerPrefix(a, x, wb, y);
    }
  }

  /** If the names hold no `{`, the decorators' spelling never comes to the registrar's with more text
      in front. */
  lemma {:induction false} NeverAhead(w: string, ps: seq<Piece>)
    requires w != "" && '{' !in w && BracesSettle(ps) && NoBraceNames(ps)
    ensures Braced(ps) != w + Colon(ps)
    decreases |ps|
  {
    if |Leading(ps)| == |ps| {
      LiteralAlike(ps);
    } else if ps[0] == Copied('{') {
      NeverAheadBrace(w, ps);
    } else {
      var p, rest := ps[0], ps[1..];
      assert ps == [p] + rest;
      NamesAt(p, rest);
      match p {
        case Copied(c) =>
          CopiedStep(c, rest);
          var v := AheadStep(w, [c], Braced(rest), [c], Colon(rest));
          NeverAhead(v, rest);
        case Param(name) =>
          NeverAheadParam(w, name, rest);
      }
    }
  }

  lemma {:induction false} NeverAheadBrace(w: string, ps: seq<Piece>)
    requires w != "" && '{' !in w && BracesSettle(ps) && NoBraceNames(ps)
    requires ps != [] && ps[0] == Copied('{') && |Leading(ps)| < |ps|
    ensures Braced(ps) != w + Colon(ps)
    decreases |ps|, 0
  {
    var t, more := BraceFront(ps);
    var read, rest := SettledStep(t, more);
    BehindKeepsNames(t, rest, more);
    var after := Copies(rest) + more;
    if '{' in read {
      BraceMoves(read, w, Braced(after), Colon(after));
    } else {
      var v := AheadStep(w, read, Braced(after), read, Colon(after));
      NeverAhead(v, after);
    }
  }

  lemma {:induction false} NeverAheadParam(w: string, name: string, after: seq<Piece>)
    requires w != "" && '{' !in w && BracesSettle(after) && NoBraceNames(after) && '{' !in name
    ensures Braced([Param(name)] + after) != w + Colon([Param(name)] + after)
    decreases |after| + 1, 0
  {
    var b, q := [':'] + name, Render(after, ":", "");
    if Stuck(name) {
      StuckDiffers(name, after);
    } else {
      var a := ParamRead(name, after);
      ColonParam(name, after);
      IntakeCopiesAll(name, q);
      Regroup([':'], name, Colon(after));
      var v := AheadStep(w, a, Braced(after), b, Colon(after));
      NeverAhead(v, after);
    }
  }

  // ----- The names decide -----

  /** One parameter: unless the decorators' spelling lost a constraint. */
  lemma NameDecides(name: string, after: seq<Piece>)
    requires !Constrained(name)
    ensures Braced([Param(name)] + after) == Colon([Param(name)] + after)
       <==> Readable(name, Render(after, ":", "")) && Braced(after) == Colon(after)
  {
    var n := NameEnd(name);
    if Stuck(name) {
      StuckDiffers(name, after);
      assert n > 0 ==> name[n..][0] == '/';
    } else if AllClose(name[n..]) {
      assert name == name[..n] + name[n..];
      NamePart(name, name[..n]);
      TidyParam(name[..n], name[n..], after);
    } else {
      LeftoverParam(name, n, after);
    }
  }

  /** A lost constraint is never made up for by names without braces. */
  lemma ConstraintDiffers(name: string, after: seq<Piece>)
    requires Constrained(name) && '{' !in name && BracesSettle(after) && NoBraceNames(after)
    ensures Braced([Param(name)] + after) != Colon([Param(name)] + after)
  {
    var b, q := [':'] + name, Render(after, ":", "");
    var a := ParamRead(name, after);
    var v := b[|a|..];
    ColonParam(name, after);
    IntakeCopiesAll(name, q);
    Regroup([':'], name, Colon(after));
    NeverAhead(v, after);
    if a + Braced(after) == b + Colon(after) {
      LongerPrefix(a, Braced(after), b, Colon(after));
    }
  }

  /**
   * If no literal brace reaches into a parameter, the two spellings come to one path exactly when
   * intake gives every name back. The one limit is a `{` in or behind a name with a constraint: see
   * `RouteExamples.NamesByAccident`.
   */
  lemma {:induction false} NamesDecide(ps: seq<Piece>)
    requires BracesSettle(ps) && NoBraceBehindConstraint(ps)
    ensures Braced(ps) == Colon(ps) <==> ReadsAlike(ps)
    decreases |ps|
  {
    if |Leading(ps)| == |ps| {
      LiteralAlike(ps);
    } else if ps[0] == Copied('{') {
      var t, more := BraceFront(ps);
      var read, rest := SettledStep(t, more);
      BehindKeepsNames(t, rest, more);
      NamesDecide(Copies(rest) + more);
      SameRest(read, Braced(Copies(rest) + more), Colon(Copies(rest) + more));
    } else {
      var p, after := ps[0], ps[1..];
      assert ps == [p] + after;
      NamesAt(p, after);
      NamesDecide(after);
      match p {
        case Copied(c) =>
          CopiedStep(c, after);
          SameRest([c], Braced(after), Colon(after));
        case Param(name) =>
          if Constrained(name) {
            ConstraintDiffers(name, after);
            assert name[NameEnd(name)..][0] == ':';
          } else {
            NameDecides(name, after);
          }
      }
    }
  }

  lemma {:induction false} ReadsAlikeHasNoConstraint(ps: seq<Piece>)
    requires ReadsAlike(ps)
    ensures NoBraceBehindConstraint(ps)
  {
    if ps != [] {
      ReadsAlikeHasNoConstraint(ps[1..]);
      if ps[0].Param? {
        var name := ps[0].name;
        assert NameEnd(name) < |name| ==> name[NameEnd(name)..][0] == '}';
      }
    }
  }

  lemma {:induction false} SafeNamesReadAlike(ps: seq<Piece>)
    requires SafeNames(ps)
    ensures ReadsAlike(ps) && NoBraceNames(ps)
  {
    if ps != [] {
      SafeNamesReadAlike(ps[1..]);
      if ps[0].Param? {
        SafeIsWhole(ps[0].name);
        BraceFreeIsQuiet(ps[0].name, Render(ps[1..], ":", ""));
      }
    }
  }

  // ----- The paths themselves -----

  /** What a decorator sends and what the Django registrar publishes for one pattern become the same
      path at intake exactly when intake gives every scanned name back. */
  lemma NamesDecidePaths(p: string)
    requires BracesSettle(Pieces(StripSlashes(p))) && NoBraceBehindConstraint(Pieces(StripSlashes(p)))
    ensures IntakeNormalize(NormalizeRoutePattern(p)) == IntakeNormalize(DjangoPath(p))
       <==> ReadsAlike(Pieces(StripSlashes(p)))
  {
    var ps := Pieces(StripSlashes(p));
    PathsUnderIntake(p);
    NamesDecide(ps);
    SameRest(['/'], Braced(ps), Colon(ps));
  }

  /** That it does is enough, whatever the names. */
  lemma IntakeAgrees(p: string)
    requires BracesSettle(Pieces(StripSlashes(p))) && ReadsAlike(Pieces(StripSlashes(p)))
    ensures IntakeNormalize(NormalizeRoutePattern(p)) == IntakeNormalize(DjangoPath(p))
  {
    ReadsAlikeHasNoConstraint(Pieces(StripSlashes(p)));
    NamesDecidePaths(p);
  }

  // ----- Patterns without literal braces -----

  predicate NoLiteralBrace(ps: seq<Piece>) {
    ps == [] || (ps[0] != Copied('{') && NoLiteralBrace(ps[1..]))
  }

  lemma {:induction false} BraceFreeSettles(ps: seq<Piece>)
    requires NoLiteralBrace(ps) && NoBraceNames(ps)
    ensures BracesSettle(ps) && NoBraceBehindConstraint(ps) && '{' !in Render(ps, ":", "")
    decreases |ps|
  {
    if ps != [] {
      BraceFreeSettles(ps[1..]);
    }
  }

  /** With no `{` in a literal or a name, intake leaves the Django registrar's path as it is, and comes
      to it from the decorators' exactly when it gives every name back. */
  lemma BraceFreeIsCanonical(p: string)
    requires NoLiteralBrace(Pieces(StripSlashes(p))) && NoBraceNames(Pieces(StripSlashes(p)))
    ensures IntakeNormalize(DjangoPath(p)) == DjangoPath(p)
    ensures IntakeNormalize(NormalizeRoutePattern(p)) == DjangoPath(p) <==> ReadsAlike(Pieces(StripSlashes(p)))
  {
    var ps := Pieces(StripSlashes(p));
    BraceFreeSettles(ps);
    NamesDecidePaths(p);
    PathsUnderIntake(p);
    SamePieces(p);
    IntakePlain(Render(ps, ":", ""));
  }

  // ----- Patterns as they are written -----

  /** What a written pattern means decides whether it reaches one intake path: it does, if its literal
      braces settle, when intake gives its names back, and identifiers it always gives back. */
  lemma WrittenPatternsAgree(gs: seq<Segment>)
    requires forall g :: g in gs ==> WellFormedSegment(g)
    requires BracesSettle(Meant(gs)) && NoBraceBehindConstraint(Meant(gs))
    ensures IntakeNormalize(NormalizeRoutePattern(Write(gs))) == IntakeNormalize(DjangoPath(Write(gs)))
       <==> ReadsAlike(Meant(gs))
    ensures SafeNames(Meant(gs)) ==> ReadsAlike(Meant(gs))
  {
    PiecesOfWritten(gs);
    StripKeeps(Write(gs));
    NamesDecidePaths(Write(gs));
    if SafeNames(Meant(gs)) {
      SafeNamesReadAlike(Meant(gs));
    }
  }

  /** Leading slashes have no part in this. */
  lemma {:induction false} StripKeeps(p: string)
    ensures ReadsAlike(Pieces(p)) <==> ReadsAlike(Pieces(StripSlashes(p)))
    ensures BracesSettle(Pieces(p)) <==> BracesSettle(Pieces(StripSlashes(p)))
    ensures NoBraceBehindConstraint(Pieces(p)) <==> NoBraceBehindConstraint(Pieces(StripSlashes(p)))
  {
    if p != "" && p[0] == '/' {
      StripKeeps(p[1..]);
    }
  }

  // ----- Names at which intake fails -----

  /** A name in which a slash comes before any colon or `}`. */
  predicate SlashName(name: string) {
    var n := NameEnd(name);
    '{' !in name && n < |name| && name[n] == '/'
  }

  /** A name at which intake's expression fails keeps its braces. */
  lemma StuckStep(name: string, after: seq<Piece>)
    requires Stuck(name) && '{' !in name
    ensures Braced([Param(name)] + after) == ['{'] + (name + (['}'] + Braced(after)))
    ensures Colon([Param(name)] + after) == [':'] + (name + Colon(after))
  {
    var r := Render(after, "{", "}");
    BracedParam(name, after);
    StuckUnread(name, r);
    IntakeUnread(name + (['}'] + r));
    IntakeCopiesAll(name, ['}'] + r);
    IntakeCopies('}', r);
    ColonStep(name, after);
  }
}
