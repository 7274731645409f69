/**
 * The decorators' and the Django registrar's spelling of one pattern, piece by piece under intake's
 * normalizer: literals, parameters with safe names, and literal braces that settle.
 */
module RoutePieces {
  import opened Options
  import opened RoutePath
  import opened RouteIntake

  // ----- The two spellings -----

  function Braced(ps: seq<Piece>): string {
    IntakeNormalize(Render(ps, "{", "}"))
  }

  function Colon(ps: seq<Piece>): string {
    IntakeNormalize(Render(ps, ":", ""))
  }

  // ----- What is asked of a pattern -----

  /** The literal text in front of the first parameter. */
  function Leading(ps: seq<Piece>): (t: string)
    ensures |t| <= |ps|
    ensures forall i :: 0 <= i < |t| ==> ps[i] == Copied(t[i])
    ensures |t| < |ps| ==> ps[|t|].Param?
  {
    if ps == [] || ps[0].Param? then "" else [ps[0].c] + Leading(ps[1..])
  }

  /** Behind a literal `{`, intake's expression has matched or failed before this text ends. */
  predicate Settles(t: string) {
    var n := NameEnd(t);
    n < |t| && (n == 0 || t[n] != ':' || CloseFrom(t, n + 1) < |t|)
  }

  /** Behind a literal `{`, intake's expression reaches into a parameter. */
  predicate Reaches(ps: seq<Piece>) {
    |Leading(ps)| < |ps| && !Settles(Leading(ps))
  }

  /** No literal `{` reaches into a parameter. */
  predicate BracesSettle(ps: seq<Piece>) {
    ps == [] || (BracesSettle(ps[1..]) && !(ps[0] == Copied('{') && Reaches(ps[1..])))
  }

  predicate AllClose(s: string) {
    forall i :: 0 <= i < |s| ==> s[i] == '}'
  }

  /** Intake gives this name back, with `after` behind it: up to its first `/`, `:` or `}` there is
      something, from there on only `}`, and no `{` in it opens a variable of its own. */
  predicate Readable(name: string, after: string) {
    var n := NameEnd(name);
    n > 0 && AllClose(name[n..]) && Quiet(name, after)
  }

  predicate ReadsAlike(ps: seq<Piece>) {
    ps == [] ||
    (ReadsAlike(ps[1..]) && (ps[0].Param? ==> Readable(ps[0].name, Render(ps[1..], ":", ""))))
  }

  /** A name intake would cut at a colon. */
  predicate Constrained(name: string) {
    var n := NameEnd(name);
    0 < n < |name| && name[n] == ':'
  }

  predicate NoBraceNames(ps: seq<Piece>) {
    ps == [] || (NoBraceNames(ps[1..]) && (ps[0].Param? ==> '{' !in ps[0].name))
  }

  /** Neither in a name with a constraint nor behind one does a name hold a `{`. */
  predicate NoBraceBehindConstraint(ps: seq<Piece>) {
    ps == [] ||
    (NoBraceBehindConstraint(ps[1..]) && (ps[0].Param? && Constrained(ps[0].name) ==> NoBraceNames(ps)))
  }

  /** A name with no character of intake's syntax. Every identifier is one. */
  predicate SafeName(name: string) {
    name != "" && '/' !in name && ':' !in name && '{' !in name && '}' !in name
  }

  predicate SafeNames(ps: seq<Piece>) {
    ps == [] || ((ps[0].Param? ==> SafeName(ps[0].name)) && SafeNames(ps[1..]))
  }

  // ----- Pieces -----

  lemma CopiedRender(c: char, rest: seq<Piece>, open: string, close: string)
    ensures Render([Copied(c)] + rest, open, close) == [c] + Render(rest, open, close)
  {
    assert ([Copied(c)] + rest)[1..] == rest;
  }

  lemma {:induction false} CopiesRender(t: string, more: seq<Piece>, open: string, close: string)
    ensures Render(Copies(t) + more, open, close) == t + Render(more, open, close)
    decreases |t|
  {
    if t == "" {
      assert Copies(t) + more == more;
    } else {
      var c, rest := t[0], t[1..];
      assert t == [c] + rest;
      CopiesHead(c, rest, t, more);
      CopiedRender(c, Copies(rest) + more, open, close);
      CopiesRender(rest, more, open, close);
      Regroup([c], rest, Render(more, open, close));
    }
  }

  lemma CopiesParts(x: string, y: string, more: seq<Piece>)
    ensures Copies(x + y) + more == Copies(x) + (Copies(y) + more)
  {
    assert Copies(x + y) == Copies(x) + Copies(y);
    assert (Copies(x) + Copies(y)) + more == Copies(x) + (Copies(y) + more);
  }

  lemma ParamRender(name: string, after: seq<Piece>, open: string, close: string)
    ensures Render([Param(name)] + after, open, close) == open + (name + (close + Render(after, open, close)))
  {
    var r := Render(after, open, close);
    assert ([Param(name)] + after)[1..] == after;
    Regroup(open + name, close, r);
    Regroup(open, name, close + r);
  }

  lemma BracedParam(name: string, after: seq<Piece>)
    ensures Braced([Param(name)] + after) == IntakeNormalize(['{'] + (name + (['}'] + Render(after, "{", "}"))))
  {
    ParamRender(name, after, "{", "}");
  }

  lemma ColonParam(name: string, after: seq<Piece>)
    ensures Colon([Param(name)] + after) == [':'] + IntakeNormalize(name + Render(after, ":", ""))
  {
    ParamRender(name, after, ":", "");
    assert "" + Render(after, ":", "") == Render(after, ":", "");
    IntakeCopies(':', name + Render(after, ":", ""));
  }

  lemma CopiedStep(c: char, rest: seq<Piece>)
    requires c != '{'
    ensures Braced([Copied(c)] + rest) == [c] + Braced(rest)
    ensures Colon([Copied(c)] + rest) == [c] + Colon(rest)
  {
    CopiedRender(c, rest, "{", "}");
    CopiedRender(c, rest, ":", "");
    IntakeCopies(c, Render(rest, "{", "}"));
    IntakeCopies(c, Render(rest, ":", ""));
  }

  lemma {:induction false} LiteralAlike(ps: seq<Piece>)
    requires |Leading(ps)| == |ps|
    ensures BracesSettle(ps) && ReadsAlike(ps) && Render(ps, "{", "}") == Render(ps, ":", "")
    decreases |ps|
  {
    if ps != [] {
      LiteralAlike(ps[1..]);
    }
  }

  lemma {:induction false} LeadingCopies(t: string, more: seq<Piece>)
    requires more == [] || more[0].Param?
    ensures Leading(Copies(t) + more) == t
    decreases |t|
  {
    if t == "" {
      assert Copies(t) + more == more;
    } else {
      var c, rest := t[0], t[1..];
      assert t == [c] + rest;
      CopiesHead(c, rest, t, more);
      LeadingCopies(rest, more);
      assert ([Copied(c)] + (Copies(rest) + more))[1..] == Copies(rest) + more;
    }
  }

  /** A literal brace, the literal behind it, and what follows. */
  function Behind(t: string, more: seq<Piece>): seq<Piece> {
    [Copied('{')] + (Copies(t) + more)
  }

  lemma LeadingFront(ps: seq<Piece>) returns (t: string, more: seq<Piece>)
    ensures ps == Copies(t) + more && t == Leading(ps) && (more == [] || more[0].Param?)
  {
    t := Leading(ps);
    more := ps[|t|..];
  }

  lemma BraceFront(ps: seq<Piece>) returns (t: string, more: seq<Piece>)
    requires ps != [] && ps[0] == Copied('{')
    ensures ps == Behind(t, more) && (more == [] || more[0].Param?)
    ensures Leading(ps[1..]) == t && |ps| == 1 + |t| + |more|
    ensures more != [] ==> more == [Param(more[0].name)] + more[1..]
  {
    var rest := ps[1..];
    t, more := LeadingFront(rest);
    assert ps == [Copied('{')] + rest;
  }

  lemma BracesSettleAt(p: Piece, rest: seq<Piece>)
    ensures BracesSettle([p] + rest) <==> BracesSettle(rest) && !(p == Copied('{') && Reaches(rest))
  {
    assert ([p] + rest)[1..] == rest;
  }

  lemma NamesAt(p: Piece, rest: seq<Piece>)
    ensures ReadsAlike([p] + rest) <==> ReadsAlike(rest) && (p.Param? ==> Readable(p.name, Render(rest, ":", "")))
    ensures NoBraceNames([p] + rest) <==> NoBraceNames(rest) && (p.Param? ==> '{' !in p.name)
    ensures NoBraceBehindConstraint([p] + rest)
       <==> NoBraceBehindConstraint(rest) && (p.Param? && Constrained(p.name) ==> NoBraceNames([p] + rest))
    ensures SafeNames([p] + rest) <==> SafeNames(rest) && (p.Param? ==> SafeName(p.name))
  {
    assert ([p] + rest)[1..] == rest;
  }

  lemma {:induction false} LiteralKeepsNames(t: string, more: seq<Piece>)
    ensures ReadsAlike(Copies(t) + more) <==> ReadsAlike(more)
    ensures NoBraceNames(Copies(t) + more) <==> NoBraceNames(more)
    ensures NoBraceBehindConstraint(Copies(t) + more) <==> NoBraceBehindConstraint(more)
    ensures SafeNames(Copies(t) + more) <==> SafeNames(more)
    decreases |t|
  {
    if t == "" {
      assert Copies(t) + more == more;
    } else {
      var c, rest := t[0], t[1..];
      assert t == [c] + rest;
      CopiesHead(c, rest, t, more);
      LiteralKeepsNames(rest, more);
      NamesAt(Copied(c), Copies(rest) + more);
    }
  }

  // ----- A brace that settles -----

  lemma SettledMatch(t: string, r: string)
    requires Settles(t)
    ensures VariableAfter(t + r) == VariableAfter(t)
  {
    var n := NameEnd(t);
    NamePrefix(t, r);
    assert (t + r)[..n] == t[..n] && (t + r)[n] == t[n];
    if n > 0 && t[n] == ':' {
      assert forall i :: 0 <= i < |t| ==> (t + r)[i] == t[i];
      CloseFromIs(t + r, n + 1, CloseFrom(t, n + 1));
    }
  }

  lemma CloseSettles(t: string, i: nat)
    requires i < |t| && t[i] == '}'
    ensures Settles(t)
  {
  }

  /** What lies before a literal `}` reaches no parameter. */
  lemma {:induction false} SkippedSettles(x: string, y: string, more: seq<Piece>)
    requires more == [] || more[0].Param?
    ensures BracesSettle(Copies(x + (['}'] + y)) + more) <==> BracesSettle(Copies(y) + more)
    decreases |x|
  {
    if x == "" {
      assert x + (['}'] + y) == ['}'] + y;
      CopiesHead('}', y, x + (['}'] + y), more);
      BracesSettleAt(Copied('}'), Copies(y) + more);
    } else {
      var c, rest := x[0], x[1..];
      var t := rest + (['}'] + y);
      assert x == [c] + rest;
      Regroup([c], rest, ['}'] + y);
      CopiesHead(c, t, x + (['}'] + y), more);
      BracesSettleAt(Copied(c), Copies(t) + more);
      SkippedSettles(rest, y, more);
      LeadingCopies(t, more);
      CloseSettles(t, |rest|);
    }
  }

  lemma SettledUnread(t: string, more: seq<Piece>, open: string, close: string)
    requires Settles(t) && VariableAfter(t).None?
    ensures IntakeNormalize(Render(Behind(t, more), open, close))
         == ['{'] + IntakeNormalize(Render(Copies(t) + more, open, close))
  {
    var r := Render(more, open, close);
    CopiedRender('{', Copies(t) + more, open, close);
    CopiesRender(t, more, open, close);
    SettledMatch(t, r);
    IntakeUnread(t + r);
  }

  lemma SettledRead(t: string, x: string, k: nat, rest: string, more: seq<Piece>, open: string, close: string)
    requires Settles(t) && VariableAfter(t) == Some(Match(x, k)) && rest == t[k..]
    ensures IntakeNormalize(Render(Behind(t, more), open, close))
         == [':'] + (x + IntakeNormalize(Render(Copies(rest) + more, open, close)))
  {
    var r := Render(more, open, close);
    CopiedRender('{', Copies(t) + more, open, close);
    CopiesRender(t, more, open, close);
    CopiesRender(rest, more, open, close);
    SettledText(t, x, k, rest, r);
  }

  lemma SettledText(t: string, x: string, k: nat, rest: string, r: string)
    requires Settles(t) && VariableAfter(t) == Some(Match(x, k)) && rest == t[k..]
    ensures IntakeNormalize(['{'] + (t + r)) == [':'] + (x + IntakeNormalize(rest + r))
  {
    SettledMatch(t, r);
    assert (t + r)[k..] == rest + r;
    IntakeRead(t + r, x, k, rest + r);
  }

  lemma SettledRest(t: string, k: nat, more: seq<Piece>)
    requires more == [] || more[0].Param?
    requires Settles(t) && VariableAfter(t).Some? && VariableAfter(t).value.length == k
    ensures BracesSettle(Behind(t, more)) <==> BracesSettle(Copies(t[k..]) + more)
  {
    MatchEnds(t);
    assert t == t[..k - 1] + (['}'] + t[k..]);
    SkippedSettles(t[..k - 1], t[k..], more);
    LeadingCopies(t, more);
    BracesSettleAt(Copied('{'), Copies(t) + more);
  }

  lemma BehindKeepsNames(t: string, rest: string, more: seq<Piece>)
    ensures ReadsAlike(Behind(t, more)) <==> ReadsAlike(Copies(rest) + more)
    ensures NoBraceNames(Behind(t, more)) <==> NoBraceNames(Copies(rest) + more)
    ensures NoBraceBehindConstraint(Behind(t, more)) <==> NoBraceBehindConstraint(Copies(rest) + more)
    ensures SafeNames(Behind(t, more)) <==> SafeNames(Copies(rest) + more)
  {
    NamesAt(Copied('{'), Copies(t) + more);
    LiteralKeepsNames(t, more);
    LiteralKeepsNames(rest, more);
  }

  lemma SettledUnreadStep(t: string, more: seq<Piece>)
    requires Settles(t) && VariableAfter(t).None? && (more == [] || more[0].Param?)
    ensures Braced(Behind(t, more)) == ['{'] + Braced(Copies(t) + more)
    ensures Colon(Behind(t, more)) == ['{'] + Colon(Copies(t) + more)
    ensures BracesSettle(Behind(t, more)) <==> BracesSettle(Copies(t) + more)
  {
    SettledUnread(t, more, "{", "}");
    SettledUnread(t, more, ":", "");
    LeadingCopies(t, more);
    BracesSettleAt(Copied('{'), Copies(t) + more);
  }

  lemma SettledReadStep(t: string, x: string, k: nat, rest: string, more: seq<Piece>)
    requires Settles(t) && VariableAfter(t) == Some(Match(x, k)) && rest == t[k..]
    requires more == [] || more[0].Param?
    ensures Braced(Behind(t, more)) == ([':'] + x) + Braced(Copies(rest) + more)
    ensures Colon(Behind(t, more)) == ([':'] + x) + Colon(Copies(rest) + more)
    ensures BracesSettle(Behind(t, more)) <==> BracesSettle(Copies(rest) + more)
  {
    SettledRead(t, x, k, rest, more, "{", "}");
    SettledRead(t, x, k, rest, more, ":", "");
    Regroup([':'], x, Braced(Copies(rest) + more));
    Regroup([':'], x, Colon(Copies(rest) + more));
    SettledRest(t, k, more);
  }

  /** A brace that settles is read alike in both spellings: up to the literal `rest` it comes to
      `read`, and no brace in between reaches into a parameter. */
  lemma SettledStep(t: string, more: seq<Piece>) returns (read: string, rest: string)
    requires Settles(t) && (more == [] || more[0].Param?)
    ensures |rest| <= |t| && rest == t[|t| - |rest|..]
    ensures Braced(Behind(t, more)) == read + Braced(Copies(rest) + more)
    ensures Colon(Behind(t, more)) == read + Colon(Copies(rest) + more)
    ensures BracesSettle(Behind(t, more)) <==> BracesSettle(Copies(rest) + more)
  {
    var m := VariableAfter(t);
    if m.None? {
      read, rest := ['{'], t;
      SettledUnreadStep(t, more);
    } else {
      read, rest := [':'] + m.value.name, t[m.value.length..];
      SettledReadStep(t, m.value.name, m.value.length, rest, more);
    }
  }

  // ----- Literals and safe names -----

  lemma SafeIsWhole(name: string)
    requires SafeName(name)
    ensures WholeName(name)
  {
    NameEndIs(name, |name|);
  }

  lemma LiteralStep(t: string, more: seq<Piece>)
    requires '{' !in t
    ensures Braced(Copies(t) + more) == t + Braced(more)
    ensures Colon(Copies(t) + more) == t + Colon(more)
  {
    CopiesRender(t, more, "{", "}");
    CopiesRender(t, more, ":", "");
    IntakeCopiesAll(t, Render(more, "{", "}"));
    IntakeCopiesAll(t, Render(more, ":", ""));
  }

  lemma LiteralAlone(t: string)
    requires '{' !in t
    ensures Braced(Copies(t)) == t == Colon(Copies(t))
  {
    LiteralStep(t, []);
    assert Copies(t) + [] == Copies(t) && t + "" == t;
  }

  lemma ColonStep(name: string, after: seq<Piece>)
    requires '{' !in name
    ensures Colon([Param(name)] + after) == [':'] + (name + Colon(after))
  {
    ColonParam(name, after);
    IntakeCopiesAll(name, Render(after, ":", ""));
  }

  lemma SafeStep(name: string, after: seq<Piece>)
    requires SafeName(name)
    ensures Braced([Param(name)] + after) == [':'] + (name + Braced(after))
    ensures Colon([Param(name)] + after) == [':'] + (name + Colon(after))
  {
    SafeIsWhole(name);
    BracedParam(name, after);
    ClosedVariable(name, Render(after, "{", "}"));
    ColonStep(name, after);
  }

  // ----- The paths themselves -----

  lemma PathsUnderIntake(p: string)
    ensures IntakeNormalize(NormalizeRoutePattern(p)) == ['/'] + Braced(Pieces(StripSlashes(p)))
    ensures IntakeNormalize(DjangoPath(p)) == ['/'] + Colon(Pieces(StripSlashes(p)))
  {
    var ps := Pieces(StripSlashes(p));
    SamePieces(p);
    IntakeCopies('/', Render(ps, "{", "}"));
    IntakeCopies('/', Render(ps, ":", ""));
  }
}
