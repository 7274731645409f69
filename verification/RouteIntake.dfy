/**
 * The normalizer intake applies to every path it is sent: `\{([^/}:]+)(?::[^}]*)?\}` becomes `:\1`.
 * What the expression does behind one `{`, and what the whole pass makes of text with and without
 * the expression's own characters.
 */
module RouteIntake {
  import opened Options
  import opened RoutePath

  predicate EndsName(c: char) { c == '/' || c == '}' || c == ':' }

  /** Where the name that begins the text ends. */
  function NameEnd(s: string): (n: nat)
    ensures n <= |s|
    ensures forall i :: 0 <= i < n ==> !EndsName(s[i])
    ensures n < |s| ==> EndsName(s[n])
  {
    if s == "" || EndsName(s[0]) then 0 else 1 + NameEnd(s[1..])
  }

  /** Where the next `}` stands at or after `from`, or |s|. */
  function CloseFrom(s: string, from: nat): (n: nat)
    requires from <= |s|
    ensures from <= n <= |s|
    ensures forall i :: from <= i < n ==> s[i] != '}'
    ensures n < |s| ==> s[n] == '}'
    decreases |s| - from
  {
    if from == |s| || s[from] == '}' then from else CloseFrom(s, from + 1)
  }

  /** Match the rest of a path variable after its `{`. */
  function VariableAfter(s: string): (r: Option<Match>)
    ensures r.Some? ==> r.value.length <= |s|
  {
    var n := NameEnd(s);
    if n == 0 || n == |s| || s[n] == '/' then None
    else
      var close := if s[n] == '}' then n else CloseFrom(s, n + 1);
      if close == |s| then None else Some(Match(s[..n], close + 1))
  }

  function IntakeNormalize(s: string): string {
    if s == "" then ""
    else
      var rest := s[1..];
      if s[0] == '{' && VariableAfter(rest).Some? then
        var m := VariableAfter(rest).value;
        [':'] + (m.name + IntakeNormalize(rest[m.length..]))
      else [s[0]] + IntakeNormalize(rest)
  }

  // ----- Strings in two parts -----

  lemma Regroup(a: string, b: string, c: string)
    ensures (a + b) + c == a + (b + c)
  {
  }

  /** Equal prefixes of equal length leave equal rests. */
  lemma SameRest(a: string, x: string, y: string)
    ensures a + x == a + y <==> x == y
  {
    assert (a + x)[|a|..] == x && (a + y)[|a|..] == y;
  }

  lemma HeadsDiffer(c: char, x: string, d: char, y: string)
    requires c != d
    ensures [c] + x != [d] + y
  {
    assert ([c] + x)[0] == c;
  }

  lemma NothingInFront(s: string)
    ensures "" + s == s
  {
  }

  /** Of two prefixes of one text the longer begins with the shorter. */
  lemma LongerPrefix(a: string, x: string, b: string, y: string)
    requires a + x == b + y && |a| <= |b|
    ensures x == b[|a|..] + y
  {
    assert (a + x)[|a|..] == x;
    assert (b + y)[|a|..] == b[|a|..] + y;
  }

  // ----- One variable -----

  /** A match ends with the first `}`. */
  lemma MatchEnds(s: string)
    requires VariableAfter(s).Some?
    ensures var m := VariableAfter(s).value.length;
      1 <= m <= |s| && s[m - 1] == '}' && forall i :: 0 <= i < m - 1 ==> s[i] != '}'
  {
  }

  lemma NameEndIs(s: string, n: nat)
    requires n <= |s| && forall i :: 0 <= i < n ==> !EndsName(s[i])
    requires n < |s| ==> EndsName(s[n])
    ensures NameEnd(s) == n
  {
  }

  lemma CloseFromIs(s: string, from: nat, n: nat)
    requires from <= n <= |s| && forall i :: from <= i < n ==> s[i] != '}'
    requires n < |s| ==> s[n] == '}'
    ensures CloseFrom(s, from) == n
  {
  }

  lemma NamePrefix(t: string, r: string)
    requires NameEnd(t) < |t|
    ensures NameEnd(t + r) == NameEnd(t)
  {
    assert forall i :: 0 <= i < |t| ==> (t + r)[i] == t[i];
    NameEndIs(t + r, NameEnd(t));
  }

  /** A name with nothing of intake's syntax in it. */
  predicate WholeName(x: string) {
    x != "" && NameEnd(x) == |x|
  }

  lemma NamePart(name: string, x: string)
    requires x == name[..NameEnd(name)]
    ensures NameEnd(x) == |x|
  {
    NameEndIs(x, |x|);
  }

  lemma NamesJoin(x: string, y: string)
    requires NameEnd(x) == |x| && NameEnd(y) == |y|
    ensures NameEnd(x + y) == |x + y|
  {
    NameEndIs(x + y, |x + y|);
  }

  lemma BraceJoins(y: string)
    requires NameEnd(y) == |y|
    ensures WholeName(['{'] + y)
  {
    NameEndIs(['{'], 1);
    NamesJoin(['{'], y);
  }

  lemma NameGoesOn(x: string, c: char, y: string, s: string)
    requires NameEnd(x) == |x| && EndsName(c) && s == x + ([c] + y)
    ensures NameEnd(s) == |x| && s[..|x|] == x && s[|x|] == c
  {
    assert forall i :: 0 <= i < |x| ==> s[i] == x[i];
    NameEndIs(s, |x|);
  }

  lemma BehindClose(a: string, y: string, s: string, k: nat)
    requires s == a + (['}'] + y) && k == |a| + 1
    ensures k <= |s| && s[k..] == y
  {
  }

  /** A name and the `}` behind it. */
  lemma ClosedMatch(x: string, y: string, s: string, k: nat)
    requires WholeName(x) && s == x + (['}'] + y) && k == |x| + 1
    ensures VariableAfter(s) == Some(Match(x, k)) && s[k..] == y
  {
    NameGoesOn(x, '}', y, s);
  }

  /** A slash before any `}` or `:`. */
  lemma SlashStops(x: string, y: string, s: string)
    requires NameEnd(x) == |x| && s == x + (['/'] + y)
    ensures VariableAfter(s) == None
  {
    NameGoesOn(x, '/', y, s);
  }

  /** No name at all. */
  lemma NoName(s: string)
    requires s != "" && EndsName(s[0])
    ensures VariableAfter(s) == None
  {
    NameEndIs(s, 0);
  }

  lemma NoCloseBefore(a: string, from: nat, y: string, s: string)
    requires from <= |a| && '}' !in a[from..] && s == a + y && (y == "" || y[0] == '}')
    ensures CloseFrom(s, from) == |a|
  {
    assert forall i :: from <= i < |a| ==> s[i] == a[from..][i - from];
    CloseFromIs(s, from, |a|);
  }

  /** A name, a colon and a constraint: the match ends with the first `}`, or fails without one. */
  lemma ConstraintMatch(x: string, c: string, a: string, y: string, s: string)
    requires WholeName(x) && '}' !in c && a == x + ([':'] + c) && s == a + y && (y == "" || y[0] == '}')
    ensures VariableAfter(s) == if y == "" then None else Some(Match(x, |a| + 1))
  {
    NameGoesOn(x, ':', c, a);
    NamePrefix(a, y);
    assert s[|x|] == ':' && s[..|x|] == a[..|x|] == x;
    assert a[|x| + 1..] == c;
    NoCloseBefore(a, |x| + 1, y, s);
  }

  // ----- The whole pass -----

  lemma IntakeCopies(c: char, s: string)
    requires c != '{'
    ensures IntakeNormalize([c] + s) == [c] + IntakeNormalize(s)
  {
    assert ([c] + s)[1..] == s;
  }

  lemma {:induction false} IntakeCopiesAll(x: string, s: string)
    requires '{' !in x
    ensures IntakeNormalize(x + s) == x + IntakeNormalize(s)
    decreases |x|
  {
    if x == "" {
      assert x + s == s;
    } else {
      var c, more := x[0], x[1..];
      assert x == [c] + more && x + s == [c] + (more + s);
      IntakeCopies(c, more + s);
      IntakeCopiesAll(more, s);
      Regroup([c], more, IntakeNormalize(s));
    }
  }

  lemma IntakePlain(s: string)
    requires '{' !in s
    ensures IntakeNormalize(s) == s
  {
    IntakeCopiesAll(s, "");
    assert s + "" == s;
  }

  lemma IntakeUnread(s: string)
    requires VariableAfter(s).None?
    ensures IntakeNormalize(['{'] + s) == ['{'] + IntakeNormalize(s)
  {
    assert (['{'] + s)[1..] == s;
  }

  lemma IntakeRead(s: string, x: string, k: nat, y: string)
    requires VariableAfter(s) == Some(Match(x, k)) && s[k..] == y
    ensures IntakeNormalize(['{'] + s) == [':'] + (x + IntakeNormalize(y))
  {
    assert (['{'] + s)[1..] == s;
  }

  /** What begins with a brace that is read begins with a colon. */
  lemma IntakeReadHead(s: string)
    requires VariableAfter(s).Some?
    ensures var out := IntakeNormalize(['{'] + s); out != "" && out[0] == ':'
  {
    var m := VariableAfter(s).value;
    IntakeRead(s, m.name, m.length, s[m.length..]);
  }

  lemma ClosedVariable(x: string, y: string)
    requires WholeName(x)
    ensures IntakeNormalize(['{'] + (x + (['}'] + y))) == [':'] + (x + IntakeNormalize(y))
  {
    var s := x + (['}'] + y);
    ClosedMatch(x, y, s, |x| + 1);
    IntakeRead(s, x, |x| + 1, y);
  }

  lemma ConstrainedVariable(x: string, c: string, y: string)
    requires WholeName(x) && '}' !in c
    ensures IntakeNormalize(['{'] + ((x + ([':'] + c)) + (['}'] + y))) == [':'] + (x + IntakeNormalize(y))
  {
    var a := x + ([':'] + c);
    var s := a + (['}'] + y);
    ConstraintMatch(x, c, a, ['}'] + y, s);
    BehindClose(a, y, s, |a| + 1);
    IntakeRead(s, x, |a| + 1, y);
  }

  /** Braces with a slash before any `}` or `:` stay as they are. */
  lemma {:induction false} StoppedCopies(x: string, y: string)
    requires NameEnd(x) == |x|
    ensures IntakeNormalize(x + (['/'] + y)) == x + (['/'] + IntakeNormalize(y))
    decreases |x|
  {
    if x == "" {
      IntakeCopies('/', y);
      assert x + (['/'] + y) == ['/'] + y;
    } else {
      var c, more := x[0], x[1..];
      var s := more + (['/'] + y);
      assert x == [c] + more && NameEnd(more) == |more|;
      Regroup([c], more, ['/'] + y);
      StoppedCopies(more, y);
      SlashStops(more, y, s);
      if c == '{' {
        IntakeUnread(s);
      } else {
        IntakeCopies(c, s);
      }
      Regroup([c], more, ['/'] + IntakeNormalize(y));
    }
  }

  lemma NoCloseUnread(s: string)
    requires '}' !in s
    ensures VariableAfter(s).None?
  {
    if VariableAfter(s).Some? {
      MatchEnds(s);
    }
  }

  lemma {:induction false} NoCloseUntouched(s: string)
    requires '}' !in s
    ensures IntakeNormalize(s) == s
  {
    if s != "" {
      var c, more := s[0], s[1..];
      assert s == [c] + more;
      NoCloseUntouched(more);
      if c == '{' {
        NoCloseUnread(more);
        IntakeUnread(more);
      } else {
        IntakeCopies(c, more);
      }
    }
  }

  /** Intake starts afresh behind every `}`. */
  lemma {:induction false} FreshAfterClose(x: string, y: string)
    ensures |IntakeNormalize(x + (['}'] + y))| >= 1 + |IntakeNormalize(y)|
    decreases |x|
  {
    if x == "" {
      assert x + (['}'] + y) == ['}'] + y;
      IntakeCopies('}', y);
    } else {
      var c, more := x[0], x[1..];
      var s := more + (['}'] + y);
      assert x == [c] + more;
      Regroup([c], more, ['}'] + y);
      if c == '{' && VariableAfter(s).Some? {
        var m := VariableAfter(s).value;
        MatchWithin(more, y, s, m);
        if m.length <= |more| {
          FreshAfterClose(more[m.length..], y);
        }
        IntakeRead(s, m.name, m.length, s[m.length..]);
      } else {
        FreshAfterClose(more, y);
        if c == '{' {
          IntakeUnread(s);
        } else {
          IntakeCopies(c, s);
        }
      }
    }
  }

  lemma MatchWithin(x: string, y: string, s: string, m: Match)
    requires s == x + (['}'] + y) && VariableAfter(s) == Some(m)
    ensures m.length <= |x| + 1
    ensures m.length <= |x| ==> s[m.length..] == x[m.length..] + (['}'] + y)
    ensures m.length == |x| + 1 ==> s[m.length..] == y
  {
    MatchEnds(s);
    assert s[|x|] == '}';
  }

  // ----- Text that is or is not copied -----

  /** No `{` of `x` is read as a variable when `after` comes behind it. */
  predicate Quiet(x: string, after: string) {
    x == "" || (Quiet(x[1..], after) && (x[0] == '{' ==> VariableAfter(x[1..] + after).None?))
  }

  lemma {:induction false} BraceFreeIsQuiet(x: string, after: string)
    requires '{' !in x
    ensures Quiet(x, after)
  {
    if x != "" {
      BraceFreeIsQuiet(x[1..], after);
    }
  }

  lemma {:induction false} QuietCopies(x: string, after: string)
    requires Quiet(x, after)
    ensures IntakeNormalize(x + after) == x + IntakeNormalize(after)
    decreases |x|
  {
    if x == "" {
      assert x + after == after;
    } else {
      var c, more := x[0], x[1..];
      assert x == [c] + more;
      Regroup([c], more, after);
      QuietCopies(more, after);
      if c == '{' {
        IntakeUnread(more + after);
      } else {
        IntakeCopies(c, more + after);
      }
      Regroup([c], more, IntakeNormalize(after));
    }
  }

  /** Where one is read, the text comes out changed, whatever follows. */
  lemma {:induction false} LoudChanges(x: string, after: string, y: string)
    requires !Quiet(x, after)
    ensures IntakeNormalize(x + after) != x + y
    decreases |x|
  {
    var c, more := x[0], x[1..];
    assert x == [c] + more;
    Regroup([c], more, after);
    Regroup([c], more, y);
    if c == '{' && VariableAfter(more + after).Some? {
      IntakeReadHead(more + after);
    } else {
      LoudChanges(more, after, y);
      SameRest([c], IntakeNormalize(more + after), more + y);
      if c == '{' {
        IntakeUnread(more + after);
      } else {
        IntakeCopies(c, more + after);
      }
    }
  }

  lemma CopiedExactly(x: string, after: string, y: string)
    ensures IntakeNormalize(x + after) == x + y <==> Quiet(x, after) && IntakeNormalize(after) == y
  {
    if Quiet(x, after) {
      QuietCopies(x, after);
      SameRest(x, IntakeNormalize(after), y);
    } else {
      LoudChanges(x, after, y);
    }
  }
}
