/** What an operator relies on when writing path rules: which positions change, that masking
    again changes nothing, that the order of rules is irrelevant, and how often a regular
    expression reaches each string. */
module MaskingLaws {
  import opened Options
  import opened JsonValues
  import opened MaskingTransform

  // ---- Position by position ----

  /** A node without its children: a scalar, or a container with its keys or its length. */
  function Skeleton(v: Json): Json {
    Rebuild(v, seq(Size(v), _ => Null))
  }

  function SkeletonAt(v: Json, p: Path): Option<Json> {
    match Locate(v, p)
    case Some(x) => Some(Skeleton(x))
    case None => None
  }

  ghost predicate SelectedAbove(tokens: seq<Token>, p: Path) {
    exists k :: 0 <= k < |p| && Matches(tokens, p[..k])
  }

  /** Path-only masking: the outermost selected positions hold the replacement afterwards,
      and every node that is neither selected nor inside a selected one is what it was. */
  lemma MaskReplacesOutermost(v: Json, tokens: seq<Token>, repl: string, p: Path)
    requires WellFormed(v)
    ensures var out := Transform(v, tokens, _ => Str(repl));
      && (Matches(tokens, p) && !SelectedAbove(tokens, p) && Locate(v, p).Some? ==>
            Locate(out, p) == Some(Str(repl)))
      && (!Matches(tokens, p) && !SelectedAbove(tokens, p) ==>
            SkeletonAt(out, p) == SkeletonAt(v, p))
  {
    TransformIsReplace(v, tokens, _ => Str(repl), Str(repl));
    if !SelectedAbove(tokens, p) {
      ReplaceAt(v, Selected(tokens), Str(repl), p);
    }
  }

  /** No selected position keeps its value: it lies at or under a replacement. */
  lemma {:induction false} NothingSelectedSurvives(v: Json, tokens: seq<Token>, repl: string, p: Path)
    requires WellFormed(v) && Matches(tokens, p) && Locate(v, p).Some?
    ensures exists k :: (0 <= k <= |p| &&
                          Locate(Transform(v, tokens, _ => Str(repl)), p[..k]) == Some(Str(repl)))
    decreases |p|
  {
    var k := FirstSelected(tokens, p, 0);
    var q := p[..k];
    LocatePrefix(v, p, k);
    forall j | 0 <= j < |q| ensures !Matches(tokens, q[..j]) {
      assert q[..j] == p[..j];
    }
    MaskReplacesOutermost(v, tokens, repl, q);
  }

  lemma {:induction false} FirstSelected(tokens: seq<Token>, p: Path, from: nat) returns (k: nat)
    requires from <= |p| && Matches(tokens, p)
    requires forall j :: 0 <= j < from ==> !Matches(tokens, p[..j])
    ensures k <= |p| && Matches(tokens, p[..k])
    ensures forall j :: 0 <= j < k ==> !Matches(tokens, p[..j])
    decreases |p| - from
  {
    if Matches(tokens, p[..from]) {
      k := from;
    } else {
      assert p[..|p|] == p;
      k := FirstSelected(tokens, p, from + 1);
    }
  }

  lemma {:induction false} LocatePrefix(v: Json, p: Path, k: nat)
    requires k <= |p| && Locate(v, p).Some?
    ensures Locate(v, p[..k]).Some?
    decreases k
  {
    if k > 0 {
      LocatePrefix(Kid(v, KidIndex(v, p[0])), p[1..], k - 1);
      assert p[..k][1..] == p[1..][..k - 1];
    }
  }

  lemma {:induction false} ReplaceAt(v: Json, sel: Selection, mask: Json, p: Path)
    requires WellFormed(v) && Size(mask) == 0
    requires forall k :: 0 <= k < |p| ==> !sel(p[..k])
    ensures sel(p) && Locate(v, p).Some? ==> Locate(Replace(v, sel, mask), p) == Some(mask)
    ensures !sel(p) ==> SkeletonAt(Replace(v, sel, mask), p) == SkeletonAt(v, p)
    decreases |p|
  {
    var out := Replace(v, sel, mask);
    if p == [] {
      if !sel([]) {
        RebuildTwice(v, ReplaceKids(v, sel, mask), seq(Size(v), _ => Null));
      }
    } else {
      assert !sel(p[..0]) && p[..0] == [];
      var kids := ReplaceKids(v, sel, mask);
      assert out == Rebuild(v, kids);
      RebuildKidIndex(v, kids, p[0]);
      var i := KidIndex(v, p[0]);
      if i < Size(v) {
        var below := Below(sel, p[0]);
        assert Kid(out, i) == kids[i] == Replace(Kid(v, i), below, mask);
        forall k | 0 <= k < |p[1..]| ensures !below(p[1..][..k]) {
          assert [p[0]] + p[1..][..k] == p[..k + 1];
        }
        assert [p[0]] + p[1..] == p;
        ReplaceAt(Kid(v, i), below, mask, p[1..]);
      }
    }
  }

  lemma RebuildKidIndex(v: Json, kids: seq<Json>, s: Step)
    requires |kids| == Size(v)
    ensures KidIndex(Rebuild(v, kids), s) == KidIndex(v, s)
  {
    if v.Obj? && s.Key? {
      var i, j := KidIndex(Rebuild(v, kids), s), KidIndex(v, s);
      assert forall n :: 0 <= n < Size(v) ==> Rebuild(v, kids).members[n].key == v.members[n].key;
    }
  }

  /** Recursive descent spelled out: some step of the path goes through `key`, whatever lies
      above it, and the remaining tokens match what is left. */
  lemma {:induction false} DescendantMatches(key: string, rest: seq<Token>, p: Path)
    ensures Matches([Descendant(key)] + rest, p) <==>
      exists i :: 0 <= i < |p| && p[i] == Key(key) && Matches(rest, p[i + 1..])
    decreases |p|
  {
    var tokens := [Descendant(key)] + rest;
    assert tokens[1..] == rest;
    if p != [] {
      DescendantMatches(key, rest, p[1..]);
      assert forall i :: 0 <= i < |p| - 1 ==> p[1..][i] == p[i + 1] && p[1..][i + 1..] == p[i + 2..];
      if Matches(tokens, p) && Matches(tokens, p[1..]) {
        var i :| 0 <= i < |p| - 1 && p[1..][i] == Key(key) && Matches(rest, p[1..][i + 1..]);
        assert p[i + 1] == Key(key) && Matches(rest, p[i + 2..]);
      }
      if i :| 0 <= i < |p| && p[i] == Key(key) && Matches(rest, p[i + 1..]) {
        if i > 0 {
          assert p[1..][i - 1] == Key(key) && p[1..][i - 1 + 1..] == p[i + 1..];
        }
      }
    }
  }

  /** Every outermost selected position of the value already holds the replacement. */
  ghost predicate Idle(v: Json, tokens: seq<Token>, repl: string) {
    forall p :: Matches(tokens, p) && !SelectedAbove(tokens, p) && Locate(v, p).Some? ==> Locate(v, p) == Some(Str(repl))
  }

  /** Path-only masking leaves a value alone exactly when there was nothing left to mask. */
  lemma MaskIsIdle(v: Json, tokens: seq<Token>, repl: string)
    requires WellFormed(v)
    ensures Transform(v, tokens, _ => Str(repl)) == v <==> Idle(v, tokens, repl)
  {
    var sel, mask := Selected(tokens), Str(repl);
    TransformIsReplace(v, tokens, _ => mask, mask);
    if Idle(v, tokens, repl) {
      ReplaceIdle(v, sel, mask);
    }
    if Transform(v, tokens, _ => mask) == v {
      forall p | Matches(tokens, p) && !SelectedAbove(tokens, p) && Locate(v, p).Some?
        ensures Locate(v, p) == Some(Str(repl))
      {
        MaskReplacesOutermost(v, tokens, repl, p);
      }
    }
  }

  ghost predicate Above(sel: Selection, p: Path) {
    exists k :: 0 <= k < |p| && sel(p[..k])
  }

  lemma {:induction false} ReplaceIdle(v: Json, sel: Selection, mask: Json)
    requires WellFormed(v)
    requires forall p :: sel(p) && !Above(sel, p) && Locate(v, p).Some? ==> Locate(v, p) == Some(mask)
    ensures Replace(v, sel, mask) == v
    decreases v
  {
    if sel([]) {
      assert Locate(v, []) == Some(v);
    } else {
      forall i | 0 <= i < Size(v) ensures ReplaceKids(v, sel, mask)[i] == Kid(v, i) {
        var s := StepTo(v, i);
        OnlyKid(v, i);
        forall p | Below(sel, s)(p) && !Above(Below(sel, s), p) && Locate(Kid(v, i), p).Some?
          ensures Locate(Kid(v, i), p) == Some(mask)
        {
          var q := [s] + p;
          assert q[1..] == p;
          forall k | 0 <= k < |q| ensures !sel(q[..k]) {
            if k > 0 {
              assert q[..k] == [s] + p[..k - 1];
              assert !Below(sel, s)(p[..k - 1]);
            } else {
              assert q[..0] == [];
            }
          }
        }
        ReplaceIdle(Kid(v, i), Below(sel, s), mask);
      }
      assert ReplaceKids(v, sel, mask) == Kids(v);
      RebuildSame(v);
    }
  }

  /** With distinct keys, the step to a child leads to that child. */
  lemma OnlyKid(v: Json, i: nat)
    requires WellFormed(v) && i < Size(v)
    ensures KidIndex(v, StepTo(v, i)) == i
  {
  }

  // ---- Several rules ----

  /** Path-only rules with one replacement, applied one after the other. */
  function MaskAll(v: Json, paths: seq<seq<Token>>, repl: string): Json
    decreases |paths|
  {
    if paths == [] then v
    else MaskAll(Transform(v, paths[0], _ => Str(repl)), paths[1..], repl)
  }

  ghost function AnyOf(paths: set<seq<Token>>): Selection {
    p => exists t :: t in paths && Matches(t, p)
  }

  ghost function Members(paths: seq<seq<Token>>): set<seq<Token>> {
    set t | t in paths
  }

  /** Applying the rules in turn selects on the original what any one of them selects there. */
  lemma {:induction false} MaskAllIsReplace(v: Json, paths: seq<seq<Token>>, repl: string)
    requires WellFormed(v)
    ensures MaskAll(v, paths, repl) == Replace(v, AnyOf(Members(paths)), Str(repl))
    decreases |paths|
  {
    var mask := Str(repl);
    if paths == [] {
      ReplaceNothing(v, AnyOf(Members(paths)), mask);
    } else {
      var first, rest := Selected(paths[0]), AnyOf(Members(paths[1..]));
      TransformIsReplace(v, paths[0], _ => mask, mask);
      ReplaceWellFormed(v, first, mask);
      MaskAllIsReplace(Replace(v, first, mask), paths[1..], repl);
      ReplaceTwice(v, first, rest, mask);
      assert Members(paths) == {paths[0]} + Members(paths[1..]);
      ReplaceCongruence(v, Either(first, rest), AnyOf(Members(paths)), mask);
    }
  }

  /** Neither the order of such rules nor repeating one makes a difference. */
  lemma RuleOrderIrrelevant(v: Json, one: seq<seq<Token>>, other: seq<seq<Token>>, repl: string)
    requires WellFormed(v)
    requires forall t :: t in one <==> t in other
    ensures MaskAll(v, one, repl) == MaskAll(v, other, repl)
  {
    MaskAllIsReplace(v, one, repl);
    MaskAllIsReplace(v, other, repl);
    assert Members(one) == Members(other);
  }

  lemma MaskTwiceIsMaskOnce(v: Json, tokens: seq<Token>, repl: string)
    requires WellFormed(v)
    ensures var once := Transform(v, tokens, _ => Str(repl));
      WellFormed(once) && Transform(once, tokens, _ => Str(repl)) == once
  {
    var sel, mask := Selected(tokens), Str(repl);
    TransformIsReplace(v, tokens, _ => mask, mask);
    var once := Replace(v, sel, mask);
    ReplaceWellFormed(v, sel, mask);
    TransformIsReplace(once, tokens, _ => mask, mask);
    ReplaceTwice(v, sel, sel, mask);
    ReplaceCongruence(v, Either(sel, sel), sel, mask);
  }

  // ---- Rewriting string leaves below the selected positions ----

  /** `f` on every string of the tree. */
  function MapStrings(v: Json, f: string -> string): Json
    decreases v
  {
    if v.Str? then Str(f(v.s))
    else Rebuild(v, seq(Size(v), i requires 0 <= i < Size(v) => MapStrings(Kid(v, i), f)))
  }

  function Iterate(f: string -> string, n: nat, s: string): string {
    if n == 0 then s else Iterate(f, n - 1, f(s))
  }

  /** The string at position p rewritten times(p) times; nothing else changed. */
  ghost function Rewrite(v: Json, times: Path -> nat, f: string -> string): Json
    decreases v
  {
    if v.Str? then Str(Iterate(f, times([]), v.s))
    else Rebuild(v, RewriteKids(v, times, f))
  }

  ghost function RewriteKids(v: Json, times: Path -> nat, f: string -> string): (ks: seq<Json>)
    decreases v, 0
    ensures |ks| == Size(v)
  {
    seq(Size(v), i requires 0 <= i < Size(v) => Rewrite(Kid(v, i), Below(times, StepTo(v, i)), f))
  }

  /** In how many ways the tokens lead to p or to something above it. */
  function Ways(tokens: seq<Token>, p: Path): nat
    decreases |p|
  {
    if tokens == [] then 1
    else if p == [] then 0
    else
      var rest := tokens[1..];
      match tokens[0]
      case Child(name) => if p[0] == Key(name) then Ways(rest, p[1..]) else 0
      case Index(n) => if p[0] == At(n) then Ways(rest, p[1..]) else 0
      case Wildcard => Ways(rest, p[1..])
      case Descendant(name) =>
        Ways(tokens, p[1..]) + (if p[0] == Key(name) then Ways(rest, p[1..]) else 0)
  }

  function WaysOf(tokens: seq<Token>): Path -> nat {
    p => Ways(tokens, p)
  }

  function Sum(a: Path -> nat, b: Path -> nat): Path -> nat {
    p => a(p) + b(p)
  }

  /** A string is reached at all exactly when it, or something it lies in, is selected. */
  lemma {:induction false} ReachedWhenSelected(tokens: seq<Token>, p: Path)
    ensures Ways(tokens, p) > 0 <==> Matches(tokens, p) || SelectedAbove(tokens, p)
    decreases |p|
  {
    if tokens == [] {
      if p != [] {
        assert p[..0] == [] && Matches(tokens, p[..0]);
      }
    } else if p != [] {
      var rest := tokens[1..];
      ReachedWhenSelected(tokens, p[1..]);
      ReachedWhenSelected(rest, p[1..]);
      assert forall k :: 0 <= k < |p| - 1 ==> p[1..][..k] == p[..k + 1][1..];
      forall k | 0 <= k < |p| && Matches(tokens, p[..k])
        ensures Ways(tokens, p) > 0
      {
        assert k > 0 && p[..k][1..] == p[1..][..k - 1];
      }
      if Ways(tokens, p) > 0 {
        AnswerBelow(tokens, p);
      }
    }
  }

  lemma AnswerBelow(tokens: seq<Token>, p: Path)
    requires tokens != [] && p != [] && Ways(tokens, p) > 0
    requires Ways(tokens, p[1..]) > 0 <==> Matches(tokens, p[1..]) || SelectedAbove(tokens, p[1..])
    requires Ways(tokens[1..], p[1..]) > 0 <==> Matches(tokens[1..], p[1..]) || SelectedAbove(tokens[1..], p[1..])
    ensures Matches(tokens, p) || SelectedAbove(tokens, p)
  {
    var rest := tokens[1..];
    forall k | 0 <= k < |p| - 1 && (Matches(tokens, p[1..][..k]) || Matches(rest, p[1..][..k]))
      ensures p[..k + 1][1..] == p[1..][..k] && p[..k + 1][0] == p[0]
    {
    }
    if !Matches(tokens, p) {
      if tokens[0].Descendant? && SelectedAbove(tokens, p[1..]) {
        var k :| 0 <= k < |p| - 1 && Matches(tokens, p[1..][..k]);
        assert Matches(tokens, p[..k + 1]);
      } else {
        var k :| 0 <= k < |p| - 1 && Matches(rest, p[1..][..k]);
        assert Matches(tokens, p[..k + 1]);
      }
    }
  }

  lemma {:induction false} IterateSum(f: string -> string, m: nat, n: nat, s: string)
    ensures Iterate(f, n, Iterate(f, m, s)) == Iterate(f, m + n, s)
    decreases m
  {
    if m > 0 {
      IterateSum(f, m - 1, n, f(s));
    }
  }

  lemma {:induction false} RewriteCongruence(v: Json, a: Path -> nat, b: Path -> nat, f: string -> string)
    requires forall p :: a(p) == b(p)
    ensures Rewrite(v, a, f) == Rewrite(v, b, f)
    decreases v
  {
    forall i | 0 <= i < Size(v) ensures RewriteKids(v, a, f)[i] == RewriteKids(v, b, f)[i] {
      RewriteCongruence(Kid(v, i), Below(a, StepTo(v, i)), Below(b, StepTo(v, i)), f);
    }
    assert RewriteKids(v, a, f) == RewriteKids(v, b, f);
  }

  lemma {:induction false} RewriteNowhere(v: Json, times: Path -> nat, f: string -> string)
    requires forall p :: times(p) == 0
    ensures Rewrite(v, times, f) == v
    decreases v
  {
    forall i | 0 <= i < Size(v) ensures RewriteKids(v, times, f)[i] == Kid(v, i) {
      RewriteNowhere(Kid(v, i), Below(times, StepTo(v, i)), f);
    }
    assert RewriteKids(v, times, f) == Kids(v);
    RebuildSame(v);
  }

  lemma {:induction false} RewriteTwice(v: Json, a: Path -> nat, b: Path -> nat, f: string -> string)
    ensures Rewrite(Rewrite(v, a, f), b, f) == Rewrite(v, Sum(a, b), f)
    decreases v
  {
    var once := Rewrite(v, a, f);
    if v.Str? {
      IterateSum(f, a([]), b([]), v.s);
    } else {
      var kids := RewriteKids(v, a, f);
      assert once == Rebuild(v, kids);
      forall i | 0 <= i < Size(v)
        ensures RewriteKids(once, b, f)[i] == RewriteKids(v, Sum(a, b), f)[i]
      {
        var s := StepTo(v, i);
        assert StepTo(once, i) == s && Kid(once, i) == kids[i] == Rewrite(Kid(v, i), Below(a, s), f);
        RewriteTwice(Kid(v, i), Below(a, s), Below(b, s), f);
        RewriteCongruence(Kid(v, i), Sum(Below(a, s), Below(b, s)), Below(Sum(a, b), s), f);
      }
      assert RewriteKids(once, b, f) == RewriteKids(v, Sum(a, b), f);
      RebuildTwice(v, kids, RewriteKids(once, b, f));
    }
  }

  lemma {:induction false} RewriteWellFormed(v: Json, times: Path -> nat, f: string -> string)
    requires WellFormed(v)
    ensures WellFormed(Rewrite(v, times, f))
    decreases v
  {
    forall i | 0 <= i < Size(v) ensures WellFormed(RewriteKids(v, times, f)[i]) {
      RewriteWellFormed(Kid(v, i), Below(times, StepTo(v, i)), f);
    }
  }

  lemma {:induction false} MapStringsIsRewrite(v: Json, times: Path -> nat, f: string -> string)
    requires forall p :: times(p) == 1
    ensures MapStrings(v, f) == Rewrite(v, times, f)
    decreases v
  {
    if !v.Str? {
      var kids := seq(Size(v), i requires 0 <= i < Size(v) => MapStrings(Kid(v, i), f));
      forall i | 0 <= i < Size(v) ensures kids[i] == RewriteKids(v, times, f)[i] {
        MapStringsIsRewrite(Kid(v, i), Below(times, StepTo(v, i)), f);
      }
      assert kids == RewriteKids(v, times, f);
    } else {
      assert Iterate(f, 1, v.s) == Iterate(f, 0, f(v.s));
    }
  }

  /** Path and regular expression together: every string is rewritten as often as the path
      leads to it or above it -- not at all outside the selected subtrees -- and the tree
      keeps its shape. */
  lemma {:induction false} TransformStringsIsRewrite(v: Json, tokens: seq<Token>, f: string -> string)
    requires WellFormed(v)
    ensures Transform(v, tokens, x => MapStrings(x, f)) == Rewrite(v, WaysOf(tokens), f)
    decreases |tokens|, v, 1
  {
    var fn := x => MapStrings(x, f);
    if tokens == [] {
      MapStringsIsRewrite(v, WaysOf(tokens), f);
    } else if tokens[0].Descendant? {
      DescendStringsIsRewrite(v, tokens[0].name, tokens[1..], f);
      assert tokens == [Descendant(tokens[0].name)] + tokens[1..];
    } else if v.Str? {
      RewriteScalar(v, tokens, f);
    } else {
      forall i | 0 <= i < Size(v)
        ensures Kid(Transform(v, tokens, fn), i) == RewriteKids(v, WaysOf(tokens), f)[i]
      {
        TransformStringsKid(v, tokens, f, i);
      }
      SameKids(Transform(v, tokens, fn), v, RewriteKids(v, WaysOf(tokens), f));
    }
  }

  lemma RewriteScalar(v: Json, tokens: seq<Token>, f: string -> string)
    requires v.Str? && tokens != []
    ensures Rewrite(v, WaysOf(tokens), f) == v
  {
    assert Ways(tokens, []) == 0;
  }

  lemma {:induction false} TransformStringsKid(v: Json, tokens: seq<Token>, f: string -> string, i: nat)
    requires WellFormed(v) && tokens != [] && !tokens[0].Descendant? && i < Size(v)
    ensures var out := Transform(v, tokens, x => MapStrings(x, f));
      Size(out) == Size(v) && Kid(out, i) == RewriteKids(v, WaysOf(tokens), f)[i]
    decreases |tokens|, v, 0
  {
    var rest, s := tokens[1..], StepTo(v, i);
    var below := Below(WaysOf(tokens), s);
    TransformedKid(v, tokens, x => MapStrings(x, f), i);
    assert forall p :: ([s] + p)[1..] == p;
    if Follows(tokens[0], s) {
      assert forall p :: below(p) == WaysOf(rest)(p);
      TransformStringsIsRewrite(Kid(v, i), rest, f);
      RewriteCongruence(Kid(v, i), below, WaysOf(rest), f);
    } else {
      RewriteNowhere(Kid(v, i), below, f);
    }
  }

  lemma {:induction false} DescendStringsIsRewrite(v: Json, key: string, rest: seq<Token>, f: string -> string)
    requires WellFormed(v)
    ensures Descend(v, key, rest, x => MapStrings(x, f)) == Rewrite(v, WaysOf([Descendant(key)] + rest), f)
    decreases |rest| + 1, v, 0
  {
    var fn := x => MapStrings(x, f);
    var tokens := [Descendant(key)] + rest;
    var ways := WaysOf(tokens);
    assert tokens[1..] == rest;
    if v.Str? {
      RewriteScalar(v, tokens, f);
    } else {
      forall i | 0 <= i < Size(v)
        ensures Kid(Descend(v, key, rest, fn), i) == RewriteKids(v, ways, f)[i]
      {
        var c, s := Kid(v, i), StepTo(v, i);
        assert forall p :: ([s] + p)[1..] == p;
        DescendStringsIsRewrite(c, key, rest, f);
        if s == Key(key) {
          RewriteWellFormed(c, ways, f);
          TransformStringsIsRewrite(Descend(c, key, rest, fn), rest, f);
          RewriteTwice(c, ways, WaysOf(rest), f);
          RewriteCongruence(c, Sum(ways, WaysOf(rest)), Below(ways, s), f);
        } else {
          RewriteCongruence(c, ways, Below(ways, s), f);
        }
      }
      SameKids(Descend(v, key, rest, fn), v, RewriteKids(v, ways, f));
    }
  }

  /** Position by position: a string is rewritten once for every way in which the path leads
      to it or above it, and every other node is what it was. */
  lemma RegexReachesExactly(v: Json, tokens: seq<Token>, f: string -> string, p: Path)
    requires WellFormed(v)
    ensures var out := Transform(v, tokens, x => MapStrings(x, f));
      match Locate(v, p)
      case Some(Str(s)) => Locate(out, p) == Some(Str(Iterate(f, Ways(tokens, p), s)))
      case _ => SkeletonAt(out, p) == SkeletonAt(v, p)
  {
    TransformStringsIsRewrite(v, tokens, f);
    RewriteAt(v, WaysOf(tokens), f, p);
  }

  lemma {:induction false} RewriteAt(v: Json, times: Path -> nat, f: string -> string, p: Path)
    ensures var out := Rewrite(v, times, f);
      match Locate(v, p)
      case Some(Str(s)) => Locate(out, p) == Some(Str(Iterate(f, times(p), s)))
      case _ => SkeletonAt(out, p) == SkeletonAt(v, p)
    decreases |p|
  {
    var out := Rewrite(v, times, f);
    if !v.Str? {
      var kids := RewriteKids(v, times, f);
      assert out == Rebuild(v, kids);
      if p == [] {
        RebuildTwice(v, kids, seq(Size(v), _ => Null));
      } else {
        RebuildKidIndex(v, kids, p[0]);
        var i := KidIndex(v, p[0]);
        if i < Size(v) {
          assert Kid(out, i) == kids[i] == Rewrite(Kid(v, i), Below(times, p[0]), f);
          assert [p[0]] + p[1..] == p;
          RewriteAt(Kid(v, i), Below(times, p[0]), f, p[1..]);
        }
      }
    }
  }
}
