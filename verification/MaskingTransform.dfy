/** The JSONPath rewriter of the masking engine, and what it means: the rewriter works
    bottom-up over an already rewritten subtree, the meaning speaks of original positions only. */
module MaskingTransform {
  import opened JsonValues

  datatype Token = Child(name: string) | Index(index: nat) | Wildcard | Descendant(name: string)

  // ---- The rewriter ----

  /** Applies `fn` at every location `tokens` leads to. */
  function Transform(value: Json, tokens: seq<Token>, fn: Json -> Json): Json
    decreases |tokens|, value, 1
  {
    if tokens == [] then fn(value)
    else
      var rest := tokens[1..];
      match tokens[0]
      case Child(name) =>
        if value.Obj? && HasKey(value.members, name) then
          var i := KeyIndex(value.members, name);
          Rebuild(value, Kids(value)[i := Transform(Kid(value, i), rest, fn)])
        else value
      case Index(n) =>
        if value.Arr? && n < Size(value) then
          Rebuild(value, Kids(value)[n := Transform(Kid(value, n), rest, fn)])
        else value
      case Wildcard =>
        Rebuild(value, seq(Size(value), i requires 0 <= i < Size(value) => Transform(Kid(value, i), rest, fn)))
      case Descendant(name) => Descend(value, name, rest, fn)
  }

  /** Rewrites every child first, then walks `rest` from the rewritten members called `key`. */
  function Descend(value: Json, key: string, rest: seq<Token>, fn: Json -> Json): Json
    decreases |rest| + 1, value, 0
  {
    Rebuild(value, seq(Size(value), i requires 0 <= i < Size(value) =>
      var descended := Descend(Kid(value, i), key, rest, fn);
      if StepTo(value, i) == Key(key) then Transform(descended, rest, fn) else descended))
  }

  // ---- Which positions a path selects ----

  predicate Matches(tokens: seq<Token>, p: Path)
    decreases |p|
  {
    if tokens == [] then p == []
    else
      && p != []
      && var rest := tokens[1..];
      match tokens[0]
      case Child(name) => p[0] == Key(name) && Matches(rest, p[1..])
      case Index(n) => p[0] == At(n) && Matches(rest, p[1..])
      case Wildcard => Matches(rest, p[1..])
      case Descendant(name) =>
        Matches(tokens, p[1..]) || (p[0] == Key(name) && Matches(rest, p[1..]))
  }

  type Selection = Path -> bool

  function Selected(tokens: seq<Token>): Selection {
    p => Matches(tokens, p)
  }

  /** The selection seen from one step further down. */
  function Below<T>(f: Path -> T, s: Step): Path -> T {
    p => f([s] + p)
  }

  /** Both selections at once. */
  function Either(a: Selection, b: Selection): Selection {
    p => a(p) || b(p)
  }

  /** The declarative meaning of masking: walking down from the root, the first selected
      position met on each branch becomes `mask`; nothing else changes. */
  ghost function Replace(v: Json, sel: Selection, mask: Json): Json
    decreases v
  {
    if sel([]) then mask
    else Rebuild(v, ReplaceKids(v, sel, mask))
  }

  ghost function ReplaceKids(v: Json, sel: Selection, mask: Json): (ks: seq<Json>)
    decreases v, 0
    ensures |ks| == Size(v)
  {
    seq(Size(v), i requires 0 <= i < Size(v) => Replace(Kid(v, i), Below(sel, StepTo(v, i)), mask))
  }

  lemma {:induction false} ReplaceCongruence(v: Json, a: Selection, b: Selection, mask: Json)
    requires forall p :: a(p) == b(p)
    ensures Replace(v, a, mask) == Replace(v, b, mask)
    decreases v
  {
    forall i | 0 <= i < Size(v)
      ensures ReplaceKids(v, a, mask)[i] == ReplaceKids(v, b, mask)[i]
    {
      ReplaceCongruence(Kid(v, i), Below(a, StepTo(v, i)), Below(b, StepTo(v, i)), mask);
    }
    assert ReplaceKids(v, a, mask) == ReplaceKids(v, b, mask);
  }

  lemma {:induction false} ReplaceNothing(v: Json, sel: Selection, mask: Json)
    requires forall p :: !sel(p)
    ensures Replace(v, sel, mask) == v
    decreases v
  {
    forall i | 0 <= i < Size(v) ensures ReplaceKids(v, sel, mask)[i] == Kid(v, i) {
      ReplaceNothing(Kid(v, i), Below(sel, StepTo(v, i)), mask);
    }
    assert ReplaceKids(v, sel, mask) == Kids(v);
    RebuildSame(v);
  }

  /** Masking what is already masked selects no more than both selections did on the original. */
  lemma {:induction false} ReplaceTwice(v: Json, a: Selection, b: Selection, mask: Json)
    requires Size(mask) == 0
    ensures Replace(Replace(v, a, mask), b, mask) == Replace(v, Either(a, b), mask)
    decreases v
  {
    var once := Replace(v, a, mask);
    if a([]) {
      assert once == mask && Replace(mask, b, mask) == mask;
    } else if !b([]) {
      var kids := ReplaceKids(v, a, mask);
      assert once == Rebuild(v, kids);
      forall i | 0 <= i < Size(v)
        ensures ReplaceKids(once, b, mask)[i] == ReplaceKids(v, Either(a, b), mask)[i]
      {
        var s := StepTo(v, i);
        assert StepTo(once, i) == s && Kid(once, i) == kids[i] == Replace(Kid(v, i), Below(a, s), mask);
        ReplaceTwice(Kid(v, i), Below(a, s), Below(b, s), mask);
        ReplaceCongruence(Kid(v, i), Either(Below(a, s), Below(b, s)), Below(Either(a, b), s), mask);
      }
      assert ReplaceKids(once, b, mask) == ReplaceKids(v, Either(a, b), mask);
      RebuildTwice(v, kids, ReplaceKids(once, b, mask));
    }
  }

  // ---- The rewriter meets that meaning ----

  lemma {:induction false} TransformIsReplace(v: Json, tokens: seq<Token>, fn: Json -> Json, mask: Json)
    requires WellFormed(v) && Size(mask) == 0
    requires forall x :: fn(x) == mask
    ensures Transform(v, tokens, fn) == Replace(v, Selected(tokens), mask)
    decreases |tokens|, v, 2
  {
    if tokens == [] {
    } else if tokens[0].Descendant? {
      DescendIsReplace(v, tokens[0].name, tokens[1..], fn, mask);
      assert tokens == [Descendant(tokens[0].name)] + tokens[1..];
    } else {
      var sel := Selected(tokens);
      forall i | 0 <= i < Size(v)
        ensures Kid(Transform(v, tokens, fn), i) == ReplaceKids(v, sel, mask)[i]
      {
        TransformKid(v, tokens, fn, mask, i);
      }
      SameKids(Transform(v, tokens, fn), v, ReplaceKids(v, sel, mask));
    }
  }

  lemma SameKids(out: Json, v: Json, kids: seq<Json>)
    requires |kids| == Size(v)
    requires out == v || exists ks: seq<Json> :: |ks| == Size(v) && out == Rebuild(v, ks)
    requires forall i :: 0 <= i < Size(v) ==> Size(out) == Size(v) && Kid(out, i) == kids[i]
    ensures out == Rebuild(v, kids)
  {
    var ks: seq<Json>;
    if out == v {
      RebuildSame(v);
      ks := Kids(v);
    } else {
      ks :| |ks| == Size(v) && out == Rebuild(v, ks);
    }
    assert out == Rebuild(v, ks);
    assert ks == kids;
  }

  /** A token that is no descent leads from a value to the child below this step. */
  predicate Follows(token: Token, s: Step) {
    match token
    case Child(name) => s == Key(name)
    case Index(n) => s == At(n)
    case _ => true
  }

  lemma TransformedKid(v: Json, tokens: seq<Token>, fn: Json -> Json, i: nat)
    requires WellFormed(v) && tokens != [] && !tokens[0].Descendant? && i < Size(v)
    ensures Size(Transform(v, tokens, fn)) == Size(v)
    ensures Kid(Transform(v, tokens, fn), i)
         == if Follows(tokens[0], StepTo(v, i)) then Transform(Kid(v, i), tokens[1..], fn) else Kid(v, i)
  {
  }

  lemma FollowedBelow(tokens: seq<Token>, s: Step, p: Path)
    requires tokens != [] && !tokens[0].Descendant?
    ensures Below(Selected(tokens), s)(p) <==> Follows(tokens[0], s) && Selected(tokens[1..])(p)
  {
    assert ([s] + p)[1..] == p;
  }

  lemma {:induction false} TransformKid(v: Json, tokens: seq<Token>, fn: Json -> Json, mask: Json, i: nat)
    requires WellFormed(v) && Size(mask) == 0
    requires forall x :: fn(x) == mask
    requires tokens != [] && !tokens[0].Descendant? && i < Size(v)
    ensures Size(Transform(v, tokens, fn)) == Size(v)
    ensures Kid(Transform(v, tokens, fn), i) == ReplaceKids(v, Selected(tokens), mask)[i]
    decreases |tokens|, v, 0
  {
    var rest, s := tokens[1..], StepTo(v, i);
    var below := Below(Selected(tokens), s);
    TransformedKid(v, tokens, fn, i);
    forall p ensures below(p) <==> Follows(tokens[0], s) && Selected(rest)(p) {
      FollowedBelow(tokens, s, p);
    }
    if Follows(tokens[0], s) {
      TransformIsReplace(Kid(v, i), rest, fn, mask);
      ReplaceCongruence(Kid(v, i), below, Selected(rest), mask);
    } else {
      ReplaceNothing(Kid(v, i), below, mask);
    }
  }

  lemma {:induction false} DescendIsReplace(v: Json, key: string, rest: seq<Token>, fn: Json -> Json, mask: Json)
    requires WellFormed(v) && Size(mask) == 0
    requires forall x :: fn(x) == mask
    ensures Descend(v, key, rest, fn) == Replace(v, Selected([Descendant(key)] + rest), mask)
    decreases |rest| + 1, v, 1
  {
    var sel := Selected([Descendant(key)] + rest);
    forall i | 0 <= i < Size(v)
      ensures Size(Descend(v, key, rest, fn)) == Size(v)
      ensures Kid(Descend(v, key, rest, fn), i) == ReplaceKids(v, sel, mask)[i]
    {
      DescendKid(v, key, rest, fn, mask, i);
    }
    SameKids(Descend(v, key, rest, fn), v, ReplaceKids(v, sel, mask));
  }

  lemma DescendedKid(v: Json, key: string, rest: seq<Token>, fn: Json -> Json, i: nat)
    requires WellFormed(v) && i < Size(v)
    ensures Size(Descend(v, key, rest, fn)) == Size(v)
    ensures var descended := Descend(Kid(v, i), key, rest, fn);
      Kid(Descend(v, key, rest, fn), i) == if StepTo(v, i) == Key(key) then Transform(descended, rest, fn) else descended
  {
  }

  lemma DescendedBelow(key: string, rest: seq<Token>, s: Step, p: Path)
    ensures var sel := Selected([Descendant(key)] + rest);
      Below(sel, s)(p) <==> sel(p) || (s == Key(key) && Selected(rest)(p))
  {
    assert ([s] + p)[1..] == p && ([Descendant(key)] + rest)[1..] == rest;
  }

  lemma {:induction false} DescendKid(v: Json, key: string, rest: seq<Token>, fn: Json -> Json, mask: Json, i: nat)
    requires WellFormed(v) && Size(mask) == 0 && i < Size(v)
    requires forall x :: fn(x) == mask
    ensures Size(Descend(v, key, rest, fn)) == Size(v)
    ensures Kid(Descend(v, key, rest, fn), i) == ReplaceKids(v, Selected([Descendant(key)] + rest), mask)[i]
    decreases |rest| + 1, v, 0
  {
    var c, s, sel := Kid(v, i), StepTo(v, i), Selected([Descendant(key)] + rest);
    DescendedKid(v, key, rest, fn, i);
    DescendIsReplace(c, key, rest, fn, mask);
    forall p ensures Below(sel, s)(p) <==> sel(p) || (s == Key(key) && Selected(rest)(p)) {
      DescendedBelow(key, rest, s, p);
    }
    if s == Key(key) {
      ReplaceWellFormed(c, sel, mask);
      TransformIsReplace(Descend(c, key, rest, fn), rest, fn, mask);
      ReplaceTwice(c, sel, Selected(rest), mask);
      ReplaceCongruence(c, Either(sel, Selected(rest)), Below(sel, s), mask);
    } else {
      ReplaceCongruence(c, sel, Below(sel, s), mask);
    }
  }

  lemma {:induction false} ReplaceWellFormed(v: Json, sel: Selection, mask: Json)
    requires WellFormed(v) && Size(mask) == 0
    ensures WellFormed(Replace(v, sel, mask))
    decreases v
  {
    forall i | 0 <= i < Size(v) ensures WellFormed(ReplaceKids(v, sel, mask)[i]) {
      ReplaceWellFormed(Kid(v, i), Below(sel, StepTo(v, i)), mask);
    }
  }

  lemma {:induction false} ReplaceNumerals(v: Json, sel: Selection, mask: Json, kind: string -> bool)
    requires NumeralsIn(v, kind) && NumeralsIn(mask, kind)
    ensures NumeralsIn(Replace(v, sel, mask), kind)
    decreases v
  {
    if !sel([]) {
      var kids := ReplaceKids(v, sel, mask);
      var out := Rebuild(v, kids);
      forall i | 0 <= i < Size(out) ensures NumeralsIn(Kid(out, i), kind) {
        assert Kid(out, i) == kids[i];
        ReplaceNumerals(Kid(v, i), Below(sel, StepTo(v, i)), mask, kind);
      }
    }
  }
}
