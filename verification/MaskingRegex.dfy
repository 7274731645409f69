/** Global regular-expression replacement and the replacement templates of the masking
    contract. Python's regex engine is an oracle: all that is known of a search is that what
    it finds lies in the string, at or after the position it started from. */
module MaskingRegex {
  import opened Options
  import opened JsonValues
  import opened MaskingTransform
  import opened Text
  import opened MaskingPath
  import opened MaskingLaws

  datatype Match = Match(start: nat, end: nat, captures: seq<Option<string>>)

  type Matcher = (string, nat) -> Option<Match>

  ghost predicate Sound(search: Matcher) {
    forall s: string, pos: nat :: pos <= |s| ==> InBounds(s, pos, search(s, pos))
  }

  predicate InBounds(s: string, pos: nat, found: Option<Match>) {
    found.Some? ==> pos <= found.value.start <= found.value.end <= |s|
  }

  // ---- Templates ----

  /** What `$n` stands for: the n-th group, or nothing when there is no such group. */
  function Group(groups: seq<string>, n: nat): string {
    if n < |groups| then groups[n] else ""
  }

  function Expand(template: string, groups: seq<string>): string
    decreases |template|
  {
    if template == "" then ""
    else if template[0] != '$' then [template[0]] + Expand(template[1..], groups)
    else if BeginsWith(template, '$', '$') then "$" + Expand(template[2..], groups)
    else
      var n := Span(template[1..], IsDigit);
      if n > 0 then Group(groups, DecimalValue(template[1..][..n])) + Expand(template[1..][n..], groups)
      else "$" + Expand(template[1..], groups)
  }

  /** `out` followed by what is left of the template, written out: what the loop keeps fixed. */
  function Progress(out: string, template: string, i: nat, groups: seq<string>): string
    requires i <= |template|
  {
    out + Expand(template[i..], groups)
  }

  lemma ProgressEnds(out: string, template: string, groups: seq<string>)
    ensures Progress("", template, 0, groups) == Expand(template, groups)
    ensures Progress(out, template, |template|, groups) == out
  {
    assert template[0..] == template && template[|template|..] == "";
  }

  lemma ExpandCopied(out: string, template: string, i: nat, groups: seq<string>)
    requires i < |template| && template[i] != '$'
    ensures Progress(out + [template[i]], template, i + 1, groups) == Progress(out, template, i, groups)
  {
    assert template[i..][1..] == template[i + 1..];
  }

  lemma ExpandDollar(out: string, template: string, i: nat, groups: seq<string>)
    requires i < |template| && template[i] == '$'
    requires i + 1 < |template| ==> !IsDigit(template[i + 1])
    ensures var next := if i + 1 < |template| && template[i + 1] == '$' then i + 2 else i + 1;
      Progress(out + "$", template, next, groups) == Progress(out, template, i, groups)
  {
    var left := template[i..];
    if i + 1 < |template| && template[i + 1] == '$' {
      assert left[2..] == template[i + 2..];
    } else {
      assert left[1..] == template[i + 1..];
    }
  }

  lemma ExpandGroup(out: string, template: string, i: nat, j: nat, groups: seq<string>)
    requires i + 1 < j <= |template| && template[i] == '$' && AllDigits(template[i + 1..j])
    requires j < |template| ==> !IsDigit(template[j])
    ensures Progress(out + Group(groups, DecimalValue(template[i + 1..j])), template, j, groups)
         == Progress(out, template, i, groups)
  {
    var left, ds := template[i..], template[i + 1..j];
    assert left[1..] == ds + template[j..];
    SpanStops(ds, template[j..], IsDigit);
    assert left[1..][..|ds|] == ds && left[1..][|ds|..] == template[j..];
    assert left[1] == ds[0];
  }

  /** The loop of `expand`: one pass over the template with an index. */
  method ExpandTemplate(template: string, groups: seq<string>) returns (out: string)
    ensures out == Expand(template, groups)
  {
    out := "";
    var i := 0;
    while i < |template|
      invariant 0 <= i <= |template|
      invariant Progress(out, template, i, groups) == Progress("", template, 0, groups)
    {
      if template[i] != '$' {
        ExpandCopied(out, template, i, groups);
        out := out + [template[i]];
        i := i + 1;
      } else if i + 1 < |template| && template[i + 1] == '$' {
        ExpandDollar(out, template, i, groups);
        out := out + "$";
        i := i + 2;
      } else if i + 1 < |template| && IsDigit(template[i + 1]) {
        var j := i + 1;
        while j < |template| && IsDigit(template[j])
          invariant i + 1 <= j <= |template|
          invariant forall k :: i + 1 <= k < j ==> IsDigit(template[k])
        {
          j := j + 1;
        }
        assert AllDigits(template[i + 1..j]);
        ExpandGroup(out, template, i, j, groups);
        out := out + Group(groups, DecimalValue(template[i + 1..j]));
        i := j;
      } else {
        ExpandDollar(out, template, i, groups);
        out := out + "$";
        i := i + 1;
      }
    }
    ProgressEnds(out, template, groups);
  }

  // A template as its author means it.
  datatype Part = Literal(c: char) | Dollar | Reference(n: nat)

  function Denote(parts: seq<Part>, groups: seq<string>): string {
    if parts == [] then ""
    else
      (match parts[0]
       case Literal(c) => [c]
       case Dollar => "$"
       case Reference(n) => Group(groups, n)) + Denote(parts[1..], groups)
  }

  function Spell(parts: seq<Part>): string {
    if parts == [] then ""
    else
      (match parts[0]
       case Literal(c) => [c]
       case Dollar => "$$"
       case Reference(n) => "$" + Decimal(n)) + Spell(parts[1..])
  }

  /** A literal dollar is spelled twice, and no digit may follow a group number directly. */
  predicate Unambiguous(parts: seq<Part>) {
    && (forall i :: 0 <= i < |parts| ==> parts[i] != Literal('$'))
    && (forall i :: 0 <= i < |parts| - 1 ==>
          parts[i].Reference? && parts[i + 1].Literal? ==> !IsDigit(parts[i + 1].c))
  }

  lemma SpelledHead(parts: seq<Part>)
    requires parts != []
    ensures Spell(parts) != ""
    ensures IsDigit(Spell(parts)[0]) ==> parts[0].Literal? && IsDigit(parts[0].c)
  {
  }

  lemma ExpandReference(n: nat, tail: string, groups: seq<string>)
    requires tail == "" || !IsDigit(tail[0])
    ensures Expand("$" + Decimal(n) + tail, groups) == Group(groups, n) + Expand(tail, groups)
  {
    var ds := Decimal(n);
    var template := "$" + ds + tail;
    assert template[1..] == ds + tail && template[1] == ds[0];
    SpanStops(ds, tail, IsDigit);
    assert (ds + tail)[..|ds|] == ds && (ds + tail)[|ds|..] == tail;
  }

  /** Expansion gives a spelled template exactly its meaning. */
  lemma {:induction false} ExpandSpelled(parts: seq<Part>, groups: seq<string>)
    requires Unambiguous(parts)
    ensures Expand(Spell(parts), groups) == Denote(parts, groups)
    decreases |parts|
  {
    if parts != [] {
      var tail := Spell(parts[1..]);
      ExpandSpelled(parts[1..], groups);
      match parts[0]
      case Literal(c) => assert ([c] + tail)[1..] == tail;
      case Dollar => assert ("$$" + tail)[2..] == tail;
      case Reference(n) =>
        if parts[1..] != [] {
          SpelledHead(parts[1..]);
          assert parts[1..][0] == parts[1];
        }
        ExpandReference(n, tail, groups);
    }
  }

  // ---- Replacing every match ----

  // The subject string cut up by the scan: text that is copied, and matches that are expanded.
  datatype Piece = Copied(text: string) | Hit(m: Match)

  function Pieces(search: Matcher, s: string, pos: nat): seq<Piece>
    requires Sound(search)
    decreases |s| + 1 - pos
  {
    if pos > |s| then []
    else
      var found := search(s, pos);
      assert InBounds(s, pos, found);
      match found
      case None => [Copied(s[pos..])]
      case Some(m) => Cut(s, pos, m) + Pieces(search, s, Resume(m))
  }

  /** Where the search goes on after a match: an empty one is stepped over. */
  function Resume(m: Match): nat {
    if m.end > m.start then m.end else m.start + 1
  }

  /** What one match adds: the text before it, the match, and after an empty match the
      character stepped over. */
  function Cut(s: string, pos: nat, m: Match): seq<Piece>
    requires pos <= m.start <= m.end <= |s|
  {
    [Copied(s[pos..m.start]), Hit(m)]
    + if m.end == m.start < |s| then [Copied([s[m.start]])] else []
  }

  function GroupsOf(s: string, m: Match): (gs: seq<string>)
    requires m.start <= m.end <= |s|
    ensures |gs| == |m.captures| + 1 && gs[0] == s[m.start..m.end]
  {
    [s[m.start..m.end]] +
    seq(|m.captures|, i requires 0 <= i < |m.captures| =>
      match m.captures[i] case Some(g) => g case None => "")
  }

  /** What `$k` stands for: the whole match or the k-th capture; nothing for a group that took no part
      in the match or that the expression does not have. */
  function Captured(s: string, m: Match, k: nat): string
    requires m.start <= m.end <= |s|
  {
    if k == 0 then s[m.start..m.end]
    else if k > |m.captures| then ""
    else match m.captures[k - 1]
      case Some(text) => text
      case None => ""
  }

  lemma GroupIsCaptured(s: string, m: Match, k: nat)
    requires m.start <= m.end <= |s|
    ensures Group(GroupsOf(s, m), k) == Captured(s, m, k)
  {
  }

  lemma GroupWrites(s: string, m: Match, k: nat, tail: string, groups: seq<string>)
    requires m.start <= m.end <= |s| && (tail == "" || !IsDigit(tail[0])) && groups == GroupsOf(s, m)
    ensures Expand("$" + Decimal(k) + tail, groups) == Captured(s, m, k) + Expand(tail, groups)
  {
    GroupIsCaptured(s, m, k);
    ExpandReference(k, tail, groups);
  }

  predicate Within(s: string, ps: seq<Piece>) {
    forall i :: 0 <= i < |ps| && ps[i].Hit? ==> ps[i].m.start <= ps[i].m.end <= |s|
  }

  /** The part of the subject a piece stands for. */
  function Source(s: string, ps: seq<Piece>): string
    requires Within(s, ps)
  {
    if ps == [] then ""
    else (match ps[0] case Copied(text) => text case Hit(m) => s[m.start..m.end]) + Source(s, ps[1..])
  }

  function Render(s: string, ps: seq<Piece>, template: string): string
    requires Within(s, ps)
  {
    if ps == [] then ""
    else
      (match ps[0] case Copied(text) => text case Hit(m) => Expand(template, GroupsOf(s, m)))
      + Render(s, ps[1..], template)
  }

  function ReplaceAll(search: Matcher, s: string, template: string): string
    requires Sound(search)
  {
    PiecesWithin(search, s, 0);
    Render(s, Pieces(search, s, 0), template)
  }

  lemma {:induction false} PiecesWithin(search: Matcher, s: string, pos: nat)
    requires Sound(search)
    ensures Within(s, Pieces(search, s, pos))
    decreases |s| + 1 - pos
  {
    if pos <= |s| && search(s, pos).Some? {
      assert InBounds(s, pos, search(s, pos));
      var m := search(s, pos).value;
      PiecesWithin(search, s, Resume(m));
    }
  }

  lemma {:induction false} SourceConcat(s: string, a: seq<Piece>, b: seq<Piece>)
    requires Within(s, a) && Within(s, b)
    ensures Within(s, a + b) && Source(s, a + b) == Source(s, a) + Source(s, b)
    decreases |a|
  {
    if a == [] {
      assert a + b == b;
    } else {
      SourceConcat(s, a[1..], b);
      assert (a + b)[1..] == a[1..] + b;
    }
  }

  lemma {:induction false} RenderConcat(s: string, a: seq<Piece>, b: seq<Piece>, template: string)
    requires Within(s, a) && Within(s, b)
    ensures Within(s, a + b) && Render(s, a + b, template) == Render(s, a, template) + Render(s, b, template)
    decreases |a|
  {
    if a == [] {
      assert a + b == b;
    } else {
      RenderConcat(s, a[1..], b, template);
      assert (a + b)[1..] == a[1..] + b;
    }
  }

  /** The pieces tile the subject: put together they are the subject, and every match lies
      where the pieces before it end. So each character is copied once or lies in one match. */
  lemma PiecesTile(search: Matcher, s: string)
    requires Sound(search)
    ensures var ps := Pieces(search, s, 0);
      && Within(s, ps)
      && Source(s, ps) == s
      && forall i :: 0 <= i < |ps| && ps[i].Hit? ==>
           Within(s, ps[..i]) && |Source(s, ps[..i])| == ps[i].m.start
  {
    PiecesWithin(search, s, 0);
    TileFrom(search, s, 0);
    assert s[0..] == s;
  }

  /** Every match in the pieces lies where the pieces before it, laid out from `pos`, end. */
  ghost predicate Placed(s: string, ps: seq<Piece>, pos: nat) {
    && Within(s, ps)
    && forall i :: 0 <= i < |ps| && ps[i].Hit? ==>
         Within(s, ps[..i]) && pos + |Source(s, ps[..i])| == ps[i].m.start
  }

  lemma {:induction false} TileFrom(search: Matcher, s: string, pos: nat)
    requires Sound(search) && pos <= |s|
    ensures var ps := Pieces(search, s, pos);
      Placed(s, ps, pos) && Source(s, ps) == s[pos..]
    decreases |s| + 1 - pos, 1
  {
    PiecesWithin(search, s, pos);
    assert InBounds(s, pos, search(s, pos));
    if search(s, pos).None? {
      OnlyCopied(s, pos);
    } else {
      TileAfter(search, s, pos, search(s, pos).value);
    }
  }

  lemma {:induction false} TileAfter(search: Matcher, s: string, pos: nat, m: Match)
    requires Sound(search) && pos <= m.start <= m.end <= |s| && search(s, pos) == Some(m)
    ensures Placed(s, Pieces(search, s, pos), pos) && Source(s, Pieces(search, s, pos)) == s[pos..]
    decreases |s| + 1 - pos, 0
  {
    var next := Resume(m);
    var head, rest := Cut(s, pos, m), Pieces(search, s, next);
    HeadSource(s, pos, m, head);
    assert Pieces(search, s, pos) == head + rest;
    if next <= |s| {
      TileFrom(search, s, next);
      HeadThenRest(s, head, rest, pos, next);
      assert s[pos..] == s[pos..next] + s[next..];
    } else {
      assert rest == [] && head + rest == head;
    }
  }

  lemma OnlyCopied(s: string, pos: nat)
    requires pos <= |s|
    ensures Placed(s, [Copied(s[pos..])], pos) && Source(s, [Copied(s[pos..])]) == s[pos..]
  {
    var ps := [Copied(s[pos..])];
    assert ps[1..] == [] && Source(s, ps) == s[pos..] + Source(s, ps[1..]);
  }

  lemma HeadThenRest(s: string, head: seq<Piece>, rest: seq<Piece>, pos: nat, next: nat)
    requires Placed(s, head, pos) && Placed(s, rest, next)
    requires pos + |Source(s, head)| == next
    ensures Placed(s, head + rest, pos) && Source(s, head + rest) == Source(s, head) + Source(s, rest)
  {
    SourceConcat(s, head, rest);
    var ps := head + rest;
    forall i | 0 <= i < |ps| && ps[i].Hit?
      ensures Within(s, ps[..i]) && pos + |Source(s, ps[..i])| == ps[i].m.start
    {
      if i < |head| {
        assert ps[..i] == head[..i] && ps[i] == head[i];
      } else {
        var k := i - |head|;
        assert ps[i] == rest[k] && ps[..i] == head + rest[..k];
        SourceConcat(s, head, rest[..k]);
      }
    }
  }

  lemma HeadSource(s: string, pos: nat, m: Match, head: seq<Piece>)
    requires pos <= m.start <= m.end <= |s|
    requires head == Cut(s, pos, m)
    ensures Placed(s, head, pos)
    ensures Source(s, head) == s[pos..if Resume(m) <= |s| then Resume(m) else |s|]
  {
    var text := s[pos..m.start];
    assert head[..1] == [Copied(text)] && head[..1][1..] == [];
    assert Source(s, head[..1]) == text + Source(s, head[..1][1..]);
    var more := head[2..];
    assert head[1..][1..] == more;
    assert Source(s, head[1..]) == s[m.start..m.end] + Source(s, more);
    assert Source(s, head) == text + Source(s, head[1..]);
    if more != [] {
      assert more[1..] == [] && Source(s, more) == [s[m.start]] + Source(s, more[1..]);
    }
  }

  /** `out` followed by the replaced rest of the subject: what the loop keeps fixed. */
  function Built(search: Matcher, s: string, pos: nat, out: string, template: string): string
    requires Sound(search)
  {
    PiecesWithin(search, s, pos);
    out + Render(s, Pieces(search, s, pos), template)
  }

  /** The loop of `regex_replace_all`, empty matches included. */
  method RegexReplaceAll(search: Matcher, s: string, template: string) returns (result: string)
    requires Sound(search)
    ensures result == ReplaceAll(search, s, template)
  {
    var out, last, pos := "", 0, 0;
    ghost var whole := ReplaceAll(search, s, template);
    assert Built(search, s, 0, "", template) == whole;
    while pos <= |s|
      invariant last == pos <= |s| + 1
      invariant Built(search, s, pos, out, template) == whole
      decreases |s| + 1 - pos
    {
      assert InBounds(s, pos, search(s, pos));
      var found := search(s, pos);
      if found.None? {
        break;
      }
      var m := found.value;
      ghost var replaced := out + Written(s, pos, m, template);
      assert Built(search, s, Resume(m), replaced, template) == whole by {
        BuiltStep(search, s, pos, m, out, template);
      }
      var gap := s[last..m.start];
      var expansion := ExpandTemplate(template, GroupsOf(s, m));
      WrittenParts(s, pos, m, template, out, gap, expansion);
      out := out + gap;
      out := out + expansion;
      last := m.end;
      if m.end == m.start {
        if m.start < |s| {
          out := out + [s[m.start]];
        }
        last := m.start + 1;
        pos := m.start + 1;
      } else {
        pos := m.end;
      }
      assert pos == last == Resume(m) && out == replaced;
    }
    assert whole == out + if pos <= |s| then s[pos..] else "" by {
      BuiltEnd(search, s, pos, out, template);
    }
    result := out + if last <= |s| then s[last..] else "";
  }

  /** The output for one match. */
  function Written(s: string, pos: nat, m: Match, template: string): string
    requires pos <= m.start <= m.end <= |s|
  {
    s[pos..m.start] + Expand(template, GroupsOf(s, m)) + if m.end == m.start < |s| then [s[m.start]] else ""
  }

  lemma WrittenParts(s: string, pos: nat, m: Match, template: string, out: string, gap: string, expansion: string)
    requires pos <= m.start <= m.end <= |s|
    requires gap == s[pos..m.start] && expansion == Expand(template, GroupsOf(s, m))
    ensures out + Written(s, pos, m, template)
         == if m.end == m.start < |s| then ((out + gap) + expansion) + [s[m.start]] else (out + gap) + expansion
  {
    var end := if m.end == m.start < |s| then [s[m.start]] else "";
    assert out + ((gap + expansion) + end) == ((out + gap) + expansion) + end;
    assert ((out + gap) + expansion) + "" == (out + gap) + expansion;
  }

  lemma BuiltEnd(search: Matcher, s: string, pos: nat, out: string, template: string)
    requires Sound(search)
    requires pos <= |s| ==> search(s, pos).None?
    ensures Built(search, s, pos, out, template) == out + if pos <= |s| then s[pos..] else ""
  {
    if pos <= |s| {
      var ps := Pieces(search, s, pos);
      assert ps == [Copied(s[pos..])] && ps[1..] == [];
      assert Render(s, ps, template) == s[pos..] + Render(s, ps[1..], template);
    }
  }

  lemma BuiltStep(search: Matcher, s: string, pos: nat, m: Match, out: string, template: string)
    requires Sound(search) && pos <= |s| && search(s, pos) == Some(m)
    requires pos <= m.start <= m.end <= |s|
    ensures Built(search, s, Resume(m), out + Written(s, pos, m, template), template)
         == Built(search, s, pos, out, template)
  {
    var head, rest := Cut(s, pos, m), Pieces(search, s, Resume(m));
    PiecesWithin(search, s, Resume(m));
    HeadWritten(s, pos, m, head, template);
    RenderConcat(s, head, rest, template);
    assert Pieces(search, s, pos) == head + rest;
  }

  lemma HeadWritten(s: string, pos: nat, m: Match, head: seq<Piece>, template: string)
    requires pos <= m.start <= m.end <= |s|
    requires head == Cut(s, pos, m)
    ensures Within(s, head) && Render(s, head, template) == Written(s, pos, m, template)
  {
    var more := head[2..];
    assert head[1..][1..] == more;
    assert Render(s, head[1..], template) == Expand(template, GroupsOf(s, m)) + Render(s, more, template);
    assert Render(s, head, template) == s[pos..m.start] + Render(s, head[1..], template);
    if more != [] {
      assert more[1..] == [] && Render(s, more, template) == [s[m.start]] + Render(s, more[1..], template);
    }
  }

  // ---- "$0" puts back what was matched ----

  lemma WholeMatch(groups: seq<string>)
    requires groups != []
    ensures Expand("$0", groups) == groups[0]
  {
    var one := "$0"[1..];
    assert one == "0" + "";
    SpanStops("0", "", IsDigit);
    assert one[..1] == "0" && one[1..] == "";
    assert "0"[..0] == "" && DecimalValue("0") == 0;
  }

  lemma {:induction false} RenderWhole(s: string, ps: seq<Piece>)
    requires Within(s, ps)
    ensures Render(s, ps, "$0") == Source(s, ps)
    decreases |ps|
  {
    if ps != [] {
      RenderWhole(s, ps[1..]);
      if ps[0].Hit? {
        WholeMatch(GroupsOf(s, ps[0].m));
      }
    }
  }

  lemma WholeMatchIsIdentity(search: Matcher, s: string)
    requires Sound(search)
    ensures ReplaceAll(search, s, "$0") == s
  {
    PiecesTile(search, s);
    RenderWhole(s, Pieces(search, s, 0));
  }

  lemma {:induction false} MapIdentity(v: Json, times: Path -> nat, f: string -> string)
    requires forall s :: f(s) == s
    ensures MapStrings(v, f) == v && Rewrite(v, times, f) == v
    decreases v
  {
    if v.Str? {
      IterateIdentity(f, times([]), v.s);
    } else {
      forall i | 0 <= i < Size(v)
        ensures RewriteKids(v, times, f)[i] == Kid(v, i) == MapStrings(Kid(v, i), f)
      {
        MapIdentity(Kid(v, i), Below(times, StepTo(v, i)), f);
      }
      assert RewriteKids(v, times, f) == Kids(v);
      assert seq(Size(v), i requires 0 <= i < Size(v) => MapStrings(Kid(v, i), f)) == Kids(v);
      RebuildSame(v);
    }
  }

  lemma {:induction false} IterateIdentity(f: string -> string, n: nat, s: string)
    requires f(s) == s
    ensures Iterate(f, n, s) == s
    decreases n
  {
    if n > 0 {
      IterateIdentity(f, n - 1, s);
    }
  }
}
