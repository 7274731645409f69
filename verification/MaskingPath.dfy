/** The JSONPath subset: the parser of masking.py, and a printer that it inverts. */
module MaskingPath {
  import opened Options
  import opened Text
  import opened MaskingTransform

  predicate IsNameChar(c: char) {
    'A' <= c <= 'Z' || 'a' <= c <= 'z' || IsDigit(c) || c == '_'
  }

  predicate ClosesAt(s: string, i: nat, quote: char) {
    i + 1 < |s| && s[i] == quote && s[i + 1] == ']'
  }

  /** First place where `quote` is followed by a closing bracket. */
  function FindClosing(s: string, quote: char): (at: Option<nat>)
    ensures at.Some? ==> ClosesAt(s, at.value, quote)
    ensures forall i: nat :: ClosesAt(s, i, quote) ==> at.Some? && at.value <= i
  {
    if |s| < 2 then None
    else if ClosesAt(s, 0, quote) then Some(0)
    else
      assert forall i: nat :: ClosesAt(s, i, quote) ==> i > 0 && ClosesAt(s[1..], i - 1, quote);
      match FindClosing(s[1..], quote)
      case Some(i) => Some(i + 1)
      case None => None
  }

  predicate Begins(s: string, c: char) {
    s != [] && s[0] == c
  }

  predicate BeginsWith(s: string, c: char, d: char) {
    |s| >= 2 && s[0] == c && s[1] == d
  }

  // ---- Parser ----

  function ParsePath(path: string): Option<seq<Token>> {
    if path == [] || path[0] != '$' then None
    else ParseTokens(path[1..], [])
  }

  function ParseTokens(rest: string, acc: seq<Token>): Option<seq<Token>>
    decreases |rest|
  {
    if rest == "" then Some(acc)
    else match NextToken(rest)
      case None => None
      case Some((token, remaining)) => ParseTokens(remaining, acc + [token])
  }

  /** The token `rest` starts with, and the text after it. */
  function NextToken(rest: string): (r: Option<(Token, string)>)
    ensures r.Some? ==> |r.value.1| < |rest|
  {
    if BeginsWith(rest, '.', '.') then
      var n := Span(rest[2..], IsNameChar);
      if n == 0 then None else Some((Descendant(rest[2..2 + n]), rest[2 + n..]))
    else if BeginsWith(rest, '.', '*') then Some((Wildcard, rest[2..]))
    else if Begins(rest, '.') then
      var n := Span(rest[1..], IsNameChar);
      if n == 0 then None else Some((Child(rest[1..1 + n]), rest[1 + n..]))
    else if Begins(rest, '[') then ParseBracket(rest[1..])
    else None
  }

  function ParseBracket(rest: string): (r: Option<(Token, string)>)
    ensures r.Some? ==> |r.value.1| < |rest|
  {
    if BeginsWith(rest, '*', ']') then Some((Wildcard, rest[2..]))
    else if Begins(rest, '\'') then ParseQuoted(rest[1..], '\'')
    else if Begins(rest, '"') then ParseQuoted(rest[1..], '"')
    else
      var n := Span(rest, IsDigit);
      if 0 < n < |rest| && rest[n] == ']' then Some((Index(DecimalValue(rest[..n])), rest[n + 1..]))
      else None
  }

  function ParseQuoted(rest: string, quote: char): (r: Option<(Token, string)>)
    ensures r.Some? ==> |r.value.1| < |rest|
  {
    match FindClosing(rest, quote)
    case None => None
    case Some(i) => Some((Child(rest[..i]), rest[i + 2..]))
  }

  // ---- The spellings ----

  // Every way to write a token.
  datatype Spelling =
    | Dotted(name: string)          // .name
    | SingleQuoted(name: string)    // ['name']
    | DoubleQuoted(name: string)    // ["name"]
    | Subscript(digits: string)     // [007]
    | DotStar                       // .*
    | BracketStar                   // [*]
    | Deep(name: string)            // ..name

  /** A run of ASCII letters, digits and underscores. */
  predicate IsName(name: string) {
    name != "" && forall i :: 0 <= i < |name| ==>
      var c := name[i];
      'a' <= c <= 'z' || 'A' <= c <= 'Z' || '0' <= c <= '9' || c == '_'
  }

  /** The quote and a closing bracket do not come together in the name. */
  predicate Quotable(name: string, quote: char) {
    forall i :: 0 <= i < |name| - 1 ==> !(name[i] == quote && name[i + 1] == ']')
  }

  predicate Legal(sp: Spelling) {
    match sp
    case Dotted(name) => IsName(name)
    case SingleQuoted(name) => Quotable(name, '\'')
    case DoubleQuoted(name) => Quotable(name, '"')
    case Subscript(digits) => digits != "" && AllDigits(digits)
    case Deep(name) => IsName(name)
    case _ => true
  }

  function Spell(sp: Spelling): string {
    match sp
    case Dotted(name) => "." + name
    case SingleQuoted(name) => "['" + (name + "']")
    case DoubleQuoted(name) => "[\"" + (name + "\"]")
    case Subscript(digits) => "[" + (digits + "]")
    case DotStar => ".*"
    case BracketStar => "[*]"
    case Deep(name) => ".." + name
  }

  function Meaning(sp: Spelling): Token
    requires Legal(sp)
  {
    match sp
    case Dotted(name) => Child(name)
    case SingleQuoted(name) => Child(name)
    case DoubleQuoted(name) => Child(name)
    case Subscript(digits) => Index(DecimalValue(digits))
    case DotStar => Wildcard
    case BracketStar => Wildcard
    case Deep(name) => Descendant(name)
  }

  predicate AllLegal(sps: seq<Spelling>) {
    forall i :: 0 <= i < |sps| ==> Legal(sps[i])
  }

  function SpellAll(sps: seq<Spelling>): string {
    if sps == [] then "" else Spell(sps[0]) + SpellAll(sps[1..])
  }

  function Meanings(sps: seq<Spelling>): (ts: seq<Token>)
    requires AllLegal(sps)
    ensures |ts| == |sps| && forall i :: 0 <= i < |sps| ==> ts[i] == Meaning(sps[i])
  {
    seq(|sps|, i requires 0 <= i < |sps| => Meaning(sps[i]))
  }

  // ---- The parser reads every spelling ----

  lemma NameSpan(name: string, tail: string)
    requires IsName(name) && (tail == "" || !IsNameChar(tail[0]))
    ensures Span(name + tail, IsNameChar) == |name|
    ensures (name + tail)[..|name|] == name && (name + tail)[|name|..] == tail
  {
    SpanStops(name, tail, IsNameChar);
  }

  lemma DottedRead(name: string, tail: string)
    requires IsName(name) && (tail == "" || !IsNameChar(tail[0]))
    ensures NextToken("." + name + tail) == Some((Child(name), tail))
  {
    var text := "." + name + tail;
    NameSpan(name, tail);
    assert text[1..] == name + tail && text[1] == name[0];
    assert text[1..1 + |name|] == name && text[1 + |name|..] == tail;
  }

  lemma DeepRead(name: string, tail: string)
    requires IsName(name) && (tail == "" || !IsNameChar(tail[0]))
    ensures NextToken(".." + name + tail) == Some((Descendant(name), tail))
  {
    var text := ".." + name + tail;
    NameSpan(name, tail);
    assert text[2..] == name + tail;
    assert text[2..2 + |name|] == name && text[2 + |name|..] == tail;
  }

  lemma ClosingFound(name: string, quote: char, tail: string)
    requires Quotable(name, quote) && quote != ']'
    ensures FindClosing(name + [quote, ']'] + tail, quote) == Some(|name|)
  {
    var s := name + [quote, ']'] + tail;
    assert ClosesAt(s, |name|, quote);
    forall i: nat | i < |name| ensures !ClosesAt(s, i, quote) {
      assert s[i] == name[i] && (i + 1 < |name| ==> s[i + 1] == name[i + 1]);
    }
  }

  lemma BracketRead(inner: string, t: Token, tail: string)
    requires ParseBracket(inner) == Some((t, tail))
    ensures NextToken("[" + inner) == Some((t, tail))
  {
    assert ("[" + inner)[1..] == inner;
  }

  lemma QuotedRead(name: string, quote: char, tail: string)
    requires Quotable(name, quote) && (quote == '\'' || quote == '"')
    ensures ParseBracket([quote] + (name + [quote, ']'] + tail)) == Some((Child(name), tail))
  {
    var inner := name + [quote, ']'] + tail;
    ClosingFound(name, quote, tail);
    assert ([quote] + inner)[1..] == inner && ([quote] + inner)[0] == quote;
    assert inner[..|name|] == name && inner[|name| + 2..] == tail;
  }

  lemma QuotedText(name: string, quote: char, tail: string)
    ensures ['[', quote] + (name + [quote, ']']) + tail == "[" + ([quote] + (name + [quote, ']'] + tail))
  {
    assert ['[', quote] == "[" + [quote];
  }

  lemma SubscriptRead(digits: string, tail: string)
    requires digits != "" && AllDigits(digits)
    ensures NextToken("[" + (digits + "]") + tail) == Some((Index(DecimalValue(digits)), tail))
  {
    var inner := digits + ("]" + tail);
    SpanStops(digits, "]" + tail, IsDigit);
    assert inner[..|digits|] == digits && inner[|digits| + 1..] == tail;
    assert IsDigit(inner[0]);
    BracketRead(inner, Index(DecimalValue(digits)), tail);
    assert "[" + (digits + "]") + tail == "[" + inner;
  }

  lemma StarRead(tail: string)
    ensures NextToken(".*" + tail) == Some((Wildcard, tail)) && NextToken("[*]" + tail) == Some((Wildcard, tail))
  {
    assert (".*" + tail)[2..] == tail;
    var inner := "*]" + tail;
    assert inner[2..] == tail && "[*]" + tail == "[" + inner;
    BracketRead(inner, Wildcard, tail);
  }

  /** One token, with whatever may follow it. */
  lemma SpellingRead(sp: Spelling, tail: string)
    requires Legal(sp) && (sp.Dotted? || sp.Deep? ==> tail == "" || !IsNameChar(tail[0]))
    ensures NextToken(Spell(sp) + tail) == Some((Meaning(sp), tail))
  {
    match sp
    case Dotted(name) => DottedRead(name, tail);
    case SingleQuoted(name) =>
      QuotedRead(name, '\'', tail);
      BracketRead(['\''] + (name + ['\'', ']'] + tail), Child(name), tail);
      QuotedText(name, '\'', tail);
    case DoubleQuoted(name) =>
      QuotedRead(name, '"', tail);
      BracketRead(['"'] + (name + ['"', ']'] + tail), Child(name), tail);
      QuotedText(name, '"', tail);
    case Subscript(digits) => SubscriptRead(digits, tail);
    case DotStar => StarRead(tail);
    case BracketStar => StarRead(tail);
    case Deep(name) => DeepRead(name, tail);
  }

  /** What follows a token never extends a name. */
  lemma SpelledHead(sps: seq<Spelling>)
    ensures SpellAll(sps) == "" || !IsNameChar(SpellAll(sps)[0])
  {
  }

  lemma MeaningsCons(sp: Spelling, more: seq<Spelling>)
    requires Legal(sp) && AllLegal(more)
    ensures AllLegal([sp] + more) && Meanings([sp] + more) == [Meaning(sp)] + Meanings(more)
  {
    var sps := [sp] + more;
    assert forall i :: 1 <= i < |sps| ==> sps[i] == more[i - 1];
  }

  lemma SpellCons(sp: Spelling, more: seq<Spelling>)
    ensures SpellAll([sp] + more) == Spell(sp) + SpellAll(more)
  {
    assert ([sp] + more)[1..] == more;
  }

  lemma RegroupTokens(a: seq<Token>, b: seq<Token>, c: seq<Token>)
    ensures (a + b) + c == a + (b + c)
  {
  }

  lemma SpellingsCons(sp: Spelling, more: seq<Spelling>, acc: seq<Token>)
    requires Legal(sp) && AllLegal(more)
    ensures AllLegal([sp] + more) && SpellAll([sp] + more) == Spell(sp) + SpellAll(more)
    ensures acc + [Meaning(sp)] + Meanings(more) == acc + Meanings([sp] + more)
  {
    SpellCons(sp, more);
    MeaningsCons(sp, more);
    RegroupTokens(acc, [Meaning(sp)], Meanings(more));
  }

  lemma {:induction false} SpelledTokens(sps: seq<Spelling>, acc: seq<Token>)
    requires AllLegal(sps)
    ensures ParseTokens(SpellAll(sps), acc) == Some(acc + Meanings(sps))
    decreases |sps|
  {
    if sps == [] {
      assert acc + [] == acc;
    } else {
      var sp, more := sps[0], sps[1..];
      assert sps == [sp] + more;
      SpelledHead(more);
      SpellingRead(sp, SpellAll(more));
      SpelledTokens(more, acc + [Meaning(sp)]);
      SpellingsCons(sp, more, acc);
    }
  }

  /** Parsing inverts every spelling, whichever is chosen for each token. */
  lemma ParseSpelled(sps: seq<Spelling>)
    requires AllLegal(sps)
    ensures ParsePath("$" + SpellAll(sps)) == Some(Meanings(sps))
  {
    SpelledTokens(sps, []);
    assert ("$" + SpellAll(sps))[1..] == SpellAll(sps) && [] + Meanings(sps) == Meanings(sps);
  }

  // ---- ... and nothing else ----

  lemma Regroup(a: string, b: string, c: string)
    ensures (a + b) + c == a + (b + c)
  {
  }

  lemma NameSpelling(body: string) returns (name: string, tail: string)
    requires Span(body, IsNameChar) > 0
    ensures IsName(name) && body == name + tail && (tail == "" || !IsNameChar(tail[0]))
  {
    var n := Span(body, IsNameChar);
    name, tail := body[..n], body[n..];
  }

  lemma QuotedSpelling(body: string, quote: char) returns (name: string, tail: string)
    requires FindClosing(body, quote).Some?
    ensures Quotable(name, quote) && body == name + ([quote, ']'] + tail)
  {
    var i := FindClosing(body, quote).value;
    name, tail := body[..i], body[i + 2..];
    forall j | 0 <= j && j + 1 < i ensures !(name[j] == quote && name[j + 1] == ']') {
      assert !ClosesAt(body, j, quote);
    }
    assert body[i..] == [quote, ']'] + tail;
  }

  lemma DigitsSpelling(body: string) returns (digits: string, tail: string)
    requires 0 < Span(body, IsDigit) < |body| && body[Span(body, IsDigit)] == ']'
    ensures digits != "" && AllDigits(digits) && body == digits + ("]" + tail)
  {
    var n := Span(body, IsDigit);
    digits, tail := body[..n], body[n + 1..];
    assert body[n..] == "]" + tail;
  }

  lemma BracketSpelling(rest: string) returns (sp: Spelling, tail: string)
    requires ParseBracket(rest).Some?
    ensures Legal(sp) && !sp.Dotted? && !sp.Deep? && "[" + rest == Spell(sp) + tail
  {
    if BeginsWith(rest, '*', ']') {
      sp, tail := BracketStar, rest[2..];
      assert rest == "*]" + tail;
    } else if Begins(rest, '\'') || Begins(rest, '"') {
      var quote, body, name := rest[0], rest[1..], "";
      name, tail := QuotedSpelling(body, quote);
      sp := if quote == '\'' then SingleQuoted(name) else DoubleQuoted(name);
      assert rest == [quote] + body;
      Regroup(name, [quote, ']'], tail);
      QuotedText(name, quote, tail);
    } else {
      var digits;
      digits, tail := DigitsSpelling(rest);
      sp := Subscript(digits);
      Regroup(digits, "]", tail);
      Regroup("[", digits + "]", tail);
    }
  }

  lemma DottedSpelling(rest: string) returns (sp: Spelling, tail: string)
    requires NextToken(rest).Some? && Begins(rest, '.')
    ensures Legal(sp) && rest == Spell(sp) + tail && (sp == DotStar || tail == "" || !IsNameChar(tail[0]))
  {
    var name;
    if BeginsWith(rest, '.', '.') {
      name, tail := NameSpelling(rest[2..]);
      sp := Deep(name);
      assert rest == ".." + rest[2..];
      Regroup("..", name, tail);
    } else if BeginsWith(rest, '.', '*') {
      sp, tail := DotStar, rest[2..];
    } else {
      name, tail := NameSpelling(rest[1..]);
      sp := Dotted(name);
      assert rest == "." + rest[1..];
      Regroup(".", name, tail);
    }
  }

  lemma TokenSpelling(rest: string) returns (sp: Spelling, tail: string)
    requires NextToken(rest).Some?
    ensures Legal(sp) && rest == Spell(sp) + tail && NextToken(rest) == Some((Meaning(sp), tail))
  {
    if Begins(rest, '.') {
      sp, tail := DottedSpelling(rest);
    } else {
      sp, tail := BracketSpelling(rest[1..]);
      assert rest == "[" + rest[1..];
    }
    SpellingRead(sp, tail);
  }

  lemma {:induction false} TokensSpelling(rest: string, acc: seq<Token>) returns (sps: seq<Spelling>)
    requires ParseTokens(rest, acc).Some?
    ensures AllLegal(sps) && rest == SpellAll(sps) && ParseTokens(rest, acc) == Some(acc + Meanings(sps))
    decreases |rest|
  {
    if rest == "" {
      sps := [];
      assert acc + [] == acc;
    } else {
      var sp, tail := TokenSpelling(rest);
      var more := TokensSpelling(tail, acc + [Meaning(sp)]);
      sps := [sp] + more;
      SpellingsCons(sp, more, acc);
    }
  }

  ghost predicate Spells(path: string, ts: seq<Token>, sps: seq<Spelling>) {
    AllLegal(sps) && path == "$" + SpellAll(sps) && ts == Meanings(sps)
  }

  /** The parser accepts exactly the spellings, and gives each its meaning. */
  lemma ParsesExactly(path: string, ts: seq<Token>)
    ensures ParsePath(path) == Some(ts) <==> exists sps :: Spells(path, ts, sps)
  {
    if ParsePath(path) == Some(ts) {
      var sps := TokensSpelling(path[1..], []);
      assert path == "$" + path[1..] && [] + Meanings(sps) == Meanings(sps);
      assert Spells(path, ts, sps);
    }
    forall sps | Spells(path, ts, sps) ensures ParsePath(path) == Some(ts) {
      ParseSpelled(sps);
    }
  }

  // ---- A printer ----

  /** The tokens that have a spelling: a child name must avoid one of the two closing
      sequences, a recursive-descent name is a non-empty run of name characters. */
  predicate Printable(t: Token) {
    match t
    case Child(name) => Quotable(name, '\'') || Quotable(name, '"')
    case Descendant(name) => IsName(name)
    case _ => true
  }

  predicate AllPrintable(ts: seq<Token>) {
    forall i :: 0 <= i < |ts| ==> Printable(ts[i])
  }

  function Usual(t: Token): (sp: Spelling)
    requires Printable(t)
    ensures Legal(sp) && Meaning(sp) == t
  {
    match t
    case Child(name) => if Quotable(name, '\'') then SingleQuoted(name) else DoubleQuoted(name)
    case Index(n) => Subscript(Decimal(n))
    case Wildcard => DotStar
    case Descendant(name) => Deep(name)
  }

  function Print(ts: seq<Token>): string
    requires AllPrintable(ts)
  {
    "$" + SpellAll(seq(|ts|, i requires 0 <= i < |ts| => Usual(ts[i])))
  }

  lemma ParsePrinted(ts: seq<Token>)
    requires AllPrintable(ts)
    ensures ParsePath(Print(ts)) == Some(ts)
  {
    var sps := seq(|ts|, i requires 0 <= i < |ts| => Usual(ts[i]));
    ParseSpelled(sps);
    assert Meanings(sps) == ts;
  }

  lemma SpelledIsPrintable(sp: Spelling)
    requires Legal(sp)
    ensures Printable(Meaning(sp))
  {
    if sp.Dotted? {
      assert Quotable(sp.name, '\'');
    }
  }

  /** A token list is what some path parses to exactly when every token has a spelling. */
  lemma ParserRange(ts: seq<Token>)
    ensures AllPrintable(ts) <==> exists path :: ParsePath(path) == Some(ts)
  {
    if AllPrintable(ts) {
      ParsePrinted(ts);
    }
    forall path | ParsePath(path) == Some(ts) ensures AllPrintable(ts) {
      ParsesExactly(path, ts);
      var sps :| Spells(path, ts, sps);
      forall i | 0 <= i < |ts| ensures Printable(ts[i]) {
        SpelledIsPrintable(sps[i]);
      }
    }
  }

  /** Printing an accepted path again gives a path with the same meaning. */
  lemma ReprintStable(path: string)
    requires ParsePath(path).Some?
    ensures AllPrintable(ParsePath(path).value)
    ensures ParsePath(Print(ParsePath(path).value)) == ParsePath(path)
  {
    ParserRange(ParsePath(path).value);
    ParsePrinted(ParsePath(path).value);
  }
}
