/** What one masking rule does to a payload, in terms of the rule's own fields and of the payload
    field before and after. */
module MaskingRules {
  import opened Options
  import opened JsonValues
  import opened MaskingTransform
  import opened MaskingPath
  import opened MaskingLaws
  import opened MaskingRegex
  import opened Masking

  // ---- Which field a rule is for, and which rules count ----

  /** The payload keys that intake reads, by record type and masking target. */
  predicate WireField(recordType: string, target: string, key: string) {
    || (recordType == "request" && target == "request_body" && key == "request")
    || (recordType == "request" && target == "request_headers" && key == "headers")
    || (recordType == "request" && target == "path" && key == "path")
    || (recordType == "response" && target == "response_body" && key == "body")
    || (recordType == "error" && target == "error_message" && key == "message")
  }

  lemma FieldKeyIsWireField(recordType: string, target: string, key: string)
    ensures FieldKey(recordType, target) == Some(key) <==> WireField(recordType, target, key)
  {
  }

  lemma {:induction false} RulesInTurn(lib: Libraries, payload: Payload, recordType: string, a: seq<Rule>, b: seq<Rule>)
    requires Lawful(lib)
    ensures ApplyRules(lib, payload, recordType, a + b)
         == ApplyRules(lib, ApplyRules(lib, payload, recordType, a), recordType, b)
    decreases |a|
  {
    if a == [] {
      assert a + b == b;
    } else {
      var next := if Active(a[0]) then ApplyRule(lib, payload, recordType, a[0]) else payload;
      assert (a + b)[1..] == a[1..] + b;
      RulesInTurn(lib, next, recordType, a[1..], b);
    }
  }

  /** An entry that is no rule, is switched off, or names a target this record type does not have
      may as well not be in the list. */
  lemma IdleRulesCanGo(lib: Libraries, payload: Payload, recordType: string, a: seq<Rule>, rule: Rule, b: seq<Rule>)
    requires Lawful(lib)
    requires rule.NotARule? || !rule.enabled || forall key :: !WireField(recordType, rule.target, key)
    ensures ApplyRules(lib, payload, recordType, a + [rule] + b) == ApplyRules(lib, payload, recordType, a + b)
  {
    var before := ApplyRules(lib, payload, recordType, a);
    RulesInTurn(lib, payload, recordType, a + [rule], b);
    RulesInTurn(lib, payload, recordType, a, [rule]);
    RulesInTurn(lib, payload, recordType, a, b);
    assert [rule][1..] == [];
    if Active(rule) && FieldKey(recordType, rule.target).Some? {
      FieldKeyIsWireField(recordType, rule.target, FieldKey(recordType, rule.target).value);
    }
  }

  lemma OnlyRule(lib: Libraries, payload: Payload, recordType: string, rule: Rule, key: string)
    requires Lawful(lib) && rule.Rule? && rule.enabled && WireField(recordType, rule.target, key)
    requires key in payload && payload[key] != Null
    ensures ApplyRules(lib, payload, recordType, [rule]) == payload[key := MaskField(lib, payload[key], rule)]
  {
    FieldKeyIsWireField(recordType, rule.target, key);
    assert [rule][1..] == [];
  }

  // ---- What the rule's fields mean ----

  predicate IsBody(target: string) {
    target == "request_body" || target == "response_body"
  }

  /** What the rule writes: "..." unless it says something else. */
  predicate Writes(rule: Rule, repl: string)
    requires rule.Rule?
  {
    repl == if rule.replacement == None || rule.replacement == Some("") then "..." else rule.replacement.value
  }

  /** The path of the rule: absent, or one that parses. */
  predicate Leads(rule: Rule, tokens: Option<seq<Token>>)
    requires rule.Rule?
  {
    if rule.path == None || rule.path == Some("") then tokens == None
    else tokens.Some? && ParsePath(rule.path.value) == tokens
  }

  /** The value the rule's path and expression are applied to, if it is no plain text. */
  function Readable(lib: Libraries, target: string, value: Json): Option<Json> {
    match value
    case Obj(_) => Some(value)
    case Str(text) => if IsBody(target) then lib.loads(text) else None
    case _ => None
  }

  /** The same of the field afterwards: text is read again, anything else is taken as it is. */
  function ReadBack(lib: Libraries, value: Json, after: Json): Option<Json> {
    if value.Str? then (if after.Str? then lib.loads(after.s) else None) else Some(after)
  }

  // ---- Rules with an expression ----

  /** How often a rule rewrites the string at a position: once without a path, else once for every
      way in which the path leads to it or above it. */
  function Times(tokens: Option<seq<Token>>, p: Path): nat {
    match tokens
    case None => 1
    case Some(ts) => Ways(ts, p)
  }

  lemma {:induction false} RewriteNumerals(v: Json, times: Path -> nat, f: string -> string, kind: string -> bool)
    requires NumeralsIn(v, kind)
    ensures NumeralsIn(Rewrite(v, times, f), kind)
    decreases v
  {
    var kids := RewriteKids(v, times, f);
    var out := Rewrite(v, times, f);
    forall i | 0 <= i < Size(out) ensures NumeralsIn(Kid(out, i), kind) {
      assert Kid(out, i) == kids[i];
      RewriteNumerals(Kid(v, i), Below(times, StepTo(v, i)), f, kind);
    }
  }

  /** What path and expression make of a value, read position by position. */
  ghost predicate RewritesStrings(before: Json, after: Json, tokens: Option<seq<Token>>, f: string -> string, p: Path) {
    match Locate(before, p)
    case Some(Str(s)) => Locate(after, p) == Some(Str(Iterate(f, Times(tokens, p), s)))
    case _ => SkeletonAt(after, p) == SkeletonAt(before, p)
  }

  lemma ApplyRewrites(v: Json, tokens: Option<seq<Token>>, re: Matcher, repl: string, kind: string -> bool, p: Path)
    requires WellFormed(v) && Sound(re) && NumeralsIn(v, kind)
    ensures var out := ApplyToValue(v, tokens, Some(re), repl);
      && RewritesStrings(v, out, tokens, s => ReplaceAll(re, s, repl), p)
      && WellFormed(out) && NumeralsIn(out, kind)
  {
    var f := ReplaceStrings(re, repl);
    var times: Path -> nat := q => Times(tokens, q);
    var out := ApplyToValue(v, tokens, Some(re), repl);
    assert out == Rewrite(v, times, f) by {
      if tokens.Some? {
        TransformStringsIsRewrite(v, tokens.value, f);
        RewriteCongruence(v, WaysOf(tokens.value), times, f);
      } else {
        MapStringsIsRewrite(v, times, f);
      }
    }
    RewriteAt(v, times, f, p);
    RewriteWellFormed(v, times, f);
    RewriteNumerals(v, times, f, kind);
    SameIterates(f, s => ReplaceAll(re, s, repl), times(p));
  }

  lemma SameIterates(f: string -> string, g: string -> string, n: nat)
    requires forall s :: f(s) == g(s)
    ensures forall s :: Iterate(f, n, s) == Iterate(g, n, s)
  {
    forall s ensures Iterate(f, n, s) == Iterate(g, n, s) {
      IteratesAlike(f, g, n, s);
    }
  }

  lemma {:induction false} IteratesAlike(f: string -> string, g: string -> string, n: nat, s: string)
    requires forall s :: f(s) == g(s)
    ensures Iterate(f, n, s) == Iterate(g, n, s)
    decreases n
  {
    if n > 0 {
      IteratesAlike(f, g, n - 1, f(s));
    }
  }

  /** The masked field, read position by position. */
  ghost predicate RegexMasks(
      lib: Libraries, target: string, value: Json, after: Json, tokens: Option<seq<Token>>, f: string -> string, p: Path)
  {
    match Readable(lib, target, value)
    case Some(before) =>
      var back := ReadBack(lib, value, after);
      back.Some? && RewritesStrings(before, back.value, tokens, f, p)
    case None => after == if value.Str? then Str(f(value.s)) else value
  }

  lemma MaskFieldByRegex(
      lib: Libraries, value: Json, rule: Rule, re: Matcher, tokens: Option<seq<Token>>, repl: string, p: Path)
    requires Lawful(lib) && WellFormed(value) && rule.Rule?
    requires rule.regex.Some? && rule.regex.value != "" && lib.compile(rule.regex.value) == Some(re)
    requires Leads(rule, tokens) && Writes(rule, repl)
    ensures Sound(re)
    ensures RegexMasks(lib, rule.target, value, MaskField(lib, value, rule), tokens, s => ReplaceAll(re, s, repl), p)
  {
    assert Tokens(rule) == tokens && Regexp(lib, rule) == Some(re) && Replacement(rule) == repl;
    var kind: string -> bool := if value.Str? then lib.numeral else _ => true;
    var readable := Readable(lib, rule.target, value);
    if readable.Some? {
      var before := readable.value;
      if value.Obj? {
        EveryNumeral(value);
      } else {
        assert Codable(lib, before);
      }
      ApplyRewrites(before, tokens, re, repl, kind, p);
    }
  }

  lemma {:induction false} EveryNumeral(v: Json)
    ensures NumeralsIn(v, _ => true)
    decreases v
  {
    forall i | 0 <= i < Size(v) ensures NumeralsIn(Kid(v, i), _ => true) {
      EveryNumeral(Kid(v, i));
    }
  }

  /**
   * A rule with an expression, alone in its list: in the field it is for, every string is rewritten
   * with each match replaced, once if the rule has no path, else once for every way in which the
   * path leads to it or above it; every other node is what it was. Text that is no body, or does
   * not decode, is rewritten as a whole.
   */
  lemma RegexRuleMasks(
      lib: Libraries, payload: Payload, recordType: string, rule: Rule, key: string,
      re: Matcher, tokens: Option<seq<Token>>, repl: string, p: Path)
    requires Lawful(lib) && rule.Rule? && rule.enabled && WireField(recordType, rule.target, key)
    requires key in payload && payload[key] != Null && WellFormed(payload[key])
    requires rule.regex.Some? && rule.regex.value != "" && lib.compile(rule.regex.value) == Some(re)
    requires Leads(rule, tokens) && Writes(rule, repl)
    ensures Sound(re)
    ensures var out := ApplyRules(lib, payload, recordType, [rule]);
      key in out && RegexMasks(lib, rule.target, payload[key], out[key], tokens, s => ReplaceAll(re, s, repl), p)
  {
    OnlyRule(lib, payload, recordType, rule, key);
    MaskFieldByRegex(lib, payload[key], rule, re, tokens, repl, p);
  }

  // ---- Rules with a path alone ----

  /** Outermost selected positions hold the replacement; what is not selected is what it was. */
  ghost predicate Replaced(before: Json, after: Json, tokens: seq<Token>, repl: string, p: Path) {
    SelectedAbove(tokens, p) ||
    (if Matches(tokens, p) then Locate(before, p).Some? ==> Locate(after, p) == Some(Str(repl))
     else SkeletonAt(after, p) == SkeletonAt(before, p))
  }

  ghost predicate PathMasks(
      lib: Libraries, target: string, value: Json, after: Json, tokens: seq<Token>, repl: string, p: Path)
  {
    match Readable(lib, target, value)
    case Some(before) =>
      var back := ReadBack(lib, value, after);
      back.Some? && Replaced(before, back.value, tokens, repl, p)
    case None => after == value
  }

  /** A rule with a path and no expression: the outermost selected positions of the field hold the
      replacement, everything outside them is what it was, and plain text is left alone. */
  lemma PathRuleMasks(
      lib: Libraries, payload: Payload, recordType: string, rule: Rule, key: string, tokens: seq<Token>, repl: string, p: Path)
    requires Lawful(lib) && rule.Rule? && rule.enabled && WireField(recordType, rule.target, key)
    requires key in payload && payload[key] != Null && WellFormed(payload[key])
    requires rule.regex == None || rule.regex == Some("") || lib.compile(rule.regex.value).None?
    requires Leads(rule, Some(tokens)) && Writes(rule, repl)
    ensures var out := ApplyRules(lib, payload, recordType, [rule]);
      key in out && PathMasks(lib, rule.target, payload[key], out[key], tokens, repl, p)
  {
    OnlyRule(lib, payload, recordType, rule, key);
    assert Tokens(rule) == Some(tokens) && Regexp(lib, rule) == None && Replacement(rule) == repl;
    var value := payload[key];
    var readable := Readable(lib, rule.target, value);
    if readable.Some? {
      if value.Str? {
        CodableMasked(lib, readable.value, tokens, repl);
      }
      MaskReplacesOutermost(readable.value, tokens, repl, p);
    }
  }
}
