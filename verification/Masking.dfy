/** The masking engine: rules applied to outgoing payloads. The JSON codec and the regular
    expression compiler are oracles handed in with `Libraries`. */
module Masking {
  import opened Options
  import opened JsonValues
  import opened MaskingTransform
  import opened MaskingPath
  import opened MaskingLaws
  import opened MaskingRegex

  // `numeral` tells the spellings of numbers that the encoder writes.
  datatype Libraries = Libraries(
    loads: string -> Option<Json>,
    dumps: Json -> string,
    numeral: string -> bool,
    compile: string -> Option<Matcher>)

  /** The values the JSON codec deals in. */
  ghost predicate Codable(lib: Libraries, v: Json) {
    WellFormed(v) && NumeralsIn(v, lib.numeral)
  }

  /** What the model relies on: decoding yields values the codec can write, and undoes their
      encoding; and compiled expressions search within bounds. */
  ghost predicate Lawful(lib: Libraries) {
    && (forall v :: Codable(lib, v) ==> lib.loads(lib.dumps(v)) == Some(v))
    && (forall text :: lib.loads(text).Some? ==> Codable(lib, lib.loads(text).value))
    && (forall regex :: lib.compile(regex).Some? ==> Sound(lib.compile(regex).value))
  }

  // A rule as configured; an entry that is not a dict is skipped.
  datatype Rule =
    | NotARule
    | Rule(enabled: bool, target: string, path: Option<string>, regex: Option<string>, replacement: Option<string>)

  // A wire payload: field name to value, Null standing for None.
  type Payload = map<string, Json>

  predicate JsonTarget(target: string) {
    target == "request_body" || target == "response_body"
  }

  /** The payload field a masking target names in a record of this type. */
  function FieldKey(recordType: string, target: string): Option<string> {
    if recordType == "request" && target == "request_body" then Some("request")
    else if recordType == "request" && target == "request_headers" then Some("headers")
    else if recordType == "request" && target == "path" then Some("path")
    else if recordType == "response" && target == "response_body" then Some("body")
    else if recordType == "error" && target == "error_message" then Some("message")
    else None
  }

  predicate Given(field: Option<string>) {
    field.Some? && field.value != ""
  }

  function Replacement(rule: Rule): string
    requires rule.Rule?
  {
    if Given(rule.replacement) then rule.replacement.value else "..."
  }

  function Tokens(rule: Rule): Option<seq<Token>>
    requires rule.Rule?
  {
    if Given(rule.path) then ParsePath(rule.path.value) else None
  }

  /** A rule whose path does not parse uses no expression either; an expression that does not
      compile leaves the path in force. */
  function Regexp(lib: Libraries, rule: Rule): Option<Matcher>
    requires rule.Rule?
  {
    if (Given(rule.path) && Tokens(rule).None?) || !Given(rule.regex) then None
    else lib.compile(rule.regex.value)
  }

  function ReplaceStrings(regexp: Matcher, repl: string): string -> string
    requires Sound(regexp)
  {
    s => ReplaceAll(regexp, s, repl)
  }

  function ApplyToValue(v: Json, tokens: Option<seq<Token>>, regexp: Option<Matcher>, repl: string): Json
    requires regexp.Some? ==> Sound(regexp.value)
  {
    match (tokens, regexp)
    case (Some(ts), Some(re)) => Transform(v, ts, x => MapStrings(x, ReplaceStrings(re, repl)))
    case (Some(ts), None) => Transform(v, ts, _ => Str(repl))
    case (None, Some(re)) => MapStrings(v, ReplaceStrings(re, repl))
    case (None, None) => v
  }

  function ApplyToRawString(text: string, regexp: Option<Matcher>, repl: string): string
    requires regexp.Some? ==> Sound(regexp.value)
  {
    match regexp
    case Some(re) => ReplaceAll(re, text, repl)
    case None => text
  }

  function MaskField(lib: Libraries, value: Json, rule: Rule): Json
    requires Lawful(lib) && rule.Rule?
  {
    var tokens, regexp, repl := Tokens(rule), Regexp(lib, rule), Replacement(rule);
    match value
    case Str(text) =>
      if JsonTarget(rule.target) then
        match lib.loads(text)
        case None => Str(ApplyToRawString(text, regexp, repl))
        case Some(decoded) => Str(lib.dumps(ApplyToValue(decoded, tokens, regexp, repl)))
      else Str(ApplyToRawString(text, regexp, repl))
    case Obj(_) => ApplyToValue(value, tokens, regexp, repl)
    case _ => value
  }

  function ApplyRule(lib: Libraries, payload: Payload, recordType: string, rule: Rule): Payload
    requires Lawful(lib) && rule.Rule?
  {
    match FieldKey(recordType, rule.target)
    case None => payload
    case Some(key) =>
      if key !in payload || payload[key] == Null then payload
      else payload[key := MaskField(lib, payload[key], rule)]
  }

  predicate Active(rule: Rule) {
    rule.Rule? && rule.enabled
  }

  /** The payload after all rules, from the first to the last. */
  function ApplyRules(lib: Libraries, payload: Payload, recordType: string, rules: seq<Rule>): Payload
    requires Lawful(lib)
    decreases |rules|
  {
    if rules == [] then payload
    else if !Active(rules[0]) then ApplyRules(lib, payload, recordType, rules[1..])
    else ApplyRules(lib, ApplyRule(lib, payload, recordType, rules[0]), recordType, rules[1..])
  }

  /** The loop of `apply`, before the user's hook runs. */
  method Apply(lib: Libraries, payload: Payload, recordType: string, rules: seq<Rule>) returns (masked: Payload)
    requires Lawful(lib)
    ensures masked == ApplyRules(lib, payload, recordType, rules)
  {
    masked := payload;
    assert rules[0..] == rules;
    for i := 0 to |rules|
      invariant ApplyRules(lib, masked, recordType, rules[i..]) == ApplyRules(lib, payload, recordType, rules)
    {
      assert rules[i..][1..] == rules[i + 1..];
      if Active(rules[i]) {
        masked := ApplyRule(lib, masked, recordType, rules[i]);
      }
    }
  }

  // ---- What stays as it was ----

  ghost predicate Targeted(recordType: string, rules: seq<Rule>, key: string) {
    exists r :: r in rules && Active(r) && FieldKey(recordType, r.target) == Some(key)
  }

  /** Rules add and remove no field, and a field that no active rule targets is unchanged. */
  lemma {:induction false} OnlyTargetsChange(lib: Libraries, payload: Payload, recordType: string, rules: seq<Rule>)
    requires Lawful(lib)
    ensures var out := ApplyRules(lib, payload, recordType, rules);
      && out.Keys == payload.Keys
      && forall k :: k in payload && !Targeted(recordType, rules, k) ==> out[k] == payload[k]
    decreases |rules|
  {
    if rules != [] {
      var next := if Active(rules[0]) then ApplyRule(lib, payload, recordType, rules[0]) else payload;
      OnlyTargetsChange(lib, next, recordType, rules[1..]);
      assert forall k :: Targeted(recordType, rules[1..], k) ==> Targeted(recordType, rules, k);
      assert forall k :: k in payload && !Targeted(recordType, rules, k) ==> next[k] == payload[k];
    }
  }

  /** An expression that does not compile leaves the rule what it is without one. */
  lemma BadRegexFallsBackToPath(lib: Libraries, value: Json, rule: Rule)
    requires Lawful(lib) && rule.Rule? && Given(rule.regex)
    requires lib.compile(rule.regex.value).None?
    ensures MaskField(lib, value, rule) == MaskField(lib, value, rule.(regex := None))
  {
    assert Tokens(rule) == Tokens(rule.(regex := None));
  }

  /** A path that does not parse disables the rule: at most the body is encoded afresh. */
  lemma BadPathMasksNothing(lib: Libraries, value: Json, rule: Rule)
    requires Lawful(lib) && rule.Rule? && Given(rule.path) && ParsePath(rule.path.value).None?
    ensures Decoded(lib, rule.target, MaskField(lib, value, rule)) == Decoded(lib, rule.target, value)
  {
  }

  /** A field as its reader sees it: the text of a JSON target decoded if it can be. */
  function Decoded(lib: Libraries, target: string, value: Json): Json {
    if value.Str? && JsonTarget(target) && lib.loads(value.s).Some? then lib.loads(value.s).value
    else value
  }

  /** Paths apply to dicts, and to text of a JSON target that decodes. */
  predicate PathApplies(lib: Libraries, target: string, value: Json) {
    value.Obj? || (value.Str? && JsonTarget(target) && lib.loads(value.s).Some?)
  }

  /** Text is compared as its reader sees it; any other value as it is. */
  predicate LooksTheSame(lib: Libraries, target: string, before: Json, after: Json) {
    if before.Str? then Decoded(lib, target, after) == Decoded(lib, target, before) else after == before
  }

  lemma {:induction false} CodableMasked(lib: Libraries, v: Json, tokens: seq<Token>, repl: string)
    requires Codable(lib, v)
    ensures Codable(lib, Transform(v, tokens, _ => Str(repl)))
  {
    var sel, mask := Selected(tokens), Str(repl);
    TransformIsReplace(v, tokens, _ => mask, mask);
    ReplaceWellFormed(v, sel, mask);
    ReplaceNumerals(v, sel, mask, lib.numeral);
  }

  /** A rule whose expression does not compile is without effect exactly when its path is absent
      or malformed, does not apply to the field, or selects nothing but the replacement itself. */
  lemma BadRegexIsNoOp(lib: Libraries, value: Json, rule: Rule)
    requires Lawful(lib) && WellFormed(value) && rule.Rule? && Given(rule.regex)
    requires lib.compile(rule.regex.value).None?
    ensures LooksTheSame(lib, rule.target, value, MaskField(lib, value, rule)) <==>
      (Tokens(rule).None? || !PathApplies(lib, rule.target, value)
       || Idle(Decoded(lib, rule.target, value), Tokens(rule).value, Replacement(rule)))
  {
    if Tokens(rule).Some? && PathApplies(lib, rule.target, value) {
      var ts, repl, decoded := Tokens(rule).value, Replacement(rule), Decoded(lib, rule.target, value);
      MaskIsIdle(decoded, ts, repl);
      if value.Str? {
        CodableMasked(lib, decoded, ts, repl);
      }
    }
  }

  /** And it can have an effect: this path still masks a header beside an expression that does
      not compile. */
  lemma BadRegexStillMasks(lib: Libraries, regex: string)
    requires Lawful(lib) && regex != "" && lib.compile(regex).None?
    ensures var rule := Rule(true, "request_headers", Some(Print([Child("a")])), Some(regex), None);
      var headers := Obj([Member("a", Str("x"))]);
      Decoded(lib, rule.target, MaskField(lib, headers, rule)) == Obj([Member("a", Str("..."))])
        != Decoded(lib, rule.target, headers)
  {
    var ts := [Child("a")];
    assert Printable(Child("a"));
    ParsePrinted(ts);
    var headers := Obj([Member("a", Str("x"))]);
    var fn := _ => Str("...");
    assert ts[1..] == [];
    assert Transform(Str("x"), [], fn) == Str("...");
    assert Transform(headers, ts, fn) == Obj([Member("a", Str("..."))]);
  }

  // ---- Path-only rules commute, whole payloads included ----

  predicate PathOnly(rule: Rule, repl: string) {
    Active(rule) ==> Tokens(rule).Some? && !Given(rule.regex) && Replacement(rule) == repl
  }

  function PathsFor(recordType: string, rules: seq<Rule>, key: string): seq<seq<Token>>
    decreases |rules|
  {
    if rules == [] then []
    else
      (if Active(rules[0]) && FieldKey(recordType, rules[0].target) == Some(key) && Tokens(rules[0]).Some?
       then [Tokens(rules[0]).value] else [])
      + PathsFor(recordType, rules[1..], key)
  }

  lemma {:induction false} PathsForMembers(recordType: string, rules: seq<Rule>, key: string, t: seq<Token>)
    ensures t in PathsFor(recordType, rules, key) <==>
      exists r :: r in rules && Active(r) && FieldKey(recordType, r.target) == Some(key) && Tokens(r) == Some(t)
    decreases |rules|
  {
    if rules != [] {
      PathsForMembers(recordType, rules[1..], key, t);
      assert rules == [rules[0]] + rules[1..];
    }
  }

  /** The target that writes to `key`, there being only one per record type. */
  function TargetOf(recordType: string, key: string): string {
    if recordType == "request" && key == "request" then "request_body"
    else if recordType == "request" && key == "headers" then "request_headers"
    else if recordType == "request" && key == "path" then "path"
    else if recordType == "response" && key == "body" then "response_body"
    else "error_message"
  }

  /** The replacement, read as a JSON body, is still itself: a body held as a dict may become
      this text, and the next rule will try to decode it. */
  predicate ReadsAsItself(lib: Libraries, repl: string) {
    lib.loads(repl) == None || lib.loads(repl) == Some(Str(repl))
  }

  /** What the theorems ask of a payload: dicts have distinct keys, and where a body is a dict
      and not text, the replacement must read as itself. */
  ghost predicate WireFormat(lib: Libraries, recordType: string, payload: Payload, repl: string) {
    forall k :: k in payload ==> FieldFormat(lib, TargetOf(recordType, k), payload[k], repl)
  }

  ghost predicate FieldFormat(lib: Libraries, target: string, value: Json, repl: string) {
    WellFormed(value) && (JsonTarget(target) && value.Obj? ==> ReadsAsItself(lib, repl))
  }

  /** The field that path-only rules leave, seen decoded. Plain text is not touched. */
  function FieldAfter(
      lib: Libraries, recordType: string, paths: seq<seq<Token>>, key: string, value: Json, repl: string): Json
  {
    var target := TargetOf(recordType, key);
    if PathApplies(lib, target, value) then MaskAll(Decoded(lib, target, value), paths, repl) else value
  }

  lemma {:induction false} PathRulesMaskDecoded(
      lib: Libraries, payload: Payload, recordType: string, rules: seq<Rule>, repl: string, key: string)
    requires Lawful(lib) && WireFormat(lib, recordType, payload, repl) && key in payload
    requires forall r :: r in rules ==> PathOnly(r, repl)
    ensures var out := ApplyRules(lib, payload, recordType, rules);
      && key in out
      && Decoded(lib, TargetOf(recordType, key), out[key])
         == FieldAfter(lib, recordType, PathsFor(recordType, rules, key), key, payload[key], repl)
    decreases |rules|
  {
    if rules != [] {
      var rule, more := rules[0], rules[1..];
      if Active(rule) {
        var next := ApplyRule(lib, payload, recordType, rule);
        PathRuleStep(lib, payload, recordType, rule, repl, key);
        assert rule in rules;
        PathRulesMaskDecoded(lib, next, recordType, more, repl, key);
        PathsForStep(lib, payload, recordType, rules, repl, key);
      } else {
        PathRulesMaskDecoded(lib, payload, recordType, more, repl, key);
        assert PathsFor(recordType, rules, key) == PathsFor(recordType, more, key);
      }
    }
  }

  /** One path-only rule keeps the wire format and masks the decoded field. */
  lemma PathRuleStep(lib: Libraries, payload: Payload, recordType: string, rule: Rule, repl: string, key: string)
    requires Lawful(lib) && WireFormat(lib, recordType, payload, repl) && key in payload
    requires Active(rule) && PathOnly(rule, repl)
    ensures var out := ApplyRule(lib, payload, recordType, rule);
      && WireFormat(lib, recordType, out, repl)
      && (FieldKey(recordType, rule.target) != Some(key) ==> key in out && out[key] == payload[key])
  {
    var out := ApplyRule(lib, payload, recordType, rule);
    forall k | k in out
      ensures FieldFormat(lib, TargetOf(recordType, k), out[k], repl)
    {
      assert FieldFormat(lib, TargetOf(recordType, k), payload[k], repl);
      if payload[k].Obj? {
        MaskTwiceIsMaskOnce(payload[k], Tokens(rule).value, repl);
      }
    }
  }

  lemma PathsForStep(lib: Libraries, payload: Payload, recordType: string, rules: seq<Rule>, repl: string, key: string)
    requires Lawful(lib) && WireFormat(lib, recordType, payload, repl) && key in payload
    requires rules != [] && Active(rules[0]) && PathOnly(rules[0], repl)
    ensures var next := ApplyRule(lib, payload, recordType, rules[0]);
      && key in next
      && FieldAfter(lib, recordType, PathsFor(recordType, rules[1..], key), key, next[key], repl)
         == FieldAfter(lib, recordType, PathsFor(recordType, rules, key), key, payload[key], repl)
  {
    var rule, more := rules[0], rules[1..];
    var next := ApplyRule(lib, payload, recordType, rule);
    var tail := PathsFor(recordType, more, key);
    if FieldKey(recordType, rule.target) == Some(key) && payload[key] != Null {
      var ts := Tokens(rule).value;
      assert rule.target == TargetOf(recordType, key);
      assert PathsFor(recordType, rules, key) == [ts] + tail;
      FieldStep(lib, recordType, rule, repl, key, payload[key], tail);
    } else {
      assert FieldKey(recordType, rule.target) != Some(key) ==> PathsFor(recordType, rules, key) == tail;
    }
  }

  lemma FieldStep(
      lib: Libraries, recordType: string, rule: Rule, repl: string, key: string, value: Json, tail: seq<seq<Token>>)
    requires Lawful(lib) && Active(rule) && PathOnly(rule, repl) && rule.target == TargetOf(recordType, key)
    requires FieldFormat(lib, rule.target, value, repl)
    ensures var next := MaskField(lib, value, rule);
      FieldAfter(lib, recordType, tail, key, next, repl)
      == FieldAfter(lib, recordType, [Tokens(rule).value] + tail, key, value, repl)
  {
    var ts := Tokens(rule).value;
    assert ([ts] + tail)[1..] == tail;
    if PathApplies(lib, rule.target, value) {
      if value.Obj? {
        DictStep(lib, recordType, rule, repl, key, value, tail);
      } else {
        TextStep(lib, rule, repl, value);
      }
    }
  }

  /** Masked text of a JSON target decodes to what the path makes of its value. */
  lemma TextStep(lib: Libraries, rule: Rule, repl: string, value: Json)
    requires Lawful(lib) && Active(rule) && PathOnly(rule, repl)
    requires value.Str? && PathApplies(lib, rule.target, value)
    ensures var next := MaskField(lib, value, rule);
      && next.Str? && PathApplies(lib, rule.target, next)
      && Decoded(lib, rule.target, next) == Transform(Decoded(lib, rule.target, value), Tokens(rule).value, _ => Str(repl))
  {
    CodableMasked(lib, Decoded(lib, rule.target, value), Tokens(rule).value, repl);
  }

  lemma DictStep(
      lib: Libraries, recordType: string, rule: Rule, repl: string, key: string, value: Json, tail: seq<seq<Token>>)
    requires Lawful(lib) && Active(rule) && PathOnly(rule, repl) && rule.target == TargetOf(recordType, key)
    requires FieldFormat(lib, rule.target, value, repl) && value.Obj?
    ensures var next := MaskField(lib, value, rule);
      FieldAfter(lib, recordType, tail, key, next, repl)
      == MaskAll(Transform(value, Tokens(rule).value, _ => Str(repl)), tail, repl)
  {
    var next := MaskField(lib, value, rule);
    if !next.Obj? {
      WholeMasked(value, Tokens(rule).value, repl);
      MaskAllString(repl, tail);
    }
  }

  lemma WholeMasked(v: Json, ts: seq<Token>, repl: string)
    requires WellFormed(v) && v.Obj? && !Transform(v, ts, _ => Str(repl)).Obj?
    ensures Transform(v, ts, _ => Str(repl)) == Str(repl)
  {
  }

  lemma {:induction false} MaskAllString(repl: string, paths: seq<seq<Token>>)
    ensures MaskAll(Str(repl), paths, repl) == Str(repl)
    decreases |paths|
  {
    if paths != [] {
      var fn := _ => Str(repl);
      assert Transform(Str(repl), paths[0], fn) == Str(repl);
      MaskAllString(repl, paths[1..]);
    }
  }

  /** Path-only rules with one replacement: reordering or repeating them, or naming other
      targets in between, changes no field as its reader sees it. */
  lemma PayloadOrderIrrelevant(
      lib: Libraries, payload: Payload, recordType: string, one: seq<Rule>, other: seq<Rule>, repl: string, key: string)
    requires Lawful(lib) && WireFormat(lib, recordType, payload, repl) && key in payload
    requires forall r :: r in one <==> r in other
    requires forall r :: r in one ==> PathOnly(r, repl)
    ensures var a := ApplyRules(lib, payload, recordType, one);
      var b := ApplyRules(lib, payload, recordType, other);
      && key in a && key in b
      && Decoded(lib, TargetOf(recordType, key), a[key]) == Decoded(lib, TargetOf(recordType, key), b[key])
  {
    PathRulesMaskDecoded(lib, payload, recordType, one, repl, key);
    PathRulesMaskDecoded(lib, payload, recordType, other, repl, key);
    forall t ensures t in PathsFor(recordType, one, key) <==> t in PathsFor(recordType, other, key) {
      PathsForMembers(recordType, one, key, t);
      PathsForMembers(recordType, other, key, t);
    }
    var decoded := Decoded(lib, TargetOf(recordType, key), payload[key]);
    if WellFormed(decoded) {
      RuleOrderIrrelevant(decoded, PathsFor(recordType, one, key), PathsFor(recordType, other, key), repl);
    }
  }

  /** A body held as a dict needs that: under a replacement that decodes to anything else, masking
      the whole body twice is not masking it once. */
  lemma DictBodyMaskedTwice(lib: Libraries, members: seq<Member>, repl: string)
    requires Lawful(lib) && repl != "" && !ReadsAsItself(lib, repl)
    ensures var rule := Rule(true, "request_body", Some(Print([])), None, Some(repl));
      var payload: Payload := map["request" := Obj(members)];
      var once := ApplyRules(lib, payload, "request", [rule]);
      var twice := ApplyRules(lib, payload, "request", [rule, rule]);
      && PathOnly(rule, repl) && "request" in once && "request" in twice
      && Decoded(lib, rule.target, once["request"]) != Decoded(lib, rule.target, twice["request"])
  {
    ParsePrinted([]);
    var rule := Rule(true, "request_body", Some(Print([])), None, Some(repl));
    var payload: Payload := map["request" := Obj(members)];
    var once := ApplyRule(lib, payload, "request", rule);
    assert once["request"] == Str(repl);
    var twice := ApplyRule(lib, once, "request", rule);
    assert twice["request"] == Str(lib.dumps(Str(repl)));
    assert Codable(lib, Str(repl));
    assert [rule][1..] == [] && [rule, rule][1..] == [rule];
    assert ApplyRules(lib, once, "request", [rule]) == twice;
  }

  /** Replacement "$0" puts back what each expression matched, so such rules change nothing. */
  lemma WholeMatchRuleChangesNothing(lib: Libraries, value: Json, rule: Rule)
    requires Lawful(lib) && rule.Rule? && WellFormed(value)
    requires Regexp(lib, rule).Some? && Replacement(rule) == "$0"
    ensures Decoded(lib, rule.target, MaskField(lib, value, rule)) == Decoded(lib, rule.target, value)
  {
    var re := Regexp(lib, rule).value;
    var f := ReplaceStrings(re, "$0");
    forall s ensures f(s) == s {
      WholeMatchIsIdentity(re, s);
    }
    var decoded := Decoded(lib, rule.target, value);
    MapIdentity(decoded, _ => 1, f);
    if Tokens(rule).Some? {
      TransformStringsIsRewrite(decoded, Tokens(rule).value, f);
      MapIdentity(decoded, WaysOf(Tokens(rule).value), f);
    }
    if value.Str? {
      WholeMatchIsIdentity(re, value.s);
    }
  }
}
