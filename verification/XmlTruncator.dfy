/** Pruning an XML document to a byte budget. Parsing and serializing are ElementTree's and
    come in as oracles. */
module XmlTruncator {
  import opened Options
  import opened Utf8
  import opened StringTruncator

  const MAX_DEPTH: nat := 6
  const MAX_CHILDREN: nat := 20
  const MAX_ATTRIBUTES: nat := 20
  const MAX_TEXT: nat := 200
  const MAX_VALUE: nat := 100
  const TEXT_SUFFIX := "..."
  const TEXT_SUFFIX_BYTES: nat := 3
  const MARKER := "<truncated/>"
  const MARKER_BYTES: nat := 12

  datatype Attribute = Attribute(name: string, value: string)

  // `text` stands before the first child, `tail` behind the element inside its parent.
  datatype Element = Element(
    tag: string, attributes: seq<Attribute>, text: Option<string>, children: seq<Element>, tail: Option<string>)

  const TRUNCATED := Element("truncated", [], None, [], None)

  function TruncateText(text: string, maxLength: nat): string {
    if text == "" then ""
    else if |Encode(text)| <= maxLength then text
    else DecodeIgnore(Prefix(Encode(text), maxLength - TEXT_SUFFIX_BYTES)) + TEXT_SUFFIX
  }

  lemma TextSuffixLength()
    ensures |Encode(TEXT_SUFFIX)| == TEXT_SUFFIX_BYTES
  {
    AsciiLength(TEXT_SUFFIX);
  }

  lemma MarkerLength(marker: string)
    requires marker == MARKER
    ensures |Encode(marker)| == MARKER_BYTES
  {
    AsciiLength(marker);
  }

  function FirstAttributes(attributes: seq<Attribute>, n: nat): seq<Attribute>
    requires n <= |attributes|
  {
    seq(n, i requires 0 <= i < n => Attribute(attributes[i].name, TruncateText(attributes[i].value, MAX_VALUE)))
  }

  lemma NextAttribute(attributes: seq<Attribute>, n: nat)
    requires n < |attributes|
    ensures FirstAttributes(attributes, n + 1)
         == FirstAttributes(attributes, n) + [Attribute(attributes[n].name, TruncateText(attributes[n].value, MAX_VALUE))]
  {
  }

  /** The pruned copy of an element at this depth below the root. */
  function Pruned(e: Element, depth: nat): Element
    decreases e
  {
    var attributes := FirstAttributes(e.attributes, if |e.attributes| < MAX_ATTRIBUTES then |e.attributes| else MAX_ATTRIBUTES);
    if depth >= MAX_DEPTH then Element(e.tag, attributes, None, [TRUNCATED], None)
    else
      Element(
        e.tag, attributes,
        if e.text.Some? && e.text.value != "" then Some(TruncateText(e.text.value, MAX_TEXT)) else None,
        PrunedChildren(e.children, if |e.children| < MAX_CHILDREN then |e.children| else MAX_CHILDREN, depth + 1)
          + (if |e.children| > MAX_CHILDREN then [TRUNCATED] else []),
        None)
  }

  function PrunedChildren(children: seq<Element>, n: nat, depth: nat): (ps: seq<Element>)
    requires n <= |children|
    ensures |ps| == n
    decreases children, n
  {
    if n == 0 then [] else PrunedChildren(children, n - 1, depth) + [Pruned(children[n - 1], depth)]
  }

  ghost predicate AttributesDone(e: Element, n: nat, attributes: seq<Attribute>) {
    n <= |e.attributes| && n <= MAX_ATTRIBUTES && (n == |e.attributes| || n == MAX_ATTRIBUTES)
    && attributes == FirstAttributes(e.attributes, n)
  }

  lemma PrunedDeep(e: Element, depth: nat, n: nat, attributes: seq<Attribute>)
    requires depth >= MAX_DEPTH && AttributesDone(e, n, attributes)
    ensures Pruned(e, depth) == Element(e.tag, attributes, None, [TRUNCATED], None)
  {
  }

  lemma PrunedParts(e: Element, depth: nat, n: nat, m: nat, attributes: seq<Attribute>, text: Option<string>, children: seq<Element>)
    requires depth < MAX_DEPTH && AttributesDone(e, n, attributes)
    requires m <= |e.children| && m <= MAX_CHILDREN && (m == |e.children| || m == MAX_CHILDREN)
    requires text == if e.text.Some? && e.text.value != "" then Some(TruncateText(e.text.value, MAX_TEXT)) else None
    requires var pruned := PrunedChildren(e.children, m, depth + 1);
      children == if m < |e.children| then pruned + [TRUNCATED] else pruned
    ensures Pruned(e, depth) == Element(e.tag, attributes, text, children, None)
  {
  }

  lemma NextChild(children: seq<Element>, n: nat, depth: nat)
    requires n < |children|
    ensures PrunedChildren(children, n + 1, depth) == PrunedChildren(children, n, depth) + [Pruned(children[n], depth)]
  {
  }

  /** The same, as the loops over attributes and children build it. */
  method PruneElement(e: Element, depth: nat) returns (pruned: Element)
    ensures pruned == Pruned(e, depth)
    decreases e
  {
    var i, attributes := CopyAttributes(e);
    if depth >= MAX_DEPTH {
      PrunedDeep(e, depth, i, attributes);
      return Element(e.tag, attributes, None, [TRUNCATED], None);
    }
    var text := if e.text.Some? && e.text.value != "" then Some(TruncateText(e.text.value, MAX_TEXT)) else None;
    var children: seq<Element> := [];
    var count := 0;
    while count < |e.children| && count < MAX_CHILDREN
      invariant count <= |e.children| && count <= MAX_CHILDREN
      invariant children == PrunedChildren(e.children, count, depth + 1)
    {
      var child := PruneElement(e.children[count], depth + 1);
      NextChild(e.children, count, depth + 1);
      children := children + [child];
      count := count + 1;
    }
    if count < |e.children| {
      children := children + [TRUNCATED];
    }
    PrunedParts(e, depth, i, count, attributes, text, children);
    pruned := Element(e.tag, attributes, text, children, None);
  }

  /** The loop over the attributes. */
  method CopyAttributes(e: Element) returns (i: nat, attributes: seq<Attribute>)
    ensures AttributesDone(e, i, attributes)
  {
    attributes := [];
    i := 0;
    while i < |e.attributes| && i < MAX_ATTRIBUTES
      invariant i <= |e.attributes| && i <= MAX_ATTRIBUTES
      invariant attributes == FirstAttributes(e.attributes, i)
    {
      NextAttribute(e.attributes, i);
      attributes := attributes + [Attribute(e.attributes[i].name, TruncateText(e.attributes[i].value, MAX_VALUE))];
      i := i + 1;
    }
  }

  function Truncate(xml: string, limit: int, parse: string -> Option<Element>, serialize: Element -> string): string {
    TruncateWith(xml, limit, parse, serialize, MARKER)
  }

  function TruncateWith(
      xml: string, limit: int, parse: string -> Option<Element>, serialize: Element -> string, marker: string): string
  {
    if xml == "" then ""
    else if |Encode(xml)| <= limit then xml
    else match parse(xml)
      case None => StringTruncator.Truncate(Some(xml), limit, marker)
      case Some(root) =>
        var output := serialize(Pruned(root, 0));
        var compact := "<" + root.tag + ">" + marker + "</" + root.tag + ">";
        if |Encode(output)| <= limit then output
        else if |Encode(compact)| <= limit then compact
        else marker
  }

  lemma LongerThanMiddle(a: string, b: string, c: string)
    ensures |Encode(a + b + c)| >= |Encode(b)|
  {
    EncodeConcat(a + b, c);
    EncodeConcat(a, b);
  }

  lemma WithinLimitWith(
      xml: string, limit: int, parse: string -> Option<Element>, serialize: Element -> string, marker: string)
    ensures |Encode(TruncateWith(xml, limit, parse, serialize, marker))| <= limit <==>
      (limit >= |Encode(marker)|
       || |Encode(xml)| <= limit
       || (xml != "" && parse(xml).Some? && |Encode(serialize(Pruned(parse(xml).value, 0)))| <= limit))
  {
    WithinLimit(xml, limit, marker);
    if xml != "" && parse(xml).Some? {
      var tag := parse(xml).value.tag;
      LongerThanMiddle("<" + tag + ">", marker, "</" + tag + ">");
      assert "<" + tag + ">" + marker + "</" + tag + ">" == ("<" + tag + ">") + marker + ("</" + tag + ">");
    }
  }

  /** The result stays within the limit for every limit the marker itself fits in; for a smaller
      one exactly when nothing was cut or the pruned document happened to fit. */
  lemma XmlWithinLimit(xml: string, limit: int, parse: string -> Option<Element>, serialize: Element -> string)
    ensures |Encode(Truncate(xml, limit, parse, serialize))| <= limit <==>
      (limit >= 12
       || |Encode(xml)| <= limit
       || (xml != "" && parse(xml).Some? && |Encode(serialize(Pruned(parse(xml).value, 0)))| <= limit))
  {
    var marker := MARKER;
    WithinLimitWith(xml, limit, parse, serialize, marker);
    MarkerLength(marker);
  }

  // ---- Bounds on the pruned tree ----

  function Height(e: Element): nat
    decreases e
  {
    Tallest(e.children)
  }

  /** One more than the greatest height among the elements; 0 when there is none. */
  function Tallest(es: seq<Element>): nat
    decreases es
  {
    if es == [] then 0
    else
      var h, t := Height(es[0]) + 1, Tallest(es[1..]);
      if h > t then h else t
  }

  predicate SmallNode(e: Element) {
    && |e.children| <= 21
    && |e.attributes| <= 20
    && (forall i :: 0 <= i < |e.attributes| ==> |Encode(e.attributes[i].value)| <= 100)
    && (e.text.Some? ==> |Encode(e.text.value)| <= 200)
  }

  /** Every node is small and no branch is longer than `levels`. */
  predicate Bounded(e: Element, levels: nat)
    decreases e
  {
    && SmallNode(e)
    && (e.children != [] ==> levels > 0)
    && forall i :: 0 <= i < |e.children| ==> Bounded(e.children[i], levels - 1)
  }

  lemma TextBound(text: string, maxLength: nat)
    requires maxLength >= TEXT_SUFFIX_BYTES
    ensures |Encode(TruncateText(text, maxLength))| <= maxLength
  {
    TextSuffixLength();
    CutBound(text, maxLength, TEXT_SUFFIX, TEXT_SUFFIX_BYTES);
  }

  lemma PrunedNodeIsSmall(e: Element, depth: nat)
    ensures SmallNode(Pruned(e, depth))
  {
    var p := Pruned(e, depth);
    forall i | 0 <= i < |p.attributes| ensures |Encode(p.attributes[i].value)| <= MAX_VALUE {
      TextBound(e.attributes[i].value, MAX_VALUE);
    }
    if e.text.Some? {
      TextBound(e.text.value, MAX_TEXT);
    }
  }

  lemma {:induction false} PrunedIsBounded(e: Element, depth: nat)
    requires depth <= 6
    ensures Bounded(Pruned(e, depth), 7 - depth)
    decreases e
  {
    var p, levels := Pruned(e, depth), MAX_DEPTH + 1 - depth;
    PrunedNodeIsSmall(e, depth);
    forall i | 0 <= i < |p.children| ensures Bounded(p.children[i], levels - 1) {
      ChildOfPruned(e, depth, i);
      if depth < MAX_DEPTH && i < |e.children| && i < MAX_CHILDREN {
        PrunedIsBounded(e.children[i], depth + 1);
      }
    }
  }

  lemma ChildOfPruned(e: Element, depth: nat, i: nat)
    requires i < |Pruned(e, depth).children|
    ensures Pruned(e, depth).children[i] ==
      if depth < MAX_DEPTH && i < |e.children| && i < MAX_CHILDREN then Pruned(e.children[i], depth + 1) else TRUNCATED
  {
    if depth < MAX_DEPTH && i < |e.children| && i < MAX_CHILDREN {
      PrunedChild(e.children, if |e.children| < MAX_CHILDREN then |e.children| else MAX_CHILDREN, depth + 1, i);
    }
  }

  lemma {:induction false} PrunedChild(children: seq<Element>, n: nat, depth: nat, i: nat)
    requires i < n <= |children|
    ensures PrunedChildren(children, n, depth)[i] == Pruned(children[i], depth)
    decreases n
  {
    if i < n - 1 {
      PrunedChild(children, n - 1, depth, i);
    }
  }

  lemma {:induction false} BoundedHeight(e: Element, levels: nat)
    requires Bounded(e, levels)
    ensures Height(e) <= levels
    decreases e, |e.children| + 1
  {
    BoundedTallest(e.children, levels);
  }

  lemma {:induction false} BoundedTallest(es: seq<Element>, levels: nat)
    requires es != [] ==> levels > 0
    requires forall i :: 0 <= i < |es| ==> Bounded(es[i], levels - 1)
    ensures Tallest(es) <= levels
    decreases es, 0
  {
    if es != [] {
      BoundedHeight(es[0], levels - 1);
      BoundedTallest(es[1..], levels);
    }
  }

  /** A pruned document has at most 21 children and 20 attributes a node, short texts, and at
      most 7 levels below the root. */
  lemma PrunedDocument(root: Element)
    ensures Bounded(Pruned(root, 0), 7) && Height(Pruned(root, 0)) <= 7
  {
    PrunedIsBounded(root, 0);
    BoundedHeight(Pruned(root, 0), 7);
  }

  // ---- What a pruned tree keeps ----

  /** Text within its bytes as it is, longer text cut to leave room for three dots. */
  ghost predicate Shortened(text: string, maxLength: nat, out: string) {
    if |Encode(text)| <= maxLength then out == text else CutThen(text, maxLength - 3, "...", out)
  }

  lemma TextShortened(text: string, maxLength: nat)
    requires maxLength >= 3
    ensures Shortened(text, maxLength, TruncateText(text, maxLength))
  {
    if text == "" {
      assert Encode(text) == [];
    } else if |Encode(text)| > maxLength {
      CutThenKeeps(text, maxLength - 3, TEXT_SUFFIX, TruncateText(text, maxLength));
    }
  }

  /** One node: its tag, the first twenty attributes in order with values cut to 100 bytes, its text cut
      to 200, no tail; and above the sixth level its first twenty children, pruned, in order, with a
      marker behind them if there are more. At the sixth level the marker is all there is below it. */
  ghost predicate Keeps(e: Element, depth: nat, p: Element) {
    && p.tag == e.tag && p.tail == None
    && |p.attributes| == (if |e.attributes| <= 20 then |e.attributes| else 20)
    && (forall i :: 0 <= i < |p.attributes| ==>
          p.attributes[i].name == e.attributes[i].name && Shortened(e.attributes[i].value, 100, p.attributes[i].value))
    && if depth >= 6 then p.text == None && p.children == [Element("truncated", [], None, [], None)]
       else
         && (if e.text == None || e.text == Some("") then p.text == None
             else p.text.Some? && Shortened(e.text.value, 200, p.text.value))
         && |p.children| == (if |e.children| <= 20 then |e.children| else 21)
         && (forall i :: 0 <= i < |p.children| ==>
               p.children[i] == if i < 20 then Pruned(e.children[i], depth + 1) else Element("truncated", [], None, [], None))
  }

  lemma PrunedKeeps(e: Element, depth: nat)
    ensures Keeps(e, depth, Pruned(e, depth))
  {
    var p := Pruned(e, depth);
    forall i | 0 <= i < |p.attributes| ensures Shortened(e.attributes[i].value, 100, p.attributes[i].value) {
      TextShortened(e.attributes[i].value, 100);
    }
    if e.text.Some? {
      TextShortened(e.text.value, 200);
    }
    forall i | 0 <= i < |p.children|
      ensures p.children[i] == if depth < 6 && i < 20 then Pruned(e.children[i], depth + 1) else Element("truncated", [], None, [], None)
    {
      ChildOfPruned(e, depth, i);
    }
  }

  /** The element that a path of child numbers leads to. */
  function At(e: Element, path: seq<nat>): Option<Element>
    decreases |path|
  {
    if path == [] then Some(e)
    else if path[0] < |e.children| then At(e.children[path[0]], path[1..])
    else None
  }

  /** Down to six levels below the root, along the first twenty children of each element, the pruned
      document has the elements of the original, each pruned where it stands. */
  lemma {:induction false} PrunedAt(e: Element, depth: nat, path: seq<nat>)
    requires depth + |path| <= 6 && forall i :: 0 <= i < |path| ==> path[i] < 20
    ensures At(Pruned(e, depth), path) ==
      match At(e, path)
      case Some(x) => Some(Pruned(x, depth + |path|))
      case None => None
    decreases |path|
  {
    if path != [] {
      PrunedStep(e, depth, path[0]);
      if path[0] < |e.children| {
        PrunedAt(e.children[path[0]], depth + 1, path[1..]);
        AtDown(e, path);
        AtDown(Pruned(e, depth), path);
      }
    }
  }

  lemma AtDown(e: Element, path: seq<nat>)
    requires path != [] && path[0] < |e.children|
    ensures At(e, path) == At(e.children[path[0]], path[1..])
  {
  }

  lemma PrunedStep(e: Element, depth: nat, i: nat)
    requires depth < 6 && i < 20
    ensures i < |Pruned(e, depth).children| <==> i < |e.children|
    ensures i < |e.children| ==> Pruned(e, depth).children[i] == Pruned(e.children[i], depth + 1)
  {
    PrunedKeeps(e, depth);
  }

  /** What comes out: the document itself if it fits, else the pruned one if that fits, else the root's tag
      around the marker if that fits, else the marker; and text that is no document is cut as text. */
  lemma TruncatedDocument(xml: string, limit: int, parse: string -> Option<Element>, serialize: Element -> string)
    ensures var out := Truncate(xml, limit, parse, serialize);
      if xml == "" || |Encode(xml)| <= limit then out == xml
      else match parse(xml)
        case None => out == StringTruncator.Truncate(Some(xml), limit, "<truncated/>")
        case Some(root) =>
          var pruned := serialize(Pruned(root, 0));
          var compact := "<" + root.tag + ">" + "<truncated/>" + "</" + root.tag + ">";
          out == if |Encode(pruned)| <= limit then pruned else if |Encode(compact)| <= limit then compact else "<truncated/>"
  {
  }

  // ---- Small documents lose nothing but tails ----

  /** Within every limit, the last level included, and with no empty text. */
  predicate Fits(e: Element, depth: nat)
    decreases e
  {
    && depth < 6
    && |e.children| <= 20
    && SmallNode(e)
    && e.text != Some("")
    && forall i :: 0 <= i < |e.children| ==> Fits(e.children[i], depth + 1)
  }

  function WithoutTails(e: Element): Element
    decreases e
  {
    Element(e.tag, e.attributes, e.text,
      seq(|e.children|, i requires 0 <= i < |e.children| => WithoutTails(e.children[i])), None)
  }

  predicate TailFree(e: Element)
    decreases e
  {
    e.tail.None? && forall i :: 0 <= i < |e.children| ==> TailFree(e.children[i])
  }

  lemma {:induction false} FittingLosesTails(e: Element, depth: nat)
    requires Fits(e, depth)
    ensures Pruned(e, depth) == WithoutTails(e)
    decreases e
  {
    var p, n := Pruned(e, depth), |e.children|;
    assert p.attributes == e.attributes;
    forall i | 0 <= i < n ensures p.children[i] == WithoutTails(e.children[i]) {
      PrunedChild(e.children, n, depth + 1, i);
      FittingLosesTails(e.children[i], depth + 1);
    }
    assert p.children == WithoutTails(e).children;
  }

  lemma {:induction false} TailFreeIsUnchanged(e: Element)
    ensures WithoutTails(e) == e <==> TailFree(e)
    decreases e
  {
    var w := WithoutTails(e);
    forall i | 0 <= i < |e.children| ensures w.children[i] == e.children[i] <==> TailFree(e.children[i]) {
      TailFreeIsUnchanged(e.children[i]);
    }
    if TailFree(e) {
      assert w.children == e.children;
    }
  }

  /** A document within every bound is kept exactly when no element of it carries a tail; otherwise
      its tails are all it loses. */
  lemma FittingIsKept(e: Element, depth: nat)
    requires Fits(e, depth)
    ensures Pruned(e, depth) == e <==> TailFree(e)
    ensures Pruned(e, depth) == WithoutTails(e)
  {
    FittingLosesTails(e, depth);
    TailFreeIsUnchanged(e);
  }

  /** The text behind the child in `<p>one <b>two</b> three</p>` is lost, small as it is. */
  lemma MixedContentLosesTail()
    ensures var b := Element("b", [], Some("two"), [], Some(" three"));
      var p := Element("p", [], Some("one "), [b], None);
      && Fits(p, 0)
      && Pruned(p, 0) == Element("p", [], Some("one "), [b.(tail := None)], None)
  {
    var b := Element("b", [], Some("two"), [], Some(" three"));
    var p := Element("p", [], Some("one "), [b], None);
    AsciiLength("two");
    AsciiLength("one ");
    assert Fits(b, 1);
    assert Fits(p, 0);
    FittingLosesTails(p, 0);
    assert WithoutTails(b) == b.(tail := None);
  }
}
