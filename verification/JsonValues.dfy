/** JSON values as the SDK handles them once decoded: Python lists and dicts become
    sequences, a dict being its members in insertion order under distinct keys. */
module JsonValues {
  import opened Options

  datatype Json =
    | Null
    | Bool(b: bool)
    | Number(numeral: string)
    | Str(s: string)
    | Arr(items: seq<Json>)
    | Obj(members: seq<Member>)

  datatype Member = Member(key: string, value: Json)

  // The edge from a container to one of its children.
  datatype Step = Key(key: string) | At(index: nat)

  type Path = seq<Step>

  /** Position of the first member called `key`, or |ms| when there is none. */
  function KeyIndex(ms: seq<Member>, key: string): (i: nat)
    ensures i <= |ms|
    ensures i < |ms| ==> ms[i].key == key
    ensures forall j :: 0 <= j < i ==> ms[j].key != key
  {
    if ms == [] then 0
    else if ms[0].key == key then 0
    else 1 + KeyIndex(ms[1..], key)
  }

  predicate HasKey(ms: seq<Member>, key: string) {
    KeyIndex(ms, key) < |ms|
  }

  /** `d.get(name)` of a value that may be absent or no dict at all. */
  function MemberOf(payload: Option<Json>, name: string): Option<Json> {
    if payload.Some? && payload.value.Obj? && HasKey(payload.value.members, name) then
      Some(payload.value.members[KeyIndex(payload.value.members, name)].value)
    else None
  }

  /** What a Python dict guarantees: no key occurs twice, at any depth. */
  ghost predicate WellFormed(v: Json) {
    match v
    case Arr(items) => forall i :: 0 <= i < |items| ==> WellFormed(items[i])
    case Obj(ms) =>
      && (forall i, j :: 0 <= i < j < |ms| ==> ms[i].key != ms[j].key)
      && (forall i :: 0 <= i < |ms| ==> WellFormed(ms[i].value))
    case _ => true
  }

  // A container seen as numbered children, so that lists and dicts are walked alike.

  function Size(v: Json): nat {
    match v
    case Arr(items) => |items|
    case Obj(ms) => |ms|
    case _ => 0
  }

  function Kid(v: Json, i: nat): (c: Json)
    requires i < Size(v)
    ensures c < v
    ensures WellFormed(v) ==> WellFormed(c)
  {
    match v
    case Arr(items) => items[i]
    case Obj(ms) => ms[i].value
  }

  function StepTo(v: Json, i: nat): Step
    requires i < Size(v)
  {
    match v
    case Arr(_) => At(i)
    case Obj(ms) => Key(ms[i].key)
  }

  /** Index of the child that `s` leads to, or Size(v). */
  function KidIndex(v: Json, s: Step): (i: nat)
    ensures i <= Size(v)
    ensures i < Size(v) ==> StepTo(v, i) == s
  {
    match s
    case Key(k) => if v.Obj? then KeyIndex(v.members, k) else Size(v)
    case At(n) => if v.Arr? && n < Size(v) then n else Size(v)
  }

  /** The node at this position. */
  function Locate(v: Json, p: Path): Option<Json>
    decreases |p|
  {
    if p == [] then Some(v)
    else
      var i := KidIndex(v, p[0]);
      if i < Size(v) then Locate(Kid(v, i), p[1..]) else None
  }

  function Kids(v: Json): (ks: seq<Json>)
    ensures |ks| == Size(v)
    ensures forall i :: 0 <= i < Size(v) ==> ks[i] == Kid(v, i)
  {
    seq(Size(v), i requires 0 <= i < Size(v) => Kid(v, i))
  }

  /** Every number in the value is written with a numeral of this kind. */
  predicate NumeralsIn(v: Json, kind: string -> bool)
    decreases v
  {
    && (v.Number? ==> kind(v.numeral))
    && forall i :: 0 <= i < Size(v) ==> NumeralsIn(Kid(v, i), kind)
  }

  /** The same container around other children. */
  function Rebuild(v: Json, kids: seq<Json>): (r: Json)
    requires |kids| == Size(v)
    ensures Size(r) == Size(v) && r.Obj? == v.Obj? && r.Arr? == v.Arr? && r.Str? == v.Str?
    ensures forall i :: 0 <= i < Size(v) ==> Kid(r, i) == kids[i] && StepTo(r, i) == StepTo(v, i)
    ensures Size(v) == 0 ==> r == v
    ensures WellFormed(v) && (forall i :: 0 <= i < |kids| ==> WellFormed(kids[i])) ==> WellFormed(r)
  {
    match v
    case Arr(_) => Arr(kids)
    case Obj(ms) =>
      Obj(seq(|ms|, i requires 0 <= i < |ms| => Member(ms[i].key, kids[i])))
    case _ => v
  }

  /** Rebuilding only depends on the children put in, not on those taken out. */
  lemma RebuildTwice(v: Json, first: seq<Json>, second: seq<Json>)
    requires |first| == |second| == Size(v)
    ensures Rebuild(Rebuild(v, first), second) == Rebuild(v, second)
  {
  }

  lemma RebuildSame(v: Json)
    ensures Rebuild(v, Kids(v)) == v
  {
    if v.Obj? {
      assert Rebuild(v, Kids(v)).members == v.members;
    }
  }
}
