/** Pruning a JSON value and cutting its serialized form to a byte budget. The serializer is
    Python's and comes in as an oracle. */
module FastJsonTruncator {
  import opened Options
  import opened JsonValues
  import opened Utf8
  import opened StringTruncator

  const MAX_DEPTH: nat := 5
  const MAX_LIST: nat := 20
  const MAX_KEYS: nat := 20
  const MAX_STRING: nat := 200
  const STRING_SUFFIX := "..."
  const DEPTH_MARKER := "[truncated]"
  const CUT_MARKER := "...,\"truncated\":true}"
  const RESERVED: nat := 20

  function PruneString(s: string): string {
    if |Encode(s)| > MAX_STRING then DecodeIgnore(Prefix(Encode(s), MAX_STRING)) + STRING_SUFFIX else s
  }

  function Smaller(a: nat, b: nat): nat {
    if a < b then a else b
  }

  function Prune(v: Json, depth: nat): Json
    decreases v
  {
    if depth > MAX_DEPTH then Str(DEPTH_MARKER)
    else
      match v
      case Obj(ms) => Obj(PruneMembers(ms, Smaller(|ms|, MAX_KEYS), depth + 1))
      case Arr(items) => Arr(PruneItems(items, Smaller(|items|, MAX_LIST), depth + 1))
      case Str(s) => Str(PruneString(s))
      case _ => v
  }

  function PruneItems(items: seq<Json>, n: nat, depth: nat): (out: seq<Json>)
    requires n <= |items|
    ensures |out| == n
    decreases items, n
  {
    if n == 0 then [] else PruneItems(items, n - 1, depth) + [Prune(items[n - 1], depth)]
  }

  function PruneMembers(ms: seq<Member>, n: nat, depth: nat): (out: seq<Member>)
    requires n <= |ms|
    ensures |out| == n
    decreases ms, n
  {
    if n == 0 then [] else PruneMembers(ms, n - 1, depth) + [Member(ms[n - 1].key, Prune(ms[n - 1].value, depth))]
  }

  /** The same, as the loop over a dict builds it. */
  method PruneValue(v: Json, depth: nat) returns (out: Json)
    ensures out == Prune(v, depth)
    decreases v
  {
    if depth > MAX_DEPTH {
      return Str(DEPTH_MARKER);
    }
    match v {
      case Obj(ms) =>
        var result: seq<Member> := [];
        var i := 0;
        while i < |ms| && i < MAX_KEYS
          invariant i <= |ms| && i <= MAX_KEYS
          invariant result == PruneMembers(ms, i, depth + 1)
        {
          var pruned := PruneValue(ms[i].value, depth + 1);
          result := result + [Member(ms[i].key, pruned)];
          i := i + 1;
        }
        return Obj(result);
      case Arr(items) =>
        var result: seq<Json> := [];
        var i := 0;
        while i < |items| && i < MAX_LIST
          invariant i <= |items| && i <= MAX_LIST
          invariant result == PruneItems(items, i, depth + 1)
        {
          var pruned := PruneValue(items[i], depth + 1);
          result := result + [pruned];
          i := i + 1;
        }
        return Arr(result);
      case Str(s) =>
        return Str(PruneString(s));
      case _ =>
        return v;
    }
  }

  function EnsureLimit(text: string, limit: int): string {
    EnsureLimitWith(text, limit, CUT_MARKER)
  }

  function EnsureLimitWith(text: string, limit: int, marker: string): string {
    if |Encode(text)| <= limit then text
    else DecodeIgnore(Prefix(Encode(text), limit - RESERVED)) + marker
  }

  function Truncate(data: Json, limit: int, dumps: Json -> string): string {
    EnsureLimit(dumps(Prune(data, 0)), limit)
  }

  // ---- Bounds on the pruned value ----

  /** At most 20 entries in every container, at most 203 bytes in every string, and no branch
      longer than `levels`. */
  predicate Bounded(v: Json, levels: nat)
    decreases v
  {
    && Size(v) <= 20
    && (v.Str? ==> |Encode(v.s)| <= 203)
    && (Size(v) > 0 ==> levels > 0)
    && forall i :: 0 <= i < Size(v) ==> Bounded(Kid(v, i), levels - 1)
  }

  lemma StringBound(s: string, suffix: string)
    requires suffix == STRING_SUFFIX
    ensures |Encode(PruneString(s))| <= MAX_STRING + 3
    ensures |Encode(s)| > MAX_STRING ==> PruneString(s) == s[..Fit(s, MAX_STRING)] + suffix
  {
    if |Encode(s)| > MAX_STRING {
      DecodeCut(s, MAX_STRING);
      FitIsLongest(s, MAX_STRING);
      AsciiLength(suffix);
      EncodeConcat(s[..Fit(s, MAX_STRING)], suffix);
    }
  }

  lemma DepthMarkerLength(marker: string)
    requires marker == DEPTH_MARKER
    ensures |Encode(marker)| == 11
  {
    AsciiLength(marker);
  }

  lemma {:induction false} PrunedItem(items: seq<Json>, n: nat, depth: nat, i: nat)
    requires i < n <= |items|
    ensures PruneItems(items, n, depth)[i] == Prune(items[i], depth)
    decreases n
  {
    if i < n - 1 {
      PrunedItem(items, n - 1, depth, i);
    }
  }

  lemma {:induction false} PrunedMember(ms: seq<Member>, n: nat, depth: nat, i: nat)
    requires i < n <= |ms|
    ensures PruneMembers(ms, n, depth)[i] == Member(ms[i].key, Prune(ms[i].value, depth))
    decreases n
  {
    if i < n - 1 {
      PrunedMember(ms, n - 1, depth, i);
    }
  }

  /** Each child kept is the pruned child at the same place, under the same key. */
  lemma PrunedKid(v: Json, depth: nat, i: nat)
    requires depth <= MAX_DEPTH && i < Size(v) && i < MAX_LIST
    ensures i < Size(Prune(v, depth))
    ensures Kid(Prune(v, depth), i) == Prune(Kid(v, i), depth + 1) && StepTo(Prune(v, depth), i) == StepTo(v, i)
  {
    match v
    case Obj(ms) => PrunedMember(ms, Smaller(|ms|, MAX_KEYS), depth + 1, i);
    case Arr(items) => PrunedItem(items, Smaller(|items|, MAX_LIST), depth + 1, i);
  }

  lemma {:induction false} PrunedIsBounded(v: Json, depth: nat)
    requires depth <= 6
    ensures Bounded(Prune(v, depth), 6 - depth)
    decreases v
  {
    var p := Prune(v, depth);
    if depth > MAX_DEPTH {
      var marker := DEPTH_MARKER;
      DepthMarkerLength(marker);
      assert p == Str(marker) && Bounded(Str(marker), 0);
    } else {
      if v.Str? {
        StringBound(v.s, STRING_SUFFIX);
      }
      forall i | 0 <= i < Size(p) ensures Bounded(Kid(p, i), MAX_DEPTH - depth) {
        PrunedKid(v, depth, i);
        PrunedIsBounded(Kid(v, i), depth + 1);
      }
    }
  }

  /** A value within every limit is serialized as it is. */
  predicate Fits(v: Json, depth: nat)
    decreases v
  {
    && depth <= 5
    && Size(v) <= 20
    && (v.Str? ==> |Encode(v.s)| <= 200)
    && forall i :: 0 <= i < Size(v) ==> Fits(Kid(v, i), depth + 1)
  }

  lemma {:induction false} FittingIsKept(v: Json, depth: nat)
    requires Fits(v, depth)
    ensures Prune(v, depth) == v
    decreases v
  {
    forall i | 0 <= i < Size(v) ensures Prune(Kid(v, i), depth + 1) == Kid(v, i) {
      FittingIsKept(Kid(v, i), depth + 1);
    }
    match v
    case Obj(ms) =>
      var out := PruneMembers(ms, |ms|, depth + 1);
      forall i | 0 <= i < |ms| ensures out[i] == ms[i] {
        PrunedMember(ms, |ms|, depth + 1, i);
        assert Prune(Kid(v, i), depth + 1) == ms[i].value;
      }
      assert out == ms;
    case Arr(items) =>
      var out := PruneItems(items, |items|, depth + 1);
      forall i | 0 <= i < |items| ensures out[i] == items[i] {
        PrunedItem(items, |items|, depth + 1, i);
        assert Prune(Kid(v, i), depth + 1) == items[i];
      }
      assert out == items;
    case _ =>
  }

  // ---- What a pruned value keeps ----

  /** One node: below the fifth level a marker stands for everything; text is cut to 200 bytes and gets
      three dots; a container keeps its first twenty entries in order, pruned, under their own keys. */
  ghost predicate Keeps(v: Json, depth: nat, p: Json) {
    if depth > 5 then p == Str("[truncated]")
    else match v
      case Str(s) =>
        if |Encode(s)| <= 200 then p == v
        else p.Str? && CutThen(s, 200, "...", p.s)
      case Obj(ms) =>
        p.Obj? && |p.members| == (if |ms| <= 20 then |ms| else 20) &&
        forall i :: 0 <= i < |p.members| ==> p.members[i] == Member(ms[i].key, Prune(ms[i].value, depth + 1))
      case Arr(items) =>
        p.Arr? && |p.items| == (if |items| <= 20 then |items| else 20) &&
        forall i :: 0 <= i < |p.items| ==> p.items[i] == Prune(items[i], depth + 1)
      case _ => p == v
  }

  lemma PruneKeeps(v: Json, depth: nat)
    ensures Keeps(v, depth, Prune(v, depth))
  {
    if depth <= 5 {
      match v
      case Str(s) =>
        if |Encode(s)| > 200 {
          CutThenKeeps(s, 200, STRING_SUFFIX, PruneString(s));
        }
      case Obj(ms) =>
        forall i | 0 <= i < |ms| && i < 20
          ensures PruneMembers(ms, Smaller(|ms|, 20), depth + 1)[i] == Member(ms[i].key, Prune(ms[i].value, depth + 1))
        {
          PrunedMember(ms, Smaller(|ms|, 20), depth + 1, i);
        }
      case Arr(items) =>
        forall i | 0 <= i < |items| && i < 20
          ensures PruneItems(items, Smaller(|items|, 20), depth + 1)[i] == Prune(items[i], depth + 1)
        {
          PrunedItem(items, Smaller(|items|, 20), depth + 1, i);
        }
      case _ =>
    }
  }

  /** The entries along this path are among the first twenty of their containers. */
  predicate Early(v: Json, path: Path)
    decreases |path|
  {
    path == [] ||
    (var i := KidIndex(v, path[0]);
     i < Size(v) && i < 20 && Early(Kid(v, i), path[1..]))
  }

  /** Down to six levels, the pruned value has exactly the positions of the original that lie among the
      first twenty of every container on the way, and at each what stood there, pruned. */
  lemma {:induction false} PrunedLocate(v: Json, depth: nat, path: Path)
    requires depth + |path| <= 6
    ensures Locate(Prune(v, depth), path) ==
      match Locate(v, path)
      case Some(x) => if Early(v, path) then Some(Prune(x, depth + |path|)) else None
      case None => None
    decreases |path|
  {
    if path != [] {
      KeptIndex(v, depth, path[0]);
      var i := KidIndex(v, path[0]);
      if i < Size(v) && i < 20 {
        PrunedLocate(Kid(v, i), depth + 1, path[1..]);
        LocateDown(v, path, i);
        LocateDown(Prune(v, depth), path, i);
      }
    }
  }

  lemma LocateDown(v: Json, path: Path, i: nat)
    requires path != [] && i == KidIndex(v, path[0]) < Size(v)
    ensures Locate(v, path) == Locate(Kid(v, i), path[1..])
  {
  }

  lemma KeptIndex(v: Json, depth: nat, s: Step)
    requires depth <= 5
    ensures var p, i := Prune(v, depth), KidIndex(v, s);
      if i < Size(v) && i < 20 then KidIndex(p, s) == i < Size(p) && Kid(p, i) == Prune(Kid(v, i), depth + 1)
      else KidIndex(p, s) == Size(p)
  {
    PruneKeeps(v, depth);
  }

  /** What comes out: the text if it fits, else as many whole characters as fit in all but the last twenty
      bytes, and the marker. */
  lemma TruncatedJson(data: Json, limit: int, dumps: Json -> string)
    ensures var text, out := dumps(Prune(data, 0)), Truncate(data, limit, dumps);
      if |Encode(text)| <= limit then out == text else CutThen(text, limit - 20, "...,\"truncated\":true}", out)
  {
    var text := dumps(Prune(data, 0));
    if |Encode(text)| > limit {
      CutThenKeeps(text, limit - 20, CUT_MARKER, Truncate(data, limit, dumps));
    }
  }

  // ---- The byte budget ----

  lemma CutMarkerLength(marker: string)
    requires marker == CUT_MARKER
    ensures |Encode(marker)| == RESERVED + 1
  {
    var front, back := marker[..10], marker[10..];
    AsciiLength(front);
    AsciiLength(back);
    EncodeConcat(front, back);
    assert marker == front + back;
  }

  lemma CutText(text: string, limit: int, marker: string)
    requires limit >= RESERVED && |Encode(text)| > limit
    ensures EnsureLimitWith(text, limit, marker) == text[..Fit(text, limit - RESERVED)] + marker
  {
    DecodeCut(text, limit - RESERVED);
  }

  lemma CutLength(text: string, limit: int, marker: string)
    requires limit >= RESERVED && |Encode(text)| > limit
    ensures |Encode(EnsureLimitWith(text, limit, marker))|
      == |Encode(text[..Fit(text, limit - RESERVED)])| + |Encode(marker)|
    ensures |Encode(text[..Fit(text, limit - RESERVED)])| <= limit - RESERVED
  {
    CutText(text, limit, marker);
    FitIsLongest(text, limit - RESERVED);
    EncodeConcat(text[..Fit(text, limit - RESERVED)], marker);
  }

  lemma NoRoom(text: string, limit: int, marker: string)
    requires |Encode(marker)| == RESERVED + 1 && limit < RESERVED && |Encode(text)| > limit
    ensures |Encode(EnsureLimitWith(text, limit, marker))| > limit
  {
    EncodeConcat(DecodeIgnore(Prefix(Encode(text), limit - RESERVED)), marker);
  }

  lemma RoomFor(text: string, n: nat, marker: string, out: nat)
    requires |Encode(marker)| == RESERVED + 1 && n < |Encode(text)|
    requires out == |Encode(text[..Fit(text, n)])| + |Encode(marker)| && |Encode(text[..Fit(text, n)])| <= n
    ensures out <= n + RESERVED + 1
    ensures out <= n + RESERVED <==> CutsChar(text, n)
  {
    CutsCharMeaning(text, n);
  }

  lemma Room(text: string, limit: int, marker: string)
    requires |Encode(marker)| == RESERVED + 1 && limit >= RESERVED && |Encode(text)| > limit
    ensures |Encode(EnsureLimitWith(text, limit, marker))| <= limit + 1
    ensures |Encode(EnsureLimitWith(text, limit, marker))| <= limit <==> CutsChar(text, limit - RESERVED)
  {
    CutLength(text, limit, marker);
    RoomFor(text, limit - RESERVED, marker, |Encode(EnsureLimitWith(text, limit, marker))|);
  }

  /** With a marker one byte longer than the room reserved for it. */
  lemma BudgetWith(text: string, limit: int, marker: string)
    requires |Encode(marker)| == RESERVED + 1
    ensures limit >= RESERVED ==> |Encode(EnsureLimitWith(text, limit, marker))| <= limit + 1
    ensures |Encode(EnsureLimitWith(text, limit, marker))| <= limit <==>
      |Encode(text)| <= limit || (limit >= RESERVED && CutsChar(text, limit - RESERVED))
  {
    if |Encode(text)| > limit {
      if limit >= RESERVED {
        Room(text, limit, marker);
      } else {
        NoRoom(text, limit, marker);
      }
    }
  }

  /** The marker is one byte longer than the 20 reserved, so a cut text can exceed the limit by
      one byte; the limit itself is kept exactly when the text fits or the cut falls inside a
      character, which is then dropped whole. */
  lemma JsonBudget(data: Json, limit: int, dumps: Json -> string)
    ensures var text := dumps(Prune(data, 0));
      && (limit >= 20 ==> |Encode(Truncate(data, limit, dumps))| <= limit + 1)
      && (|Encode(Truncate(data, limit, dumps))| <= limit <==>
            |Encode(text)| <= limit || (limit >= 20 && CutsChar(text, limit - 20)))
  {
    var marker := CUT_MARKER;
    CutMarkerLength(marker);
    BudgetWith(dumps(Prune(data, 0)), limit, marker);
  }

  lemma AsciiOverflowsWith(text: string, limit: int, marker: string)
    requires |text| > limit >= RESERVED && forall i :: 0 <= i < |text| ==> text[i] < 128 as char
    ensures |Encode(EnsureLimitWith(text, limit, marker))| == limit - RESERVED + |Encode(marker)|
  {
    AsciiLength(text);
    AsciiFit(text, limit - RESERVED);
    CutLength(text, limit, marker);
  }

  /** One byte over: ASCII text longer than the limit is never cut inside a character. */
  lemma AsciiOverflows(data: Json, limit: int, dumps: Json -> string)
    requires var text := dumps(Prune(data, 0));
      |text| > limit >= 20 && forall i :: 0 <= i < |text| ==> text[i] < 128 as char
    ensures |Encode(Truncate(data, limit, dumps))| == limit + 1
  {
    var marker := CUT_MARKER;
    CutMarkerLength(marker);
    AsciiOverflowsWith(dumps(Prune(data, 0)), limit, marker);
  }
}
