/** UTF-8 (RFC 3629): the encoding of section 3, and Python's decoder with errors="ignore",
    which skips whatever section 4 does not allow. */
module Utf8 {
  import opened Options

  type Byte = b: int | 0 <= b < 256

  function EncodeChar(c: char): (bs: seq<Byte>)
    ensures 1 <= |bs| <= 4
  {
    var n := c as int;
    if n < 0x80 then [n]
    else if n < 0x800 then [0xC0 + n / 0x40, 0x80 + n % 0x40]
    else if n < 0x1_0000 then [0xE0 + n / 0x1000, 0x80 + n / 0x40 % 0x40, 0x80 + n % 0x40]
    else [0xF0 + n / 0x4_0000, 0x80 + n / 0x1000 % 0x40, 0x80 + n / 0x40 % 0x40, 0x80 + n % 0x40]
  }

  function Encode(s: string): seq<Byte> {
    if s == "" then [] else EncodeChar(s[0]) + Encode(s[1..])
  }

  predicate IsTail(b: Byte) {
    0x80 <= b < 0xC0
  }

  predicate IsScalar(n: int) {
    0 <= n < 0xD800 || 0xE000 <= n <= 0x10_FFFF
  }

  /** The six bits a continuation byte carries. */
  function Payload(b: Byte): int {
    b - 0x80
  }

  /** How many bytes a character takes that starts with this one; 0 when none does. */
  function LengthFrom(lead: Byte): nat {
    if lead < 0x80 then 1
    else if 0xC2 <= lead < 0xE0 then 2
    else if 0xE0 <= lead < 0xF0 then 3
    else if 0xF0 <= lead < 0xF5 then 4
    else 0
  }

  predicate Complete(bs: seq<Byte>) {
    && bs != []
    && 0 < LengthFrom(bs[0]) <= |bs|
    && forall i :: 1 <= i < LengthFrom(bs[0]) ==> IsTail(bs[i])
  }

  function CodePoint(bs: seq<Byte>): int
    requires Complete(bs)
  {
    var lead: int := bs[0];
    match LengthFrom(bs[0])
    case 1 => lead
    case 2 => (lead - 0xC0) * 0x40 + Payload(bs[1])
    case 3 => (lead - 0xE0) * 0x1000 + Payload(bs[1]) * 0x40 + Payload(bs[2])
    case _ => (lead - 0xF0) * 0x4_0000 + Payload(bs[1]) * 0x1000 + Payload(bs[2]) * 0x40 + Payload(bs[3])
  }

  /** No code point in more bytes than it needs. */
  predicate Shortest(n: int, length: nat) {
    match length
    case 3 => n >= 0x800
    case 4 => n >= 0x1_0000
    case _ => true
  }

  /** The well-formed character at the start of the bytes. */
  function NextChar(bs: seq<Byte>): Option<char> {
    if Complete(bs) && IsScalar(CodePoint(bs)) && Shortest(CodePoint(bs), LengthFrom(bs[0])) then
      Some(CodePoint(bs) as char)
    else None
  }

  function DecodeIgnore(bs: seq<Byte>): string
    decreases |bs|
  {
    if bs == [] then ""
    else match NextChar(bs)
      case Some(c) => [c] + DecodeIgnore(bs[LengthFrom(bs[0])..])
      case None => DecodeIgnore(bs[1..])
  }

  lemma SixBits(n: nat)
    ensures n == n / 0x40 * 0x40 + n % 0x40
    ensures n / 0x40 == n / 0x1000 * 0x40 + n / 0x40 % 0x40
    ensures n / 0x1000 == n / 0x4_0000 * 0x40 + n / 0x1000 % 0x40
  {
  }

  lemma EncodedLength(c: char, rest: seq<Byte>)
    ensures var bs := EncodeChar(c) + rest; LengthFrom(bs[0]) == |EncodeChar(c)| && Complete(bs)
  {
  }

  lemma EncodedValue(c: char, rest: seq<Byte>)
    ensures var bs := EncodeChar(c) + rest; Complete(bs) && CodePoint(bs) == c as int
  {
    EncodedLength(c, rest);
    SixBits(c as int);
    var bs := EncodeChar(c) + rest;
    assert forall i :: 0 <= i < |EncodeChar(c)| ==> bs[i] == EncodeChar(c)[i];
  }

  lemma EncodedChar(c: char, rest: seq<Byte>)
    ensures var bs := EncodeChar(c) + rest;
      LengthFrom(bs[0]) == |EncodeChar(c)| && NextChar(bs) == Some(c)
  {
    EncodedLength(c, rest);
    EncodedValue(c, rest);
  }

  /** A character cut short decodes to nothing. */
  lemma CutChar(c: char, k: nat)
    requires k < |EncodeChar(c)|
    ensures DecodeIgnore(EncodeChar(c)[..k]) == ""
  {
    var bs := EncodeChar(c)[..k];
    if k > 0 {
      EncodedChar(c, []);
      assert EncodeChar(c) + [] == EncodeChar(c);
      assert NextChar(bs).None?;
      TailsIgnored(bs[1..]);
    }
  }

  lemma {:induction false} TailsIgnored(bs: seq<Byte>)
    requires forall i :: 0 <= i < |bs| ==> IsTail(bs[i])
    ensures DecodeIgnore(bs) == ""
    decreases |bs|
  {
    if bs != [] {
      assert IsTail(bs[0]);
      TailsIgnored(bs[1..]);
    }
  }

  /** How many leading characters fit into n bytes. */
  function Fit(s: string, n: int): (k: nat)
    ensures k <= |s|
  {
    if s == "" || |EncodeChar(s[0])| > n then 0 else 1 + Fit(s[1..], n - |EncodeChar(s[0])|)
  }

  /** Cutting the bytes anywhere and decoding keeps exactly the characters that fit. */
  lemma {:induction false} DecodeCut(s: string, n: nat)
    requires n <= |Encode(s)|
    ensures DecodeIgnore(Encode(s)[..n]) == s[..Fit(s, n)]
    decreases |s|
  {
    if s != "" {
      var first, rest := EncodeChar(s[0]), Encode(s[1..]);
      if |first| > n {
        assert (first + rest)[..n] == first[..n];
        CutChar(s[0], n);
      } else {
        var left := n - |first|;
        assert (first + rest)[..n] == first + rest[..left];
        EncodedChar(s[0], rest[..left]);
        assert (first + rest[..left])[|first|..] == rest[..left];
        DecodeCut(s[1..], left);
        assert s[..1 + Fit(s[1..], left)] == [s[0]] + s[1..][..Fit(s[1..], left)];
      }
    }
  }

  /** Decoding gives back what was encoded. */
  lemma DecodeEncode(s: string)
    ensures DecodeIgnore(Encode(s)) == s
  {
    DecodeCut(s, |Encode(s)|);
    assert Encode(s)[..|Encode(s)|] == Encode(s);
    AllFit(s);
    assert s[..|s|] == s;
  }

  lemma {:induction false} AllFit(s: string)
    ensures Fit(s, |Encode(s)|) == |s|
    decreases |s|
  {
    if s != "" {
      AllFit(s[1..]);
    }
  }

  lemma {:induction false} EncodeConcat(a: string, b: string)
    ensures Encode(a + b) == Encode(a) + Encode(b)
    decreases |a|
  {
    if a == "" {
      assert a + b == b;
    } else {
      calc {
        Encode(a + b);
        EncodeChar(a[0]) + Encode((a + b)[1..]);
        { assert (a + b)[1..] == a[1..] + b; EncodeConcat(a[1..], b); }
        EncodeChar(a[0]) + (Encode(a[1..]) + Encode(b));
        (EncodeChar(a[0]) + Encode(a[1..])) + Encode(b);
        Encode(a) + Encode(b);
      }
    }
  }

  /** The characters that fit are the longest prefix within n bytes. */
  lemma {:induction false} FitIsLongest(s: string, n: nat)
    ensures |Encode(s[..Fit(s, n)])| <= n
    ensures forall k :: 0 <= k <= |s| && |Encode(s[..k])| <= n ==> k <= Fit(s, n)
    decreases |s|
  {
    if s != "" {
      var first := |EncodeChar(s[0])|;
      forall k | 1 <= k <= |s| ensures |Encode(s[..k])| == first + |Encode(s[1..][..k - 1])| {
        assert s[..k][1..] == s[1..][..k - 1];
      }
      if first <= n {
        FitIsLongest(s[1..], n - first);
      }
    }
  }

  /** The cut after n bytes falls inside a character: the next byte continues one. */
  predicate CutsChar(s: string, n: nat)
    requires n < |Encode(s)|
  {
    IsTail(Encode(s)[n])
  }

  lemma TailBytes(c: char, k: nat)
    requires k < |EncodeChar(c)|
    ensures IsTail(EncodeChar(c)[k]) <==> k > 0
  {
  }

  /** The characters that fit fill the n bytes exactly when the cut falls between characters. */
  lemma {:induction false} CutsCharMeaning(s: string, n: nat)
    requires n < |Encode(s)|
    ensures CutsChar(s, n) <==> |Encode(s[..Fit(s, n)])| < n
    decreases |s|
  {
    var first := EncodeChar(s[0]);
    assert Encode(s) == first + Encode(s[1..]);
    if n < |first| {
      TailBytes(s[0], n);
    } else {
      CutsCharMeaning(s[1..], n - |first|);
      var k := Fit(s[1..], n - |first|);
      assert s[..k + 1][1..] == s[1..][..k];
      assert Encode(s)[n] == Encode(s[1..])[n - |first|];
    }
  }

  /** Python's bs[:end], where a negative end counts from the back. */
  function Prefix(bs: seq<Byte>, end: int): (r: seq<Byte>)
    ensures r <= bs
  {
    if end >= 0 then bs[..if end < |bs| then end else |bs|]
    else bs[..if |bs| + end > 0 then |bs| + end else 0]
  }

  /** As many whole characters of `s` as take no more than n bytes. */
  ghost predicate LongestPrefix(s: string, n: int, kept: string) {
    exists k: nat :: k <= |s| && kept == s[..k] && |Encode(s[..k])| <= n && (k < |s| ==> |Encode(s[..k + 1])| > n)
  }

  /** The place of `end` among n bytes, counted from the back if it is negative. */
  function Place(n: nat, end: int): nat {
    if end >= 0 then end else if n + end > 0 then n + end else 0
  }

  /** The text cut at this place, to whole characters, and the suffix. */
  ghost predicate CutThen(s: string, end: int, suffix: string, out: string) {
    exists kept :: LongestPrefix(s, Place(|Encode(s)|, end), kept) && out == kept + suffix
  }

  lemma PrefixKeeps(s: string, end: int)
    ensures LongestPrefix(s, Place(|Encode(s)|, end), DecodeIgnore(Prefix(Encode(s), end)))
  {
    var n, left := |Encode(s)|, Place(|Encode(s)|, end);
    var cut := if left < n then left else n;
    assert Prefix(Encode(s), end) == Encode(s)[..cut];
    DecodeCut(s, cut);
    FitIsLongest(s, cut);
    var k := Fit(s, cut);
    assert s[..|s|] == s;
    assert s[..k] == DecodeIgnore(Prefix(Encode(s), end)) && |Encode(s[..k])| <= left && (k < |s| ==> |Encode(s[..k + 1])| > left);
  }

  lemma CutThenKeeps(s: string, end: int, suffix: string, out: string)
    requires out == DecodeIgnore(Prefix(Encode(s), end)) + suffix
    ensures CutThen(s, end, suffix, out)
  {
    PrefixKeeps(s, end);
  }
}
