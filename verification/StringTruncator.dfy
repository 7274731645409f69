/** Truncating text to a byte budget without splitting a character. */
module StringTruncator {
  import opened Options
  import opened Utf8

  function Truncate(s: Option<string>, limit: int, suffix: string): string {
    match s
    case None => ""
    case Some(text) =>
      if |Encode(text)| <= limit then text
      else DecodeIgnore(Prefix(Encode(text), limit - |Encode(suffix)|)) + suffix
  }

  /** With room for the suffix: unchanged if it fits, else the longest prefix of whole
      characters that leaves room for the suffix, then the suffix. */
  lemma TruncateMeaning(text: string, limit: int, suffix: string)
    requires limit >= |Encode(suffix)|
    ensures var room := limit - |Encode(suffix)|; var k := Fit(text, room);
      && Truncate(Some(text), limit, suffix) == (if |Encode(text)| <= limit then text else text[..k] + suffix)
      && |Encode(text[..k])| <= room
      && (forall j :: 0 <= j <= |text| && |Encode(text[..j])| <= room ==> j <= k)
      && |Encode(Truncate(Some(text), limit, suffix))| <= limit
  {
    var room := limit - |Encode(suffix)|;
    FitIsLongest(text, room);
    if |Encode(text)| > limit {
      DecodeCut(text, room);
      EncodeConcat(text[..Fit(text, room)], suffix);
    }
  }

  /** For every limit: text that fits is returned as it is; else as many whole characters as fit in the
      bytes before the suffix, where too small a limit counts them from the back of the text, and
      then the suffix. */
  lemma TruncatedText(text: string, limit: int, suffix: string)
    ensures var out := Truncate(Some(text), limit, suffix);
      if |Encode(text)| <= limit then out == text else CutThen(text, limit - |Encode(suffix)|, suffix, out)
    ensures Truncate(None, limit, suffix) == ""
  {
    if |Encode(text)| > limit {
      CutThenKeeps(text, limit - |Encode(suffix)|, suffix, Truncate(Some(text), limit, suffix));
    }
  }

  /** The budget is kept exactly when the text fits or the suffix does: with a smaller limit
      the cut counts from the back of the text and the suffix alone is too long. */
  lemma WithinLimit(text: string, limit: int, suffix: string)
    ensures |Encode(Truncate(Some(text), limit, suffix))| <= limit
      <==> |Encode(text)| <= limit || |Encode(suffix)| <= limit
  {
    if |Encode(text)| > limit {
      if |Encode(suffix)| <= limit {
        TruncateMeaning(text, limit, suffix);
      } else {
        EncodeConcat(DecodeIgnore(Prefix(Encode(text), limit - |Encode(suffix)|)), suffix);
      }
    }
  }

  /** A cut that leaves room for the suffix never exceeds the limit with it. */
  lemma CutBound(text: string, limit: nat, suffix: string, n: nat)
    requires |Encode(suffix)| == n <= limit
    ensures |Encode(DecodeIgnore(Prefix(Encode(text), limit - n)) + suffix)| <= limit
  {
    EncodeConcat(DecodeIgnore(Prefix(Encode(text), limit - n)), suffix);
    var m := if limit - n < |Encode(text)| then limit - n else |Encode(text)|;
    DecodeCut(text, m);
    FitIsLongest(text, m);
  }

  /** A limit below the suffix, concretely. */
  lemma SuffixOverflows()
    ensures |Encode(Truncate(Some("ab"), 1, "..."))| > 1
  {
    AsciiLength("ab");
    AsciiLength("...");
    WithinLimit("ab", 1, "...");
  }

  /** ASCII text takes one byte a character. */
  lemma {:induction false} AsciiLength(s: string)
    requires forall i :: 0 <= i < |s| ==> s[i] < 128 as char
    ensures |Encode(s)| == |s|
    decreases |s|
  {
    if s != "" {
      AsciiLength(s[1..]);
    }
  }

  lemma AsciiFit(s: string, n: nat)
    requires n <= |s| && forall i :: 0 <= i < |s| ==> s[i] < 128 as char
    ensures Fit(s, n) == n && |Encode(s[..n])| == n
  {
    FitIsLongest(s, n);
    AsciiLength(s[..n]);
    AsciiLength(s[..Fit(s, n)]);
  }
}
