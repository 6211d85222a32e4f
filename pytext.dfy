/** The Python string operations the agent loop relies on, with Python's semantics:
    `str.find` / `str.rfind` for one character, slicing with negative bounds,
    `str.strip()`, the comparison of `str.lower()` with "y", the `in` substring test,
    and `str()` of a natural number. */
module PyText {

  /** `s.find(c)`: the index of the first `c` in `s`, or -1 when there is none. */
  function Find(s: string, c: char): (r: int)
    ensures -1 <= r < |s|
    ensures r == -1 <==> c !in s
    ensures r >= 0 ==> s[r] == c && c !in s[..r]
  {
    var r := FindFrom(s, c, 0);
    assert s[0..] == s;
    assert r >= 0 ==> s[0..r] == s[..r];
    r
  }

  /** The search behind `find`: the first `c` at or after index `i`, or -1. */
  function FindFrom(s: string, c: char, i: nat): (r: int)
    requires i <= |s|
    ensures -1 <= r < |s|
    ensures r == -1 <==> c !in s[i..]
    ensures r >= 0 ==> i <= r && s[r] == c && c !in s[i..r]
    decreases |s| - i
  {
    if i == |s| then -1
    else if s[i] == c then i
    else
      assert s[i..] == [s[i]] + s[i + 1..];
      var r := FindFrom(s, c, i + 1);
      assert r >= 0 ==> s[i..r] == [s[i]] + s[i + 1..r];
      r
  }

  /** `s.rfind(c)`: the index of the last `c` in `s`, or -1 when there is none. */
  function RFind(s: string, c: char): (r: int)
    ensures -1 <= r < |s|
    ensures r == -1 <==> c !in s
    ensures r >= 0 ==> s[r] == c && c !in s[r + 1..]
  {
    var r := RFindBefore(s, c, |s|);
    assert s[..|s|] == s;
    assert r >= 0 ==> s[r + 1..|s|] == s[r + 1..];
    r
  }

  /** The search behind `rfind`: the last `c` before index `j`, or -1. */
  function RFindBefore(s: string, c: char, j: nat): (r: int)
    requires j <= |s|
    ensures -1 <= r < j
    ensures r == -1 <==> c !in s[..j]
    ensures r >= 0 ==> s[r] == c && c !in s[r + 1..j]
  {
    if j == 0 then -1
    else if s[j - 1] == c then j - 1
    else
      assert s[..j] == s[..j - 1] + [s[j - 1]];
      var r := RFindBefore(s, c, j - 1);
      assert r >= 0 ==> s[r + 1..j] == s[r + 1..j - 1] + [s[j - 1]];
      r
  }

  /** One bound of a Python slice of a sequence of length `n`: a negative bound
      counts from the end, and the result is clamped to 0..n. */
  function SliceBound(i: int, n: nat): (r: nat)
    ensures r <= n
    ensures 0 <= i <= n ==> r == i
    ensures i < 0 && 0 <= i + n ==> r == i + n
    ensures i + n < 0 ==> r == 0
    ensures n < i ==> r == n
  {
    if i < 0 then (if i + n < 0 then 0 else i + n)
    else if i > n then n
    else i
  }

  /** `s[i:j]` in Python: empty when the resolved start is not before the resolved end. */
  function Slice(s: string, i: int, j: int): (r: string)
    ensures |r| <= |s|
  {
    var lo, hi := SliceBound(i, |s|), SliceBound(j, |s|);
    if lo < hi then s[lo..hi] else ""
  }

  /** The text the agent hands to the JSON decoder: from the first '{' to the last '}',
      both included, computed as `s[s.find('{') : s.rfind('}') + 1]`. */
  function BraceSpan(s: string): string
  {
    Slice(s, Find(s, '{'), RFind(s, '}') + 1)
  }

  /** A brace pair: `s` has a '{' before a later '}'. */
  predicate HasBracePair(s: string)
  {
    '{' in s && '}' in s && Find(s, '{') < RFind(s, '}')
  }

  /** With a brace pair, the span runs from the first '{' to the last '}': nothing
      before it is a '{', nothing after it is a '}'. */
  lemma BraceSpanOfPair(s: string)
    requires HasBracePair(s)
    ensures 2 <= |BraceSpan(s)|
    ensures BraceSpan(s)[0] == '{' && BraceSpan(s)[|BraceSpan(s)| - 1] == '}'
    ensures s == s[..Find(s, '{')] + BraceSpan(s) + s[RFind(s, '}') + 1..]
    ensures '{' !in s[..Find(s, '{')] && '}' !in s[RFind(s, '}') + 1..]
  {
    var start, end := Find(s, '{'), RFind(s, '}');
    BraceSpanIsSlice(s);
    SplitAround(s, start, end);
  }

  /** Cutting `s` before `i` and after `j` leaves the closed span `s[i..j + 1]`
      between the two ends. */
  lemma SplitAround(s: string, i: int, j: int)
    requires 0 <= i < j < |s|
    ensures var span := s[i..j + 1];
      && 2 <= |span| && span[0] == s[i] && span[|span| - 1] == s[j]
      && s == s[..i] + span + s[j + 1..]
  {
    assert s == s[..i] + s[i..j + 1] + s[j + 1..];
  }

  /** With a brace pair, both slice bounds are in range and kept as they are. */
  lemma BraceSpanIsSlice(s: string)
    requires HasBracePair(s)
    ensures 0 <= Find(s, '{') < RFind(s, '}') < |s|
    ensures BraceSpan(s) == s[Find(s, '{')..RFind(s, '}') + 1]
  {
    SliceInRange(s, Find(s, '{'), RFind(s, '}') + 1);
  }

  /** A slice whose bounds are both in range is the sequence slice. */
  lemma SliceInRange(s: string, i: int, j: int)
    requires 0 <= i < j <= |s|
    ensures Slice(s, i, j) == s[i..j]
  {
    assert SliceBound(i, |s|) == i && SliceBound(j, |s|) == j;
  }

  /** Without a brace pair the span is "" or "}", neither of which is a JSON object.
      When '{' is missing, `find` gives -1 and the slice starts at the last character. */
  lemma BraceSpanWithoutPair(s: string)
    requires !HasBracePair(s)
    ensures BraceSpan(s) == "" || BraceSpan(s) == "}"
  {
    var start, end := Find(s, '{'), RFind(s, '}');
    assert start >= 0 ==> end < start;
    SliceWithoutPair(s, start, end);
  }

  /** The slice `s[i:j + 1]` for a start `i` that is -1 or past `j`: empty, or the
      last character alone when `i` is -1 and `j` is the last index. */
  lemma SliceWithoutPair(s: string, i: int, j: int)
    requires -1 <= i < |s| && -1 <= j < |s|
    requires i >= 0 ==> j < i
    ensures Slice(s, i, j + 1) == "" || (j == |s| - 1 && Slice(s, i, j + 1) == [s[j]])
  {
    var hi := SliceBound(j + 1, |s|);
    assert hi == j + 1;
    if i >= 0 {
      assert SliceBound(i, |s|) == i;
    } else if j >= 0 {
      assert SliceBound(i, |s|) == |s| - 1;
      if j == |s| - 1 {
        assert Slice(s, i, j + 1) == s[j..j + 1];
      }
    }
  }

  /** The first `c` of `s` is at `i` when `s[i]` is `c` and no `c` comes before it. */
  lemma FindAt(s: string, c: char, i: int)
    requires 0 <= i < |s| && s[i] == c && c !in s[..i]
    ensures Find(s, c) == i
  {
    assert c in s by { assert s[i] == c; }
  }

  /** The last `c` of `s` is at `i` when `s[i]` is `c` and no `c` comes after it. */
  lemma RFindAt(s: string, c: char, i: int)
    requires 0 <= i < |s| && s[i] == c && c !in s[i + 1..]
    ensures RFind(s, c) == i
  {
    assert c in s by { assert s[i] == c; }
  }

  /** Conversely, an object-shaped text with no '{' before it and no '}' after it is
      exactly the span taken from the reply around it, whatever braces it holds. */
  lemma {:induction false} BraceSpanOfEmbedded(prefix: string, obj: string, suffix: string)
    requires '{' !in prefix && '}' !in suffix
    requires 2 <= |obj| && obj[0] == '{' && obj[|obj| - 1] == '}'
    ensures BraceSpan(prefix + obj + suffix) == obj
  {
    var s := prefix + obj + suffix;
    var start, end := |prefix|, |prefix| + |obj| - 1;
    assert s[..start] == prefix;
    assert s[end + 1..] == suffix;
    FindAt(s, '{', start);
    RFindAt(s, '}', end);
    assert SliceBound(start, |s|) == start;
    assert SliceBound(end + 1, |s|) == end + 1;
    assert s[start..end + 1] == obj;
  }

  /** A reply that wraps a JSON object in prose. */
  const ExampleObject: string := "{\"action\":\"run\",\"command\":\"echo hi\"}"
  const ExampleReply: string := "Here is my plan: " + ExampleObject + " \U{2014} done thinking"

  /** The prose around the object is dropped: exactly the object reaches the decoder. */
  lemma BraceSpanExample()
    ensures BraceSpan(ExampleReply) == ExampleObject
  {
    BraceSpanOfEmbedded("Here is my plan: ", ExampleObject, " \U{2014} done thinking");
  }

  /** Python's `str.isspace()`: the characters `str.strip()` removes. */
  predicate IsSpace(c: char)
  {
    || c == ' '
    || '\t' <= c <= '\r'
    || '\U{1C}' <= c <= '\U{1F}'
    || c == '\U{85}' || c == '\U{A0}' || c == '\U{1680}'
    || '\U{2000}' <= c <= '\U{200A}'
    || c == '\U{2028}' || c == '\U{2029}' || c == '\U{202F}' || c == '\U{205F}' || c == '\U{3000}'
  }

  /** `s.lstrip()`: the longest suffix of `s` that does not start with white space. */
  function StripStart(s: string): (r: string)
    ensures |r| <= |s| && r == s[|s| - |r|..]
    ensures forall k :: 0 <= k < |s| - |r| ==> IsSpace(s[k])
    ensures r == [] || !IsSpace(r[0])
  {
    if |s| > 0 && IsSpace(s[0]) then StripStart(s[1..]) else s
  }

  /** `s.rstrip()`: the longest prefix of `s` that does not end with white space. */
  function StripEnd(s: string): (r: string)
    ensures |r| <= |s| && r == s[..|r|]
    ensures forall k :: |r| <= k < |s| ==> IsSpace(s[k])
    ensures r == [] || !IsSpace(r[|r| - 1])
  {
    if |s| > 0 && IsSpace(s[|s| - 1]) then StripEnd(s[..|s| - 1]) else s
  }

  /** `s.strip()`. */
  function Strip(s: string): string
  {
    StripEnd(StripStart(s))
  }

  /** `str.lower()` on one character, for the ASCII letters. No other Unicode character
      lower-cases to 'y', so this agrees with Python wherever the result is compared with "y". */
  function LowerChar(c: char): (r: char)
    ensures ('A' <= c <= 'Z') == ('a' <= r <= 'z' && r != c)
    ensures !('A' <= c <= 'Z') ==> r == c
    ensures 'A' <= c <= 'Z' ==> r as int - 'a' as int == c as int - 'A' as int
  {
    if 'A' <= c <= 'Z' then (c as int - 'A' as int + 'a' as int) as char else c
  }

  function Lower(s: string): (r: string)
    ensures |r| == |s|
    ensures forall k :: 0 <= k < |s| ==> r[k] == LowerChar(s[k])
  {
    seq(|s|, k requires 0 <= k < |s| => LowerChar(s[k]))
  }

  /** The console approval test `answer.strip().lower() == "y"`. */
  predicate Approves(answer: string)
  {
    Lower(Strip(answer)) == "y"
  }

  /** An answer approves exactly when, once the surrounding white space is removed,
      it is the single letter y in either case. */
  lemma ApprovesIff(answer: string)
    ensures Approves(answer) <==> Strip(answer) == "y" || Strip(answer) == "Y"
  {
    var t := Strip(answer);
    if Approves(answer) {
      assert |t| == 1 && LowerChar(t[0]) == 'y';
      assert t == [t[0]];
    }
  }

  predicate StartsWith(s: string, prefix: string)
  {
    |prefix| <= |s| && s[..|prefix|] == prefix
  }

  /** `sub in s`: some suffix of `s` starts with `sub`. */
  predicate Contains(s: string, sub: string)
    decreases |s|
  {
    StartsWith(s, sub) || (|s| > 0 && Contains(s[1..], sub))
  }

  /** `sub` occurs in `s` at offset `i`. */
  predicate OccursAt(s: string, sub: string, i: int)
  {
    0 <= i && i + |sub| <= |s| && s[i..i + |sub|] == sub
  }

  /** The recursive `in` test means: `sub` occurs at some offset of `s`. */
  lemma {:induction false} ContainsIff(s: string, sub: string)
    ensures Contains(s, sub) <==> exists i :: OccursAt(s, sub, i)
    decreases |s|
  {
    if StartsWith(s, sub) {
      assert OccursAt(s, sub, 0);
    }
    if |s| > 0 {
      ContainsIff(s[1..], sub);
      if exists i :: OccursAt(s[1..], sub, i) {
        var i :| OccursAt(s[1..], sub, i);
        assert OccursAt(s, sub, i + 1);
      }
      if exists i :: OccursAt(s, sub, i) {
        var i :| OccursAt(s, sub, i);
        if i > 0 {
          assert OccursAt(s[1..], sub, i - 1);
        }
      }
    } else if exists i :: OccursAt(s, sub, i) {
      var i :| OccursAt(s, sub, i);
      assert StartsWith(s, sub);
    }
  }

  /** Python's `"" in s` is true for every `s`. */
  lemma {:induction false} ContainsEmpty(s: string)
    ensures Contains(s, "")
  {
    assert StartsWith(s, "");
  }

  /** The decimal digit for `d`. */
  function DigitChar(d: nat): (c: char)
    requires d < 10
    ensures '0' <= c <= '9'
  {
    ('0' as int + d) as char
  }

  /** `str(n)` for a natural number: its decimal digits, without leading zeros. */
  function NatToString(n: nat): (r: string)
    ensures 1 <= |r|
    ensures forall k :: 0 <= k < |r| ==> '0' <= r[k] <= '9'
    ensures r[0] == '0' ==> n == 0 && r == "0"
    decreases n
  {
    if n < 10 then [DigitChar(n)] else NatToString(n / 10) + [DigitChar(n % 10)]
  }

  /** The number a string of decimal digits denotes. */
  function DecimalValue(s: string): nat
    requires forall k :: 0 <= k < |s| ==> '0' <= s[k] <= '9'
  {
    if |s| == 0 then 0
    else DecimalValue(s[..|s| - 1]) * 10 + (s[|s| - 1] as int - '0' as int)
  }

  /** Reading back the digits `str(n)` prints gives `n`. */
  lemma {:induction false} NatToStringRoundTrip(n: nat)
    ensures DecimalValue(NatToString(n)) == n
    decreases n
  {
    if n >= 10 {
      NatToStringRoundTrip(n / 10);
      var r := NatToString(n);
      assert r[..|r| - 1] == NatToString(n / 10);
    }
  }
}
