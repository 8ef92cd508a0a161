/** The Python string built-ins that the contact matcher relies on:
    `str.isspace`, `str.strip()`, `str.split(None, 1)`, and the `LOWER`
    that the database applies to both sides of a name comparison. */
module PyStr {

  /** `c.isspace()` in Python 3: the characters that `strip()` and `split()`
      with no separator treat as whitespace. */
  predicate IsSpace(c: char)
    ensures c == ' ' || c == '\t' || c == '\n' || c == '\r' ==> IsSpace(c)
    ensures 'a' <= c <= 'z' || 'A' <= c <= 'Z' || '0' <= c <= '9' || c == '-' || c == '.' || c == '\'' ==> !IsSpace(c)
  {
    || ('\t' <= c <= '\r')
    || ('\U{1C}' <= c <= ' ')
    || c == '\U{85}'
    || c == '\U{A0}'
    || c == '\U{1680}'
    || ('\U{2000}' <= c <= '\U{200A}')
    || c == '\U{2028}'
    || c == '\U{2029}'
    || c == '\U{202F}'
    || c == '\U{205F}'
    || c == '\U{3000}'
  }

  predicate AllSpace(s: string) {
    forall k :: 0 <= k < |s| ==> IsSpace(s[k])
  }

  predicate NoSpace(s: string) {
    forall k :: 0 <= k < |s| ==> !IsSpace(s[k])
  }

  /** The length of the run of whitespace at the front of `s`. */
  function LeadingSpaces(s: string): (n: nat)
    ensures n <= |s|
    ensures AllSpace(s[..n])
    ensures n < |s| ==> !IsSpace(s[n])
  {
    if s == [] || !IsSpace(s[0]) then 0
    else
      var m := LeadingSpaces(s[1..]);
      assert s[..1 + m] == [s[0]] + s[1..][..m];
      1 + m
  }

  /** The length of the run of whitespace at the end of `s`. */
  function TrailingSpaces(s: string): (n: nat)
    ensures n <= |s|
    ensures AllSpace(s[|s| - n..])
    ensures n < |s| ==> !IsSpace(s[|s| - n - 1])
  {
    if s == [] || !IsSpace(s[|s| - 1]) then 0
    else
      var init := s[..|s| - 1];
      var m := TrailingSpaces(init);
      assert s[|s| - (1 + m)..] == init[|init| - m..] + [s[|s| - 1]];
      1 + m
  }

  /** The length of the run of non-whitespace characters at the front of `s`. */
  function TokenLength(s: string): (n: nat)
    ensures n <= |s|
    ensures NoSpace(s[..n])
    ensures n < |s| ==> IsSpace(s[n])
  {
    if s == [] || IsSpace(s[0]) then 0
    else
      var m := TokenLength(s[1..]);
      assert s[..1 + m] == [s[0]] + s[1..][..m];
      1 + m
  }

  /** `r` is `s` with the whitespace-only prefix `s[..i]` and a
      whitespace-only suffix removed. */
  predicate StrippedAt(s: string, r: string, i: nat) {
    && i + |r| <= |s|
    && s[i..i + |r|] == r
    && AllSpace(s[..i])
    && AllSpace(s[i + |r|..])
  }

  /** `s.strip()`: removes whitespace from both ends, and only whitespace. */
  function Strip(s: string): (r: string)
    ensures r == [] <==> AllSpace(s)
    ensures r != [] ==> !IsSpace(r[0]) && !IsSpace(r[|r| - 1])
    ensures exists i :: StrippedAt(s, r, i)
  {
    var i := LeadingSpaces(s);
    var t := s[i..];
    var r := t[..|t| - TrailingSpaces(t)];
    assert StrippedAt(s, r, i) by {
      assert s[i + |r|..] == t[|t| - TrailingSpaces(t)..];
    }
    assert i < |s| ==> t[0] == s[i];
    assert i == |s| ==> s[..i] == s;
    r
  }

  /** Stripping a string that neither begins nor ends with whitespace
      leaves it unchanged; in particular stripping twice is stripping once. */
  lemma StripOfTrimmed(s: string)
    requires s == [] || (!IsSpace(s[0]) && !IsSpace(s[|s| - 1]))
    ensures Strip(s) == s
  {
    if s != [] {
      assert LeadingSpaces(s) == 0;
      assert s[0..] == s;
      assert TrailingSpaces(s) == 0;
    }
  }

  /** The parts of a `split(None, 1)` sit in `s` as they should: after the
      whitespace run `s[..i]` comes the first part, then only whitespace
      (at least one character of it when there is a second part), then the
      second part, which runs to the end of `s`. */
  predicate SplitPlacedAt(s: string, parts: seq<string>, i: nat) {
    && 1 <= |parts| <= 2
    && i + |parts[0]| <= |s|
    && AllSpace(s[..i])
    && s[i..i + |parts[0]|] == parts[0]
    && (|parts| == 1 ==> AllSpace(s[i + |parts[0]|..]))
    && (|parts| == 2 ==>
          && i + |parts[0]| < |s| - |parts[1]|
          && AllSpace(s[i + |parts[0]|..|s| - |parts[1]|]))
  }

  /** Stripping is idempotent: a stripped string strips to itself. */
  lemma StripIdempotent(s: string)
    ensures Strip(Strip(s)) == Strip(s)
  {
    StripOfTrimmed(Strip(s));
  }

  /** `s.split(None, 1)`: skips leading whitespace, takes the first run of
      non-whitespace as the first part and, if anything but whitespace
      follows, the text after the next whitespace run as the second part
      (trailing whitespace included). */
  function SplitOnce(s: string): (parts: seq<string>)
    ensures |parts| <= 2
    ensures parts == [] <==> AllSpace(s)
    ensures forall k :: 0 <= k < |parts| ==> parts[k] != []
    ensures |parts| >= 1 ==> NoSpace(parts[0])
    ensures |parts| == 2 ==> !IsSpace(parts[1][0])
    ensures |parts| == 2 ==> |parts[0]| + |parts[1]| < |s|
    ensures |parts| == 2 ==> s[|s| - |parts[1]|..] == parts[1]
    ensures |parts| >= 1 ==> exists i :: SplitPlacedAt(s, parts, i)
  {
    var i := LeadingSpaces(s);
    if i == |s| then
      assert s[..i] == s;
      []
    else
      var j := i + TokenLength(s[i..]);
      assert s[i..j] == s[i..][..j - i];
      assert s[i..][0] == s[i];
      var k := j + LeadingSpaces(s[j..]);
      assert j < |s| ==> s[j..][0] == s[j];
      assert s[j..k] == s[j..][..k - j];
      SplitPartsPlaced(s, i, j, k);
      if k == |s| then [s[i..j]] else [s[i..j], s[k..]]
  }

  /** The placement of the parts that SplitOnce cuts at `i`, `j` and `k`. */
  lemma SplitPartsPlaced(s: string, i: nat, j: nat, k: nat)
    requires i < |s| && AllSpace(s[..i])
    requires i < j <= |s| && NoSpace(s[i..j]) && (j < |s| ==> IsSpace(s[j]))
    requires j <= k <= |s| && AllSpace(s[j..k]) && (j < |s| ==> j < k)
    ensures k == |s| ==> SplitPlacedAt(s, [s[i..j]], i)
    ensures k < |s| ==> SplitPlacedAt(s, [s[i..j], s[k..]], i)
  {
    if k == |s| {
      assert s[j..] == s[j..k];
    } else {
      var parts := [s[i..j], s[k..]];
      assert |parts[0]| == j - i && |parts[1]| == |s| - k;
      assert s[i + |parts[0]|..|s| - |parts[1]|] == s[j..k];
    }
  }

  /** The ASCII lower-case form of one character. */
  function LowerChar(c: char): char {
    if 'A' <= c <= 'Z' then (c as int + 32) as char else c
  }

  /** The ASCII upper-case form of one character. */
  function UpperChar(c: char): char {
    if 'a' <= c <= 'z' then (c as int - 32) as char else c
  }

  /** `LOWER(s)` as the database applies it to names (ASCII letters only). */
  function Lower(s: string): (r: string)
    ensures |r| == |s|
    ensures forall k :: 0 <= k < |s| ==> r[k] == LowerChar(s[k])
  {
    if s == [] then [] else [LowerChar(s[0])] + Lower(s[1..])
  }

  /** `b` spells the same letters as `a`, each one in either case. */
  predicate IsRecasing(a: string, b: string) {
    && |a| == |b|
    && forall k :: 0 <= k < |a| ==> b[k] in {a[k], LowerChar(a[k]), UpperChar(a[k])}
  }

  /** Re-casing letters never changes the lower-case form: any letter-casing
      of a name compares equal under `LOWER`. */
  lemma {:induction false} RecasingKeepsLower(a: string, b: string)
    requires IsRecasing(a, b)
    ensures Lower(a) == Lower(b)
  {
    if a != [] {
      assert b[0] in {a[0], LowerChar(a[0]), UpperChar(a[0])};
      assert IsRecasing(a[1..], b[1..]) by {
        forall k | 0 <= k < |a| - 1
          ensures b[1..][k] in {a[1..][k], LowerChar(a[1..][k]), UpperChar(a[1..][k])}
        {
          assert b[k + 1] in {a[k + 1], LowerChar(a[k + 1]), UpperChar(a[k + 1])};
        }
      }
      RecasingKeepsLower(a[1..], b[1..]);
    }
  }
}
