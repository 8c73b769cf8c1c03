/**
 * Character and string helpers with the meaning Python's `str` methods give
 * them in the monitored application: whitespace as `str.isspace` sees it,
 * lower-casing of the Latin and Cyrillic alphabets, `strip`, `split`,
 * `join`, the `in` substring test and `replace`.
 */
module Text {

  /** Python's `str.isspace()`: the characters `strip()` and `split()` treat as blanks. */
  predicate IsSpace(c: char) {
    || ('\t' <= c <= '\r')
    || ('\U{1c}' <= c <= '\U{1f}')
    || c == ' ' || c == '\U{85}' || c == '\U{a0}' || c == '\U{1680}'
    || ('\U{2000}' <= c <= '\U{200a}')
    || c == '\U{2028}' || c == '\U{2029}' || c == '\U{202f}' || c == '\U{205f}' || c == '\U{3000}'
  }

  /** Upper-case letters `str.lower()` maps: ASCII, Latin-1 (but not the sign ×) and basic Cyrillic. */
  predicate IsUpper(c: char) {
    || ('A' <= c <= 'Z')
    || ('\U{c0}' <= c <= '\U{de}' && c != '\U{d7}')
    || ('\U{400}' <= c <= '\U{40f}')
    || ('\U{410}' <= c <= '\U{42f}')
  }

  function LowerChar(c: char): (d: char)
    ensures IsUpper(c) ==> d != c
    ensures !IsUpper(d)
    ensures IsSpace(d) <==> IsSpace(c)
  {
    if 'A' <= c <= 'Z' || ('\U{c0}' <= c <= '\U{de}' && c != '\U{d7}') || ('\U{410}' <= c <= '\U{42f}') then
      (c as int + 0x20) as char
    else if '\U{400}' <= c <= '\U{40f}' then
      (c as int + 0x50) as char
    else
      c
  }

  /** Python's `s.lower()` on the alphabets above. */
  function Lower(s: string): (r: string)
    ensures |r| == |s|
  {
    seq(|s|, i requires 0 <= i < |s| => LowerChar(s[i]))
  }

  /** A string without upper-case letters is its own lower-case form. */
  lemma LowerNoUpper(s: string)
    requires forall i :: 0 <= i < |s| ==> !IsUpper(s[i])
    ensures Lower(s) == s
  {
  }

  function LStrip(s: string): (r: string)
    ensures |r| <= |s|
    ensures r != [] ==> !IsSpace(r[0])
  {
    if s != [] && IsSpace(s[0]) then LStrip(s[1..]) else s
  }

  function RStrip(s: string): (r: string)
    ensures |r| <= |s| && r == s[..|r|]
    ensures r != [] ==> !IsSpace(r[|r| - 1])
  {
    if s != [] && IsSpace(s[|s| - 1]) then RStrip(s[..|s| - 1]) else s
  }

  /** Python's `s.strip()`: leading and trailing whitespace removed. */
  function Strip(s: string): (r: string)
    ensures |r| <= |s|
    ensures r != [] ==> !IsSpace(r[0]) && !IsSpace(r[|r| - 1])
  {
    RStrip(LStrip(s))
  }

  /** `lstrip` removes a prefix made of whitespace only. */
  lemma {:induction false} LStripRemovesSpaces(s: string)
    ensures LStrip(s) == s[|s| - |LStrip(s)|..]
    ensures forall i :: 0 <= i < |s| - |LStrip(s)| ==> IsSpace(s[i])
  {
    if s != [] && IsSpace(s[0]) {
      LStripRemovesSpaces(s[1..]);
    }
  }

  /** `lstrip` leaves nothing exactly when every character is whitespace. */
  lemma LStripEmptyIff(s: string)
    ensures LStrip(s) == [] <==> forall i :: 0 <= i < |s| ==> IsSpace(s[i])
  {
    LStripRemovesSpaces(s);
    if LStrip(s) != [] {
      assert LStrip(s)[0] == s[|s| - |LStrip(s)|];
    }
  }

  /** `rstrip` removes a suffix made of whitespace only. */
  lemma {:induction false} RStripRemovesSpaces(s: string)
    ensures forall i :: |RStrip(s)| <= i < |s| ==> IsSpace(s[i])
  {
    if s != [] && IsSpace(s[|s| - 1]) {
      RStripRemovesSpaces(s[..|s| - 1]);
    }
  }

  /** A string is blank for `if s.strip()` exactly when every character is whitespace. */
  lemma {:induction false} StripEmptyIff(s: string)
    ensures Strip(s) == [] <==> forall i :: 0 <= i < |s| ==> IsSpace(s[i])
  {
    var l := LStrip(s);
    LStripRemovesSpaces(s);
    RStripRemovesSpaces(l);
    assert l == [] || l[0] == s[|s| - |l|];
  }

  /** A string with no whitespace at either end is its own strip. */
  lemma StripNoEdgeSpace(s: string)
    requires s != [] ==> !IsSpace(s[0]) && !IsSpace(s[|s| - 1])
    ensures Strip(s) == s
  {
  }

  /** Lower-casing neither creates nor removes whitespace at the ends. */
  lemma LowerKeepsEdges(s: string)
    requires s != [] ==> !IsSpace(s[0]) && !IsSpace(s[|s| - 1])
    ensures Lower(s) != [] ==> !IsSpace(Lower(s)[0]) && !IsSpace(Lower(s)[|s| - 1])
  {
  }

  /** After lower-casing nothing is upper-case. */
  lemma LowerHasNoUpper(s: string)
    ensures forall i :: 0 <= i < |Lower(s)| ==> !IsUpper(Lower(s)[i])
  {
  }

  /** Python's `pat in text`. */
  predicate Contains(text: string, pat: string) {
    exists i :: 0 <= i <= |text| - |pat| && OccursAt(text, pat, i)
  }

  predicate OccursAt(text: string, pat: string, i: int) {
    0 <= i <= |text| - |pat| && text[i..i + |pat|] == pat
  }

  predicate StartsWith(s: string, p: string) {
    |p| <= |s| && s[..|p|] == p
  }

  /** The three parts of a concatenation sit at its start, after the first, and at its end. */
  lemma ThreeParts(a: string, b: string, c: string)
    ensures StartsWith(a + b + c, a)
    ensures OccursAt(a + b + c, b, |a|)
    ensures (a + b + c)[|a + b|..] == c
  {
    var r := a + b + c;
    assert r[..|a|] == a;
    assert r[|a|..|a| + |b|] == b;
  }

  /** Number of occurrences of `c` in `s`. */
  function CountChar(s: string, c: char): nat {
    if s == [] then 0 else (if s[0] == c then 1 else 0) + CountChar(s[1..], c)
  }

  /** Python's `s.split(sep)` for a one-character separator. */
  function Split(s: string, sep: char): (r: seq<string>)
    ensures |r| == CountChar(s, sep) + 1
    ensures forall i :: 0 <= i < |r| ==> sep !in r[i]
  {
    if s == [] then [[]]
    else if s[0] == sep then [[]] + Split(s[1..], sep)
    else
      var rest := Split(s[1..], sep);
      [[s[0]] + rest[0]] + rest[1..]
  }

  lemma {:induction false} SplitWithoutSeparator(s: string, sep: char)
    requires sep !in s
    ensures Split(s, sep) == [s]
  {
    if s != [] {
      SplitWithoutSeparator(s[1..], sep);
      assert [s[0]] + s[1..] == s;
    }
  }

  /** Python's `sep.join(parts)`. */
  function Join(parts: seq<string>, sep: string): string {
    if parts == [] then []
    else if |parts| == 1 then parts[0]
    else parts[0] + sep + Join(parts[1..], sep)
  }

  /** Python's `s * n`; a count at or below zero gives the empty string. */
  function Repeat(s: string, n: int): (r: string)
    ensures n >= 0 ==> |r| == |s| * n
    ensures n <= 0 ==> r == []
    decreases if n < 0 then 0 else n
  {
    if n <= 0 then [] else s + Repeat(s, n - 1)
  }

  lemma {:induction false} RepeatChar(c: char, n: nat, i: nat)
    requires i < n
    ensures |Repeat([c], n)| == n && Repeat([c], n)[i] == c
  {
    if i > 0 {
      RepeatChar(c, n - 1, i - 1);
    }
  }

  /** Python's `s.replace(a, b)` for single characters. */
  function ReplaceChar(s: string, a: char, b: char): (r: string)
    ensures |r| == |s|
    ensures forall i :: 0 <= i < |s| ==> r[i] == if s[i] == a then b else s[i]
  {
    seq(|s|, i requires 0 <= i < |s| => if s[i] == a then b else s[i])
  }

  /** Python's `s.replace(pat, rep)`: every non-overlapping occurrence, scanning left to right. */
  function ReplaceAll(s: string, pat: string, rep: string): string
    requires pat != []
  {
    if |s| < |pat| then s
    else if s[..|pat|] == pat then rep + ReplaceAll(s[|pat|..], pat, rep)
    else [s[0]] + ReplaceAll(s[1..], pat, rep)
  }

  /** A character that is in no part and not in the separator is not in the joined string. */
  lemma {:induction false} JoinAvoids(parts: seq<string>, sep: string, c: char)
    requires c !in sep
    requires forall i :: 0 <= i < |parts| ==> c !in parts[i]
    ensures c !in Join(parts, sep)
  {
    if |parts| > 1 {
      JoinAvoids(parts[1..], sep, c);
    }
  }

  /** Splitting at the first separator after a separator-free prefix yields that prefix first. */
  lemma {:induction false} SplitAfterPiece(a: string, b: string, sep: char)
    requires sep !in a
    ensures Split(a + [sep] + b, sep) == [a] + Split(b, sep)
  {
    if a == [] {
      assert a + [sep] + b == [sep] + b;
      assert ([sep] + b)[1..] == b;
    } else {
      var t := a + [sep] + b;
      assert t[0] == a[0] && t[1..] == a[1..] + [sep] + b;
      SplitAfterPiece(a[1..], b, sep);
      assert [a[0]] + a[1..] == a;
    }
  }

  /**
   * Joining with a one-character separator and splitting on it gives the
   * parts back, provided no part contains the separator.
   */
  lemma {:induction false} SplitJoin(parts: seq<string>, sep: char)
    requires parts != []
    requires forall i :: 0 <= i < |parts| ==> sep !in parts[i]
    ensures Split(Join(parts, [sep]), sep) == parts
  {
    if |parts| == 1 {
      SplitWithoutSeparator(parts[0], sep);
    } else {
      SplitJoin(parts[1..], sep);
      SplitAfterPiece(parts[0], Join(parts[1..], [sep]), sep);
      assert [parts[0]] + parts[1..] == parts;
    }
  }

  /** A text longer than `limit` is cut to its first `limit` characters and marked with "..."; a shorter one is kept. */
  function Truncate(s: string, limit: nat): (r: string)
    ensures |r| == if |s| > limit then limit + 3 else |s|
    ensures |s| <= limit ==> r == s
    ensures |s| > limit ==> StartsWith(r, s[..limit]) && r[limit..] == "..."
  {
    if |s| > limit then s[..limit] + "..." else s
  }

  /**
   * Truncation leaves a text unchanged exactly when it is within the limit,
   * or when it is exactly three longer and already ends in "...".
   */
  lemma TruncateFixedIff(s: string, limit: nat)
    ensures Truncate(s, limit) == s <==> |s| <= limit || (|s| == limit + 3 && s[limit..] == "...")
  {
    if |s| == limit + 3 && s[limit..] == "..." {
      assert s == s[..limit] + s[limit..];
    }
  }
}
