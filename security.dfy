/**
 * The string rules of the security helper: masking a secret for logs and
 * the default output paths of file encryption and decryption.
 */
module Security {
  import opened Text

  /** Python's `s[:k]` for any integer `k`; a negative `k` counts from the end. */
  function SliceTo(s: string, k: int): (r: string)
    ensures |r| <= |s| && r == s[..|r|]
    ensures |r| == if k >= 0 then (if k <= |s| then k else |s|) else (if |s| + k >= 0 then |s| + k else 0)
  {
    if k >= 0 then (if k <= |s| then s[..k] else s)
    else if |s| + k >= 0 then s[..|s| + k] else []
  }

  /** Python's `s[k:]` for any integer `k`; a negative `k` counts from the end. */
  function SliceFrom(s: string, k: int): (r: string)
    ensures |r| <= |s| && r == s[|s| - |r|..]
    ensures |r| == if k >= 0 then (if k <= |s| then |s| - k else 0) else (if |s| + k >= 0 then -k else |s|)
  {
    if k >= 0 then (if k <= |s| then s[k..] else [])
    else if |s| + k >= 0 then s[|s| + k..] else s
  }

  /**
   * Masking as written: a secret of at most twice `visible` characters is
   * all mask; otherwise its first and last `visible` characters frame
   * `|data| - 2·visible` copies of the mask. The last part is the slice
   * `data[-visible:]`, which for `visible` 0 is the whole secret.
   */
  function MaskSensitiveData(data: string, mask: string, visible: int): (r: string)
    ensures |data| <= visible * 2 ==> |r| == |mask| * |data|
    ensures |mask| == 1 && visible > 0 ==> |r| == |data|
    ensures |mask| == 1 && visible == 0 ==> |r| == 2 * |data|
  {
    if |data| <= visible * 2 then Repeat(mask, |data|)
    else SliceTo(data, visible) + Repeat(mask, |data| - visible * 2) + SliceFrom(data, -visible)
  }

  /** A secret no longer than twice the visible count is masked entirely: with a one-character mask, only the mask and the length show. */
  lemma MaskShortRevealsNothing(data: string, m: char, visible: int)
    requires |data| <= visible * 2
    ensures |MaskSensitiveData(data, [m], visible)| == |data|
    ensures forall i :: 0 <= i < |data| ==> MaskSensitiveData(data, [m], visible)[i] == m
  {
    forall i | 0 <= i < |data| ensures MaskSensitiveData(data, [m], visible)[i] == m {
      RepeatChar(m, |data|, i);
    }
  }

  /**
   * A longer secret keeps its first and last `visible` characters and shows
   * the mask everywhere between; with a one-character mask the length is kept.
   */
  lemma MaskKeepsEnds(data: string, m: char, visible: int)
    requires visible >= 1 && |data| > visible * 2
    ensures var r := MaskSensitiveData(data, [m], visible);
      && |r| == |data|
      && r[..visible] == data[..visible]
      && r[|r| - visible..] == data[|data| - visible..]
      && forall i :: visible <= i < |data| - visible ==> r[i] == m
  {
    var r := MaskSensitiveData(data, [m], visible);
    var middle := Repeat([m], |data| - visible * 2);
    assert r == data[..visible] + middle + data[|data| - visible..];
    forall i | visible <= i < |data| - visible ensures r[i] == m {
      RepeatChar(m, |data| - visible * 2, i - visible);
    }
  }

  /** With a one-character mask, masking never changes the length once at least one character is visible. */
  lemma MaskKeepsLength(data: string, m: char, visible: int)
    requires visible >= 1
    ensures |MaskSensitiveData(data, [m], visible)| == |data|
  {
    if |data| > visible * 2 {
      MaskKeepsEnds(data, m, visible);
    }
  }

  /** With no visible characters, a non-empty secret comes out as mask followed by the whole secret. */
  lemma MaskZeroRevealsAll(data: string, m: char)
    requires data != []
    ensures MaskSensitiveData(data, [m], 0) == Repeat([m], |data|) + data
  {
    assert SliceTo(data, 0) == [];
    assert SliceFrom(data, 0) == data;
  }

  /** The secret "secret" with no visible characters is printed in full after six stars. */
  lemma MaskZeroExample()
    ensures MaskSensitiveData("secret", "*", 0) == "******secret"
  {
    MaskZeroRevealsAll("secret", '*');
    assert Repeat("*", 6) == "******";
  }

  /**
   * Masking as intended: the last part is the final `visible` characters,
   * so a secret shows nothing with `visible` 0 and never more than
   * `visible` characters at each end.
   */
  function MaskSensitiveDataCorrected(data: string, mask: string, visible: int): (r: string)
    ensures |data| <= visible * 2 ==> |r| == |mask| * |data|
    ensures |mask| == 1 && visible >= 0 ==> |r| == |data|
  {
    if |data| <= visible * 2 then Repeat(mask, |data|)
    else SliceTo(data, visible) + Repeat(mask, |data| - visible * 2) + SliceFrom(data, |data| - visible)
  }

  /**
   * The corrected masking shows exactly the first and last `visible`
   * characters of a long enough secret (none when `visible` is 0), puts the
   * mask everywhere else and keeps the length with a one-character mask.
   */
  lemma MaskCorrectedRevealsOnlyEnds(data: string, m: char, visible: nat)
    ensures var r := MaskSensitiveDataCorrected(data, [m], visible);
      && |r| == |data|
      && (|data| <= visible * 2 ==> forall i :: 0 <= i < |data| ==> r[i] == m)
      && (|data| > visible * 2 ==>
            && r[..visible] == data[..visible]
            && r[|r| - visible..] == data[|data| - visible..]
            && forall i :: visible <= i < |data| - visible ==> r[i] == m)
  {
    var r := MaskSensitiveDataCorrected(data, [m], visible);
    if |data| <= visible * 2 {
      forall i | 0 <= i < |data| ensures r[i] == m {
        RepeatChar(m, |data|, i);
      }
    } else {
      var middle := Repeat([m], |data| - visible * 2);
      assert r == data[..visible] + middle + data[|data| - visible..];
      forall i | visible <= i < |data| - visible ensures r[i] == m {
        RepeatChar(m, |data| - visible * 2, i - visible);
      }
    }
  }

  /** The two masks agree whenever at least one character is visible. */
  lemma MaskCorrectedAgreesFromOne(data: string, mask: string, visible: int)
    requires visible >= 1
    ensures MaskSensitiveDataCorrected(data, mask, visible) == MaskSensitiveData(data, mask, visible)
  {
  }

  const EncryptedSuffix: string := ".encrypted"

  /** Encryption's default output path: the suffix appended. */
  function EncryptDefaultPath(path: string): (r: string)
    ensures StartsWith(r, path) && r[|path|..] == EncryptedSuffix
  {
    path + EncryptedSuffix
  }

  /** Decryption's default output path: every occurrence of the suffix removed, in one left-to-right pass. */
  function DecryptDefaultPath(path: string): (r: string)
    ensures |r| <= |path|
  {
    ReplaceAllEmptyShrinks(path);
    ReplaceAll(path, EncryptedSuffix, "")
  }

  lemma {:induction false} ReplaceAllEmptyShrinks(s: string)
    ensures |ReplaceAll(s, EncryptedSuffix, "")| <= |s|
  {
    if |s| >= |EncryptedSuffix| {
      if s[..|EncryptedSuffix|] == EncryptedSuffix {
        ReplaceAllEmptyShrinks(s[|EncryptedSuffix|..]);
      } else {
        ReplaceAllEmptyShrinks(s[1..]);
      }
    }
  }

  /** The suffix starts with the only '.' it holds, so it cannot begin inside a shorter non-empty prefix of itself. */
  lemma NoStraddle(s: string)
    requires 0 < |s| < |EncryptedSuffix|
    ensures (s + EncryptedSuffix)[..|EncryptedSuffix|] != EncryptedSuffix
  {
    var e := EncryptedSuffix;
    assert (s + e)[..|e|][|s|] == '.';
    assert e[|s|] != '.';
  }

  /** A path without the suffix followed by the suffix does not start with the suffix. */
  lemma AppendedNotAtStart(s: string)
    requires s != [] && !Contains(s, EncryptedSuffix)
    ensures (s + EncryptedSuffix)[..|EncryptedSuffix|] != EncryptedSuffix
  {
    var e := EncryptedSuffix;
    if |s| < |e| {
      NoStraddle(s);
    } else {
      assert !OccursAt(s, e, 0);
      assert s[..|e|] == (s + e)[..|e|];
    }
  }

  /** Dropping the first character keeps a text free of a pattern. */
  lemma NotContainsTail(s: string, pat: string)
    requires s != [] && !Contains(s, pat)
    ensures !Contains(s[1..], pat)
  {
    if Contains(s[1..], pat) {
      var i :| 0 <= i <= |s[1..]| - |pat| && OccursAt(s[1..], pat, i);
      assert s[i + 1..i + 1 + |pat|] == s[1..][i..i + |pat|];
      assert OccursAt(s, pat, i + 1);
    }
  }

  /** The suffix does not occur straddling a suffix-free path and an appended suffix: it has no border. */
  lemma {:induction false} RemoveAllAppended(s: string)
    requires !Contains(s, EncryptedSuffix)
    ensures ReplaceAll(s + EncryptedSuffix, EncryptedSuffix, "") == s
  {
    var e := EncryptedSuffix;
    var t := s + e;
    if s == [] {
      assert t == e && t[..|e|] == e && t[|e|..] == [];
    } else {
      AppendedNotAtStart(s);
      NotContainsTail(s, e);
      RemoveAllAppended(s[1..]);
      assert t[1..] == s[1..] + e;
      assert [s[0]] + s[1..] == s;
    }
  }

  /** For a path that does not contain the suffix, decrypting the default encrypted path gives back the path. */
  lemma DefaultPathsRoundTrip(path: string)
    requires !Contains(path, EncryptedSuffix)
    ensures DecryptDefaultPath(EncryptDefaultPath(path)) == path
  {
    RemoveAllAppended(path);
  }
}
