/**
 * The keyword set and the matcher over it.
 *
 * A keyword list is normalised by stripping each entry, lower-casing it and
 * dropping the entries that are blank once stripped; a message text matches
 * a keyword when the keyword is a substring of the lower-cased text.
 */
module Keywords {
  import opened Text

  /** One surviving entry of a keyword list: `keyword.strip().lower()`. */
  function NormalizeKeyword(k: string): string {
    Lower(Strip(k))
  }

  /** The entries the comprehension keeps: `if keyword.strip()`. */
  predicate IsBlank(k: string) {
    Strip(k) == []
  }

  /** What a stored keyword looks like: non-empty, no edge whitespace, nothing left to lower-case. */
  predicate IsNormalKeyword(k: string) {
    && k != []
    && !IsSpace(k[0]) && !IsSpace(k[|k| - 1])
    && forall i :: 0 <= i < |k| ==> !IsUpper(k[i])
  }

  lemma NormalizeKeywordIsNormal(k: string)
    requires !IsBlank(k)
    ensures IsNormalKeyword(NormalizeKeyword(k))
  {
    var s := Strip(k);
    LowerKeepsEdges(s);
    LowerHasNoUpper(s);
  }

  lemma NormalKeywordIsFixed(k: string)
    requires IsNormalKeyword(k)
    ensures !IsBlank(k) && NormalizeKeyword(k) == k
  {
    StripNoEdgeSpace(k);
    LowerNoUpper(k);
  }

  /**
   * The list comprehension shared by the parser's keyword setter, the
   * keyword validator of the settings and the keyword command of the bot:
   * input order kept, blank entries dropped, survivors stripped and lower-cased.
   */
  function NormalizeKeywords(ks: seq<string>): (r: seq<string>)
    ensures |r| <= |ks|
  {
    if ks == [] then []
    else (if IsBlank(ks[0]) then [] else [NormalizeKeyword(ks[0])]) + NormalizeKeywords(ks[1..])
  }

  /** Every stored keyword is non-empty, stripped and lower-case. */
  lemma {:induction false} NormalizeKeywordsNormal(ks: seq<string>)
    ensures forall i :: 0 <= i < |NormalizeKeywords(ks)| ==> IsNormalKeyword(NormalizeKeywords(ks)[i])
  {
    if ks != [] {
      NormalizeKeywordsNormal(ks[1..]);
      if !IsBlank(ks[0]) {
        NormalizeKeywordIsNormal(ks[0]);
      }
    }
  }

  /** Every stored keyword comes from a non-blank input entry, and every non-blank entry is stored. */
  lemma {:induction false} NormalizeKeywordsMembers(ks: seq<string>)
    ensures forall x :: x in NormalizeKeywords(ks) ==>
      exists j :: 0 <= j < |ks| && !IsBlank(ks[j]) && x == NormalizeKeyword(ks[j])
    ensures forall j :: 0 <= j < |ks| && !IsBlank(ks[j]) ==> NormalizeKeyword(ks[j]) in NormalizeKeywords(ks)
  {
    if ks != [] {
      NormalizeKeywordsMembers(ks[1..]);
      forall x | x in NormalizeKeywords(ks)
        ensures exists j :: 0 <= j < |ks| && !IsBlank(ks[j]) && x == NormalizeKeyword(ks[j])
      {
        if x !in NormalizeKeywords(ks[1..]) {
          assert !IsBlank(ks[0]) && x == NormalizeKeyword(ks[0]);
        } else {
          var j :| 0 <= j < |ks[1..]| && !IsBlank(ks[1..][j]) && x == NormalizeKeyword(ks[1..][j]);
          assert ks[j + 1] == ks[1..][j];
        }
      }
      forall j | 0 <= j < |ks| && !IsBlank(ks[j]) ensures NormalizeKeyword(ks[j]) in NormalizeKeywords(ks) {
        if j > 0 {
          assert ks[1..][j - 1] == ks[j];
        }
      }
    }
  }

  /** Normalising a concatenation normalises each part in turn: order is preserved. */
  lemma {:induction false} NormalizeKeywordsAppend(a: seq<string>, b: seq<string>)
    ensures NormalizeKeywords(a + b) == NormalizeKeywords(a) + NormalizeKeywords(b)
  {
    if a == [] {
      assert a + b == b;
    } else {
      assert (a + b)[1..] == a[1..] + b;
      assert (a + b)[0] == a[0];
      NormalizeKeywordsAppend(a[1..], b);
    }
  }

  /** A single entry is kept, normalised, exactly when it is not blank. */
  lemma NormalizeKeywordsSingle(k: string)
    ensures NormalizeKeywords([k]) == if IsBlank(k) then [] else [NormalizeKeyword(k)]
  {
    assert [k][1..] == [];
  }

  /** A list that is already normalised is left as it is. */
  lemma {:induction false} NormalizeKeywordsFixed(ks: seq<string>)
    requires forall i :: 0 <= i < |ks| ==> IsNormalKeyword(ks[i])
    ensures NormalizeKeywords(ks) == ks
  {
    if ks != [] {
      NormalizeKeywordsFixed(ks[1..]);
      NormalKeywordIsFixed(ks[0]);
      assert [ks[0]] + ks[1..] == ks;
    }
  }

  /** Setting keywords from the result of a previous setting changes nothing. */
  lemma NormalizeKeywordsIdempotent(ks: seq<string>)
    ensures NormalizeKeywords(NormalizeKeywords(ks)) == NormalizeKeywords(ks)
  {
    NormalizeKeywordsNormal(ks);
    NormalizeKeywordsFixed(NormalizeKeywords(ks));
  }

  /** `keyword in text.lower()`. */
  predicate KeywordIn(k: string, text: string) {
    Contains(Lower(text), k)
  }

  /**
   * The keywords found in a message text: every keyword of the list that is
   * a substring of the lower-cased text, in list order, duplicates kept.
   */
  function MatchingKeywords(ks: seq<string>, text: string): (r: seq<string>)
    ensures |r| <= |ks|
  {
    if ks == [] then []
    else
      var k := ks[|ks| - 1];
      var init := ks[..|ks| - 1];
      assert ks == init + [k];
      MatchingKeywords(init, text) + (if KeywordIn(k, text) then [k] else [])
  }

  /** Exactly the keywords that occur in the lower-cased text are reported. */
  lemma {:induction false} MatchingKeywordsMembers(ks: seq<string>, text: string)
    ensures forall k :: k in MatchingKeywords(ks, text) <==> k in ks && KeywordIn(k, text)
  {
    if ks != [] {
      var init := ks[..|ks| - 1];
      assert ks == init + [ks[|ks| - 1]];
      MatchingKeywordsMembers(init, text);
    }
  }

  /** Matching a concatenation of keyword lists concatenates the matches: list order is kept. */
  lemma {:induction false} MatchingKeywordsAppend(a: seq<string>, b: seq<string>, text: string)
    ensures MatchingKeywords(a + b, text) == MatchingKeywords(a, text) + MatchingKeywords(b, text)
    decreases |b|
  {
    if b == [] {
      assert a + b == a;
    } else {
      var b' := b[..|b| - 1];
      assert (a + b)[..|a + b| - 1] == a + b';
      MatchingKeywordsAppend(a, b', text);
    }
  }

  /** A single keyword is reported exactly when it occurs in the lower-cased text. */
  lemma MatchingKeywordsSingle(k: string, text: string)
    ensures MatchingKeywords([k], text) == if KeywordIn(k, text) then [k] else []
  {
    assert [k][..0] == [];
  }

  /**
   * The message filter: no keywords or an empty text never match; otherwise a
   * text matches when some keyword occurs in it.
   */
  predicate MessageMatches(ks: seq<string>, text: string)
    ensures MessageMatches(ks, text) <==> text != [] && MatchingKeywords(ks, text) != []
  {
    MatchingKeywordsMembers(ks, text);
    assert MatchingKeywords(ks, text) != [] ==> MatchingKeywords(ks, text)[0] in MatchingKeywords(ks, text);
    ks != [] && text != [] && exists k :: k in ks && KeywordIn(k, text)
  }

  /** The filter agrees with the matcher: a non-empty text passes exactly when some keyword is found. */
  lemma MessageMatchesIffFound(ks: seq<string>, text: string)
    ensures text == [] ==> !MessageMatches(ks, text)
    ensures text != [] ==> (MessageMatches(ks, text) <==> MatchingKeywords(ks, text) != [])
  {
    MatchingKeywordsMembers(ks, text);
    if text != [] && MatchingKeywords(ks, text) != [] {
      assert MatchingKeywords(ks, text)[0] in MatchingKeywords(ks, text);
    }
  }
}
