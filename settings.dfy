/**
 * The parser settings: the validator that turns the comma-separated
 * keyword option into a list.
 */
module Settings {
  import opened Text
  import opened Keywords

  /**
   * The keyword validator: an empty option gives no keywords; otherwise the
   * option is split on commas and each piece is normalised like any keyword
   * list (stripped, lower-cased, blank pieces dropped, order kept).
   */
  function ParseKeywords(v: string): (r: seq<string>)
    ensures v == [] ==> r == []
    ensures |r| <= CountChar(v, ',') + 1
    ensures forall i :: 0 <= i < |r| ==> IsNormalKeyword(r[i])
  {
    if v == [] then []
    else
      NormalizeKeywordsNormal(Split(v, ','));
      NormalizeKeywords(Split(v, ','))
  }

  /** The validator and the parser's keyword setter agree on every option string, the empty one included. */
  lemma ParseKeywordsIsNormalizedSplit(v: string)
    ensures ParseKeywords(v) == NormalizeKeywords(Split(v, ','))
  {
    if v == [] {
      assert Split(v, ',') == [[]];
      assert IsBlank([]);
      NormalizeKeywordsSingle([]);
    }
  }

  /** Each keyword is a non-blank comma-separated piece, stripped and lower-cased; every such piece is kept. */
  lemma ParseKeywordsPieces(v: string)
    ensures forall x :: x in ParseKeywords(v) ==>
      exists j :: 0 <= j < |Split(v, ',')| && !IsBlank(Split(v, ',')[j]) && x == NormalizeKeyword(Split(v, ',')[j])
    ensures forall j :: 0 <= j < |Split(v, ',')| && !IsBlank(Split(v, ',')[j]) ==>
      NormalizeKeyword(Split(v, ',')[j]) in ParseKeywords(v)
  {
    ParseKeywordsIsNormalizedSplit(v);
    NormalizeKeywordsMembers(Split(v, ','));
  }

  /** An option without a comma and not blank gives exactly one keyword. */
  lemma ParseKeywordsSingle(v: string)
    requires ',' !in v && !IsBlank(v)
    ensures ParseKeywords(v) == [NormalizeKeyword(v)]
  {
    SplitWithoutSeparator(v, ',');
    NormalizeKeywordsSingle(v);
  }
}
