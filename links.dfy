/**
 * Normalisation of a chat link to a username.
 *
 * Three patterns are searched in a fixed order, each a literal followed by
 * one or more word characters `[a-zA-Z0-9_]`: `t.me/`, `telegram.me/` and
 * `@`. The first pattern with a match anywhere in the link wins, and the
 * username is the maximal word-character run after the leftmost occurrence.
 * Without a match, a link starting with `@` loses that character, a link
 * with neither `/` nor `@` is taken as the username itself, and anything
 * else has no username.
 */
module Links {
  import opened Text
  import opened Wrappers

  const TMe: string := "t.me/"
  const TelegramMe: string := "telegram.me/"
  const At: string := "@"

  /** The character class `[a-zA-Z0-9_]`. */
  predicate IsWordChar(c: char) {
    ('a' <= c <= 'z') || ('A' <= c <= 'Z') || ('0' <= c <= '9') || c == '_'
  }

  predicate IsWord(s: string) {
    forall i :: 0 <= i < |s| ==> IsWordChar(s[i])
  }

  /** The greedy `[a-zA-Z0-9_]*` at the start of `s`. */
  function WordRun(s: string): (r: string)
    ensures |r| <= |s| && r == s[..|r|]
    ensures IsWord(r)
    ensures |r| == |s| || !IsWordChar(s[|r|])
  {
    if s != [] && IsWordChar(s[0]) then [s[0]] + WordRun(s[1..]) else []
  }

  lemma {:induction false} WordRunOfWord(s: string)
    requires IsWord(s)
    ensures WordRun(s) == s
  {
    if s != [] {
      WordRunOfWord(s[1..]);
    }
  }

  /** The pattern `lit` followed by at least one word character matches at position `i`. */
  predicate MatchAt(link: string, lit: string, i: int) {
    0 <= i && i + |lit| < |link| && link[i..i + |lit|] == lit && IsWordChar(link[i + |lit|])
  }

  /** `re.search`: the leftmost position at or after `from` where the pattern matches. */
  function FindMatch(link: string, lit: string, from: nat): (r: Option<nat>)
    ensures r.Some? ==> from <= r.value && MatchAt(link, lit, r.value)
    ensures r.Some? ==> forall j :: from <= j < r.value ==> !MatchAt(link, lit, j)
    ensures r.None? ==> forall j :: from <= j ==> !MatchAt(link, lit, j)
    decreases |link| - from
  {
    if from + |lit| >= |link| then None
    else if MatchAt(link, lit, from) then Some(from)
    else FindMatch(link, lit, from + 1)
  }

  /** The first group of the pattern's leftmost match, if any. */
  function SearchGroup(link: string, lit: string): (r: Option<string>)
    ensures r.Some? ==> r.value != [] && IsWord(r.value)
  {
    match FindMatch(link, lit, 0)
    case Some(i) => Some(WordRun(link[i + |lit|..]))
    case None => None
  }

  /** The username a chat link names, or None. */
  function ExtractUsername(link: string): (r: Option<string>)
    ensures StartsWith(link, "@") ==> r.Some?
    ensures r.None? ==> '/' in link || '@' in link
  {
    var byTMe := SearchGroup(link, TMe);
    if byTMe.Some? then byTMe
    else
      var byTelegramMe := SearchGroup(link, TelegramMe);
      if byTelegramMe.Some? then byTelegramMe
      else
        var byAt := SearchGroup(link, At);
        if byAt.Some? then byAt
        else if StartsWith(link, "@") then Some(link[1..])
        else if '/' !in link && '@' !in link then Some(link)
        else None
  }

  /** A pattern whose literal holds a character absent from the link never matches. */
  lemma NoMatchWithout(link: string, lit: string, c: char)
    requires c in lit && c !in link
    ensures SearchGroup(link, lit) == None
  {
  }

  /** A link with neither `/` nor `@` is returned unchanged. */
  lemma PlainNameUnchanged(link: string)
    requires '/' !in link && '@' !in link
    ensures ExtractUsername(link) == Some(link)
  {
    assert TMe[4] == '/' && TelegramMe[11] == '/' && At[0] == '@';
    NoMatchWithout(link, TMe, '/');
    NoMatchWithout(link, TelegramMe, '/');
    NoMatchWithout(link, At, '@');
  }

  /** A username made of word characters normalises to itself. */
  lemma WordUnchanged(u: string)
    requires IsWord(u)
    ensures ExtractUsername(u) == Some(u)
  {
    assert '/' !in u by {
      forall i | 0 <= i < |u| ensures u[i] != '/' { assert IsWordChar(u[i]); }
    }
    assert '@' !in u by {
      forall i | 0 <= i < |u| ensures u[i] != '@' { assert IsWordChar(u[i]); }
    }
    PlainNameUnchanged(u);
  }

  /**
   * Normalisation is idempotent on what the patterns produce: a username
   * found by a pattern is a non-empty word, which normalises to itself.
   */
  lemma PatternResultIsFixed(link: string)
    requires SearchGroup(link, TMe).Some? || SearchGroup(link, TelegramMe).Some? || SearchGroup(link, At).Some?
    ensures ExtractUsername(link).Some? && ExtractUsername(link).value != []
    ensures ExtractUsername(ExtractUsername(link).value) == ExtractUsername(link)
  {
    WordUnchanged(ExtractUsername(link).value);
  }

  /** Without a pattern match, a link that contains `/` or `@` and does not start with `@` has no username. */
  lemma UnmatchedLinkHasNoUsername(link: string)
    requires SearchGroup(link, TMe).None? && SearchGroup(link, TelegramMe).None? && SearchGroup(link, At).None?
    requires !StartsWith(link, "@")
    ensures ExtractUsername(link).None? <==> ('/' in link || '@' in link)
  {
  }

  /** A bare `@` gives the empty username, which the registry then rejects. */
  lemma BareAtIsEmpty()
    ensures ExtractUsername("@") == Some("")
  {
    assert SearchGroup("@", TMe).None?;
    assert SearchGroup("@", TelegramMe).None?;
    assert SearchGroup("@", At).None?;
    assert StartsWith("@", "@");
    assert "@"[1..] == "";
  }

  /** The `t.me/` pattern is tried first even when an `@` handle stands earlier in the link. */
  lemma PriorityIsByPattern()
    ensures ExtractUsername("@first t.me/second") == Some("second")
  {
    var link := "@first t.me/second";
    assert MatchAt(link, TMe, 7);
    forall j | 0 <= j < 7 ensures !MatchAt(link, TMe, j) {
      assert link[j..j + |TMe|][4] == link[j + 4] != TMe[4];
    }
    assert FindMatch(link, TMe, 0) == Some(7);
    assert link[12..] == "second";
    assert IsWord("second");
    WordRunOfWord("second");
  }
}
