/**
 * The two filters the fetchers apply to an entry: the case-insensitive,
 * exact author-name test (`af.lower() in (a.lower() for a in entry_authors)`
 * for some `af`) and the case-insensitive keyword substring test.
 */
module Matching {
  import opened Text

  /** Some name in `names`, lowercased, equals `target` (Python's `target in (a.lower() for a in names)`). */
  function NameListed(target: string, names: seq<string>): bool
  {
    if names == [] then false
    else Lower(names[0]) == target || NameListed(target, names[1..])
  }

  lemma {:induction false} NameListedIff(target: string, names: seq<string>)
    ensures NameListed(target, names) <==> exists j :: 0 <= j < |names| && Lower(names[j]) == target
    decreases |names|
  {
    if names != [] {
      NameListedIff(target, names[1..]);
      assert forall j :: 0 <= j < |names| - 1 ==> names[1..][j] == names[j + 1];
    }
  }

  /** Some filter name and some entry author agree once both are lowercased. */
  function AuthorMatches(filter: seq<string>, names: seq<string>): bool
  {
    if filter == [] then false
    else NameListed(Lower(filter[0]), names) || AuthorMatches(filter[1..], names)
  }

  /** The author test holds exactly when some filter name equals some author up to case. */
  lemma {:induction false} AuthorMatchesIff(filter: seq<string>, names: seq<string>)
    ensures AuthorMatches(filter, names) <==>
            exists i, j :: 0 <= i < |filter| && 0 <= j < |names| && Lower(filter[i]) == Lower(names[j])
    decreases |filter|
  {
    if filter != [] {
      NameListedIff(Lower(filter[0]), names);
      AuthorMatchesIff(filter[1..], names);
      assert forall i :: 0 <= i < |filter| - 1 ==> filter[1..][i] == filter[i + 1];
    }
  }

  /**
   * The author test of both fetchers: an empty (or absent) filter lets every
   * entry through, otherwise some author must match some filter name.
   */
  predicate PassesAuthorFilter(filter: seq<string>, names: seq<string>) {
    filter == [] || AuthorMatches(filter, names)
  }

  /** The test is an exact name test, not a substring test. */
  lemma AuthorMatchIsExact()
    ensures !AuthorMatches(["Hinton"], ["Geoffrey Hinton"])
    ensures AuthorMatches(["hinton"], ["HINTON"])
  {
    AuthorMatchesIff(["Hinton"], ["Geoffrey Hinton"]);
    AuthorMatchesIff(["hinton"], ["HINTON"]);
    assert Lower("hinton") == Lower("HINTON");
  }

  /** Some keyword, lowercased, occurs in `text` (Python's `any(kw.lower() in text for kw in keywords)`). */
  function KeywordMatches(keywords: seq<string>, text: string): bool
  {
    if keywords == [] then false
    else IsSubstring(Lower(keywords[0]), text) || KeywordMatches(keywords[1..], text)
  }

  /** The keyword test holds exactly when some lowercased keyword occurs in the text. */
  lemma {:induction false} KeywordMatchesIff(keywords: seq<string>, text: string)
    ensures KeywordMatches(keywords, text) <==>
            exists i :: 0 <= i < |keywords| && OccursIn(Lower(keywords[i]), text)
    decreases |keywords|
  {
    if keywords != [] {
      KeywordMatchesIff(keywords[1..], text);
      assert forall i :: 0 <= i < |keywords| - 1 ==> keywords[1..][i] == keywords[i + 1];
    }
  }

  /** An empty keyword matches every text. */
  lemma EmptyKeywordMatches(keywords: seq<string>, text: string)
    requires "" in keywords
    ensures KeywordMatches(keywords, text)
  {
    var i :| 0 <= i < |keywords| && keywords[i] == "";
    EmptyOccurs(text);
    assert Lower(keywords[i]) == "";
    KeywordMatchesIff(keywords, text);
  }
}
