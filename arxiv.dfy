/**
 * The arXiv fetcher: the search query it sends to the export API, and the
 * loop that turns the returned Atom entries into paper records, keeping only
 * entries with an author on the filter when a filter is given.
 */
module Arxiv {
  import opened Common
  import opened Text
  import opened Records
  import opened Matching

  const ApiPrefix := "http://export.arxiv.org/api/query?search_query="
  const ApiSuffix := "&start=0&max_results=100&sortBy=submittedDate&sortOrder=descending"

  /** The request URL for a search query (`ARXIV_API.format(query=...)`). */
  function ApiUrl(query: string): (url: string)
    ensures |url| == |ApiPrefix| + |query| + |ApiSuffix|
    ensures url[..|ApiPrefix|] == ApiPrefix
    ensures url[|ApiPrefix|..|url| - |ApiSuffix|] == query
    ensures url[|url| - |ApiSuffix|..] == ApiSuffix
  {
    ApiPrefix + query + ApiSuffix
  }

  /** The search term for one keyword: `all:` and the keyword with its spaces turned into `+`. */
  function KeywordTerm(kw: string): (t: string)
    ensures |t| == 4 + |kw|
  {
    "all:" + ReplaceChar(kw, ' ', '+')
  }

  /** The term is `all:` followed by the keyword, character by character, with `+` for each space, and has no space. */
  lemma KeywordTermSpec(kw: string)
    ensures var t := KeywordTerm(kw);
            && t[..4] == "all:"
            && (forall k :: 0 <= k < |kw| ==> t[4 + k] == if kw[k] == ' ' then '+' else kw[k])
            && ' ' !in t
  {
    var r := ReplaceChar(kw, ' ', '+');
    assert KeywordTerm(kw) == ['a', 'l', 'l', ':'] + r;
  }

  /** The search term for one author name: `au:"<name>"`. */
  function AuthorTerm(name: string): (t: string)
    ensures |t| == |name| + 5 && t[..4] == "au:\"" && t[4..|t| - 1] == name && t[|t| - 1] == '"'
  {
    "au:\"" + name + "\""
  }

  function KeywordTerms(keywords: seq<string>): (ts: seq<string>)
    ensures |ts| == |keywords|
    ensures forall i :: 0 <= i < |keywords| ==> ts[i] == KeywordTerm(keywords[i])
  {
    seq(|keywords|, i requires 0 <= i < |keywords| => KeywordTerm(keywords[i]))
  }

  function AuthorTerms(names: seq<string>): (ts: seq<string>)
    ensures |ts| == |names|
    ensures forall i :: 0 <= i < |names| ==> ts[i] == AuthorTerm(names[i])
  {
    seq(|names|, i requires 0 <= i < |names| => AuthorTerm(names[i]))
  }

  const Or := "+OR+"

  /** The keyword part of the query: the keyword terms joined with `+OR+`, or empty without keywords. */
  function KeywordQuery(keywords: seq<string>): string
  {
    if keywords == [] then "" else Join(Or, KeywordTerms(keywords))
  }

  /**
   * The author part of the query: the author terms joined with `+OR+` and
   * then form-encoded by `quote` (`urllib.parse.quote_plus`, taken as given),
   * or empty without an author filter.
   */
  function AuthorQuery(filter: seq<string>, quote: string -> string): string
  {
    if filter == [] then "" else quote(Join(Or, AuthorTerms(filter)))
  }

  /** The full query: both parts OR-ed together when both are non-empty, else whichever is non-empty. */
  function FullQuery(keywords: seq<string>, filter: seq<string>, quote: string -> string): string
  {
    var kq := KeywordQuery(keywords);
    var aq := AuthorQuery(filter, quote);
    if kq != "" && aq != "" then "(" + kq + ")+OR+(" + aq + ")"
    else if kq != "" then kq
    else aq
  }

  /** The keyword part is empty exactly when there are no keywords (every term starts with `all:`). */
  lemma KeywordQueryEmptyIff(keywords: seq<string>)
    ensures KeywordQuery(keywords) == "" <==> keywords == []
  {
    var ts := KeywordTerms(keywords);
    forall k | 0 <= k < |ts| ensures ts[k] != "" {
      assert |ts[k]| == 4 + |keywords[k]|;
    }
    JoinEmptyIff(Or, ts);
  }

  /**
   * How the two parts combine, stated on the inputs: with keywords and a
   * non-empty author part the query is `(kq)+OR+(aq)`; without keywords it is
   * the author part (possibly empty); with an empty author part it is the
   * keyword part.
   */
  lemma FullQueryCases(keywords: seq<string>, filter: seq<string>, quote: string -> string)
    ensures var kq, aq := KeywordQuery(keywords), AuthorQuery(filter, quote);
            var q := FullQuery(keywords, filter, quote);
            && (keywords != [] && aq != "" ==> q == "(" + kq + ")+OR+(" + aq + ")")
            && (keywords == [] ==> q == aq)
            && (aq == "" ==> q == kq)
            && (filter == [] ==> q == kq)
  {
    KeywordQueryEmptyIff(keywords);
  }

  /** The query is empty exactly when there are no keywords and the author part is empty. */
  lemma FullQueryEmptyIff(keywords: seq<string>, filter: seq<string>, quote: string -> string)
    ensures FullQuery(keywords, filter, quote) == "" <==>
            keywords == [] && AuthorQuery(filter, quote) == ""
  {
    KeywordQueryEmptyIff(keywords);
  }

  /** The search term of every keyword occurs in the query sent. */
  lemma QueryMentionsKeyword(keywords: seq<string>, filter: seq<string>, quote: string -> string, i: nat)
    requires i < |keywords|
    ensures OccursIn(KeywordTerm(keywords[i]), FullQuery(keywords, filter, quote))
  {
    var ts := KeywordTerms(keywords);
    PartOccursInJoin(Or, ts, i);
    assert ts[i] == KeywordTerm(keywords[i]);
    assert Join(Or, ts) == KeywordQuery(keywords);
    QueryMentionsKeywords(keywords, filter, quote);
    OccursInTrans(ts[i], KeywordQuery(keywords), FullQuery(keywords, filter, quote));
  }

  /** The keyword part occurs in the query sent. */
  lemma QueryMentionsKeywords(keywords: seq<string>, filter: seq<string>, quote: string -> string)
    ensures OccursIn(KeywordQuery(keywords), FullQuery(keywords, filter, quote))
  {
    var kq := KeywordQuery(keywords);
    var aq := AuthorQuery(filter, quote);
    if kq != "" && aq != "" {
      assert OccursAt(kq, "(" + kq, 1);
      OccursInConcat(kq, "(" + kq, ")+OR+(" + aq + ")");
      assert FullQuery(keywords, filter, quote) == ("(" + kq) + (")+OR+(" + aq + ")");
    } else if kq != "" {
      assert OccursAt(kq, kq, 0);
    } else {
      EmptyOccurs(aq);
    }
  }

  /** The search term of every filter name occurs in the author part before encoding. */
  lemma AuthorQueryMentionsName(filter: seq<string>, i: nat)
    requires i < |filter|
    ensures OccursIn(AuthorTerm(filter[i]), Join(Or, AuthorTerms(filter)))
  {
    PartOccursInJoin(Or, AuthorTerms(filter), i);
  }

  /** The (encoded) author part occurs in the query whenever it is non-empty. */
  lemma QueryMentionsAuthors(keywords: seq<string>, filter: seq<string>, quote: string -> string)
    ensures OccursIn(AuthorQuery(filter, quote), FullQuery(keywords, filter, quote))
  {
    var kq := KeywordQuery(keywords);
    var aq := AuthorQuery(filter, quote);
    if kq != "" && aq != "" {
      assert aq[0..|aq|] == aq;
      assert OccursAt(aq, aq, 0);
      OccursInConcat(aq, "(" + kq + ")+OR+(", aq);
      OccursInConcat(aq, "(" + kq + ")+OR+(" + aq, ")");
    } else if kq != "" {
      EmptyOccurs(kq);
    } else {
      assert OccursAt(aq, aq, 0);
    }
  }

  /**
   * One `<entry>` of the Atom response, as far as the fetcher reads it: the
   * text of its first `<id>`, `<title>`, `<summary>` and `<published>`
   * elements (None when the element is missing) and, per `<author>` element,
   * the text of its `<name>` (None when missing).
   */
  datatype Entry = Entry(
    id: Option<string>,
    title: Option<string>,
    summary: Option<string>,
    published: Option<string>,
    authorNames: seq<Option<string>>)

  /** The stripped author names, or None when some `<author>` has no `<name>` (the comprehension raises). */
  function AuthorNames(authors: seq<Option<string>>): Option<seq<string>>
  {
    if authors == [] then Some([])
    else if authors[0].None? then None
    else
      match AuthorNames(authors[1..])
      case None => None
      case Some(rest) => Some([Strip(authors[0].value)] + rest)
  }

  /** The names are present exactly when every author has one, and are then the stripped texts in order. */
  lemma {:induction false} AuthorNamesSpec(authors: seq<Option<string>>)
    ensures AuthorNames(authors).Some? <==> forall k :: 0 <= k < |authors| ==> authors[k].Some?
    ensures AuthorNames(authors).Some? ==>
              |AuthorNames(authors).value| == |authors| &&
              forall k :: 0 <= k < |authors| ==> AuthorNames(authors).value[k] == Strip(authors[k].value)
    decreases |authors|
  {
    if authors != [] {
      AuthorNamesSpec(authors[1..]);
      assert forall k :: 0 <= k < |authors| - 1 ==> authors[1..][k] == authors[k + 1];
    }
  }

  /**
   * What the loop does with one entry: abort when an author has no name;
   * skip it when the filter is non-empty and no author matches; otherwise
   * build the record (id and link are both the stripped `<id>` text),
   * aborting at the first missing element in the order the dictionary reads them.
   */
  function EntryStep(e: Entry, filter: seq<string>): Step
  {
    match AuthorNames(e.authorNames)
    case None => Fail(MissingElement("name"))
    case Some(names) =>
      if !PassesAuthorFilter(filter, names) then Skip
      else if e.id.None? then Fail(MissingElement("id"))
      else if e.title.None? then Fail(MissingElement("title"))
      else if e.summary.None? then Fail(MissingElement("summary"))
      else if e.published.None? then Fail(MissingElement("published"))
      else Keep(Paper(Strip(e.id.value), Strip(e.title.value), Strip(e.id.value),
                      Strip(e.summary.value), names, Strip(e.published.value)))
  }

  /** The entries the loop raises on: an author without a name, or a filter match with an element missing. */
  predicate Aborts(e: Entry, filter: seq<string>) {
    || AuthorNames(e.authorNames).None?
    || (&& PassesAuthorFilter(filter, AuthorNames(e.authorNames).value)
        && (e.id.None? || e.title.None? || e.summary.None? || e.published.None?))
  }

  function Steps(entries: seq<Entry>, filter: seq<string>): (steps: seq<Step>)
    ensures |steps| == |entries|
    ensures forall i :: 0 <= i < |entries| ==> steps[i] == EntryStep(entries[i], filter)
  {
    seq(|entries|, i requires 0 <= i < |entries| => EntryStep(entries[i], filter))
  }

  /** What `fetch_arxiv_papers` returns for the parsed entries, or the error it raises. */
  function Papers(entries: seq<Entry>, filter: seq<string>): Result<seq<Paper>, FetchError>
  {
    Collect(Steps(entries, filter))
  }

  /** The loop of `fetch_arxiv_papers` over the parsed entries. */
  method FetchPapers(entries: seq<Entry>, filter: seq<string>) returns (r: Result<seq<Paper>, FetchError>)
    ensures r == Papers(entries, filter)
  {
    ghost var steps := Steps(entries, filter);
    var papers: seq<Paper> := [];
    var i := 0;
    while i < |entries|
      invariant 0 <= i <= |entries|
      invariant Collect(steps[..i]) == Success(papers)
    {
      var step := EntryStep(entries[i], filter);
      assert step == steps[i];
      CollectPrefixStep(steps, i, papers);
      match step {
        case Fail(e) =>
          return Failure(e);
        case Skip =>
        case Keep(p) =>
          papers := papers + [p];
      }
      i := i + 1;
    }
    assert steps[..i] == steps;
    r := Success(papers);
  }

  /**
   * A kept entry's record has `id == link`, the stripped title, summary and
   * published text (the timestamp is stripped too), and, under a filter, an
   * author on it.
   */
  lemma StepKept(e: Entry, filter: seq<string>)
    requires EntryStep(e, filter).Keep?
    ensures var p := EntryStep(e, filter).paper;
            && e.id.Some? && p.id == p.link == Strip(e.id.value)
            && e.title.Some? && p.title == Strip(e.title.value)
            && e.summary.Some? && p.summary == Strip(e.summary.value)
            && e.published.Some? && p.published == Strip(e.published.value)
            && p.authors == AuthorNames(e.authorNames).value
            && (filter != [] ==> AuthorMatches(filter, p.authors))
  {
  }

  /**
   * Every arXiv record has `id == link`, comes from an entry with complete
   * elements, and — when a filter is given — has an author whose lowercase
   * form equals some filter name lowercased.
   */
  lemma PapersSound(entries: seq<Entry>, filter: seq<string>, p: Paper)
    requires Papers(entries, filter).Success? && p in Papers(entries, filter).value
    ensures p.id == p.link
    ensures filter != [] ==> AuthorMatches(filter, p.authors)
    ensures exists i :: 0 <= i < |entries| && entries[i].id.Some? && p.id == Strip(entries[i].id.value)
  {
    CollectSound(Steps(entries, filter), p);
    var i :| 0 <= i < |entries| && Steps(entries, filter)[i] == Keep(p);
    StepKept(entries[i], filter);
  }

  /** An entry whose authors pass the filter and whose elements are all present is never dropped. */
  lemma PapersComplete(entries: seq<Entry>, filter: seq<string>, i: nat)
    requires i < |entries| && Papers(entries, filter).Success?
    requires EntryStep(entries[i], filter).Keep?
    ensures EntryStep(entries[i], filter).paper in Papers(entries, filter).value
  {
    var steps := Steps(entries, filter);
    CollectOrigins(steps);
    var k :| 0 <= k < |Origins(steps)| && Origins(steps)[k] == i;
    assert steps[i] == Keep(Collect(steps).value[k]);
  }

  /**
   * An entry none of whose authors is on a non-empty filter contributes no
   * record, even though the server may have returned it for a keyword.
   */
  lemma PapersDropUnmatched(entries: seq<Entry>, filter: seq<string>, i: nat)
    requires i < |entries| && filter != []
    requires AuthorNames(entries[i].authorNames).Some?
    requires !AuthorMatches(filter, AuthorNames(entries[i].authorNames).value)
    ensures i !in Origins(Steps(entries, filter))
  {
    CollectOrigins(Steps(entries, filter));
    assert Steps(entries, filter)[i] == Skip;
  }

  /** The fetch fails exactly when some entry lacks an author name, or is kept but lacks an element. */
  lemma PapersFailIff(entries: seq<Entry>, filter: seq<string>)
    ensures Papers(entries, filter).Failure? <==>
            exists i :: 0 <= i < |entries| && Aborts(entries[i], filter)
  {
    CollectFails(Steps(entries, filter));
    forall i | 0 <= i < |entries|
      ensures EntryStep(entries[i], filter).Fail? <==> Aborts(entries[i], filter)
    {
    }
  }

  /** Without a filter and with complete entries, every entry gives a record, in feed order. */
  lemma PapersWithoutFilter(entries: seq<Entry>)
    requires forall i :: 0 <= i < |entries| ==>
               entries[i].id.Some? && entries[i].title.Some? && entries[i].summary.Some? &&
               entries[i].published.Some? &&
               forall k :: 0 <= k < |entries[i].authorNames| ==> entries[i].authorNames[k].Some?
    ensures Papers(entries, []).Success?
    ensures |Papers(entries, []).value| == |entries|
    ensures forall i :: 0 <= i < |entries| ==>
              Papers(entries, []).value[i].id == Strip(entries[i].id.value)
  {
    var steps := Steps(entries, []);
    CollectFails(steps);
    CollectOrigins(steps);
    var ix := Origins(steps);
    forall i | 0 <= i < |entries| ensures steps[i].Keep? && steps[i].paper.id == Strip(entries[i].id.value) {
      CompleteEntryKept(entries[i]);
    }
    IncreasingCover(ix, |entries|);
  }

  /** Without a filter, an entry with every element present is kept. */
  lemma CompleteEntryKept(e: Entry)
    requires e.id.Some? && e.title.Some? && e.summary.Some? && e.published.Some?
    requires forall k :: 0 <= k < |e.authorNames| ==> e.authorNames[k].Some?
    ensures EntryStep(e, []).Keep? && EntryStep(e, []).paper.id == Strip(e.id.value)
  {
    AuthorNamesSpec(e.authorNames);
  }

  /** A strictly increasing list of positions below `n` that contains all of them is `[0, ..., n-1]`. */
  lemma {:induction false} IncreasingCover(ix: seq<nat>, n: nat)
    requires IncreasingBelow(ix, n)
    requires forall i :: 0 <= i < n ==> i in ix
    ensures |ix| == n && forall k :: 0 <= k < n ==> ix[k] == k
    decreases n
  {
    IncreasingBelowLength(ix, n);
    if n > 0 {
      assert n - 1 in ix;
      var m :| 0 <= m < |ix| && ix[m] == n - 1;
      assert ix[m] <= ix[|ix| - 1] < n;
      assert m == |ix| - 1;
      var ix' := ix[..|ix| - 1];
      forall i | 0 <= i < n - 1 ensures i in ix' {
        assert i in ix;
        var j :| 0 <= j < |ix| && ix[j] == i;
        assert j != |ix| - 1;
      }
      IncreasingCover(ix', n - 1);
    }
  }
}
