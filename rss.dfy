/**
 * The RSS fetcher: among the first ten feed entries, keep those whose title
 * and summary mention a keyword and (when a filter is given) whose
 * comma-separated author string names someone on the filter; fill in missing
 * fields with defaults.
 */
module Rss {
  import opened Common
  import opened Text
  import opened Records
  import opened Matching

  /** One parsed feed entry: every key the fetcher reads may be absent. */
  datatype Entry = Entry(
    id: Option<string>,
    link: Option<string>,
    title: Option<string>,
    summary: Option<string>,
    author: Option<string>,
    published: Option<string>)

  /** Only this many entries from the top of the feed are looked at. */
  const WindowSize := 10

  const UnknownDate := "Unknown date"

  /** `feed.entries[:10]`. */
  function Window(entries: seq<Entry>): (w: seq<Entry>)
    ensures |w| == Min(WindowSize, |entries|)
    ensures w == entries[..|w|]
  {
    if |entries| <= WindowSize then entries else entries[..WindowSize]
  }

  /** The text the keywords are searched in: `(title + " " + summary).lower()`. */
  function SearchText(e: Entry): string {
    Lower(e.title.GetOr("") + " " + e.summary.GetOr(""))
  }

  /** The author candidates: the author string split on commas, pieces not stripped. */
  function AuthorPieces(e: Entry): (pieces: seq<string>)
    ensures |pieces| >= 1 && Join([','], pieces) == e.author.GetOr("")
    ensures forall k :: 0 <= k < |pieces| ==> ',' !in pieces[k]
  {
    Split(e.author.GetOr(""), ',')
  }

  /**
   * The record of an entry: id falls back to the link, then to the empty
   * string; title, link and summary default to the empty string and are
   * stripped; the date falls back to "Unknown date".
   */
  function Record(e: Entry): (p: Paper)
    ensures e.id.Some? ==> p.id == e.id.value
    ensures e.id.None? && e.link.Some? ==> p.id == e.link.value
    ensures e.id.None? && e.link.None? ==> p.id == ""
    ensures e.title.Some? ==> p.title == Strip(e.title.value)
    ensures e.title.None? ==> p.title == ""
    ensures e.link.Some? ==> p.link == Strip(e.link.value)
    ensures e.link.None? ==> p.link == ""
    ensures e.summary.Some? ==> p.summary == Strip(e.summary.value)
    ensures e.summary.None? ==> p.summary == ""
    ensures e.published.Some? ==> p.published == e.published.value
    ensures e.published.None? ==> p.published == UnknownDate
    ensures p.authors == AuthorPieces(e)
  {
    Paper(
      e.id.GetOr(e.link.GetOr("")),
      Strip(e.title.GetOr("")),
      Strip(e.link.GetOr("")),
      Strip(e.summary.GetOr("")),
      AuthorPieces(e),
      e.published.GetOr(UnknownDate))
  }

  /** The two tests an entry must pass to be kept. */
  predicate Passes(e: Entry, keywords: seq<string>, filter: seq<string>) {
    KeywordMatches(keywords, SearchText(e)) && PassesAuthorFilter(filter, AuthorPieces(e))
  }

  function EntryStep(e: Entry, keywords: seq<string>, filter: seq<string>): Step {
    if Passes(e, keywords, filter) then Keep(Record(e)) else Skip
  }

  function Steps(entries: seq<Entry>, keywords: seq<string>, filter: seq<string>): (steps: seq<Step>)
    ensures |steps| == |entries|
    ensures forall i :: 0 <= i < |entries| ==> steps[i] == EntryStep(entries[i], keywords, filter)
    ensures forall i :: 0 <= i < |entries| ==> !steps[i].Fail?
  {
    seq(|entries|, i requires 0 <= i < |entries| => EntryStep(entries[i], keywords, filter))
  }

  /** What `fetch_rss_papers` returns for the parsed feed entries (it never fails on them). */
  function Papers(entries: seq<Entry>, keywords: seq<string>, filter: seq<string>): seq<Paper>
  {
    var steps := Steps(Window(entries), keywords, filter);
    CollectNoFail(steps);
    Collect(steps).value
  }

  /** The loop of `fetch_rss_papers` over the parsed feed entries. */
  method FetchPapers(entries: seq<Entry>, keywords: seq<string>, filter: seq<string>)
    returns (papers: seq<Paper>)
    ensures papers == Papers(entries, keywords, filter)
  {
    var window := Window(entries);
    ghost var steps := Steps(window, keywords, filter);
    papers := [];
    var i := 0;
    while i < |window|
      invariant 0 <= i <= |window|
      invariant Collect(steps[..i]) == Success(papers)
    {
      var e := window[i];
      CollectPrefixStep(steps, i, papers);
      if !KeywordMatches(keywords, SearchText(e)) {
        i := i + 1;
        continue;
      }
      if filter != [] && !AuthorMatches(filter, AuthorPieces(e)) {
        i := i + 1;
        continue;
      }
      papers := papers + [Record(e)];
      i := i + 1;
    }
    assert steps[..i] == steps;
  }

  /**
   * The records are exactly those of the window entries that pass both
   * tests, in feed order: the k-th record comes from the window position
   * `Origins(..)[k]`, positions increase, and every passing entry is there.
   */
  lemma PapersCharacterised(entries: seq<Entry>, keywords: seq<string>, filter: seq<string>)
    ensures var ps, ix := Papers(entries, keywords, filter), Origins(Steps(Window(entries), keywords, filter));
            && IncreasingBelow(ix, Min(WindowSize, |entries|))
            && |ps| == |ix|
            && (forall k :: 0 <= k < |ix| ==>
                  Passes(entries[ix[k]], keywords, filter) && ps[k] == Record(entries[ix[k]]))
            && (forall i :: 0 <= i < Min(WindowSize, |entries|) && Passes(entries[i], keywords, filter) ==>
                  i in ix)
  {
    var w := Window(entries);
    var steps := Steps(w, keywords, filter);
    CollectFails(steps);
    CollectOrigins(steps);
    forall i | 0 <= i < |w| ensures w[i] == entries[i] { }
  }

  /** At most ten records, whatever the feed. */
  lemma AtMostTen(entries: seq<Entry>, keywords: seq<string>, filter: seq<string>)
    ensures |Papers(entries, keywords, filter)| <= Min(WindowSize, |entries|)
  {
    PapersCharacterised(entries, keywords, filter);
    IncreasingBelowLength(Origins(Steps(Window(entries), keywords, filter)), Min(WindowSize, |entries|));
  }

  /**
   * Every record comes from one of the first ten entries, whose title and
   * summary mention a keyword (lowercased), and when a filter is given its
   * authors include a filter name up to case.
   */
  lemma PapersSound(entries: seq<Entry>, keywords: seq<string>, filter: seq<string>, p: Paper)
    requires p in Papers(entries, keywords, filter)
    ensures exists i :: 0 <= i < Min(WindowSize, |entries|) && p == Record(entries[i]) &&
                        exists j :: 0 <= j < |keywords| && OccursIn(Lower(keywords[j]), SearchText(entries[i]))
    ensures filter != [] ==> AuthorMatches(filter, p.authors)
  {
    PapersCharacterised(entries, keywords, filter);
    var ps := Papers(entries, keywords, filter);
    var k :| 0 <= k < |ps| && ps[k] == p;
    var i := Origins(Steps(Window(entries), keywords, filter))[k];
    KeywordMatchesIff(keywords, SearchText(entries[i]));
  }

  /** No keywords, no records. */
  lemma NoKeywordsNoPapers(entries: seq<Entry>, filter: seq<string>)
    ensures Papers(entries, [], filter) == []
  {
    var steps := Steps(Window(entries), [], filter);
    NothingKept(steps);
  }

  /** An entry with none of the keys yields the record of defaults: id falls back to the empty string. */
  lemma EmptyEntryDefaults()
    ensures Record(Entry(None, None, None, None, None, None)) == Paper("", "", "", "", [""], UnknownDate)
  {
    IndexOfAbsent("", ',');
  }

  /** The author pieces are not stripped: "Alice, Bob" gives the candidates "Alice" and " Bob". */
  lemma PiecesKeepSpaces()
    ensures AuthorPieces(Entry(None, None, None, None, Some("Alice, Bob"), None)) == ["Alice", " Bob"]
  {
    var parts := ["Alice", " Bob"];
    assert Join([','], parts) == "Alice" + [','] + " Bob";
    assert "Alice" + [','] + " Bob" == "Alice, Bob";
    SplitJoin(parts, ',');
  }

  /** So a filter on "Bob" does not keep an entry whose author string is "Alice, Bob". */
  lemma SpacedPieceMisses()
    ensures !AuthorMatches(["Bob"], ["Alice", " Bob"])
  {
    AuthorMatchesIff(["Bob"], ["Alice", " Bob"]);
    assert |Lower("Bob")| != |Lower("Alice")|;
    assert Lower("Bob")[0] != Lower(" Bob")[0];
  }
}
