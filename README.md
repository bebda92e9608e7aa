# fetch-papers, modelled in Dafny

A model of `scripts/fetch-papers.py`. For each configured topic the script
gathers recent papers from its sources, then posts the papers not yet
announced to the topic's Slack channel. It remembers the announced ids in a
JSON file.

The model covers:

- **the arXiv query** (`Arxiv`): the search terms, how the keyword part and
  the encoded author part are OR-ed together, and the request URL;
- **the arXiv fetcher** (`Arxiv`): the loop over the Atom entries. Author
  names are read first, then the exact, case-insensitive author filter is
  applied, then the record is built. A missing element aborts the loop with
  an error (Python raises `AttributeError` there);
- **the RSS fetcher** (`Rss`): only the first ten entries are looked at.
  Each must pass the keyword substring test on the lowercased title and
  summary, then the author filter on the comma-split author string, whose
  pieces are not stripped. Missing keys get their defaults;
- **the notifier** (`Slack`): a class whose posted-id set, outbox of
  requests and log of saved snapshots are updated in place. The per-paper
  loop skips ids already in the set, including ids added earlier in the same
  call. The message format cuts the summary to 200 characters and then adds
  `...`. The set is saved once after the loop. Without a token the call
  returns before doing anything, including the save;
- **the main block** (`Orchestrator`): per topic, the sources are dispatched
  on their type, with unknown types skipped and a fetch error aborting the
  whole run. The notifier is called only when the topic gathered something.

Supporting modules:

- `Text`: Python's `strip`, `lower`, `replace`, `join`, `split` and
  substring test, on `seq<char>`;
- `Records`: the record type and the generic "skip, keep or raise" loop
  `Collect` that both fetchers instantiate;
- `Matching`: the author test and the keyword test.

I/O is turned into data:

- the parsed arXiv response for a request URL and the parsed RSS feed for a
  feed URL are functions in `Orchestrator.Environment`;
- `quote_plus` is a function parameter;
- the bot token is an `Option`;
- Slack requests are appended to an outbox;
- file writes are appended to a log of snapshots.

Without a token the notifier returns at `scripts/fetch-papers.py:86`,
before the save at lines 119-120, so nothing is saved
(`Slack.MissingTokenNoEffect`, `Orchestrator.RunWithoutToken`).

## Model

| member | source | states |
|---|---|---|
| Text.StripSpec | scripts/fetch-papers.py:49-54 | `strip` removes whitespace only, and all of it, from both ends. The result is a slice of the input framed by whitespace, and neither starts nor ends with whitespace. |
| Text.ReplaceChar | scripts/fetch-papers.py:28 | `replace(' ', '+')` keeps the length, substitutes pointwise, and leaves no space behind. |
| Text.Split | scripts/fetch-papers.py:65 | `split(",")` gives at least one piece, no piece holds a comma, and joining the pieces with commas gives the string back. |
| Text.SplitJoin | scripts/fetch-papers.py:65 | Splitting the comma-join of comma-free pieces gives the pieces back, so split and join are inverses. |
| Text.IsSubstring | scripts/fetch-papers.py:63 | The scanning test holds exactly when the string occurs at some position of the text. |
| Matching.AuthorMatchesIff | scripts/fetch-papers.py:46 | The author test holds iff some filter name equals some entry author once both are lowercased. |
| Matching.AuthorMatchIsExact | scripts/fetch-papers.py:66 | The test is name equality, not containment: "Hinton" does not match "Geoffrey Hinton", while "hinton" matches "HINTON". |
| Matching.KeywordMatchesIff | scripts/fetch-papers.py:63 | The keyword test holds iff some lowercased keyword occurs in the text. |
| Matching.EmptyKeywordMatches | scripts/fetch-papers.py:63 | An empty keyword matches every text. |
| Arxiv.ApiUrl | scripts/fetch-papers.py:25 | The request URL is the fixed prefix, then the query, then the fixed suffix (first 100 results, newest first), each at its own position. |
| Arxiv.KeywordTermSpec | scripts/fetch-papers.py:28 | A keyword term is `all:` followed by the keyword with each space turned into `+`, and it contains no space. |
| Arxiv.AuthorTerm | scripts/fetch-papers.py:32 | An author term is `au:"`, the name, then `"`. |
| Arxiv.KeywordQueryEmptyIff | scripts/fetch-papers.py:28 | The keyword part is empty exactly when there are no keywords. |
| Arxiv.FullQueryCases | scripts/fetch-papers.py:35-38 | With keywords and a non-empty author part the query is `(kq)+OR+(aq)`. Without keywords it is the author part; without an author part it is the keyword part. |
| Arxiv.FullQueryEmptyIff | scripts/fetch-papers.py:35-38 | The query is empty exactly when there are no keywords and the author part is empty. |
| Arxiv.QueryMentionsKeyword | scripts/fetch-papers.py:28-38 | The term of every keyword occurs in the query sent. |
| Arxiv.QueryMentionsKeywords | scripts/fetch-papers.py:35-38 | The keyword part occurs in the query sent. |
| Arxiv.AuthorQueryMentionsName | scripts/fetch-papers.py:32 | The term of every filter name occurs in the author part before encoding. |
| Arxiv.QueryMentionsAuthors | scripts/fetch-papers.py:31-38 | The encoded author part occurs in the query sent. |
| Arxiv.AuthorNamesSpec | scripts/fetch-papers.py:45 | Author names are available exactly when every author has a name element. They are then the stripped names, in order. |
| Arxiv.FetchPapers | scripts/fetch-papers.py:43-56 | The loop returns `Papers(entries, filter)`: the records of the kept entries in order, or the error of the first entry that raises. |
| Arxiv.StepKept | scripts/fetch-papers.py:45-55 | A kept entry has an id, its record has `id == link ==` the stripped id text, the stripped title, summary and published text (the timestamp is stripped, line 54), and the entry's author names, and under a filter an author matches. |
| Arxiv.PapersSound | scripts/fetch-papers.py:44-56 | Every record has `id == link`, comes from an entry with an id, and matches the author filter when one is given. |
| Arxiv.PapersComplete | scripts/fetch-papers.py:44-56 | A successful fetch contains the record of every entry that the loop keeps. |
| Arxiv.PapersDropUnmatched | scripts/fetch-papers.py:46-47 | Under a non-empty filter, an entry none of whose authors matches contributes no record. |
| Arxiv.PapersFailIff | scripts/fetch-papers.py:45-54 | The fetch raises exactly when some entry lacks an author name, or passes the filter but lacks one of id, title, summary and published (`Arxiv.Aborts`, stated on the entry). |
| Arxiv.PapersWithoutFilter | scripts/fetch-papers.py:44-56 | Without a filter, complete entries all give records, one per entry, in feed order. |
| Arxiv.CompleteEntryKept | scripts/fetch-papers.py:48-55 | Without a filter, an entry with every element present is kept, with the stripped id as its id. |
| Records.CollectFails | scripts/fetch-papers.py:44-55 | The loop fails iff some entry raises, and then with the error of the first one. |
| Records.CollectOrigins | scripts/fetch-papers.py:44-55 | The records come from strictly increasing entry positions, and every kept entry's position is among them. |
| Rss.Window | scripts/fetch-papers.py:61 | Only the first `min(10, n)` entries are considered, as a prefix of the feed. |
| Rss.AuthorPieces | scripts/fetch-papers.py:65 | The author candidates are `split(",")` of the author string (or of `""` when absent): at least one piece, no piece holds a comma, and joining them with commas gives the string back. |
| Rss.Record | scripts/fetch-papers.py:68-75 | Case by case on which keys are present: the id is the entry's id, else its link, else `""`; title, link and summary are the stripped values, or `""` when absent; the date is the entry's, else `Unknown date`; the authors are the unstripped pieces. |
| Rss.FetchPapers | scripts/fetch-papers.py:58-76 | The loop returns `Papers(entries, keywords, filter)`. |
| Rss.PapersCharacterised | scripts/fetch-papers.py:61-75 | The records are exactly those of the window entries that pass both tests, in feed order. |
| Rss.AtMostTen | scripts/fetch-papers.py:61 | At most ten records, whatever the feed. |
| Rss.PapersSound | scripts/fetch-papers.py:62-67 | Every record comes from a window entry whose title and summary mention a keyword. Under a filter, its authors match. |
| Rss.NoKeywordsNoPapers | scripts/fetch-papers.py:63 | Without keywords the fetcher returns nothing. |
| Rss.EmptyEntryDefaults | scripts/fetch-papers.py:69-74 | An entry with no keys gives the all-defaults record. |
| Rss.PiecesKeepSpaces | scripts/fetch-papers.py:65 | "Alice, Bob" gives the candidates "Alice" and " Bob", with the space kept. |
| Rss.SpacedPieceMisses | scripts/fetch-papers.py:66 | So a filter on "Bob" does not match the candidates "Alice" and " Bob". |
| Slack.SummarySegment | scripts/fetch-papers.py:104 | The summary segment is the first `min(200, n)` characters followed by `...`, also for short summaries. |
| Slack.MessageSummaryLine | scripts/fetch-papers.py:99-105 | The message is the header, then `_Summary_: `, then the cut summary, then `...` and a newline. |
| Slack.PostsForAt | scripts/fetch-papers.py:106-111 | The k-th request carries the token, the channel and the message of the k-th paper sent. |
| Slack.SentFresh | scripts/fetch-papers.py:93-95 | No paper whose id was already posted is sent, and every paper sent is one of the input. |
| Slack.SentDistinct | scripts/fetch-papers.py:93-116 | Within one call no id is sent twice, even when the input repeats it. |
| Slack.SentCover | scripts/fetch-papers.py:93-116 | The ids sent are exactly the input ids not already posted. |
| Slack.RerunSendsNothing | scripts/fetch-papers.py:93-116 | Running the loop again with the ids it recorded sends nothing. |
| Slack.MissingTokenNoEffect | scripts/fetch-papers.py:83-86 | Without a token, or with an empty one, the call changes nothing and saves nothing. |
| Slack.PostStepEffect | scripts/fetch-papers.py:93-120 | With a token: the ids grow by exactly the input ids, and earlier requests are kept. One request is added per new distinct id, announcing only new ids. Exactly one snapshot of the new set is saved. |
| Slack.PostStepConsistent | scripts/fetch-papers.py:93-116 | Every request announces a posted id and no id is announced twice, and each call keeps this true. |
| Slack.PostStepIdempotent | scripts/fetch-papers.py:93-116 | A second call with the same papers sends nothing and adds no id. |
| Slack.LoadedIds | scripts/fetch-papers.py:15-19 | The starting set is the elements of the stored list, or empty when there is no file. |
| Slack.SaveThenLoad | scripts/fetch-papers.py:119-120 | Whatever order `list(posted_ids)` is written in, loading it gives the saved set back. |
| Slack.Notifier.constructor | scripts/fetch-papers.py:15-19 | The notifier starts from the loaded ids, with nothing sent and nothing saved. |
| Slack.Notifier.PostToSlack | scripts/fetch-papers.py:82-120 | The new state of the notifier is `PostStep` of the old one. |
| Orchestrator.FetchSource | scripts/fetch-papers.py:138-144 | A source gives the arXiv fetcher's result, the RSS fetcher's records, or nothing for an unknown type. |
| Orchestrator.GatherTopic | scripts/fetch-papers.py:132-144 | The inner loop returns the sources' records appended in order, or the first fetch error. |
| Orchestrator.ChainAbortStops | scripts/fetch-papers.py:137-142 | Once a source raises, later sources do not change the result. |
| Orchestrator.UnknownSourceSkipped | scripts/fetch-papers.py:143-144 | A source of an unknown type makes no difference to what a topic gathers. |
| Orchestrator.RssNeverAborts | scripts/fetch-papers.py:137-144 | Without arXiv sources, gathering never fails. |
| Orchestrator.GatheredSound | scripts/fetch-papers.py:137-144 | Every gathered record is a record of one of the topic's sources. |
| Orchestrator.Run | scripts/fetch-papers.py:130-147 | The main loop leaves the notifier in `RunSpec`'s state, with `RunSpec`'s outcome. |
| Orchestrator.RunWithoutToken | scripts/fetch-papers.py:146-147 | Without a token the whole run changes nothing. |
| Orchestrator.RunGrows | scripts/fetch-papers.py:130-147 | A run only adds: posted ids grow, and earlier requests and saved snapshots stay in place. |
| Orchestrator.RunNeverResends | scripts/fetch-papers.py:130-147 | Starting from the loaded ids, no request announces a loaded id and no id is announced twice, across all topics. |

## Left out

- HTTP: the arXiv request (line 41) and the Slack request (line 111) are not performed. The parsed arXiv response is a function of the request URL, and every Slack request is appended to the notifier's outbox. The arXiv and RSS fetches are not recorded.
- The Slack response check and its error message (lines 112-113) are not modelled. The model marks the id as posted after every request, which is what the code does when the status is not 200 or the body is a JSON object.
- XML and feed parsing (BeautifulSoup, feedparser) are not modelled. The entries arrive already parsed, each element present or absent. Parse errors and a feed without `entries` are not modelled.
- `urllib.parse.quote_plus` is a function parameter. No property of the encoding is used.
- `topics.json` (lines 127-128) is a sequence of `Topic` values in the file's key order. A `KeyError` for a missing `sources`, `type`, `url` or `slack_channel` is not modelled.
- An absent or `null` `authors` key is the empty filter. The code only tests its truthiness, so the two behave alike.
- `os.environ` is the `token` field of the environment.
- JSON encoding of the id file is not modelled. The file is an optional list of strings, and a save appends the saved set to a log.
- Malformed JSON and file-system errors are not modelled.
- Exceptions other than a missing Atom element are not modelled: network errors, an exception raised by `requests.post` part-way through the notifier loop, and the exception `r.json()` raises at line 112 on a status-200 response whose body is not a JSON object (the id is then not added, nothing is saved and the run stops).
- `print` output (lines 85, 113, 131 and 144) is not modelled.
- Text.Lower: lowercases ASCII `A`-`Z` only, because Python's full Unicode case mapping is out of scope. `Text.IsSpace` does follow Python's whitespace set.
- The arXiv API's limit of 100 results is not modelled, because the response is an input. Only the `max_results=100` text of the URL is modelled.
- `Slack.Post.paperId` records which paper a request announces. It is not part of the request, and exists so that "never re-sent" can be stated.
