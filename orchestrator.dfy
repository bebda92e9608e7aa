/**
 * The script's main block: for each configured topic, gather the papers of
 * its sources in order (arXiv, RSS, anything else skipped), and post them to
 * the topic's channel when there are any. A fetch that raises aborts the whole
 * run; what earlier topics posted and saved stays.
 *
 * The network, the environment variable and `quote_plus` are the parameters
 * gathered in `Environment`.
 */
module Orchestrator {
  import opened Common
  import opened Records
  import Arxiv
  import Rss
  import opened Slack

  /** One entry of a topic's `sources`: its `type` and (for RSS) its `url`. */
  datatype Source = Source(kind: string, url: string)

  /**
   * One topic of the configuration: its name, `keywords` (absent = empty),
   * `authors` (absent, null or empty = no filter), `sources` and
   * `slack_channel`.
   */
  datatype Topic = Topic(name: string, keywords: seq<string>, authors: seq<string>, sources: seq<Source>, channel: string)

  /**
   * What the run depends on besides the configuration: the parsed arXiv
   * response for a request URL, the parsed RSS feed for a feed URL, the
   * form encoder, and the bot token from the environment.
   */
  datatype Environment = Environment(
    arxivFeed: string -> seq<Arxiv.Entry>,
    rssFeed: string -> seq<Rss.Entry>,
    quote: string -> string,
    token: Option<string>)

  /** The request URL `fetch_arxiv_papers` builds for a topic. */
  function ArxivRequest(t: Topic, env: Environment): string {
    Arxiv.ApiUrl(Arxiv.FullQuery(t.keywords, t.authors, env.quote))
  }

  /** What one source contributes: the fetcher's records, its error, or nothing for an unknown type. */
  function SourcePapers(t: Topic, s: Source, env: Environment): Result<seq<Paper>, FetchError> {
    if s.kind == "arxiv" then Arxiv.Papers(env.arxivFeed(ArxivRequest(t, env)), t.authors)
    else if s.kind == "rss" then Success(Rss.Papers(env.rssFeed(s.url), t.keywords, t.authors))
    else Success([])
  }

  /** The result of each source in turn. */
  function SourceResults(t: Topic, sources: seq<Source>, env: Environment): (rs: seq<Result<seq<Paper>, FetchError>>)
    ensures |rs| == |sources|
    ensures forall k :: 0 <= k < |sources| ==> rs[k] == SourcePapers(t, sources[k], env)
  {
    seq(|sources|, k requires 0 <= k < |sources| => SourcePapers(t, sources[k], env))
  }

  /** `papers_all += ...` over a list of results: the records appended in order, or the first error. */
  function Chain(rs: seq<Result<seq<Paper>, FetchError>>): Result<seq<Paper>, FetchError> {
    if rs == [] then Success([])
    else
      match Chain(rs[..|rs| - 1])
      case Failure(e) => Failure(e)
      case Success(ps) =>
        match rs[|rs| - 1]
        case Failure(e) => Failure(e)
        case Success(qs) => Success(ps + qs)
  }

  /** `papers_all` after the given sources of a topic, or the error that aborted it. */
  function Gathered(t: Topic, sources: seq<Source>, env: Environment): Result<seq<Paper>, FetchError> {
    Chain(SourceResults(t, sources, env))
  }

  /** One iteration of the inner loop: dispatch on the source type. */
  method FetchSource(t: Topic, source: Source, env: Environment) returns (r: Result<seq<Paper>, FetchError>)
    ensures r == SourcePapers(t, source, env)
  {
    if source.kind == "arxiv" {
      r := Arxiv.FetchPapers(env.arxivFeed(ArxivRequest(t, env)), t.authors);
    } else if source.kind == "rss" {
      var papers := Rss.FetchPapers(env.rssFeed(source.url), t.keywords, t.authors);
      r := Success(papers);
    } else {
      r := Success([]);
    }
  }

  /** The inner loop of the main block: gather the papers of one topic. */
  method GatherTopic(t: Topic, env: Environment) returns (r: Result<seq<Paper>, FetchError>)
    ensures r == Gathered(t, t.sources, env)
  {
    ghost var results := SourceResults(t, t.sources, env);
    var papersAll: seq<Paper> := [];
    var i := 0;
    while i < |t.sources|
      invariant 0 <= i <= |t.sources|
      invariant Chain(results[..i]) == Success(papersAll)
    {
      var fetched := FetchSource(t, t.sources[i], env);
      ChainStep(results, i, papersAll);
      if fetched.Failure? {
        return Failure(fetched.error);
      }
      papersAll := papersAll + fetched.value;
      i := i + 1;
    }
    assert results[..i] == results;
    r := Success(papersAll);
  }

  lemma ChainSnoc(rs: seq<Result<seq<Paper>, FetchError>>, r: Result<seq<Paper>, FetchError>)
    ensures Chain(rs + [r]) ==
            match Chain(rs)
            case Failure(e) => Failure(e)
            case Success(ps) =>
              match r
              case Failure(e) => Failure(e)
              case Success(qs) => Success(ps + qs)
  {
    assert (rs + [r])[..|rs|] == rs;
  }

  /** One iteration of the inner loop, from the papers gathered from the first `i` results. */
  lemma ChainStep(rs: seq<Result<seq<Paper>, FetchError>>, i: nat, papersAll: seq<Paper>)
    requires i < |rs| && Chain(rs[..i]) == Success(papersAll)
    ensures rs[i].Failure? ==> Chain(rs) == Failure(rs[i].error)
    ensures rs[i].Success? ==> Chain(rs[..i + 1]) == Success(papersAll + rs[i].value)
  {
    assert rs[..i + 1] == rs[..i] + [rs[i]];
    ChainSnoc(rs[..i], rs[i]);
    if rs[i].Failure? {
      ChainAbortStops(rs[..i + 1], rs[i + 1..]);
      assert rs[..i + 1] + rs[i + 1..] == rs;
    }
  }

  /** Once a source fails, the later sources are never fetched and the error is the result. */
  lemma {:induction false} ChainAbortStops(xs: seq<Result<seq<Paper>, FetchError>>, ys: seq<Result<seq<Paper>, FetchError>>)
    requires Chain(xs).Failure?
    ensures Chain(xs + ys) == Chain(xs)
    decreases |ys|
  {
    if ys == [] {
      assert xs + ys == xs;
    } else {
      var ys' := ys[..|ys| - 1];
      assert (xs + ys)[..|xs + ys| - 1] == xs + ys';
      ChainAbortStops(xs, ys');
    }
  }

  /** An empty contribution anywhere in the list changes nothing. */
  lemma {:induction false} ChainSkipsEmpty(xs: seq<Result<seq<Paper>, FetchError>>, ys: seq<Result<seq<Paper>, FetchError>>)
    ensures Chain(xs + [Success([])] + ys) == Chain(xs + ys)
    decreases |ys|
  {
    if ys == [] {
      assert xs + [Success([])] + ys == xs + [Success([])];
      assert xs + ys == xs;
      ChainSnoc(xs, Success([]));
      if Chain(xs).Success? {
        assert Chain(xs).value + [] == Chain(xs).value;
      }
    } else {
      var init, last := ys[..|ys| - 1], ys[|ys| - 1];
      ChainSkipsEmpty(xs, init);
      assert xs + [Success([])] + ys == (xs + [Success([])] + init) + [last];
      assert xs + ys == (xs + init) + [last];
      ChainSnoc(xs + [Success([])] + init, last);
      ChainSnoc(xs + init, last);
    }
  }

  /** A source of an unknown type makes no difference to what a topic gathers. */
  lemma UnknownSourceSkipped(t: Topic, s1: seq<Source>, u: Source, s2: seq<Source>, env: Environment)
    requires u.kind != "arxiv" && u.kind != "rss"
    ensures Gathered(t, s1 + [u] + s2, env) == Gathered(t, s1 + s2, env)
  {
    SourceResultsConcat(t, s1 + [u], s2, env);
    SourceResultsConcat(t, s1, [u], env);
    SourceResultsConcat(t, s1, s2, env);
    assert SourceResults(t, [u], env) == [Success([])];
    ChainSkipsEmpty(SourceResults(t, s1, env), SourceResults(t, s2, env));
  }

  lemma SourceResultsConcat(t: Topic, a: seq<Source>, b: seq<Source>, env: Environment)
    ensures SourceResults(t, a + b, env) == SourceResults(t, a, env) + SourceResults(t, b, env)
  {
    var l, r := SourceResults(t, a + b, env), SourceResults(t, a, env) + SourceResults(t, b, env);
    forall k | 0 <= k < |l| ensures l[k] == r[k] {
      if k < |a| {
        assert (a + b)[k] == a[k];
      } else {
        assert (a + b)[k] == b[k - |a|];
      }
    }
    assert l == r;
  }

  /** A list of results none of which failed chains to a success. */
  lemma {:induction false} ChainNoFailure(rs: seq<Result<seq<Paper>, FetchError>>)
    requires forall k :: 0 <= k < |rs| ==> rs[k].Success?
    ensures Chain(rs).Success?
    decreases |rs|
  {
    if rs != [] {
      ChainNoFailure(rs[..|rs| - 1]);
    }
  }

  /** Only arXiv sources can abort a topic: with none of them, gathering succeeds. */
  lemma RssNeverAborts(t: Topic, sources: seq<Source>, env: Environment)
    requires forall k :: 0 <= k < |sources| ==> sources[k].kind != "arxiv"
    ensures Gathered(t, sources, env).Success?
  {
    ChainNoFailure(SourceResults(t, sources, env));
  }

  /** Every record of a successful chain comes from one of the results. */
  lemma {:induction false} ChainSound(rs: seq<Result<seq<Paper>, FetchError>>, p: Paper)
    requires Chain(rs).Success? && p in Chain(rs).value
    ensures exists k :: 0 <= k < |rs| && rs[k].Success? && p in rs[k].value
    decreases |rs|
  {
    var init := rs[..|rs| - 1];
    if p in Chain(init).value {
      ChainSound(init, p);
      var k :| 0 <= k < |init| && init[k].Success? && p in init[k].value;
      assert rs[k] == init[k];
    }
  }

  /** Every gathered record is a record of one of the topic's sources. */
  lemma GatheredSound(t: Topic, sources: seq<Source>, env: Environment, p: Paper)
    requires Gathered(t, sources, env).Success? && p in Gathered(t, sources, env).value
    ensures exists k :: 0 <= k < |sources| && SourcePapers(t, sources[k], env).Success? &&
                        p in SourcePapers(t, sources[k], env).value
  {
    ChainSound(SourceResults(t, sources, env), p);
  }

  /** Whether the run went through all topics or was cut short by a fetch error. */
  datatype Outcome = Completed | Aborted(error: FetchError)

  datatype RunResult = RunResult(state: NotifierState, outcome: Outcome)

  /** What a topic amounts to for the notifier: what was gathered for it, and its channel. */
  datatype TopicRun = TopicRun(gathered: Result<seq<Paper>, FetchError>, channel: string)

  /** The topics, each with what its sources give. */
  function Plan(topics: seq<Topic>, env: Environment): (runs: seq<TopicRun>)
    ensures |runs| == |topics|
    ensures forall k :: 0 <= k < |topics| ==>
              runs[k] == TopicRun(Gathered(topics[k], topics[k].sources, env), topics[k].channel)
  {
    seq(|topics|, k requires 0 <= k < |topics| => TopicRun(Gathered(topics[k], topics[k].sources, env), topics[k].channel))
  }

  /** One topic: an error aborts with the state as it is; otherwise post when anything was gathered. */
  function TopicStep(st: NotifierState, tr: TopicRun, token: Option<string>): RunResult {
    match tr.gathered
    case Failure(e) => RunResult(st, Aborted(e))
    case Success(ps) =>
      if ps != [] then RunResult(PostStep(st, token, tr.channel, ps), Completed)
      else RunResult(st, Completed)
  }

  /** The topics in order from the notifier state `st`, stopping at the first abort. */
  function RunTopics(st: NotifierState, runs: seq<TopicRun>, token: Option<string>): RunResult {
    if runs == [] then RunResult(st, Completed)
    else
      var r := RunTopics(st, runs[..|runs| - 1], token);
      if r.outcome.Aborted? then r else TopicStep(r.state, runs[|runs| - 1], token)
  }

  /** The main block over the configured topics, from the notifier state `st`. */
  function RunSpec(st: NotifierState, topics: seq<Topic>, env: Environment): RunResult {
    RunTopics(st, Plan(topics, env), env.token)
  }

  /** After an abort the remaining topics are not looked at. */
  lemma {:induction false} RunAbortStops(st: NotifierState, xs: seq<TopicRun>, ys: seq<TopicRun>, token: Option<string>)
    requires RunTopics(st, xs, token).outcome.Aborted?
    ensures RunTopics(st, xs + ys, token) == RunTopics(st, xs, token)
    decreases |ys|
  {
    if ys == [] {
      assert xs + ys == xs;
    } else {
      var ys' := ys[..|ys| - 1];
      assert (xs + ys)[..|xs + ys| - 1] == xs + ys';
      RunAbortStops(st, xs, ys', token);
    }
  }

  /** `if __name__ == "__main__"`: the loop over the topics, posting through `store`. */
  method Run(store: Notifier, topics: seq<Topic>, env: Environment) returns (outcome: Outcome)
    modifies store
    ensures RunResult(store.State(), outcome) == RunSpec(old(store.State()), topics, env)
  {
    ghost var st0 := store.State();
    ghost var runs := Plan(topics, env);
    var i := 0;
    while i < |topics|
      invariant 0 <= i <= |topics|
      invariant RunTopics(st0, runs[..i], env.token) == RunResult(store.State(), Completed)
    {
      var topic := topics[i];
      var papersAll := GatherTopic(topic, env);
      RunStep(st0, runs, i, store.State(), env.token);
      assert runs[i] == TopicRun(papersAll, topic.channel);
      if papersAll.Failure? {
        return Aborted(papersAll.error);
      }
      if papersAll.value != [] {
        store.PostToSlack(env.token, topic.channel, papersAll.value);
      }
      i := i + 1;
    }
    assert runs[..i] == runs;
    outcome := Completed;
  }

  /** One iteration of the main loop, from the state after the first `i` topics. */
  lemma RunStep(st0: NotifierState, runs: seq<TopicRun>, i: nat, st: NotifierState, token: Option<string>)
    requires i < |runs| && RunTopics(st0, runs[..i], token) == RunResult(st, Completed)
    ensures var g := runs[i].gathered;
            && (g.Failure? ==> RunTopics(st0, runs, token) == RunResult(st, Aborted(g.error)))
            && (g.Success? && g.value == [] ==> RunTopics(st0, runs[..i + 1], token) == RunResult(st, Completed))
            && (g.Success? && g.value != [] ==>
                  RunTopics(st0, runs[..i + 1], token) ==
                  RunResult(PostStep(st, token, runs[i].channel, g.value), Completed))
  {
    assert runs[..i + 1][..i] == runs[..i];
    if runs[i].gathered.Failure? {
      RunAbortStops(st0, runs[..i + 1], runs[i + 1..], token);
      assert runs[..i + 1] + runs[i + 1..] == runs;
    }
  }

  /** Without a token the run changes nothing: no request, no new id, no save. */
  lemma RunWithoutToken(st: NotifierState, topics: seq<Topic>, env: Environment)
    requires !HasToken(env.token)
    ensures RunSpec(st, topics, env).state == st
  {
    TopicsWithoutToken(st, Plan(topics, env), env.token);
  }

  lemma {:induction false} TopicsWithoutToken(st: NotifierState, runs: seq<TopicRun>, token: Option<string>)
    requires !HasToken(token)
    ensures RunTopics(st, runs, token).state == st
    decreases |runs|
  {
    if runs != [] {
      TopicsWithoutToken(st, runs[..|runs| - 1], token);
    }
  }

  /** The notifier state only grows: ids are added, requests and snapshots appended. */
  ghost predicate Extends(st: NotifierState, st': NotifierState) {
    && st.postedIds <= st'.postedIds
    && |st.outbox| <= |st'.outbox| && st'.outbox[..|st.outbox|] == st.outbox
    && |st.saves| <= |st'.saves| && st'.saves[..|st.saves|] == st.saves
  }

  lemma TopicStepGrows(st: NotifierState, tr: TopicRun, token: Option<string>)
    ensures Extends(st, TopicStep(st, tr, token).state)
  {
    var g := tr.gathered;
    if g.Success? && g.value != [] && HasToken(token) {
      PostStepEffect(st, token, tr.channel, g.value);
    }
  }

  /** The run only adds: posted ids grow, and earlier requests and saved snapshots stay in place. */
  lemma RunGrows(st: NotifierState, topics: seq<Topic>, env: Environment)
    ensures Extends(st, RunSpec(st, topics, env).state)
  {
    TopicsGrow(st, Plan(topics, env), env.token);
  }

  lemma {:induction false} TopicsGrow(st: NotifierState, runs: seq<TopicRun>, token: Option<string>)
    ensures Extends(st, RunTopics(st, runs, token).state)
    decreases |runs|
  {
    if runs != [] {
      var init := runs[..|runs| - 1];
      TopicsGrow(st, init, token);
      var mid := RunTopics(st, init, token);
      if mid.outcome.Completed? {
        var st' := TopicStep(mid.state, runs[|runs| - 1], token).state;
        TopicStepGrows(mid.state, runs[|runs| - 1], token);
        assert st'.outbox[..|st.outbox|] == st'.outbox[..|mid.state.outbox|][..|st.outbox|];
        assert st'.saves[..|st.saves|] == st'.saves[..|mid.state.saves|][..|st.saves|];
      }
    }
  }

  /**
   * Starting from the loaded ids with nothing sent, every request of the run
   * announces an id that was not loaded, and no id is announced twice.
   */
  lemma RunNeverResends(loaded: set<string>, topics: seq<Topic>, env: Environment)
    ensures var st := RunSpec(NotifierState(loaded, [], []), topics, env).state;
            && (forall k :: 0 <= k < |st.outbox| ==> st.outbox[k].paperId !in loaded)
            && (forall k, l :: 0 <= k < l < |st.outbox| ==> st.outbox[k].paperId != st.outbox[l].paperId)
  {
    TopicsAnnounce(NotifierState(loaded, [], []), loaded, Plan(topics, env), env.token);
  }

  /** What the run keeps true of a state relative to the ids loaded at start. */
  ghost predicate Announced(st: NotifierState, loaded: set<string>) {
    && Consistent(st)
    && loaded <= st.postedIds
    && forall k :: 0 <= k < |st.outbox| ==> st.outbox[k].paperId !in loaded
  }

  lemma TopicStepAnnounces(st: NotifierState, loaded: set<string>, tr: TopicRun, token: Option<string>)
    requires Announced(st, loaded)
    ensures Announced(TopicStep(st, tr, token).state, loaded)
  {
    var g := tr.gathered;
    if g.Success? && g.value != [] && HasToken(token) {
      var ps := g.value;
      PostStepEffect(st, token, tr.channel, ps);
      PostStepConsistent(st, token, tr.channel, ps);
      var st' := PostStep(st, token, tr.channel, ps);
      forall k | 0 <= k < |st'.outbox| ensures st'.outbox[k].paperId !in loaded {
        if k < |st.outbox| {
          assert st'.outbox[k] == st.outbox[k];
        }
      }
    }
  }

  lemma {:induction false} TopicsAnnounce(st: NotifierState, loaded: set<string>, runs: seq<TopicRun>, token: Option<string>)
    requires Announced(st, loaded)
    ensures Announced(RunTopics(st, runs, token).state, loaded)
    decreases |runs|
  {
    if runs != [] {
      var init := runs[..|runs| - 1];
      TopicsAnnounce(st, loaded, init, token);
      var mid := RunTopics(st, init, token);
      if mid.outcome.Completed? {
        TopicStepAnnounces(mid.state, loaded, runs[|runs| - 1], token);
      }
    }
  }
}
