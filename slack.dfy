/**
 * The notifier (`post_to_slack`): one chat message per paper not yet
 * announced, the set of announced ids updated in place, and the set saved
 * once after the loop. Sending and saving are recorded in the state instead
 * of performed: `outbox` lists the requests issued, `saves` the snapshots
 * written to the id file.
 */
module Slack {
  import opened Common
  import opened Text
  import opened Records

  /** The summary is cut to this many characters. */
  const SummaryLimit := 200

  /** Python's `s[:n]`: the first `n` characters, or all of `s` when it is shorter. */
  function Prefix(s: string, n: nat): (r: string)
    ensures |r| == Min(n, |s|) && r == s[..|r|]
  {
    if |s| <= n then s else s[..n]
  }

  /** The text after `_Summary_: `: the summary cut to 200 characters, then `...`, whatever its length. */
  function SummarySegment(summary: string): (seg: string)
    ensures |seg| == Min(SummaryLimit, |summary|) + 3 <= SummaryLimit + 3
    ensures seg[..|seg| - 3] == summary[..Min(SummaryLimit, |summary|)]
    ensures seg[|seg| - 3..] == "..."
  {
    Prefix(summary, SummaryLimit) + "..."
  }

  /** Everything of the message before the summary line. */
  function Header(p: Paper): string {
    "*" + p.title + "*\n" +
    "_Authors_: " + Join(", ", p.authors) + "\n" +
    "_Published_: " + p.published + "\n" +
    "_Link_: " + p.link + "\n"
  }

  /** The message text for one paper. */
  function Message(p: Paper): string {
    Header(p) + "_Summary_: " + SummarySegment(p.summary) + "\n"
  }

  /**
   * The message ends with the summary line, whose segment is exactly the
   * first min(200, |summary|) characters of the summary followed by `...`,
   * also when the summary is shorter than 200 characters; so the message is
   * at most 215 characters longer than its header.
   */
  lemma MessageSummaryLine(p: Paper)
    ensures var m, k := Message(p), Min(SummaryLimit, |p.summary|);
            && |m| == |Header(p)| + k + 15
            && m[..|Header(p)|] == Header(p)
            && m[|Header(p)|..|Header(p)| + 11] == "_Summary_: "
            && m[|m| - k - 4..|m| - 4] == p.summary[..k]
            && m[|m| - 4..] == "...\n"
  {
    var h, seg := Header(p), SummarySegment(p.summary);
    var m := Message(p);
    assert m == h + "_Summary_: " + seg + "\n";
    var k := Min(SummaryLimit, |p.summary|);
    assert m[|m| - k - 4..|m| - 4] == seg[..|seg| - 3];
    assert m[|m| - 4..] == seg[|seg| - 3..] + "\n";
  }

  /**
   * One `chat.postMessage` request: the bearer token and the JSON body's
   * channel and text. `paperId` records which paper it announces; it is not
   * part of the request.
   */
  datatype Post = Post(paperId: string, token: string, channel: string, text: string)

  /** `if not slack_token`: an absent or empty token disables posting. */
  predicate HasToken(token: Option<string>) {
    token.Some? && token.value != ""
  }

  /**
   * The papers the loop sends, in order, when `seen` holds the ids already
   * posted: a paper is sent when its id is neither in `seen` nor the id of an
   * earlier paper of the list.
   */
  function SentPapers(seen: set<string>, papers: seq<Paper>): seq<Paper>
  {
    if papers == [] then []
    else
      var init, p := papers[..|papers| - 1], papers[|papers| - 1];
      SentPapers(seen, init) + (if p.id in seen + IdsOf(init) then [] else [p])
  }

  /** One more paper at the end of the input. */
  lemma SentSnoc(seen: set<string>, papers: seq<Paper>, p: Paper)
    ensures SentPapers(seen, papers + [p]) ==
            SentPapers(seen, papers) + (if p.id in seen + IdsOf(papers) then [] else [p])
  {
    assert (papers + [p])[..|papers|] == papers;
  }

  /** The requests for the papers sent, in order. */
  function PostsFor(token: string, channel: string, sent: seq<Paper>): (posts: seq<Post>)
    ensures |posts| == |sent|
  {
    if sent == [] then []
    else
      var init, p := sent[..|sent| - 1], sent[|sent| - 1];
      PostsFor(token, channel, init) + [Post(p.id, token, channel, Message(p))]
  }

  /** The k-th request announces the k-th paper sent, with its message, token and channel. */
  lemma {:induction false} PostsForAt(token: string, channel: string, sent: seq<Paper>, k: nat)
    requires k < |sent|
    ensures PostsFor(token, channel, sent)[k] == Post(sent[k].id, token, channel, Message(sent[k]))
    decreases |sent|
  {
    if k < |sent| - 1 {
      PostsForAt(token, channel, sent[..|sent| - 1], k);
    }
  }

  lemma PostsSnoc(token: string, channel: string, sent: seq<Paper>, p: Paper)
    ensures PostsFor(token, channel, sent + [p]) ==
            PostsFor(token, channel, sent) + [Post(p.id, token, channel, Message(p))]
  {
    assert (sent + [p])[..|sent|] == sent;
  }

  /** No paper whose id was already posted is sent, and every sent paper is one of the input. */
  lemma {:induction false} SentFresh(seen: set<string>, papers: seq<Paper>)
    ensures forall k :: 0 <= k < |SentPapers(seen, papers)| ==>
              SentPapers(seen, papers)[k] in papers && SentPapers(seen, papers)[k].id !in seen
    decreases |papers|
  {
    if papers != [] {
      var init := papers[..|papers| - 1];
      SentFresh(seen, init);
      assert forall p :: p in init ==> p in papers;
    }
  }

  /** Within one call no id is sent twice, even when it occurs twice in the input. */
  lemma {:induction false} SentDistinct(seen: set<string>, papers: seq<Paper>)
    ensures forall k, l :: 0 <= k < l < |SentPapers(seen, papers)| ==>
              SentPapers(seen, papers)[k].id != SentPapers(seen, papers)[l].id
    decreases |papers|
  {
    if papers != [] {
      var init, p := papers[..|papers| - 1], papers[|papers| - 1];
      SentDistinct(seen, init);
      SentFresh(seen, init);
      var s0 := SentPapers(seen, init);
      IdsOfMembers(init);
      forall k | 0 <= k < |s0| ensures s0[k].id in IdsOf(init) {
        assert s0[k] in init;
        var j :| 0 <= j < |init| && init[j] == s0[k];
      }
    }
  }

  /** The ids sent are exactly the ids of the input not already posted. */
  lemma {:induction false} SentCover(seen: set<string>, papers: seq<Paper>)
    ensures IdsOf(SentPapers(seen, papers)) == IdsOf(papers) - seen
    decreases |papers|
  {
    if papers != [] {
      var init, p := papers[..|papers| - 1], papers[|papers| - 1];
      SentCover(seen, init);
      assert papers == init + [p];
      IdsOfSnoc(init, p);
      var s0 := SentPapers(seen, init);
      if p.id !in seen + IdsOf(init) {
        IdsOfSnoc(s0, p);
      } else {
        assert s0 + [] == s0;
      }
    }
  }

  /** Running the loop again with the ids it recorded sends nothing. */
  lemma RerunSendsNothing(seen: set<string>, papers: seq<Paper>)
    ensures SentPapers(seen + IdsOf(papers), papers) == []
  {
    var again := SentPapers(seen + IdsOf(papers), papers);
    SentCover(seen + IdsOf(papers), papers);
    SentDistinct(seen + IdsOf(papers), papers);
    DistinctIdsCount(again);
    assert IdsOf(again) == {};
  }

  /** Papers with distinct ids have as many ids as papers. */
  lemma {:induction false} DistinctIdsCount(ps: seq<Paper>)
    requires forall k, l :: 0 <= k < l < |ps| ==> ps[k].id != ps[l].id
    ensures |IdsOf(ps)| == |ps|
    decreases |ps|
  {
    if ps != [] {
      var init, p := ps[..|ps| - 1], ps[|ps| - 1];
      assert ps == init + [p];
      IdsOfSnoc(init, p);
      DistinctIdsCount(init);
      IdsOfMembers(init);
      assert p.id !in IdsOf(init) by {
        forall k | 0 <= k < |init| ensures init[k].id != p.id {
          assert init[k] == ps[k];
        }
      }
    }
  }

  /** What the notifier keeps: the posted ids, the requests issued and the snapshots saved. */
  datatype NotifierState = NotifierState(postedIds: set<string>, outbox: seq<Post>, saves: seq<set<string>>)

  /**
   * The effect of one `post_to_slack` call. Without a token nothing happens,
   * not even the save. With one, the new papers are sent, every input id is
   * added whether or not its send succeeded, and the set is saved once.
   */
  function PostStep(st: NotifierState, token: Option<string>, channel: string, papers: seq<Paper>): NotifierState
  {
    if !HasToken(token) then st
    else
      var ids := st.postedIds + IdsOf(papers);
      NotifierState(ids, st.outbox + PostsFor(token.value, channel, SentPapers(st.postedIds, papers)), st.saves + [ids])
  }

  /** Every request in the outbox announces a posted id, and no id is announced twice. */
  ghost predicate Consistent(st: NotifierState) {
    && (forall k :: 0 <= k < |st.outbox| ==> st.outbox[k].paperId in st.postedIds)
    && (forall k, l :: 0 <= k < l < |st.outbox| ==> st.outbox[k].paperId != st.outbox[l].paperId)
  }

  /** Without a token the call changes nothing: no request, no new id, no save. */
  lemma MissingTokenNoEffect(st: NotifierState, token: Option<string>, channel: string, papers: seq<Paper>)
    requires !HasToken(token)
    ensures PostStep(st, token, channel, papers) == st
  {
  }

  /**
   * With a token: the ids grow by exactly the input ids, one request per new
   * distinct id is appended (none for an id already posted), the old
   * requests are kept, and the saved snapshot is the new set.
   */
  lemma PostStepEffect(st: NotifierState, token: Option<string>, channel: string, papers: seq<Paper>)
    requires HasToken(token)
    ensures var st' := PostStep(st, token, channel, papers);
            && st'.postedIds == st.postedIds + IdsOf(papers)
            && st'.saves == st.saves + [st'.postedIds]
            && st'.outbox[..|st.outbox|] == st.outbox
            && |st'.outbox| - |st.outbox| == |IdsOf(papers) - st.postedIds|
            && (forall k :: |st.outbox| <= k < |st'.outbox| ==>
                  st'.outbox[k].paperId in IdsOf(papers) - st.postedIds)
  {
    var sent := SentPapers(st.postedIds, papers);
    SentDistinct(st.postedIds, papers);
    SentCover(st.postedIds, papers);
    DistinctIdsCount(sent);
    IdsOfMembers(sent);
    var st' := PostStep(st, token, channel, papers);
    var posts := PostsFor(token.value, channel, sent);
    assert st'.outbox == st.outbox + posts;
    forall k | |st.outbox| <= k < |st'.outbox|
      ensures st'.outbox[k].paperId in IdsOf(papers) - st.postedIds
    {
      PostsForAt(token.value, channel, sent, k - |st.outbox|);
      assert st'.outbox[k] == posts[k - |st.outbox|];
    }
  }

  /** A call keeps the outbox consistent with the posted ids. */
  lemma PostStepConsistent(st: NotifierState, token: Option<string>, channel: string, papers: seq<Paper>)
    requires Consistent(st)
    ensures Consistent(PostStep(st, token, channel, papers))
  {
    if HasToken(token) {
      var st' := PostStep(st, token, channel, papers);
      var sent := SentPapers(st.postedIds, papers);
      PostStepEffect(st, token, channel, papers);
      SentDistinct(st.postedIds, papers);
      var n := |st.outbox|;
      forall k, l | 0 <= k < l < |st'.outbox|
        ensures st'.outbox[k].paperId != st'.outbox[l].paperId
      {
        if l < n {
          assert st'.outbox[k] == st.outbox[k] && st'.outbox[l] == st.outbox[l];
        } else if k < n {
          assert st'.outbox[k] == st.outbox[k];
        } else {
          PostsForAt(token.value, channel, sent, k - n);
          PostsForAt(token.value, channel, sent, l - n);
        }
      }
      forall k | 0 <= k < |st'.outbox| ensures st'.outbox[k].paperId in st'.postedIds {
        if k < n { assert st'.outbox[k] == st.outbox[k]; }
      }
    }
  }

  /** Calling twice with the same papers sends nothing the second time. */
  lemma PostStepIdempotent(st: NotifierState, token: Option<string>, channel: string, papers: seq<Paper>)
    ensures var once := PostStep(st, token, channel, papers);
            var twice := PostStep(once, token, channel, papers);
            twice.outbox == once.outbox && twice.postedIds == once.postedIds
  {
    if HasToken(token) {
      RerunSendsNothing(st.postedIds, papers);
      var once := PostStep(st, token, channel, papers);
      assert once.postedIds + IdsOf(papers) == once.postedIds;
    }
  }

  /**
   * One iteration of the notifier loop, from the state after `papers[..i]`:
   * an id already posted leaves ids and requests as they are, a new one is
   * added and gets its request.
   */
  lemma LoopStep(seen: set<string>, before: seq<Post>, papers: seq<Paper>, i: nat, token: string, channel: string,
                 ids: set<string>, box: seq<Post>)
    requires i < |papers|
    requires ids == seen + IdsOf(papers[..i])
    requires box == before + PostsFor(token, channel, SentPapers(seen, papers[..i]))
    ensures papers[i].id in ids ==>
              && ids == seen + IdsOf(papers[..i + 1])
              && box == before + PostsFor(token, channel, SentPapers(seen, papers[..i + 1]))
    ensures papers[i].id !in ids ==>
              && ids + {papers[i].id} == seen + IdsOf(papers[..i + 1])
              && box + [Post(papers[i].id, token, channel, Message(papers[i]))] ==
                 before + PostsFor(token, channel, SentPapers(seen, papers[..i + 1]))
  {
    var p := papers[i];
    assert papers[..i + 1] == papers[..i] + [p];
    IdsOfSnoc(papers[..i], p);
    SentSnoc(seen, papers[..i], p);
    var s0 := SentPapers(seen, papers[..i]);
    if p.id in ids {
      assert s0 + [] == s0;
    } else {
      PostsSnoc(token, channel, s0, p);
    }
  }

  /**
   * The ids the program starts from: the elements of the list stored in the
   * id file, or none when there is no file.
   */
  function LoadedIds(file: Option<seq<string>>): (ids: set<string>)
    ensures file.None? ==> ids == {}
    ensures file.Some? ==> forall id :: id in ids <==> id in file.value
  {
    match file
    case None => {}
    case Some(listing) => set id | id in listing
  }

  /**
   * The file holds `list(posted_ids)` in some order; whatever the order,
   * loading it gives the saved set back.
   */
  lemma SaveThenLoad(ids: set<string>, listing: seq<string>)
    requires forall id :: id in listing <==> id in ids
    ensures LoadedIds(Some(listing)) == ids
  {
  }

  /**
   * The notifier as the program keeps it: the module-level set of posted
   * ids, with the requests it issued and the snapshots it wrote.
   */
  class Notifier {
    var postedIds: set<string>
    var outbox: seq<Post>
    var saves: seq<set<string>>

    function State(): NotifierState
      reads this
    {
      NotifierState(postedIds, outbox, saves)
    }

    /** Starts from the ids loaded from the file (empty when the file is absent). */
    constructor (loaded: set<string>)
      ensures State() == NotifierState(loaded, [], [])
    {
      postedIds, outbox, saves := loaded, [], [];
    }

    /** `post_to_slack(channel, papers)`. */
    method PostToSlack(token: Option<string>, channel: string, papers: seq<Paper>)
      modifies this
      ensures State() == PostStep(old(State()), token, channel, papers)
    {
      if token.None? || token.value == "" {
        return;
      }
      var slackToken := token.value;
      ghost var seen, sentBefore := postedIds, outbox;
      var i := 0;
      while i < |papers|
        invariant 0 <= i <= |papers|
        invariant postedIds == seen + IdsOf(papers[..i])
        invariant outbox == sentBefore + PostsFor(slackToken, channel, SentPapers(seen, papers[..i]))
        invariant saves == old(saves)
      {
        LoopStep(seen, sentBefore, papers, i, slackToken, channel, postedIds, outbox);
        var paper := papers[i];
        if paper.id in postedIds {
          i := i + 1;
          continue;
        }
        var message := Message(paper);
        outbox := outbox + [Post(paper.id, slackToken, channel, message)];
        postedIds := postedIds + {paper.id};
        i := i + 1;
      }
      assert papers[..i] == papers;
      saves := saves + [postedIds];
    }
  }
}
