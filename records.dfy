/**
 * The normalised paper record both fetchers produce, and the per-entry
 * decision a fetcher loop takes: skip the entry, append its record, or abort
 * with the exception the record construction raised.
 */
module Records {
  import opened Common

  /** One paper as handed to the notifier (the dictionary built by either fetcher). */
  datatype Paper = Paper(
    id: string,
    title: string,
    link: string,
    summary: string,
    authors: seq<string>,
    published: string)

  /** A fetch aborts when an XML element the record needs is missing. */
  datatype FetchError = MissingElement(tag: string)

  /** What a fetcher does with one entry. */
  datatype Step = Skip | Keep(paper: Paper) | Fail(error: FetchError)

  /**
   * The list a fetcher loop builds from the decisions `steps`, taken in
   * order: the kept records in order, or the first failure.
   */
  function Collect(steps: seq<Step>): Result<seq<Paper>, FetchError>
  {
    if steps == [] then Success([])
    else
      match Collect(steps[..|steps| - 1])
      case Failure(e) => Failure(e)
      case Success(ps) =>
        match steps[|steps| - 1]
        case Skip => Success(ps)
        case Keep(p) => Success(ps + [p])
        case Fail(e) => Failure(e)
  }

  /** The positions of the kept entries, in order. */
  ghost function Origins(steps: seq<Step>): seq<nat>
  {
    if steps == [] then []
    else Origins(steps[..|steps| - 1]) + (if steps[|steps| - 1].Keep? then [|steps| - 1] else [])
  }

  /** `ix` is a strictly increasing list of positions below `n`. */
  ghost predicate IncreasingBelow(ix: seq<nat>, n: nat) {
    (forall k :: 0 <= k < |ix| ==> ix[k] < n) &&
    (forall k, l :: 0 <= k < l < |ix| ==> ix[k] < ix[l])
  }

  /** A strictly increasing list of positions below `n` has at most `n` elements. */
  lemma {:induction false} IncreasingBelowLength(ix: seq<nat>, n: nat)
    requires IncreasingBelow(ix, n)
    ensures |ix| <= n
    decreases |ix|
  {
    if |ix| > 0 {
      IncreasingBelowLength(ix[..|ix| - 1], ix[|ix| - 1]);
    }
  }

  /**
   * A successful collection is exactly the kept records in input order: the
   * k-th record comes from the k-th kept entry, every kept entry is present,
   * and nothing else is.
   */
  lemma {:induction false} CollectOrigins(steps: seq<Step>)
    ensures IncreasingBelow(Origins(steps), |steps|)
    ensures forall i :: 0 <= i < |steps| && steps[i].Keep? ==> i in Origins(steps)
    ensures forall k :: 0 <= k < |Origins(steps)| ==> steps[Origins(steps)[k]].Keep?
    ensures Collect(steps).Success? ==>
              |Collect(steps).value| == |Origins(steps)| &&
              forall k :: 0 <= k < |Origins(steps)| ==>
                steps[Origins(steps)[k]] == Keep(Collect(steps).value[k])
    decreases |steps|
  {
    if steps != [] {
      var init := steps[..|steps| - 1];
      CollectOrigins(init);
      forall i | 0 <= i < |init| ensures init[i] == steps[i] { }
    }
  }

  /** A collection fails exactly when some entry fails, and then with the first failure. */
  lemma {:induction false} CollectFails(steps: seq<Step>)
    ensures Collect(steps).Failure? <==> exists i :: 0 <= i < |steps| && steps[i].Fail?
    ensures Collect(steps).Failure? ==>
              exists i :: 0 <= i < |steps| && steps[i] == Fail(Collect(steps).error) &&
                          forall j :: 0 <= j < i ==> !steps[j].Fail?
    decreases |steps|
  {
    if steps != [] {
      var init := steps[..|steps| - 1];
      CollectFails(init);
      forall i | 0 <= i < |init| ensures init[i] == steps[i] { }
    }
  }

  /** A collection with no failing step succeeds. */
  lemma CollectNoFail(steps: seq<Step>)
    requires forall i :: 0 <= i < |steps| ==> !steps[i].Fail?
    ensures Collect(steps).Success?
  {
    CollectFails(steps);
  }

  /** One more decision at the end of the list (the step a fetcher loop takes per entry). */
  lemma CollectSnoc(xs: seq<Step>, s: Step)
    requires Collect(xs).Success?
    ensures Collect(xs + [s]) == match s
                                 case Skip => Collect(xs)
                                 case Keep(p) => Success(Collect(xs).value + [p])
                                 case Fail(e) => Failure(e)
  {
    assert (xs + [s])[..|xs + [s]| - 1] == xs;
  }

  /**
   * One more step of the loop over `steps`: a skip leaves the records as they
   * are, a keep appends its record, and a failure is the result of the whole
   * collection.
   */
  lemma CollectPrefixStep(steps: seq<Step>, i: nat, papers: seq<Paper>)
    requires i < |steps| && Collect(steps[..i]) == Success(papers)
    ensures steps[i].Skip? ==> Collect(steps[..i + 1]) == Success(papers)
    ensures steps[i].Keep? ==> Collect(steps[..i + 1]) == Success(papers + [steps[i].paper])
    ensures steps[i].Fail? ==> Collect(steps) == Failure(steps[i].error)
  {
    assert steps[..i + 1] == steps[..i] + [steps[i]];
    CollectSnoc(steps[..i], steps[i]);
    if steps[i].Fail? {
      assert steps == steps[..i + 1] + steps[i + 1..];
      CollectFailureStops(steps[..i + 1], steps[i + 1..]);
    }
  }

  /** Once a prefix of the entries fails, the later entries are never looked at. */
  lemma {:induction false} CollectFailureStops(xs: seq<Step>, ys: seq<Step>)
    requires Collect(xs).Failure?
    ensures Collect(xs + ys) == Collect(xs)
    decreases |ys|
  {
    if ys != [] {
      var ys' := ys[..|ys| - 1];
      assert (xs + ys)[..|xs + ys| - 1] == xs + ys';
      CollectFailureStops(xs, ys');
      assert Collect(xs + ys').Failure?;
    } else {
      assert xs + ys == xs;
    }
  }

  /** When no entry is kept and none fails, the fetcher returns the empty list. */
  lemma NothingKept(steps: seq<Step>)
    requires forall i :: 0 <= i < |steps| ==> steps[i].Skip?
    ensures Collect(steps) == Success([])
  {
    CollectFails(steps);
    CollectOrigins(steps);
  }

  /** Every record of a successful collection is the record of some kept entry. */
  lemma CollectSound(steps: seq<Step>, p: Paper)
    requires Collect(steps).Success? && p in Collect(steps).value
    ensures exists i :: 0 <= i < |steps| && steps[i] == Keep(p)
  {
    CollectOrigins(steps);
    var k :| 0 <= k < |Collect(steps).value| && Collect(steps).value[k] == p;
    assert steps[Origins(steps)[k]] == Keep(p);
  }

  /** The ids of a list of records. */
  function IdsOf(papers: seq<Paper>): set<string>
  {
    if papers == [] then {} else IdsOf(papers[..|papers| - 1]) + {papers[|papers| - 1].id}
  }

  /** The set holds an id exactly when some record has it. */
  lemma {:induction false} IdsOfMembers(papers: seq<Paper>)
    ensures forall k :: 0 <= k < |papers| ==> papers[k].id in IdsOf(papers)
    ensures forall id :: id in IdsOf(papers) ==> exists k :: 0 <= k < |papers| && papers[k].id == id
    decreases |papers|
  {
    if papers != [] {
      var init := papers[..|papers| - 1];
      IdsOfMembers(init);
      forall k | 0 <= k < |init| ensures init[k] == papers[k] { }
    }
  }

  lemma IdsOfSnoc(papers: seq<Paper>, p: Paper)
    ensures IdsOf(papers + [p]) == IdsOf(papers) + {p.id}
  {
    assert (papers + [p])[..|papers|] == papers;
  }
}
