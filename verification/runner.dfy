/** The per-pair loop of the script: fetch each pair in list order, absorb a
    failed fetch as count 0 with no rows, and accumulate the summary and
    works reports. Writing the reports out is not modelled; the two lists
    are the observable output. */
module Runner {
  import opened Results
  import opened Numerals
  import opened Json
  import opened Records
  import opened Paging

  /** One row of the summary report. */
  datatype SummaryRow = SummaryRow(pairLeft: string, pairRight: string, cooccurrenceCount: string)

  /** The two reports, in accumulation order. */
  datatype Report = Report(summary: seq<SummaryRow>, works: seq<WorkRow>)

  function TranscriptAt(transcripts: seq<Transcript>, i: nat): Transcript {
    if i < |transcripts| then transcripts[i] else []
  }

  /** What a pair's fetch amounts to after the `except` clause: its count and
      works, or 0 and nothing. */
  function CountOrZero(outcome: Result<Harvest, PairError>): int {
    if outcome.Success? then outcome.value.count else 0
  }

  function WorksOrNone(outcome: Result<Harvest, PairError>): seq<WorkRow> {
    if outcome.Success? then outcome.value.works else []
  }

  /** The fetch result of every pair, in list order. */
  function Outcomes(pairs: seq<FormulaPair>, mailto: string, transcripts: seq<Transcript>): (outs: seq<Result<Harvest, PairError>>)
    ensures |outs| == |pairs|
    ensures forall i :: 0 <= i < |pairs| ==> outs[i] == Fetch(pairs[i], mailto, TranscriptAt(transcripts, i)).result
  {
    seq(|pairs|, i requires 0 <= i < |pairs| => Fetch(pairs[i], mailto, TranscriptAt(transcripts, i)).result)
  }

  /** Reference: the works of the successful fetches, one after another. */
  function Gathered(outs: seq<Result<Harvest, PairError>>): seq<WorkRow> {
    if |outs| == 0 then [] else Gathered(outs[..|outs| - 1]) + WorksOrNone(outs[|outs| - 1])
  }

  /** The summary row of a pair whose fetch ended with `outcome`. */
  function SummaryOf(pair: FormulaPair, outcome: Result<Harvest, PairError>): SummaryRow {
    SummaryRow(pair.left, pair.right, IntToString(CountOrZero(outcome)))
  }

  /** Every successful fetch's rows carry the pair that was fetched. */
  predicate RowsMatchPairs(pairs: seq<FormulaPair>, outs: seq<Result<Harvest, PairError>>)
    requires |outs| == |pairs|
  {
    forall i :: 0 <= i < |pairs| && outs[i].Success? ==> AllCarry(outs[i].value.works, pairs[i])
  }

  /** Reference: one summary row per pair, in list order. */
  function Summaries(pairs: seq<FormulaPair>, outs: seq<Result<Harvest, PairError>>): (rows: seq<SummaryRow>)
    requires |outs| == |pairs|
    ensures |rows| == |pairs|
    ensures forall k :: 0 <= k < |pairs| ==> rows[k] == SummaryOf(pairs[k], outs[k])
  {
    seq(|pairs|, k requires 0 <= k < |pairs| => SummaryOf(pairs[k], outs[k]))
  }

  /** The script's loop over the pairs, given every pair's fetch result:
      append the pair's summary row, then its works (none for a failed fetch). */
  method Accumulate(pairs: seq<FormulaPair>, outs: seq<Result<Harvest, PairError>>) returns (r: Report)
    requires |outs| == |pairs|
    ensures r.summary == Summaries(pairs, outs)
    ensures r.works == Gathered(outs)
  {
    var summary: seq<SummaryRow> := [];
    var works: seq<WorkRow> := [];
    var i := 0;
    while i < |pairs|
      invariant i <= |pairs|
      invariant summary == Summaries(pairs, outs)[..i]
      invariant works == Gathered(outs[..i])
    {
      SummariesStep(pairs, outs, i);
      GatheredStep(outs, i);
      summary := summary + [SummaryOf(pairs[i], outs[i])];
      works := works + WorksOrNone(outs[i]);
      i := i + 1;
    }
    assert outs[..i] == outs;
    assert Summaries(pairs, outs)[..i] == Summaries(pairs, outs);
    r := Report(summary, works);
  }

  lemma SummariesStep(pairs: seq<FormulaPair>, outs: seq<Result<Harvest, PairError>>, i: nat)
    requires |outs| == |pairs|
    requires i < |pairs|
    ensures Summaries(pairs, outs)[..i + 1] == Summaries(pairs, outs)[..i] + [SummaryOf(pairs[i], outs[i])]
  {
    PrefixStep(Summaries(pairs, outs), i);
  }

  lemma PrefixStep<T>(s: seq<T>, i: nat)
    requires i < |s|
    ensures s[..i + 1] == s[..i] + [s[i]]
  {
  }

  lemma GatheredStep(outs: seq<Result<Harvest, PairError>>, i: nat)
    requires i < |outs|
    ensures Gathered(outs[..i + 1]) == Gathered(outs[..i]) + WorksOrNone(outs[i])
  {
    assert outs[..i + 1][..i] == outs[..i];
  }

  /** Every row of the gathered works carries one of the pairs. */
  lemma {:induction false} GatheredCarriesPairs(pairs: seq<FormulaPair>, outs: seq<Result<Harvest, PairError>>)
    requires |outs| == |pairs|
    requires RowsMatchPairs(pairs, outs)
    ensures forall k :: 0 <= k < |Gathered(outs)| ==>
      FormulaPair(Gathered(outs)[k].pairLeft, Gathered(outs)[k].pairRight) in pairs
    decreases |outs|
  {
    if |outs| > 0 {
      var n := |outs| - 1;
      GatheredCarriesPairs(pairs[..n], outs[..n]);
      var before := Gathered(outs[..n]);
      var last := WorksOrNone(outs[n]);
      assert Gathered(outs) == before + last;
      forall k | 0 <= k < |Gathered(outs)|
        ensures FormulaPair(Gathered(outs)[k].pairLeft, Gathered(outs)[k].pairRight) in pairs
      {
        if k < |before| {
          assert Gathered(outs)[k] == before[k];
          var row := before[k];
          assert FormulaPair(row.pairLeft, row.pairRight) in pairs[..n];
        } else {
          assert Gathered(outs)[k] == last[k - |before|];
          assert Carries(last[k - |before|], pairs[n]);
        }
      }
    }
  }

  /** The accumulation over known fetch results: one summary row per pair in
      list order, and the works of the successful fetches in list order. */
  function Aggregate(pairs: seq<FormulaPair>, outs: seq<Result<Harvest, PairError>>): (r: Report)
    requires |outs| == |pairs|
    ensures |r.summary| == |pairs|
    ensures forall k :: 0 <= k < |pairs| ==>
      && r.summary[k].pairLeft == pairs[k].left
      && r.summary[k].pairRight == pairs[k].right
      && ParseInt(r.summary[k].cooccurrenceCount) == Some(CountOrZero(outs[k]))
    ensures forall k :: 0 <= k < |pairs| ==> r.summary[k].cooccurrenceCount == IntToString(CountOrZero(outs[k]))
    ensures forall k :: 0 <= k < |pairs| && outs[k].Failure? ==> r.summary[k].cooccurrenceCount == "0"
    ensures r.works == Gathered(outs)
  {
    Report(Summaries(pairs, outs), Gathered(outs))
  }

  /** The whole run: every pair is fetched and accounted for in list order,
      whatever happened to the pairs before it. The summary has one row per
      pair with the text of its count (0 for a failed fetch); the works are
      the successful fetches' rows in list order, each carrying one of the pairs. */
  function Run(pairs: seq<FormulaPair>, mailto: string, transcripts: seq<Transcript>): (r: Report)
    ensures |r.summary| == |pairs|
    ensures forall k :: 0 <= k < |pairs| ==>
      && r.summary[k].pairLeft == pairs[k].left
      && r.summary[k].pairRight == pairs[k].right
      && ParseInt(r.summary[k].cooccurrenceCount) == Some(CountOrZero(Outcomes(pairs, mailto, transcripts)[k]))
    ensures forall k :: 0 <= k < |pairs| ==>
      r.summary[k].cooccurrenceCount == IntToString(CountOrZero(Outcomes(pairs, mailto, transcripts)[k]))
    ensures r.works == Gathered(Outcomes(pairs, mailto, transcripts))
    ensures forall k :: 0 <= k < |r.works| ==> FormulaPair(r.works[k].pairLeft, r.works[k].pairRight) in pairs
  {
    var outs := Outcomes(pairs, mailto, transcripts);
    assert RowsMatchPairs(pairs, outs);
    GatheredCarriesPairs(pairs, outs);
    Aggregate(pairs, outs)
  }

  lemma {:induction false} GatheredAppend(a: seq<Result<Harvest, PairError>>, b: seq<Result<Harvest, PairError>>)
    ensures Gathered(a + b) == Gathered(a) + Gathered(b)
    decreases |b|
  {
    if |b| == 0 {
      assert a + b == a;
    } else {
      var last := |b| - 1;
      assert (a + b)[..|a + b| - 1] == a + b[..last];
      GatheredAppend(a, b[..last]);
    }
  }

  /** A failed pair is contained: its summary count is "0", it contributes
      no works (not even those of pages fetched before the failure), and the
      works report is the works of the pairs before it followed by those of
      the pairs after it. */
  lemma FailedPairContained(pairs: seq<FormulaPair>, outs: seq<Result<Harvest, PairError>>, i: nat)
    requires |outs| == |pairs|
    requires i < |pairs|
    requires outs[i].Failure?
    ensures Aggregate(pairs, outs).summary[i].cooccurrenceCount == "0"
    ensures Aggregate(pairs, outs).works == Gathered(outs[..i]) + Gathered(outs[i + 1..])
  {
    assert Aggregate(pairs, outs).summary[i] == SummaryOf(pairs[i], outs[i]);
    GatheredSkipsFailure(outs, i);
  }

  lemma GatheredSkipsFailure(outs: seq<Result<Harvest, PairError>>, i: nat)
    requires i < |outs|
    requires outs[i].Failure?
    ensures Gathered(outs) == Gathered(outs[..i]) + Gathered(outs[i + 1..])
  {
    assert outs == outs[..i + 1] + outs[i + 1..];
    GatheredAppend(outs[..i + 1], outs[i + 1..]);
    GatheredStep(outs, i);
  }
}
