/**
 * The retrieval evaluation harness (eval/eval_rag.py, `evaluate_retriever`):
 * for each ground-truth question it compares the retrieved page texts with
 * the question's relevant-document string and records recall, precision and
 * reciprocal rank; the summary is the mean of each list.
 *
 * The retriever is a foreign call and becomes the parameter `retrieve`,
 * which maps a question to the page contents of the retrieved documents in
 * retrieval order. Ratios and means are exact `real`s.
 */
module RetrievalEval {
  import opened Wrappers
  import opened Text

  /** One element of the ground-truth JSON array. */
  datatype GroundTruth = GroundTruth(question: string, relevantDoc: string)

  /** The three per-query numbers: `recall` is the integer 0 or 1. */
  datatype Metrics = Metrics(recall: int, precision: real, reciprocalRank: real)

  /** `len(relevant_found) / len(retrieved_texts)` with nothing retrieved raises. */
  datatype EvalError = ZeroDivisionError

  /**
   * The returned `results` dictionary: `Recall@k`, `Precision@k` and `MRR`.
   * `None` stands for the NaN that `np.mean` gives for an empty list.
   */
  datatype Summary = Summary(recallAtK: Option<real>, precisionAtK: Option<real>, mrr: Option<real>)

  // ---------------------------------------------------------------------------
  // Lower-casing and matching

  /** `str.lower` on one character, restricted to the ASCII letters. */
  function LowerChar(c: char): char
  {
    if 'A' <= c <= 'Z' then (c as int - 'A' as int + 'a' as int) as char else c
  }

  function Lower(s: string): string
  {
    seq(|s|, i requires 0 <= i < |s| => LowerChar(s[i]))
  }

  /** `[doc.page_content.lower() for doc in retrieved_docs]` */
  function LowerAll(texts: seq<string>): seq<string>
  {
    seq(|texts|, i requires 0 <= i < |texts| => Lower(texts[i]))
  }

  /** `a` is `b` with some elements left out. */
  predicate IsSubsequence(a: seq<string>, b: seq<string>)
    decreases |b|
  {
    if |a| == 0 then true
    else if |b| == 0 then false
    else if a[0] == b[0] then IsSubsequence(a[1..], b[1..])
    else IsSubsequence(a, b[1..])
  }

  /** `relevant_found = [r for r in retrieved_texts if relevant in r]` */
  function Matches(relevant: string, texts: seq<string>): (found: seq<string>)
    decreases |texts|
    ensures |found| <= |texts|
  {
    if |texts| == 0 then []
    else (if Contains(texts[0], relevant) then [texts[0]] else []) + Matches(relevant, texts[1..])
  }

  /**
   * `relevant_found` holds exactly the texts that contain `relevant`, each as
   * often as it was retrieved, in retrieved order, and no other text.
   */
  lemma {:induction false} MatchesExact(relevant: string, texts: seq<string>)
    decreases |texts|
    ensures IsSubsequence(Matches(relevant, texts), texts)
    ensures forall x :: Contains(x, relevant) ==> multiset(Matches(relevant, texts))[x] == multiset(texts)[x]
    ensures forall x :: !Contains(x, relevant) ==> multiset(Matches(relevant, texts))[x] == 0
  {
    if |texts| > 0 {
      assert texts == [texts[0]] + texts[1..];
      var rest := Matches(relevant, texts[1..]);
      MatchesExact(relevant, texts[1..]);
      if Contains(texts[0], relevant) {
        assert Matches(relevant, texts) == [texts[0]] + rest;
      } else {
        assert Matches(relevant, texts) == rest;
        assert rest != [] ==> multiset(rest)[rest[0]] > 0;
      }
    }
  }

  /** `relevant_found` is empty exactly when no retrieved text contains `relevant`. */
  lemma MatchesEmpty(relevant: string, texts: seq<string>)
    ensures |Matches(relevant, texts)| == 0 <==> forall i :: 0 <= i < |texts| ==> !Contains(texts[i], relevant)
  {
    var found := Matches(relevant, texts);
    MatchesExact(relevant, texts);
    if exists i :: 0 <= i < |texts| && Contains(texts[i], relevant) {
      var i :| 0 <= i < |texts| && Contains(texts[i], relevant);
      assert multiset(texts)[texts[i]] > 0;
      assert multiset(found)[texts[i]] > 0;
    }
  }

  // ---------------------------------------------------------------------------
  // First-match rank

  /** The 1-based position of the first text containing `relevant`, or `None`. */
  function FirstRank(relevant: string, texts: seq<string>): (rank: Option<nat>)
    decreases |texts|
    ensures rank.Some? ==>
              && 1 <= rank.value <= |texts|
              && Contains(texts[rank.value - 1], relevant)
              && forall j :: 0 <= j < rank.value - 1 ==> !Contains(texts[j], relevant)
    ensures rank.None? ==> forall j :: 0 <= j < |texts| ==> !Contains(texts[j], relevant)
  {
    if |texts| == 0 then None
    else if Contains(texts[0], relevant) then Some(1)
    else
      match FirstRank(relevant, texts[1..])
      case None => None
      case Some(k) => Some(k + 1)
  }

  /** The `for i, r in enumerate(retrieved_texts)` search that stops at the first match. */
  method FindRank(relevant: string, texts: seq<string>) returns (rank: Option<nat>)
    ensures rank == FirstRank(relevant, texts)
  {
    rank := None;
    var i := 0;
    while i < |texts|
      invariant 0 <= i <= |texts|
      invariant rank == None
      invariant forall j :: 0 <= j < i ==> !Contains(texts[j], relevant)
    {
      if Contains(texts[i], relevant) {
        rank := Some(i + 1);
        break;
      }
      i := i + 1;
    }
  }

  // ---------------------------------------------------------------------------
  // One query

  /** `1 / rank if rank else 0` */
  function ReciprocalRank(rank: Option<nat>): real
  {
    match rank
    case None => 0.0
    case Some(k) => if k == 0 then 0.0 else 1.0 / k as real
  }

  /** What one iteration of the loop computes for one question. */
  function ScoreQuery(relevantDoc: string, pageContents: seq<string>): Result<Metrics, EvalError>
  {
    var relevant := Lower(relevantDoc);
    var texts := LowerAll(pageContents);
    var found := Matches(relevant, texts);
    var recall := if |found| > 0 then 1 else 0;
    if |texts| == 0 then Failure(ZeroDivisionError)
    else
      var precision := |found| as real / |texts| as real;
      Success(Metrics(recall, precision, ReciprocalRank(FirstRank(relevant, texts))))
  }

  /** A query fails exactly when the retriever returned nothing. */
  lemma ScoreQueryFails(relevantDoc: string, pageContents: seq<string>)
    ensures ScoreQuery(relevantDoc, pageContents).Failure? <==> |pageContents| == 0
  {
    assert |LowerAll(pageContents)| == |pageContents|;
  }

  /** The invariants tying the three numbers of one query together. */
  ghost predicate Coherent(m: Metrics)
  {
    && (m.recall == 0 || m.recall == 1)
    && 0.0 <= m.precision <= 1.0
    && 0.0 <= m.reciprocalRank <= 1.0
    && (m.reciprocalRank > 0.0 <==> m.recall == 1)
    && (m.precision > 0.0 <==> m.recall == 1)
  }

  lemma OneOverRank(k: nat)
    requires k >= 1
    ensures 0.0 < 1.0 / k as real <= 1.0
    ensures 1.0 / k as real == 1.0 <==> k == 1
  {
    var q := 1.0 / k as real;
    assert q * k as real == 1.0;
  }

  lemma RatioBounds(n: nat, d: nat)
    requires d > 0 && n <= d
    ensures 0.0 <= n as real / d as real <= 1.0
    ensures n as real / d as real > 0.0 <==> n > 0
  {
    var q := n as real / d as real;
    assert q * d as real == n as real;
  }

  /**
   * The per-query contract: the query fails exactly when nothing was
   * retrieved; otherwise recall is 1 exactly when some retrieved text
   * contains the relevant string (both lower-cased), precision is the share
   * of matching texts, the reciprocal rank is 1 over the first match's
   * position (0 without a match), it is 1 exactly when the top result
   * matches, and the three numbers are coherent.
   */
  lemma ScoreQueryContract(relevantDoc: string, pageContents: seq<string>)
    ensures ScoreQuery(relevantDoc, pageContents).Failure? <==> |pageContents| == 0
    ensures var r, relevant, texts := ScoreQuery(relevantDoc, pageContents), Lower(relevantDoc), LowerAll(pageContents);
      r.Success? ==>
        && Coherent(r.value)
        && (r.value.recall == 1 <==> exists i :: 0 <= i < |texts| && Contains(texts[i], relevant))
        && r.value.precision == |Matches(relevant, texts)| as real / |texts| as real
        && (r.value.reciprocalRank == 1.0 <==> Contains(texts[0], relevant))
        && (forall k :: FirstRank(relevant, texts) == Some(k) ==> r.value.reciprocalRank == 1.0 / k as real)
  {
    var r, relevant, texts := ScoreQuery(relevantDoc, pageContents), Lower(relevantDoc), LowerAll(pageContents);
    if r.Success? {
      var found := Matches(relevant, texts);
      MatchesEmpty(relevant, texts);
      RatioBounds(|found|, |texts|);
      match FirstRank(relevant, texts)
      case None =>
      case Some(k) =>
        OneOverRank(k);
    }
  }

  /** The loop body for one question: lower-case, match, and compute the three numbers. */
  method EvaluateQuery(relevantDoc: string, pageContents: seq<string>) returns (r: Result<Metrics, EvalError>)
    ensures r == ScoreQuery(relevantDoc, pageContents)
  {
    var relevant := Lower(relevantDoc);
    var retrievedTexts := LowerAll(pageContents);
    var relevantFound := Matches(relevant, retrievedTexts);
    var recall := if |relevantFound| > 0 then 1 else 0;
    if |retrievedTexts| == 0 {
      return Failure(ZeroDivisionError);
    }
    var precision := |relevantFound| as real / |retrievedTexts| as real;
    var rank := FindRank(relevant, retrievedTexts);
    var reciprocalRank := 0.0;
    if rank.Some? && rank.value != 0 {
      reciprocalRank := 1.0 / rank.value as real;
    }
    r := Success(Metrics(recall, precision, reciprocalRank));
  }

  // ---------------------------------------------------------------------------
  // The whole dataset

  /** The metrics of every question in order, or the error of one that failed. */
  function ScoreAll(data: seq<GroundTruth>, retrieve: string -> seq<string>): Result<seq<Metrics>, EvalError>
    decreases |data|
  {
    if |data| == 0 then Success([])
    else
      match ScoreAll(data[..|data| - 1], retrieve)
      case Failure(e) => Failure(e)
      case Success(ms) =>
        match ScoreQuery(data[|data| - 1].relevantDoc, retrieve(data[|data| - 1].question))
        case Failure(e) => Failure(e)
        case Success(m) => Success(ms + [m])
  }

  /** Scoring one more question that succeeds extends the list of metrics by its own. */
  lemma ScoreAllStep(data: seq<GroundTruth>, i: nat, retrieve: string -> seq<string>, ms: seq<Metrics>, m: Metrics)
    requires i < |data|
    requires ScoreAll(data[..i], retrieve) == Success(ms)
    requires ScoreQuery(data[i].relevantDoc, retrieve(data[i].question)) == Success(m)
    ensures ScoreAll(data[..i + 1], retrieve) == Success(ms + [m])
  {
    assert data[..i + 1][..i] == data[..i];
  }

  /** One more successful question keeps every invariant of the evaluation loop. */
  lemma EvaluateStep(data: seq<GroundTruth>, i: nat, retrieve: string -> seq<string>, ms: seq<Metrics>, m: Metrics)
    requires i < |data|
    requires ScoreAll(data[..i], retrieve) == Success(ms)
    requires AllRetrieved(data[..i], retrieve)
    requires ScoreQuery(data[i].relevantDoc, retrieve(data[i].question)) == Success(m)
    ensures ScoreAll(data[..i + 1], retrieve) == Success(ms + [m])
    ensures AllRetrieved(data[..i + 1], retrieve)
    ensures Recalls(ms + [m]) == Recalls(ms) + [m.recall as real]
    ensures Precisions(ms + [m]) == Precisions(ms) + [m.precision]
    ensures ReciprocalRanks(ms + [m]) == ReciprocalRanks(ms) + [m.reciprocalRank]
  {
    ScoreQueryFails(data[i].relevantDoc, retrieve(data[i].question));
    assert data[..i + 1] == data[..i] + [data[i]];
    ScoreAllStep(data, i, retrieve, ms, m);
    ListsStep(ms, m);
  }

  lemma ListsStep(ms: seq<Metrics>, m: Metrics)
    ensures Recalls(ms + [m]) == Recalls(ms) + [m.recall as real]
    ensures Precisions(ms + [m]) == Precisions(ms) + [m.precision]
    ensures ReciprocalRanks(ms + [m]) == ReciprocalRanks(ms) + [m.reciprocalRank]
  {
    assert (ms + [m])[..|ms|] == ms;
  }

  function Sum(xs: seq<real>): real
    decreases |xs|
  {
    if |xs| == 0 then 0.0 else Sum(xs[..|xs| - 1]) + xs[|xs| - 1]
  }

  /** `np.mean`, with `None` for the NaN of an empty list. */
  function Mean(xs: seq<real>): Option<real>
  {
    if |xs| == 0 then None else Some(Sum(xs) / |xs| as real)
  }

  function Recalls(ms: seq<Metrics>): (xs: seq<real>)
    decreases |ms|
    ensures |xs| == |ms|
  {
    if |ms| == 0 then [] else Recalls(ms[..|ms| - 1]) + [ms[|ms| - 1].recall as real]
  }

  function Precisions(ms: seq<Metrics>): (xs: seq<real>)
    decreases |ms|
    ensures |xs| == |ms|
  {
    if |ms| == 0 then [] else Precisions(ms[..|ms| - 1]) + [ms[|ms| - 1].precision]
  }

  function ReciprocalRanks(ms: seq<Metrics>): (xs: seq<real>)
    decreases |ms|
    ensures |xs| == |ms|
  {
    if |ms| == 0 then [] else ReciprocalRanks(ms[..|ms| - 1]) + [ms[|ms| - 1].reciprocalRank]
  }

  function Summarize(ms: seq<Metrics>): Summary
  {
    Summary(Mean(Recalls(ms)), Mean(Precisions(ms)), Mean(ReciprocalRanks(ms)))
  }

  /** The retriever returned at least one document for every question. */
  ghost predicate AllRetrieved(data: seq<GroundTruth>, retrieve: string -> seq<string>)
  {
    forall i :: 0 <= i < |data| ==> |retrieve(data[i].question)| > 0
  }

  /**
   * `evaluate_retriever`: one entry per ground-truth item is appended to
   * each of the three lists, and the summary holds their means. A question
   * with nothing retrieved aborts the whole evaluation.
   */
  method EvaluateRetriever(data: seq<GroundTruth>, retrieve: string -> seq<string>)
    returns (r: Result<Summary, EvalError>)
    ensures r.Failure? <==> !AllRetrieved(data, retrieve)
    ensures r.Success? ==> ScoreAll(data, retrieve).Success? && r.value == Summarize(ScoreAll(data, retrieve).value)
  {
    var recallList: seq<real>, precisionList: seq<real>, mrrList: seq<real> := [], [], [];
    ghost var ms: seq<Metrics> := [];
    for i := 0 to |data|
      invariant ScoreAll(data[..i], retrieve) == Success(ms)
      invariant recallList == Recalls(ms)
      invariant precisionList == Precisions(ms)
      invariant mrrList == ReciprocalRanks(ms)
      invariant AllRetrieved(data[..i], retrieve)
    {
      var item := data[i];
      var query := item.question;
      var retrievedDocs := retrieve(query);
      var m := EvaluateQuery(item.relevantDoc, retrievedDocs);
      ScoreQueryFails(item.relevantDoc, retrievedDocs);
      if m.Failure? {
        return Failure(m.error);
      }
      EvaluateStep(data, i, retrieve, ms, m.value);
      recallList := recallList + [m.value.recall as real];
      precisionList := precisionList + [m.value.precision];
      mrrList := mrrList + [m.value.reciprocalRank];
      ms := ms + [m.value];
    }
    assert data[..|data|] == data;
    assert AllRetrieved(data, retrieve);
    r := Success(Summary(Mean(recallList), Mean(precisionList), Mean(mrrList)));
  }

  // ---------------------------------------------------------------------------
  // Properties of the summary

  ghost predicate AllCoherent(ms: seq<Metrics>)
  {
    forall i :: 0 <= i < |ms| ==> Coherent(ms[i])
  }

  /** A successful evaluation has one coherent entry per question. */
  lemma {:induction false} ScoreAllCoherent(data: seq<GroundTruth>, retrieve: string -> seq<string>)
    decreases |data|
    ensures ScoreAll(data, retrieve).Success? ==>
              |ScoreAll(data, retrieve).value| == |data| && AllCoherent(ScoreAll(data, retrieve).value)
  {
    if |data| > 0 {
      var last := data[|data| - 1];
      ScoreAllCoherent(data[..|data| - 1], retrieve);
      ScoreQueryContract(last.relevantDoc, retrieve(last.question));
    }
  }

  /** Sums of the three lists: bounded by their length, RR below recall, precision positive with recall. */
  lemma {:induction false} SumFacts(ms: seq<Metrics>)
    requires AllCoherent(ms)
    decreases |ms|
    ensures 0.0 <= Sum(ReciprocalRanks(ms)) <= Sum(Recalls(ms)) <= |ms| as real
    ensures 0.0 <= Sum(Precisions(ms)) <= |ms| as real
    ensures Sum(Precisions(ms)) > 0.0 <==> Sum(Recalls(ms)) > 0.0
  {
    if |ms| > 0 {
      var init, m := ms[..|ms| - 1], ms[|ms| - 1];
      assert Coherent(m);
      assert AllCoherent(init) by {
        forall i | 0 <= i < |init| ensures Coherent(init[i]) {
          assert init[i] == ms[i];
        }
      }
      SumFacts(init);
      assert Recalls(ms) == Recalls(init) + [m.recall as real];
      assert Precisions(ms) == Precisions(init) + [m.precision];
      assert ReciprocalRanks(ms) == ReciprocalRanks(init) + [m.reciprocalRank];
      SumSnoc(Recalls(init), m.recall as real);
      SumSnoc(Precisions(init), m.precision);
      SumSnoc(ReciprocalRanks(init), m.reciprocalRank);
    }
  }

  lemma DivideBounds(a: real, b: real, n: real)
    requires 0.0 <= a <= b <= n && n > 0.0
    ensures 0.0 <= a / n <= b / n <= 1.0
    ensures a / n > 0.0 <==> a > 0.0
  {
    assert (a / n) * n == a;
    assert (b / n) * n == b;
  }

  /**
   * The summary of a successful evaluation: each value is NaN exactly when
   * the dataset is empty; otherwise all three lie in [0, 1], MRR never
   * exceeds Recall@k, and Precision@k is positive exactly when Recall@k is.
   */
  lemma SummaryContract(data: seq<GroundTruth>, retrieve: string -> seq<string>)
    requires ScoreAll(data, retrieve).Success?
    ensures var s := Summarize(ScoreAll(data, retrieve).value);
      && (s.recallAtK.None? <==> |data| == 0)
      && (s.precisionAtK.None? <==> |data| == 0)
      && (s.mrr.None? <==> |data| == 0)
      && (|data| > 0 ==>
            && 0.0 <= s.mrr.value <= s.recallAtK.value <= 1.0
            && 0.0 <= s.precisionAtK.value <= 1.0
            && (s.precisionAtK.value > 0.0 <==> s.recallAtK.value > 0.0))
  {
    var ms := ScoreAll(data, retrieve).value;
    ScoreAllCoherent(data, retrieve);
    SumFacts(ms);
    if |data| > 0 {
      var n := |ms| as real;
      DivideBounds(Sum(ReciprocalRanks(ms)), Sum(Recalls(ms)), n);
      DivideBounds(Sum(Precisions(ms)), n, n);
      DivideBounds(Sum(Recalls(ms)), n, n);
    }
  }

  lemma SumSnoc(xs: seq<real>, x: real)
    ensures Sum(xs + [x]) == Sum(xs) + x
  {
    assert (xs + [x])[..|xs|] == xs;
  }
}
