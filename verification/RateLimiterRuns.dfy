/** Whole runs of a rate limiter, from the requests to the answers. */
module RateLimiterRuns {
  import opened ByteCodec
  import opened RateLimitHistory
  import opened RateLimiting
  import opened Verdicts

  /** Who checks when. */
  datatype Request = Request(ephemId: Bytes, at: real)

  predicate RequestsInOrder(requests: seq<Request>) {
    && (forall i :: 0 <= i < |requests| ==> requests[i].at >= 0.0)
    && (forall i, j :: 0 <= i < j < |requests| ==> requests[i].at <= requests[j].at)
  }

  /** The history is about these requests, in order. */
  ghost predicate Asks(h: History, requests: seq<Request>) {
    && |h| == |requests|
    && forall i :: 0 <= i < |h| ==> h[i].ephemId == requests[i].ephemId && h[i].at == requests[i].at
  }

  /** One more request is answered as is owed. */
  ghost function Answering(past: History, r: Request): (h: History)
    requires Lawful(past) && Follows(past, r.at)
    ensures Lawful(h)
    ensures h == past + [RateLimitHistory.Check(r.ephemId, r.at, Owed(Of(past, r.ephemId), r.at))]
  {
    var check := RateLimitHistory.Check(r.ephemId, r.at, Owed(Of(past, r.ephemId), r.at));
    LawfulSnoc(past, check);
    past + [check]
  }

  lemma AsksNext(past: History, requests: seq<Request>)
    requires requests != [] && RequestsInOrder(requests) && Asks(past, requests[..|requests| - 1])
    ensures Follows(past, requests[|requests| - 1].at)
    ensures var r := requests[|requests| - 1];
            forall verdict :: Asks(past + [RateLimitHistory.Check(r.ephemId, r.at, verdict)], requests)
  {
  }

  /** The one lawful history with these requests. */
  ghost function Answers(requests: seq<Request>): (h: History)
    requires RequestsInOrder(requests)
    ensures Lawful(h) && Asks(h, requests)
  {
    if requests == [] then []
    else
      var n := |requests| - 1;
      var past := Answers(requests[..n]);
      AsksNext(past, requests);
      Answering(past, requests[n])
  }

  function RequestsOf(requests: seq<Request>, ephemId: Bytes): (own: seq<Request>)
    ensures forall i :: 0 <= i < |own| ==> own[i] in requests && own[i].ephemId == ephemId
    ensures RequestsInOrder(requests) ==> RequestsInOrder(own)
  {
    if requests == [] then []
    else
      var n := |requests| - 1;
      var rest := RequestsOf(requests[..n], ephemId);
      if requests[n].ephemId == ephemId then rest + [requests[n]] else rest
  }

  lemma {:induction false} OnlyOwn(h: History, ephemId: Bytes)
    requires forall i :: 0 <= i < |h| ==> h[i].ephemId == ephemId
    ensures Of(h, ephemId) == h
  {
    if h != [] {
      OnlyOwn(h[..|h| - 1], ephemId);
    }
  }

  lemma {:induction false} OfAsks(requests: seq<Request>, h: History, ephemId: Bytes)
    requires Asks(h, requests)
    ensures Asks(Of(h, ephemId), RequestsOf(requests, ephemId))
  {
    if h != [] {
      OfAsks(requests[..|h| - 1], h[..|h| - 1], ephemId);
    }
  }

  lemma SameRequestsSameAnswers(requests: seq<Request>, own1: History, own2: History)
    requires LawfulAlone(own1) && LawfulAlone(own2) && Asks(own1, requests) && Asks(own2, requests)
    ensures own1 == own2
  {
    AnswersDetermined(own1, own2);
  }

  lemma AloneAnswers(requests: seq<Request>, ephemId: Bytes)
    requires RequestsInOrder(requests) && forall i :: 0 <= i < |requests| ==> requests[i].ephemId == ephemId
    ensures LawfulAlone(Answers(requests))
  {
    OnlyOwn(Answers(requests), ephemId);
    SenderIsolation(Answers(requests), ephemId);
  }

  /** The answers one sender gets in any interleaved run are those a fresh limiter gives when it
      is asked that sender's requests only. */
  lemma IsolatedAnswers(requests: seq<Request>, ephemId: Bytes)
    requires RequestsInOrder(requests)
    ensures Of(Answers(requests), ephemId) == Answers(RequestsOf(requests, ephemId))
  {
    var mine := RequestsOf(requests, ephemId);
    SenderIsolation(Answers(requests), ephemId);
    AloneAnswers(mine, ephemId);
    OfAsks(requests, Answers(requests), ephemId);
    SameRequestsSameAnswers(mine, Of(Answers(requests), ephemId), Answers(mine));
  }

  lemma AnswersExtend(requests: seq<Request>, n: nat)
    requires RequestsInOrder(requests) && n < |requests|
    ensures Follows(Answers(requests[..n]), requests[n].at)
    ensures var past, e, now := Answers(requests[..n]), requests[n].ephemId, requests[n].at;
            Answers(requests[..n + 1]) == past + [RateLimitHistory.Check(e, now, Owed(Of(past, e), now))]
  {
    assert requests[..n + 1][..n] == requests[..n];
  }

  function Given(h: History): (verdicts: seq<Verdict>)
    ensures |verdicts| == |h| && forall i :: 0 <= i < |h| ==> verdicts[i] == h[i].verdict
  {
    seq(|h|, i requires 0 <= i < |h| => h[i].verdict)
  }

  lemma NextAnswer(requests: seq<Request>, n: nat, past: History, verdict: Verdict)
    requires RequestsInOrder(requests) && n < |requests| && past == Answers(requests[..n])
    requires verdict == Owed(Of(past, requests[n].ephemId), requests[n].at)
    ensures var h := past + [RateLimitHistory.Check(requests[n].ephemId, requests[n].at, verdict)];
            h == Answers(requests[..n + 1]) && Given(h) == Given(past) + [verdict]
  {
    AnswersExtend(requests, n);
  }

  /** A limiter whose history is the answers to the first n requests, which were these verdicts. */
  ghost predicate Answered(limiter: RateLimiter, requests: seq<Request>, n: nat, verdicts: seq<Verdict>)
    reads limiter
    requires RequestsInOrder(requests) && n <= |requests|
  {
    limiter.Valid() && limiter.history == Answers(requests[..n]) && verdicts == Given(limiter.history)
  }

  method AnswerNext(limiter: RateLimiter, requests: seq<Request>, n: nat, verdicts: seq<Verdict>)
    returns (more: seq<Verdict>)
    requires RequestsInOrder(requests) && n < |requests| && Answered(limiter, requests, n, verdicts)
    modifies limiter
    ensures Answered(limiter, requests, n + 1, more)
  {
    AnswersExtend(requests, n);
    ghost var past := limiter.history;
    var verdict := limiter.Check(requests[n].ephemId, requests[n].at);
    NextAnswer(requests, n, past, verdict);
    more := verdicts + [verdict];
  }

  /** A whole run of a fresh limiter. */
  method RunLimiter(requests: seq<Request>) returns (verdicts: seq<Verdict>)
    requires RequestsInOrder(requests)
    ensures verdicts == Given(Answers(requests))
  {
    var limiter := new RateLimiter();
    verdicts := [];
    for i := 0 to |requests|
      invariant fresh(limiter) && Answered(limiter, requests, i, verdicts)
    {
      verdicts := AnswerNext(limiter, requests, i, verdicts);
    }
    assert requests[..|requests|] == requests;
  }
}
