/** The rate limiter as it is implemented: a sliding window, a violation streak and a ban per
    sender, pruned every thousand checks. It answers what RateLimitHistory owes. */
module RateLimiting {
  import opened ByteCodec
  import opened RateLimitHistory
  import opened Verdicts
  import opened Wrappers

  const IDLE_EXPIRY_SECONDS: real := 600.0
  const PRUNE_INTERVAL_CHECKS := 1_000

  datatype SenderState = SenderState(
    window: seq<real>,
    consecutiveViolations: nat,
    bannedUntil: real,
    lastSeen: real)

  const FRESH_SENDER := SenderState([], 0, 0.0, 0.0)

  function Lookup(senders: map<Bytes, SenderState>, ephemId: Bytes): Option<SenderState> {
    if ephemId in senders then Some(senders[ephemId]) else None
  }

  ghost predicate Sorted(ts: seq<real>) {
    forall i, j :: 0 <= i < j < |ts| ==> ts[i] <= ts[j]
  }

  ghost predicate NoneAfter(ts: seq<real>, t: real) {
    forall i :: 0 <= i < |ts| ==> ts[i] <= t
  }

  /** The stored window is the tail of the sender's accepts, and all before it is out of date. */
  ghost predicate IsTail(window: seq<real>, accepts: seq<real>, clock: real) {
    && |window| <= |accepts|
    && window == accepts[|accepts| - |window|..]
    && forall i :: 0 <= i < |accepts| - |window| ==> clock - accepts[i] > WINDOW_SECONDS
  }

  /** The stored state of one sender, present or not, says the same as its history from now on. */
  ghost predicate Agrees(state: Option<SenderState>, own: History, clock: real) {
    match state
    case None =>
      && BannedUntil(own) <= clock
      && IsTail([], Accepts(own), clock)
    case Some(s) =>
      && IsTail(s.window, Accepts(own), clock)
      && |s.window| <= MAX_MESSAGES_PER_WINDOW
      && NoneAfter(s.window, s.lastSeen)
      && s.lastSeen <= clock
      && s.consecutiveViolations == Streak(own)
      && (s.bannedUntil == BannedUntil(own) || (s.bannedUntil <= clock && BannedUntil(own) <= clock))
      && s.bannedUntil <= s.lastSeen + BAN_SECONDS
  }

  ghost predicate Tracks(senders: map<Bytes, SenderState>, h: History, clock: real) {
    forall ephemId :: Agrees(Lookup(senders, ephemId), Of(h, ephemId), clock)
  }

  lemma TracksLater(senders: map<Bytes, SenderState>, h: History, clock: real, now: real)
    requires Tracks(senders, h, clock) && clock <= now
    ensures Tracks(senders, h, now)
  {
    forall ephemId ensures Agrees(Lookup(senders, ephemId), Of(h, ephemId), now) {
      assert Agrees(Lookup(senders, ephemId), Of(h, ephemId), clock);
    }
  }

  lemma {:induction false} AcceptsSorted(own: History)
    requires LawfulAlone(own)
    ensures Sorted(Accepts(own))
  {
    if own != [] {
      var init, last := own[..|own| - 1], own[|own| - 1];
      AcceptsSorted(init);
      AloneBounded(own);
      AcceptsBounded(init, last.at);
    }
  }

  /** Once the out-of-date front is popped, the window holds exactly the accepts that count. */
  lemma WindowCounts(window: seq<real>, accepts: seq<real>, now: real)
    requires IsTail(window, accepts, now) && Sorted(accepts)
    requires NoneAfter(accepts, now)
    requires window != [] ==> now - window[0] <= WINDOW_SECONDS
    ensures CountIn(accepts, now - WINDOW_SECONDS, now) == |window|
  {
    var k := |accepts| - |window|;
    assert accepts == accepts[..k] + window;
    CountSplit(accepts[..k], window, now - WINDOW_SECONDS, now);
    CountNone(accepts[..k], now - WINDOW_SECONDS, now);
    forall i | 0 <= i < |window| ensures now - WINDOW_SECONDS <= window[i] <= now {
      assert window[i] == accepts[k + i];
      if i > 0 { assert accepts[k] <= accepts[k + i]; }
    }
    CountAll(window, now - WINDOW_SECONDS, now);
  }

  /** Popping the out-of-date front of a window leaves exactly the accepts that count. */
  method PopExpired(stored: seq<real>, now: real, ghost accepts: seq<real>) returns (window: seq<real>)
    requires IsTail(stored, accepts, now) && Sorted(accepts)
    requires NoneAfter(accepts, now)
    ensures IsTail(window, accepts, now) && |window| <= |stored|
    ensures NoneAfter(window, now)
    ensures |window| == CountIn(accepts, now - WINDOW_SECONDS, now)
  {
    window := stored;
    while window != [] && now - window[0] > WINDOW_SECONDS
      invariant IsTail(window, accepts, now) && |window| <= |stored|
      decreases |window|
    {
      window := window[1..];
    }
    WindowCounts(window, accepts, now);
  }

  lemma TailGrows(window: seq<real>, accepts: seq<real>, now: real)
    requires IsTail(window, accepts, now)
    requires NoneAfter(window, now)
    ensures IsTail(window + [now], accepts + [now], now)
    ensures NoneAfter(window + [now], now)
  {
  }

  /** The decision about one sender, whose state is freshly made when it was not known. */
  method Judge(sender: SenderState, now: real, known: bool, ghost own: History, ghost ephemId: Bytes)
    returns (state: SenderState, verdict: Verdict)
    requires Agrees(if known then Some(sender) else None, own, now)
    requires !known ==> sender == FRESH_SENDER
    requires now >= 0.0 && Sorted(Accepts(own))
    requires NoneAfter(Accepts(own), now)
    ensures verdict == Owed(own, now)
    ensures Agrees(Some(state), own + [RateLimitHistory.Check(ephemId, now, verdict)], now) && state.lastSeen == now
  {
    state := sender.(lastSeen := now);
    if now < state.bannedUntil {
      verdict := Banned;
      Snoc(own, RateLimitHistory.Check(ephemId, now, verdict));
      return;
    }
    var window := PopExpired(state.window, now, Accepts(own));
    state := state.(window := window);
    if |window| >= MAX_MESSAGES_PER_WINDOW {
      state := state.(consecutiveViolations := state.consecutiveViolations + 1);
      if state.consecutiveViolations >= BAN_VIOLATION_THRESHOLD {
        state := state.(bannedUntil := now + BAN_SECONDS, consecutiveViolations := 0);
        verdict := BanStart;
      } else {
        verdict := WindowFull;
      }
      Snoc(own, RateLimitHistory.Check(ephemId, now, verdict));
      return;
    }
    state := state.(consecutiveViolations := 0, window := window + [now]);
    verdict := Accept;
    Snoc(own, RateLimitHistory.Check(ephemId, now, verdict));
    TailGrows(window, Accepts(own), now);
  }

  ghost function Clock(h: History): real {
    if h == [] then 0.0 else h[|h| - 1].at
  }

  ghost predicate Consistent(senders: map<Bytes, SenderState>, h: History) {
    Lawful(h) && Tracks(senders, h, Clock(h))
  }

  lemma AcceptsInOrder(h: History, ephemId: Bytes, now: real)
    requires Lawful(h) && Follows(h, now)
    ensures Sorted(Accepts(Of(h, ephemId))) && NoneAfter(Accepts(Of(h, ephemId)), now)
  {
    SenderIsolation(h, ephemId);
    AcceptsSorted(Of(h, ephemId));
    if h != [] {
      LawfulBounded(h);
    }
    OfBounded(h, ephemId, now);
    AcceptsBounded(Of(h, ephemId), now);
  }

  /** A check of one sender leaves what is stored about each sender in agreement. */
  lemma AgreesAfter(senders: map<Bytes, SenderState>, h: History, check: Check, state: SenderState, e: Bytes)
    requires Agrees(Lookup(senders, e), Of(h, e), check.at)
    requires Agrees(Some(state), Of(h, check.ephemId) + [check], check.at)
    ensures Agrees(Lookup(senders[check.ephemId := state], e), Of(h + [check], e), check.at)
  {
    OfSnoc(h, check, e);
  }

  lemma LawfulSnoc(h: History, check: Check)
    requires Lawful(h) && Follows(h, check.at) && check.verdict == Owed(Of(h, check.ephemId), check.at)
    ensures Lawful(h + [check])
  {
    assert (h + [check])[..|h|] == h;
  }

  lemma AfterCheck(senders: map<Bytes, SenderState>, h: History, check: Check, state: SenderState)
    requires Lawful(h) && Follows(h, check.at) && Tracks(senders, h, check.at)
    requires check.verdict == Owed(Of(h, check.ephemId), check.at)
    requires Agrees(Some(state), Of(h, check.ephemId) + [check], check.at)
    ensures Consistent(senders[check.ephemId := state], h + [check])
  {
    LawfulSnoc(h, check);
    forall e ensures Agrees(Lookup(senders[check.ephemId := state], e), Of(h + [check], e), check.at) {
      AgreesAfter(senders, h, check, state, e);
    }
  }

  /** The decision about a sender from what is stored about it, if anything. */
  method JudgeStored(senders: map<Bytes, SenderState>, ephemId: Bytes, now: real, ghost h: History)
    returns (state: SenderState, verdict: Verdict)
    requires Lawful(h) && Follows(h, now) && Tracks(senders, h, now)
    ensures verdict == Owed(Of(h, ephemId), now)
    ensures Agrees(Some(state), Of(h, ephemId) + [RateLimitHistory.Check(ephemId, now, verdict)], now)
    ensures state.lastSeen == now
  {
    AcceptsInOrder(h, ephemId, now);
    assert Agrees(Lookup(senders, ephemId), Of(h, ephemId), now);
    var known := ephemId in senders;
    state, verdict := Judge(if known then senders[ephemId] else FRESH_SENDER, now, known, Of(h, ephemId), ephemId);
  }

  ghost predicate NobodyIdle(senders: map<Bytes, SenderState>, now: real) {
    forall e :: e in senders ==> now - senders[e].lastSeen <= 600.0
  }

  ghost predicate ForgetsNobody(before: map<Bytes, SenderState>, after: map<Bytes, SenderState>) {
    forall e :: e in before ==> e in after
  }

  lemma NobodyIdleAfter(senders: map<Bytes, SenderState>, e: Bytes, state: SenderState, now: real)
    requires NobodyIdle(senders, now) && state.lastSeen == now
    ensures NobodyIdle(senders[e := state], now)
  {
  }

  class RateLimiter {
    var senders: map<Bytes, SenderState>
    var checks: nat
    ghost var history: History

    ghost predicate Valid()
      reads this
    {
      Consistent(senders, history)
    }

    constructor ()
      ensures Valid() && history == []
    {
      senders := map[];
      checks := 0;
      history := [];
    }

    /** Forgets exactly the senders idle for more than ten minutes. The test for a running ban is
        never what keeps a sender: a ban ends at most a minute after the sender was last seen. */
    method Prune(now: real)
      requires Tracks(senders, history, now)
      modifies this`senders
      ensures Tracks(senders, history, now)
      ensures senders == map e | e in old(senders) && now - old(senders)[e].lastSeen <= 600.0
                              :: old(senders)[e]
    {
      var stale := set e | e in senders && now - senders[e].lastSeen > IDLE_EXPIRY_SECONDS
                           && now >= senders[e].bannedUntil;
      ghost var all := stale;
      while stale != {}
        invariant stale <= all
        invariant senders == map e | e in old(senders) && (e !in all || e in stale) :: old(senders)[e]
        decreases stale
      {
        var e :| e in stale;
        senders := senders - {e};
        stale := stale - {e};
      }
      forall e ensures Agrees(Lookup(senders, e), Of(history, e), now) {
        assert Agrees(Lookup(old(senders), e), Of(history, e), now);
      }
      forall e | e in old(senders) ensures e in all <==> now - old(senders)[e].lastSeen > IDLE_EXPIRY_SECONDS {
        assert Agrees(Lookup(old(senders), e), Of(history, e), now);
      }
    }

    /** Every thousandth check leaves nobody behind who was idle for more than ten minutes. */
    method Housekeep(now: real)
      requires Tracks(senders, history, now)
      modifies this`senders
      ensures Tracks(senders, history, now)
      ensures checks % 1_000 == 0 ==> NobodyIdle(senders, now)
      ensures checks % 1_000 != 0 ==> senders == old(senders)
    {
      if checks % PRUNE_INTERVAL_CHECKS == 0 {
        Prune(now);
      }
    }

    /** Answers what is owed to the sender on its own history; nothing else is observable. */
    method Check(ephemId: Bytes, now: real) returns (verdict: Verdict)
      requires Valid() && Follows(history, now)
      modifies this
      ensures Valid()
      ensures verdict == Owed(Of(old(history), ephemId), now)
      ensures history == old(history) + [RateLimitHistory.Check(ephemId, now, verdict)]
      ensures checks == old(checks) + 1
      ensures checks % 1_000 == 0 ==> NobodyIdle(senders, now)
      ensures checks % 1_000 != 0 ==> ForgetsNobody(old(senders), senders)
    {
      TracksLater(senders, history, Clock(history), now);
      checks := checks + 1;
      Housekeep(now);
      var state;
      state, verdict := JudgeStored(senders, ephemId, now, history);
      ghost var check := RateLimitHistory.Check(ephemId, now, verdict);
      AfterCheck(senders, history, check, state);
      if checks % 1_000 == 0 {
        NobodyIdleAfter(senders, ephemId, state, now);
      }
      history := history + [check];
      senders := senders[ephemId := state];
    }
  }
}
