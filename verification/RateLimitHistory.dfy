/** What the rate limiter promises, said about the history of checks alone: no windows, no
    counters, no pruning. */
module RateLimitHistory {
  import opened ByteCodec
  import opened Verdicts

  const WINDOW_SECONDS: real := 10.0
  const MAX_MESSAGES_PER_WINDOW := 10
  const BAN_SECONDS: real := 60.0
  const BAN_VIOLATION_THRESHOLD := 3

  /** One finished check: who, at what clock reading, with what answer. */
  datatype Check = Check(ephemId: Bytes, at: real, verdict: Verdict)

  type History = seq<Check>

  /** The checks of one sender, in order. */
  ghost function Of(h: History, ephemId: Bytes): History {
    if h == [] then []
    else
      var rest := Of(h[..|h| - 1], ephemId);
      if h[|h| - 1].ephemId == ephemId then rest + [h[|h| - 1]] else rest
  }

  /** The clock readings of the accepted checks, in order. */
  ghost function Accepts(h: History): seq<real> {
    if h == [] then []
    else
      var rest := Accepts(h[..|h| - 1]);
      if h[|h| - 1].verdict == Accept then rest + [h[|h| - 1].at] else rest
  }

  ghost function CountIn(ts: seq<real>, lo: real, hi: real): nat {
    if ts == [] then 0
    else CountIn(ts[..|ts| - 1], lo, hi) + if lo <= ts[|ts| - 1] <= hi then 1 else 0
  }

  /** Window-full rejections since the last accept or ban. */
  ghost function Streak(h: History): nat {
    if h == [] then 0
    else match h[|h| - 1].verdict
      case Accept => 0
      case BanStart => 0
      case WindowFull => Streak(h[..|h| - 1]) + 1
      case Banned => Streak(h[..|h| - 1])
  }

  /** When the latest ban ends; 0 when there was none. */
  ghost function BannedUntil(h: History): real {
    if h == [] then 0.0
    else if h[|h| - 1].verdict == BanStart then h[|h| - 1].at + BAN_SECONDS
    else BannedUntil(h[..|h| - 1])
  }

  /** The answer owed to a sender with the given own history: accepted iff not banned and fewer
      than ten of its accepts lie in the closed interval [now - 10, now]. */
  ghost function Owed(own: History, now: real): Verdict {
    if now < BannedUntil(own) then Banned
    else if CountIn(Accepts(own), now - WINDOW_SECONDS, now) < MAX_MESSAGES_PER_WINDOW then Accept
    else if Streak(own) + 1 >= BAN_VIOLATION_THRESHOLD then BanStart
    else WindowFull
  }

  /** The clock does not run backwards: `now` may follow the history. */
  predicate Follows(h: History, now: real) {
    now >= 0.0 && (h != [] ==> h[|h| - 1].at <= now)
  }

  /** A history a limiter may have: clock readings nonnegative and nondecreasing, and every
      answer the one owed to its sender at that point. */
  ghost predicate Lawful(h: History) {
    h == [] ||
    var init, last := h[..|h| - 1], h[|h| - 1];
    Lawful(init) && Follows(init, last.at) && last.verdict == Owed(Of(init, last.ephemId), last.at)
  }

  /** The same for a limiter that only ever sees one sender. */
  ghost predicate LawfulAlone(own: History) {
    own == [] ||
    var init, last := own[..|own| - 1], own[|own| - 1];
    LawfulAlone(init) && Follows(init, last.at) && last.verdict == Owed(init, last.at)
  }

  // ----- unfolding the histories at their end -----

  lemma OfSnoc(h: History, c: Check, ephemId: Bytes)
    ensures Of(h + [c], ephemId) == if c.ephemId == ephemId then Of(h, ephemId) + [c] else Of(h, ephemId)
  {
    assert (h + [c])[..|h|] == h;
  }

  lemma Snoc(h: History, c: Check)
    ensures Accepts(h + [c]) == if c.verdict == Accept then Accepts(h) + [c.at] else Accepts(h)
    ensures BannedUntil(h + [c]) == if c.verdict == BanStart then c.at + BAN_SECONDS else BannedUntil(h)
    ensures Streak(h + [c]) == match c.verdict
                               case Accept => 0
                               case BanStart => 0
                               case WindowFull => Streak(h) + 1
                               case Banned => Streak(h)
  {
    assert (h + [c])[..|h|] == h;
  }

  lemma {:induction false} CountSplit(a: seq<real>, b: seq<real>, lo: real, hi: real)
    ensures CountIn(a + b, lo, hi) == CountIn(a, lo, hi) + CountIn(b, lo, hi)
  {
    if b == [] {
      assert a + b == a;
    } else {
      assert (a + b)[..|a + b| - 1] == a + b[..|b| - 1];
      CountSplit(a, b[..|b| - 1], lo, hi);
    }
  }

  lemma {:induction false} CountNone(ts: seq<real>, lo: real, hi: real)
    requires forall i :: 0 <= i < |ts| ==> !(lo <= ts[i] <= hi)
    ensures CountIn(ts, lo, hi) == 0
  {
    if ts != [] {
      CountNone(ts[..|ts| - 1], lo, hi);
    }
  }

  lemma {:induction false} CountAll(ts: seq<real>, lo: real, hi: real)
    requires forall i :: 0 <= i < |ts| ==> lo <= ts[i] <= hi
    ensures CountIn(ts, lo, hi) == |ts|
  {
    if ts != [] {
      CountAll(ts[..|ts| - 1], lo, hi);
    }
  }

  lemma {:induction false} CountNarrows(ts: seq<real>, lo: real, hi: real, lo': real, hi': real)
    requires forall i :: 0 <= i < |ts| ==> (lo <= ts[i] <= hi ==> lo' <= ts[i] <= hi')
    ensures CountIn(ts, lo, hi) <= CountIn(ts, lo', hi')
  {
    if ts != [] {
      CountNarrows(ts[..|ts| - 1], lo, hi, lo', hi');
    }
  }

  /** Every accept time and every check of one sender comes from the history. */
  lemma {:induction false} OfBounded(h: History, ephemId: Bytes, hi: real)
    requires forall i :: 0 <= i < |h| ==> h[i].at <= hi
    ensures forall i :: 0 <= i < |Of(h, ephemId)| ==> Of(h, ephemId)[i].at <= hi && Of(h, ephemId)[i].ephemId == ephemId
  {
    if h != [] {
      OfBounded(h[..|h| - 1], ephemId, hi);
    }
  }

  lemma {:induction false} AcceptsBounded(h: History, hi: real)
    requires forall i :: 0 <= i < |h| ==> h[i].at <= hi
    ensures forall i :: 0 <= i < |Accepts(h)| ==> Accepts(h)[i] <= hi
  {
    if h != [] {
      AcceptsBounded(h[..|h| - 1], hi);
    }
  }

  lemma {:induction false} LawfulBounded(h: History)
    requires Lawful(h) && h != []
    ensures forall i :: 0 <= i < |h| ==> h[i].at <= h[|h| - 1].at
  {
    if |h| > 1 {
      LawfulBounded(h[..|h| - 1]);
    }
  }

  lemma {:induction false} AloneBounded(own: History)
    requires LawfulAlone(own) && own != []
    ensures forall i :: 0 <= i < |own| ==> own[i].at <= own[|own| - 1].at
  {
    if |own| > 1 {
      AloneBounded(own[..|own| - 1]);
    }
  }

  lemma {:induction false} AlonePrefix(own: History, n: nat)
    requires LawfulAlone(own) && n <= |own|
    ensures LawfulAlone(own[..n])
  {
    if n == |own| {
      assert own[..n] == own;
    } else {
      AlonePrefix(own[..|own| - 1], n);
      assert own[..|own| - 1][..n] == own[..n];
    }
  }

  // ----- isolation -----

  /** A sender's own checks, taken out of any interleaved run, carry exactly the answers of a
      limiter that saw nobody else: other senders and pruning are never observable. */
  lemma {:induction false} SenderIsolation(h: History, ephemId: Bytes)
    requires Lawful(h)
    ensures LawfulAlone(Of(h, ephemId))
  {
    if h != [] {
      var init, last := h[..|h| - 1], h[|h| - 1];
      SenderIsolation(init, ephemId);
      if last.ephemId == ephemId {
        var own := Of(init, ephemId);
        assert (own + [last])[..|own|] == own;
        if init != [] {
          LawfulBounded(init);
          OfBounded(init, ephemId, init[|init| - 1].at);
        }
      }
    }
  }

  /** The answers of a limiter alone with one sender are determined by the clock readings. */
  lemma {:induction false} AnswersDetermined(own1: History, own2: History)
    requires LawfulAlone(own1) && LawfulAlone(own2) && |own1| == |own2|
    requires forall i :: 0 <= i < |own1| ==> own1[i].ephemId == own2[i].ephemId && own1[i].at == own2[i].at
    ensures own1 == own2
  {
    if own1 != [] {
      var n := |own1| - 1;
      AnswersDetermined(own1[..n], own2[..n]);
      assert own1 == own1[..n] + [own1[n]] && own2 == own2[..n] + [own2[n]];
    }
  }

  // ----- the window bound -----

  lemma {:induction false} WindowBoundAlone(own: History, start: real)
    requires LawfulAlone(own)
    ensures CountIn(Accepts(own), start, start + WINDOW_SECONDS) <= MAX_MESSAGES_PER_WINDOW
  {
    if own != [] {
      var init, last := own[..|own| - 1], own[|own| - 1];
      WindowBoundAlone(init, start);
      if last.verdict == Accept {
        CountSplit(Accepts(init), [last.at], start, start + WINDOW_SECONDS);
        assert CountIn([last.at], start, start + WINDOW_SECONDS) <= 1;
        if start <= last.at <= start + WINDOW_SECONDS {
          AloneBounded(own);
          AcceptsBounded(init, last.at);
          CountNarrows(Accepts(init), start, start + WINDOW_SECONDS, last.at - WINDOW_SECONDS, last.at);
        } else {
          CountNone([last.at], start, start + WINDOW_SECONDS);
        }
      }
    }
  }

  // ----- what the counts count -----

  lemma AcceptsAfter(h: History, check: Check, ephemId: Bytes, lo: real, hi: real)
    ensures CountIn(Accepts(Of(h + [check], ephemId)), lo, hi)
            == CountIn(Accepts(Of(h, ephemId)), lo, hi)
               + if check.verdict == Accept && check.ephemId == ephemId && lo <= check.at <= hi then 1 else 0
  {
    OfSnoc(h, check, ephemId);
    var own := Of(h, ephemId);
    Snoc(own, check);
    var ts := Accepts(own) + [check.at];
    assert ts[..|ts| - 1] == Accepts(own);
  }

  /** The positions of a sender's accepted checks in a closed interval. */
  ghost function AcceptedWithin(h: History, ephemId: Bytes, lo: real, hi: real): set<nat> {
    set i: nat | i < |h| && h[i].ephemId == ephemId && h[i].verdict == Accept && lo <= h[i].at <= hi
  }

  lemma WithinSnoc(init: History, last: Check, ephemId: Bytes, lo: real, hi: real)
    ensures |AcceptedWithin(init + [last], ephemId, lo, hi)|
            == |AcceptedWithin(init, ephemId, lo, hi)|
               + if last.verdict == Accept && last.ephemId == ephemId && lo <= last.at <= hi then 1 else 0
  {
    var before, after := AcceptedWithin(init, ephemId, lo, hi), AcceptedWithin(init + [last], ephemId, lo, hi);
    if last.verdict == Accept && last.ephemId == ephemId && lo <= last.at <= hi {
      assert after == before + {|init|};
    } else {
      assert after == before;
    }
  }

  lemma NothingWithin(ephemId: Bytes, lo: real, hi: real)
    ensures CountIn(Accepts(Of([], ephemId)), lo, hi) == |AcceptedWithin([], ephemId, lo, hi)| == 0
  {
    assert AcceptedWithin([], ephemId, lo, hi) == {};
  }

  lemma OneMoreCounts(init: History, last: Check, ephemId: Bytes, lo: real, hi: real)
    requires CountIn(Accepts(Of(init, ephemId)), lo, hi) == |AcceptedWithin(init, ephemId, lo, hi)|
    ensures CountIn(Accepts(Of(init + [last], ephemId)), lo, hi) == |AcceptedWithin(init + [last], ephemId, lo, hi)|
  {
    AcceptsAfter(init, last, ephemId, lo, hi);
    WithinSnoc(init, last, ephemId, lo, hi);
  }

  lemma {:induction false} CountIsSize(h: History, ephemId: Bytes, lo: real, hi: real)
    ensures CountIn(Accepts(Of(h, ephemId)), lo, hi) == |AcceptedWithin(h, ephemId, lo, hi)|
  {
    if h == [] {
      NothingWithin(ephemId, lo, hi);
    } else {
      var init, last := h[..|h| - 1], h[|h| - 1];
      assert h == init + [last];
      CountIsSize(init, ephemId, lo, hi);
      OneMoreCounts(init, last, ephemId, lo, hi);
    }
  }

  /** Any closed ten-second interval holds at most ten accepts of one sender, over every run. */
  lemma WindowBound(h: History, ephemId: Bytes, start: real)
    requires Lawful(h)
    ensures CountIn(Accepts(Of(h, ephemId)), start, start + 10.0) <= 10
    ensures |set i: nat | i < |h| && h[i].ephemId == ephemId && h[i].verdict == Accept
                          && start <= h[i].at <= start + 10.0| <= 10
  {
    SenderIsolation(h, ephemId);
    WindowBoundAlone(Of(h, ephemId), start);
    CountIsSize(h, ephemId, start, start + 10.0);
    assert AcceptedWithin(h, ephemId, start, start + 10.0)
           == set i: nat | i < |h| && h[i].ephemId == ephemId && h[i].verdict == Accept
                           && start <= h[i].at <= start + 10.0;
  }

  // ----- the ban law -----

  /** While nothing after the ban start is as late as its expiry, that ban stays the latest one,
      everything is answered "banned", and no accept is younger than the ban. */
  lemma {:induction false} BanHolds(own: History, i: nat)
    requires LawfulAlone(own)
    requires i < |own| && own[i].verdict == BanStart
    requires forall k :: i < k < |own| ==> own[k].at < own[i].at + 60.0
    ensures BannedUntil(own) == own[i].at + 60.0
    ensures Streak(own) == 0
    ensures forall k :: i < k < |own| ==> own[k].verdict == Banned
    ensures forall k :: 0 <= k < |Accepts(own)| ==> Accepts(own)[k] <= own[i].at
  {
    var init, last := own[..|own| - 1], own[|own| - 1];
    if i == |own| - 1 {
      AloneBounded(own);
      AcceptsBounded(init, last.at);
    } else {
      assert init[i] == own[i];
      BanHolds(init, i);
    }
  }

  lemma OwedAt(own: History, n: nat)
    requires LawfulAlone(own) && n < |own|
    ensures LawfulAlone(own[..n]) && own[n].at >= 0.0 && own[n].verdict == Owed(own[..n], own[n].at)
  {
    AlonePrefix(own, n);
    AlonePrefix(own, n + 1);
    assert own[..n + 1][..n] == own[..n];
  }

  /** From the check that starts a ban: everything in the next sixty seconds is dropped as banned,
      and the first check at or after the expiry is accepted. */
  lemma BanLaw(own: History, i: nat, j: nat)
    requires LawfulAlone(own)
    requires i < j < |own|
    requires own[i].verdict == BanStart
    requires forall k :: i < k < j ==> own[k].at < own[i].at + 60.0
    ensures own[j].verdict == if own[j].at < own[i].at + 60.0 then Banned else Accept
  {
    OwedAt(own, j);
    BanHolds(own[..j], i);
    var now := own[j].at;
    if now >= own[i].at + BAN_SECONDS {
      CountNone(Accepts(own[..j]), now - WINDOW_SECONDS, now);
      assert Owed(own[..j], now) == Accept;
    }
  }

  /** Nothing from position i on was accepted or started a ban. */
  ghost predicate OnlyRejections(own: History, i: int) {
    forall k :: 0 <= i <= k < |own| ==> own[k].verdict == WindowFull || own[k].verdict == Banned
  }

  ghost predicate OnePending(own: History) {
    exists i :: 0 <= i < |own| && own[i].verdict == WindowFull && OnlyRejections(own, i)
  }

  ghost predicate TwoPending(own: History) {
    exists i, j :: 0 <= i < j < |own| && own[i].verdict == WindowFull && own[j].verdict == WindowFull
                   && OnlyRejections(own, i)
  }

  lemma {:induction false} OnePendingMeaning(own: History)
    ensures Streak(own) >= 1 <==> OnePending(own)
  {
    if own != [] {
      var init, last := own[..|own| - 1], own[|own| - 1];
      OnePendingMeaning(init);
      if last.verdict == WindowFull {
        assert OnlyRejections(own, |own| - 1);
      } else if last.verdict == Banned {
        if OnePending(init) {
          var i :| 0 <= i < |init| && init[i].verdict == WindowFull && OnlyRejections(init, i);
          assert own[i] == init[i] && OnlyRejections(own, i);
        }
        if OnePending(own) {
          var i :| 0 <= i < |own| && own[i].verdict == WindowFull && OnlyRejections(own, i);
          assert own[i] == init[i] && OnlyRejections(init, i);
        }
      }
    }
  }

  /** A rejection at the end keeps what is pending pending. */
  lemma RejectionKeeps(init: History, last: Check, i: int)
    requires last.verdict == WindowFull || last.verdict == Banned
    ensures i <= |init| ==> (OnlyRejections(init + [last], i) <==> OnlyRejections(init, i))
  {
    var own := init + [last];
    if 0 <= i <= |init| && OnlyRejections(own, i) {
      forall k | i <= k < |init| ensures init[k].verdict == WindowFull || init[k].verdict == Banned {
        assert own[k] == init[k];
      }
    }
  }

  lemma SecondPending(init: History, last: Check)
    requires last.verdict == WindowFull
    ensures TwoPending(init + [last]) <==> OnePending(init)
  {
    var own := init + [last];
    if OnePending(init) {
      var i :| 0 <= i < |init| && init[i].verdict == WindowFull && OnlyRejections(init, i);
      RejectionKeeps(init, last, i);
      assert own[i] == init[i] && own[|init|] == last;
    }
    if TwoPending(own) {
      var i, j :| 0 <= i < j < |own| && own[i].verdict == WindowFull && own[j].verdict == WindowFull
                  && OnlyRejections(own, i);
      RejectionKeeps(init, last, i);
      assert own[i] == init[i];
    }
  }

  lemma StillPending(init: History, last: Check)
    requires last.verdict == Banned
    ensures TwoPending(init + [last]) <==> TwoPending(init)
  {
    var own := init + [last];
    if TwoPending(init) {
      var i, j :| 0 <= i < j < |init| && init[i].verdict == WindowFull && init[j].verdict == WindowFull
                  && OnlyRejections(init, i);
      RejectionKeeps(init, last, i);
      assert own[i] == init[i] && own[j] == init[j];
    }
    if TwoPending(own) {
      var i, j :| 0 <= i < j < |own| && own[i].verdict == WindowFull && own[j].verdict == WindowFull
                  && OnlyRejections(own, i);
      RejectionKeeps(init, last, i);
      assert own[i] == init[i] && own[j] == init[j];
    }
  }

  lemma NonePending(init: History, last: Check)
    requires last.verdict == Accept || last.verdict == BanStart
    ensures !TwoPending(init + [last])
  {
    assert (init + [last])[|init|] == last;
  }

  lemma {:induction false} TwoPendingMeaning(own: History)
    ensures Streak(own) >= 2 <==> TwoPending(own)
  {
    if own != [] {
      var init, last := own[..|own| - 1], own[|own| - 1];
      assert own == init + [last];
      match last.verdict
      case Accept => NonePending(init, last);
      case BanStart => NonePending(init, last);
      case WindowFull =>
        OnePendingMeaning(init);
        SecondPending(init, last);
      case Banned =>
        TwoPendingMeaning(init);
        StillPending(init, last);
    }
  }

  lemma {:induction false} BannedMeaning(own: History, now: real)
    requires LawfulAlone(own) && now >= 0.0
    ensures now < BannedUntil(own) <==>
            exists i :: 0 <= i < |own| && own[i].verdict == BanStart && now < own[i].at + BAN_SECONDS
  {
    if own != [] {
      var init, last := own[..|own| - 1], own[|own| - 1];
      BannedMeaning(init, now);
      AloneBounded(own);
      assert forall i :: 0 <= i < |init| ==> own[i] == init[i];
      if last.verdict == BanStart {
        assert own[|init|] == last;
      }
    }
  }

  /** The positions of accepted checks in a closed interval. */
  ghost function OwnWithin(own: History, lo: real, hi: real): set<nat> {
    set i: nat | i < |own| && own[i].verdict == Accept && lo <= own[i].at <= hi
  }

  lemma OwnSnoc(init: History, last: Check, lo: real, hi: real)
    ensures |OwnWithin(init + [last], lo, hi)|
            == |OwnWithin(init, lo, hi)| + if last.verdict == Accept && lo <= last.at <= hi then 1 else 0
  {
    var before, after := OwnWithin(init, lo, hi), OwnWithin(init + [last], lo, hi);
    if last.verdict == Accept && lo <= last.at <= hi {
      assert after == before + {|init|};
    } else {
      assert after == before;
    }
  }

  lemma CountSnoc(init: History, last: Check, lo: real, hi: real)
    ensures CountIn(Accepts(init + [last]), lo, hi)
            == CountIn(Accepts(init), lo, hi) + if last.verdict == Accept && lo <= last.at <= hi then 1 else 0
  {
    Snoc(init, last);
    var ts := Accepts(init) + [last.at];
    assert ts[..|ts| - 1] == Accepts(init);
  }

  lemma {:induction false} OwnCount(own: History, lo: real, hi: real)
    ensures CountIn(Accepts(own), lo, hi) == |OwnWithin(own, lo, hi)|
  {
    if own == [] {
      assert OwnWithin(own, lo, hi) == {};
    } else {
      var init, last := own[..|own| - 1], own[|own| - 1];
      OwnCount(init, lo, hi);
      CountSnoc(init, last, lo, hi);
      OwnSnoc(init, last, lo, hi);
      assert own == init + [last];
    }
  }

  /** The positions of accepts among the first n checks with clock readings in [lo, hi]. */
  ghost function AcceptsBefore(own: History, n: nat, lo: real, hi: real): set<nat>
    requires n <= |own|
  {
    set i: nat | i < n && own[i].verdict == Accept && lo <= own[i].at <= hi
  }

  /** Among the first n checks one started a ban that lasts, at so many seconds, beyond now. */
  ghost predicate BanRuns(own: History, n: nat, now: real, seconds: real)
    requires n <= |own|
  {
    exists i :: 0 <= i < n && own[i].verdict == BanStart && now < own[i].at + seconds
  }

  lemma BeforeIsPrefix(own: History, n: nat, lo: real, hi: real, now: real, seconds: real)
    requires n <= |own|
    ensures OwnWithin(own[..n], lo, hi) == AcceptsBefore(own, n, lo, hi)
    ensures BanRuns(own[..n], n, now, seconds) <==> BanRuns(own, n, now, seconds)
  {
    assert forall i :: 0 <= i < n ==> own[..n][i] == own[i];
  }

  /** The answer to a check, in terms of counts and positions. */
  lemma OwedMeans(past: History, now: real)
    requires LawfulAlone(past) && now >= 0.0
    ensures var banned := BanRuns(past, |past|, now, BAN_SECONDS);
            var room := |OwnWithin(past, now - WINDOW_SECONDS, now)| < MAX_MESSAGES_PER_WINDOW;
            Owed(past, now) ==
            if banned then Banned else if room then Accept else if TwoPending(past) then BanStart else WindowFull
  {
    TwoPendingMeaning(past);
    BannedMeaning(past, now);
    OwnCount(past, now - WINDOW_SECONDS, now);
  }

  lemma AnswerIs(own: History, n: nat)
    requires LawfulAlone(own) && n < |own|
    ensures var now := own[n].at;
            own[n].verdict ==
            if BanRuns(own, n, now, BAN_SECONDS) then Banned
            else if |AcceptsBefore(own, n, now - WINDOW_SECONDS, now)| < MAX_MESSAGES_PER_WINDOW then Accept
            else if TwoPending(own[..n]) then BanStart
            else WindowFull
  {
    var now := own[n].at;
    OwedAt(own, n);
    OwedMeans(own[..n], now);
    BeforeIsPrefix(own, n, now - WINDOW_SECONDS, now, now, BAN_SECONDS);
  }

  /** Every answer of a lawful history, in terms of positions in it: a check is answered "banned" iff
      a ban started less than sixty seconds ago, and otherwise accepted iff fewer than ten accepts
      lie in [now - 10, now]; a window-full check starts a ban iff two earlier window-full
      rejections are pending since the last accept or ban start. */
  lemma AnswerLaw(own: History, n: nat)
    requires LawfulAlone(own) && n < |own|
    ensures var now := own[n].at;
            var banned := BanRuns(own, n, now, 60.0);
            var room := |AcceptsBefore(own, n, now - 10.0, now)| < 10;
            && (own[n].verdict == Banned <==> banned)
            && (own[n].verdict == Accept <==> !banned && room)
            && (own[n].verdict == BanStart <==> !banned && !room && TwoPending(own[..n]))
            && (own[n].verdict == WindowFull <==> !banned && !room && !TwoPending(own[..n]))
  {
    AnswerIs(own, n);
  }

  /** The third window-full check in a row never goes by as a plain rejection. */
  lemma {:induction false} StreakAtMostTwo(own: History)
    requires LawfulAlone(own)
    ensures Streak(own) <= 2
  {
    if own != [] {
      StreakAtMostTwo(own[..|own| - 1]);
    }
  }
}
