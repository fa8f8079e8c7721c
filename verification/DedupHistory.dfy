/** What deduplication remembers, said about the sequence of messages that ever passed it. */
module DedupHistory {
  import opened ByteCodec
  import opened Sets

  const CAPACITY := 10_000
  const TTL_SECONDS: real := 600.0
  const REBUILD_EVICTION_THRESHOLD := 1_000

  /** A message id that passed, and the clock reading at which it did. */
  datatype Seen = Seen(id: Bytes, at: real)

  /** Everything that ever passed, in order. Entries from `live` on are in the LRU; entries from
      `base` on are in the Bloom filter, which was last rebuilt when `base` was the LRU's start. */
  datatype Log = Log(passed: seq<Seen>, live: nat, base: nat)

  const EMPTY_LOG := Log([], 0, 0)

  /** The clock reading of the latest pass. */
  function Latest(passed: seq<Seen>): real {
    if passed == [] then 0.0 else passed[|passed| - 1].at
  }

  predicate Follows(log: Log, now: real) {
    now >= 0.0 && Latest(log.passed) <= now
  }

  /** The ids the filter certainly answers for. */
  ghost predicate Remembered(log: Log, id: Bytes) {
    exists i :: log.base <= i < |log.passed| && log.passed[i].id == id
  }

  /** An entry is current when it is among the newest 10,000 and at most 600 seconds old. */
  predicate Current(passed: seq<Seen>, i: nat, now: real)
    requires i < |passed|
  {
    |passed| - i <= CAPACITY && now - passed[i].at <= TTL_SECONDS
  }

  /** The first current entry at or after `from`. */
  function FirstCurrent(passed: seq<Seen>, from: nat, now: real): (k: nat)
    requires from <= |passed|
    ensures from <= k <= |passed|
    ensures k < |passed| ==> Current(passed, k, now)
    ensures forall i :: from <= i < k ==> !Current(passed, i, now)
    decreases |passed| - from
  {
    if from < |passed| && !Current(passed, from, now) then FirstCurrent(passed, from + 1, now) else from
  }

  predicate InBounds(log: Log) {
    log.base <= log.live <= |log.passed|
  }

  /** A new id passes at `now`. */
  function Admit(log: Log, id: Bytes, now: real): (next: Log)
    requires InBounds(log)
    ensures InBounds(next)
  {
    var passed := log.passed + [Seen(id, now)];
    var live := FirstCurrent(passed, log.live, now);
    Log(passed, live, if live - log.base >= REBUILD_EVICTION_THRESHOLD then live else log.base)
  }

  ghost predicate Ordered(passed: seq<Seen>) {
    forall i, j :: 0 <= i < j < |passed| ==> passed[i].at <= passed[j].at
  }

  ghost predicate DistinctFrom(passed: seq<Seen>, from: nat) {
    forall i, j :: from <= i < j < |passed| ==> passed[i].id != passed[j].id
  }

  /** Entries from `live` on are exactly the current ones. */
  ghost predicate LiveIsCurrent(passed: seq<Seen>, live: nat, now: real) {
    forall i: nat :: i < |passed| ==> (i >= live <==> Current(passed, i, now))
  }

  ghost predicate Overtaken(passed: seq<Seen>, i: nat, now: real)
    requires i < |passed|
  {
    || now - passed[i].at > TTL_SECONDS
    || (i + CAPACITY < |passed| && DistinctFrom(passed[i..i + CAPACITY + 1], 0))
  }

  /** Whatever left the LRU is over 600 seconds old or was pushed out by 10,000 distinct others. */
  ghost predicate OvertakenFairly(passed: seq<Seen>, live: nat, now: real)
    requires live <= |passed|
  {
    forall i: nat :: i < live ==> Overtaken(passed, i, now)
  }

  ghost predicate Consistent(log: Log) {
    && InBounds(log)
    && log.live - log.base < REBUILD_EVICTION_THRESHOLD
    && |log.passed| - log.live <= CAPACITY
    && Ordered(log.passed)
    && LiveIsCurrent(log.passed, log.live, Latest(log.passed))
    && DistinctFrom(log.passed, log.base)
    && OvertakenFairly(log.passed, log.live, Latest(log.passed))
  }

  lemma AdmitKeepsCurrent(log: Log, id: Bytes, now: real)
    requires Consistent(log) && Follows(log, now)
    ensures var next := Admit(log, id, now);
            && next.live <= |log.passed| && LiveIsCurrent(next.passed, next.live, now)
            && forall i: nat :: i < |next.passed| ==>
                 (i >= next.live <==> |next.passed| - i <= 10_000 && now - next.passed[i].at <= 600.0)
  {
    var next := Admit(log, id, now);
    var n := |log.passed|;
    assert next.passed[n] == Seen(id, now) && Current(next.passed, n, now);
    assert next.live <= n;
    forall i: nat | i <= n ensures i >= next.live <==> Current(next.passed, i, now) {
      if i < log.live {
        assert !Current(log.passed, i, Latest(log.passed));
      } else if i > next.live {
        assert Current(next.passed, next.live, now);
      }
    }
    forall i: nat | i < |next.passed|
      ensures i >= next.live <==> |next.passed| - i <= 10_000 && now - next.passed[i].at <= 600.0
    {
      assert i >= next.live <==> Current(next.passed, i, now);
    }
  }

  lemma AdmitKeepsFair(log: Log, id: Bytes, now: real)
    requires Consistent(log) && Follows(log, now) && !Remembered(log, id)
    ensures var next := Admit(log, id, now);
            DistinctFrom(next.passed, log.base) && OvertakenFairly(next.passed, next.live, now)
  {
    var next := Admit(log, id, now);
    assert DistinctFrom(next.passed, log.base);
    forall i: nat | i < next.live ensures Overtaken(next.passed, i, now) {
      if i < log.live {
        assert Overtaken(log.passed, i, Latest(log.passed));
        if i + CAPACITY < |log.passed| {
          assert next.passed[i..i + CAPACITY + 1] == log.passed[i..i + CAPACITY + 1];
        }
      } else {
        assert !Current(next.passed, i, now);
      }
    }
  }

  /** Every pass of an id the filter does not hold keeps the log consistent. */
  lemma AdmitConsistent(log: Log, id: Bytes, now: real)
    requires Consistent(log) && Follows(log, now) && !Remembered(log, id)
    ensures Consistent(Admit(log, id, now))
  {
    AdmitKeepsCurrent(log, id, now);
    AdmitKeepsFair(log, id, now);
    var next := Admit(log, id, now);
    assert Latest(next.passed) == now;
    assert Ordered(next.passed);
    assert |next.passed| - next.live <= CAPACITY by {
      assert Current(next.passed, next.live, now);
    }
  }

  /** The id has an entry that is current. */
  ghost predicate CurrentId(passed: seq<Seen>, id: Bytes, now: real) {
    exists i: nat :: i < |passed| && passed[i].id == id && Current(passed, i, now)
  }

  /** A remembered id is forgotten by a pass exactly when that pass brings the evictions since the
      last rebuild to 1,000 and the id is by then out of date: leaving the LRU alone does not
      forget, and a rebuild forgets nothing that is current. */
  lemma ForgottenExactlyAtRebuild(log: Log, id: Bytes, now: real, other: Bytes)
    requires Consistent(log) && Follows(log, now) && !Remembered(log, id) && Remembered(log, other)
    ensures var next := Admit(log, id, now);
            !Remembered(next, other) <==>
            && next.live - log.base >= 1_000
            && !exists i: nat :: i < |next.passed| && next.passed[i].id == other
                                 && |next.passed| - i <= 10_000 && now - next.passed[i].at <= 600.0
  {
    AdmitKeepsCurrent(log, id, now);
    var next := Admit(log, id, now);
    var i: nat :| log.base <= i < |log.passed| && log.passed[i].id == other;
    assert next.passed[i].id == other;
    if CurrentId(next.passed, other, now) {
      var k: nat :| k < |next.passed| && next.passed[k].id == other && Current(next.passed, k, now);
      assert k >= next.live >= next.base;
    }
    if Remembered(next, other) && next.base == next.live {
      var k: nat :| next.base <= k < |next.passed| && next.passed[k].id == other;
      assert Current(next.passed, k, now);
    }
  }

  /** An id is not forgotten when it turns 600 seconds old: this one is out of date, has left the
      LRU, and is still answered "duplicate". */
  lemma ExpiredYetRemembered(stale: Bytes, younger: Bytes)
    requires stale != younger
    ensures var log := Admit(Admit(EMPTY_LOG, stale, 0.0), younger, 601.0);
            && Consistent(log) && Remembered(log, stale)
            && log.passed[log.live..] == [Seen(younger, 601.0)]
            && !CurrentId(log.passed, stale, 601.0)
  {
    AdmitConsistent(EMPTY_LOG, stale, 0.0);
    var first := Admit(EMPTY_LOG, stale, 0.0);
    assert first.passed == [Seen(stale, 0.0)] && Current(first.passed, 0, 0.0);
    AdmitConsistent(first, younger, 601.0);
    var log := Admit(first, younger, 601.0);
    assert log.passed == [Seen(stale, 0.0), Seen(younger, 601.0)];
    assert !Current(log.passed, 0, 601.0) && Current(log.passed, 1, 601.0);
    assert log.passed[0].id == stale;
  }

  /** An id that passed once and is no longer remembered was overtaken: more than 600 seconds
      went by up to the latest pass, or 10,000 distinct other ids have passed right after it. */
  lemma ForgottenMeansOvertaken(log: Log, i: nat)
    requires Consistent(log) && i < |log.passed| && !Remembered(log, log.passed[i].id)
    ensures Overtaken(log.passed, i, Latest(log.passed))
    ensures || Latest(log.passed) - log.passed[i].at > 600.0
            || (i + 10_000 < |log.passed| && DistinctFrom(log.passed[i..i + 10_001], 0))
  {
  }

  ghost function Ids(passed: seq<Seen>): set<Bytes> {
    set i | 0 <= i < |passed| :: passed[i].id
  }

  lemma LastIsNew(passed: seq<Seen>)
    requires DistinctFrom(passed, 0) && passed != []
    ensures passed[|passed| - 1].id !in Ids(passed[..|passed| - 1])
  {
  }

  lemma IdsSplit(a: seq<Seen>, b: seq<Seen>)
    ensures Ids(a + b) == Ids(a) + Ids(b)
  {
    var ab := a + b;
    forall x ensures x in Ids(ab) <==> x in Ids(a) + Ids(b) {
      if x in Ids(a) {
        var i :| 0 <= i < |a| && a[i].id == x;
        assert ab[i].id == x;
      }
      if x in Ids(b) {
        var i :| 0 <= i < |b| && b[i].id == x;
        assert ab[|a| + i].id == x;
      }
    }
  }

  lemma IdsSnoc(passed: seq<Seen>, s: Seen)
    ensures Ids(passed + [s]) == Ids(passed) + {s.id}
  {
    IdsSplit(passed, [s]);
    assert [s][0].id in Ids([s]);
    assert Ids([s]) == {s.id};
  }

  lemma {:induction false} DistinctCount(passed: seq<Seen>)
    requires DistinctFrom(passed, 0)
    ensures |Ids(passed)| == |passed|
  {
    if passed != [] {
      var init, last := passed[..|passed| - 1], passed[|passed| - 1];
      DistinctCount(init);
      LastIsNew(passed);
      IdsSnoc(init, last);
      assert passed == init + [last];
    }
  }

  /** The ids of the block that overtook entry a all differ from it and from each other. */
  lemma BlockSize(passed: seq<Seen>, a: nat, others: set<Bytes>)
    requires a + CAPACITY < |passed| && DistinctFrom(passed[a..a + CAPACITY + 1], 0)
    requires forall x :: a < x < |passed| && passed[x].id != passed[a].id ==> passed[x].id in others
    ensures |others| >= CAPACITY
  {
    var block := passed[a..a + CAPACITY + 1];
    var rest := passed[a + 1..a + CAPACITY + 1];
    forall x, y | 0 <= x < y < |rest| ensures rest[x].id != rest[y].id {
      assert block[x + 1] == rest[x] && block[y + 1] == rest[y];
    }
    DistinctCount(rest);
    forall id | id in Ids(rest) ensures id in others {
      var y :| 0 <= y < |rest| && rest[y].id == id;
      assert block[0] == passed[a] && block[y + 1] == passed[a + 1 + y] && rest[y] == passed[a + 1 + y];
    }
    SubsetSize(Ids(rest), others);
  }

  lemma IdsFrom(passed: seq<Seen>, from: nat, id: Bytes)
    requires from <= |passed|
    ensures id in Ids(passed[from..]) <==> exists i :: from <= i < |passed| && passed[i].id == id
  {
    var held := passed[from..];
    if id in Ids(held) {
      var i :| 0 <= i < |held| && held[i].id == id;
      assert passed[from + i].id == id;
    }
    if exists i :: from <= i < |passed| && passed[i].id == id {
      var i :| from <= i < |passed| && passed[i].id == id;
      assert held[i - from].id == id;
    }
  }
}
