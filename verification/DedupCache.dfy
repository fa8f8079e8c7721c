/** Deduplication as it is implemented: a Bloom filter for membership, an ordered LRU for what is
    live, and a lazy rebuild of the one from the other. */
module Deduplication {
  import opened ByteCodec
  import opened DedupHistory
  import opened Verdicts
  import opened Wrappers

  /** The Bloom filter library: it certainly answers for its members, and may answer for more.
      Adding beyond the declared capacity is an error there, a precondition here. */
  datatype BloomFilter = BloomFilter(members: set<Bytes>, capacity: nat) {

    predicate Contains(id: Bytes, falseHit: bool) {
      id in members || falseHit
    }

    function Add(id: Bytes): BloomFilter
      requires |members| < capacity
    {
      BloomFilter(members + {id}, capacity)
    }
  }

  function NewBloom(): BloomFilter {
    BloomFilter({}, CAPACITY + 2 * REBUILD_EVICTION_THRESHOLD)
  }

  /** What filter and LRU hold, in terms of what passed. */
  ghost predicate Stores(lru: seq<Seen>, bloom: BloomFilter, evictions: nat, log: Log) {
    && InBounds(log)
    && lru == log.passed[log.live..]
    && bloom.members == Ids(log.passed[log.base..])
    && bloom.capacity == NewBloom().capacity
    && evictions == log.live - log.base
  }

  /** Filter and LRU agree at rest: the filter holds the live ids and those evicted since the
      last rebuild, so at most 10,999 of its 12,000. */
  lemma FilterAgreesWithLru(lru: seq<Seen>, bloom: BloomFilter, evictions: nat, log: Log)
    requires Stores(lru, bloom, evictions, log) && Consistent(log)
    ensures bloom.members == Ids(lru) + Ids(log.passed[log.base..log.live])
    ensures |bloom.members| == |lru| + evictions
    ensures |lru| <= 10_000 && evictions < 1_000
    ensures |bloom.members| < bloom.capacity == 12_000
  {
    var held := log.passed[log.base..];
    DistinctCount(held);
    assert held == log.passed[log.base..log.live] + lru;
    IdsSplit(log.passed[log.base..log.live], lru);
  }

  /** Adding one id to both keeps them storing the extended sequence. */
  lemma StoresOneMore(lru: seq<Seen>, bloom: BloomFilter, evictions: nat, log: Log, s: Seen)
    requires Stores(lru, bloom, evictions, log) && |bloom.members| < bloom.capacity
    ensures Stores(lru + [s], bloom.Add(s.id), evictions, log.(passed := log.passed + [s]))
  {
    IdsSnoc(log.passed[log.base..], s);
    var passed := log.passed + [s];
    assert passed[log.base..] == log.passed[log.base..] + [s];
    assert passed[log.live..] == lru + [s];
  }

  lemma StillDistinct(log: Log, s: Seen)
    requires Consistent(log) && !Remembered(log, s.id)
    ensures DistinctFrom(log.passed + [s], log.base)
  {
  }

  class DedupCache {
    var lru: seq<Seen>
    var bloom: BloomFilter
    var evictionsSinceRebuild: nat
    ghost var log: Log

    ghost predicate Valid()
      reads this
    {
      Consistent(log) && Stores(lru, bloom, evictionsSinceRebuild, log)
    }

    constructor ()
      ensures Valid() && log == EMPTY_LOG
    {
      lru := [];
      bloom := NewBloom();
      evictionsSinceRebuild := 0;
      log := EMPTY_LOG;
    }

    /** A fresh filter holding exactly the live ids. */
    method Rebuild()
      requires Stores(lru, bloom, evictionsSinceRebuild, log)
      requires |lru| <= CAPACITY + 1
      modifies this`bloom, this`evictionsSinceRebuild, this`log
      ensures Stores(lru, bloom, evictionsSinceRebuild, log)
      ensures log == old(log).(base := old(log).live)
    {
      bloom := NewBloom();
      assert lru[..0] == [];
      for i := 0 to |lru|
        invariant bloom.members == Ids(lru[..i]) && |bloom.members| <= i
        invariant bloom.capacity == NewBloom().capacity
        invariant log == old(log)
      {
        IdsSnoc(lru[..i], lru[i]);
        assert lru[..i] + [lru[i]] == lru[..i + 1];
        bloom := bloom.Add(lru[i].id);
      }
      assert lru[..|lru|] == lru;
      evictionsSinceRebuild := 0;
      log := log.(base := log.live);
    }

    /** Drops the out-of-date front of the LRU, and rebuilds the filter once enough was dropped. */
    method Evict(now: real)
      requires Stores(lru, bloom, evictionsSinceRebuild, log)
      requires |lru| <= CAPACITY + 1 && DistinctFrom(log.passed, log.base)
      modifies this
      ensures Stores(lru, bloom, evictionsSinceRebuild, log)
      ensures log.passed == old(log.passed)
      ensures log.live == FirstCurrent(log.passed, old(log.live), now)
      ensures log.base == if log.live - old(log.base) >= REBUILD_EVICTION_THRESHOLD then log.live else old(log.base)
    {
      while lru != []
        invariant log.passed == old(log.passed) && log.base == old(log.base)
        invariant old(log.live) <= log.live
        invariant Stores(lru, bloom, evictionsSinceRebuild, log)
        invariant FirstCurrent(log.passed, log.live, now) == FirstCurrent(log.passed, old(log.live), now)
        invariant |lru| <= CAPACITY + 1
        decreases |lru|
      {
        var oldest := lru[0];
        if |lru| > CAPACITY || now - oldest.at > TTL_SECONDS {
          lru := lru[1..];
          evictionsSinceRebuild := evictionsSinceRebuild + 1;
          log := log.(live := log.live + 1);
        } else {
          break;
        }
      }
      if evictionsSinceRebuild >= REBUILD_EVICTION_THRESHOLD {
        Rebuild();
      }
    }

    /** Answers "duplicate" exactly for remembered ids and false hits; anything else passes. */
    method Check(id: Bytes, now: real, falseHit: bool) returns (drop: Option<DropReason>)
      requires Valid() && Follows(log, now)
      modifies this
      ensures Valid()
      ensures drop == if Remembered(old(log), id) || falseHit then Some(Duplicate) else None
      ensures log == if drop.Some? then old(log) else Admit(old(log), id, now)
      ensures drop.Some? ==>
                lru == old(lru) && bloom == old(bloom) && evictionsSinceRebuild == old(evictionsSinceRebuild)
    {
      IdsFrom(log.passed, log.base, id);
      if bloom.Contains(id, falseHit) {
        return Some(Duplicate);
      }
      FilterAgreesWithLru(lru, bloom, evictionsSinceRebuild, log);
      AdmitConsistent(log, id, now);
      StoresOneMore(lru, bloom, evictionsSinceRebuild, log, Seen(id, now));
      StillDistinct(log, Seen(id, now));
      bloom := bloom.Add(id);
      lru := lru + [Seen(id, now)];
      log := log.(passed := log.passed + [Seen(id, now)]);
      Evict(now);
      return None;
    }
  }
}
