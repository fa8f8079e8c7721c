/** Spray-and-Wait: the binary copy split and the per-message spray budget. */
module SprayAndWait {
  import opened ByteCodec
  import opened Verdicts
  import opened Wrappers

  datatype SprayCopies = SprayCopies(forward: int, keep: int)

  function SplitCopies(sprayL: int): (c: SprayCopies)
    ensures sprayL > 0 ==> c.forward + c.keep == sprayL && c.forward <= c.keep <= c.forward + 1
    ensures sprayL <= 0 ==> c == SprayCopies(0, 0)
  {
    if sprayL <= 0 then SprayCopies(0, 0)
    else var forward := sprayL / 2; SprayCopies(forward, sprayL - forward)
  }

  predicate IsWaitPhase(sprayL: int) {
    sprayL <= 1
  }

  /** Waiting means exactly that the split leaves nothing for a peer. */
  lemma WaitPhaseForwardsNothing(sprayL: int)
    ensures IsWaitPhase(sprayL) <==> SplitCopies(sprayL).forward == 0
  {
  }

  /** What is left of a budget after a number of hops, each handing on the peer's share. */
  function Halve(sprayL: nat, hops: nat): (l: nat)
    ensures l <= sprayL
    decreases hops
  {
    if hops == 0 then sprayL else Halve(sprayL, hops - 1) / 2
  }

  function Pow2(n: nat): (p: nat)
    ensures p >= 1
  {
    if n == 0 then 1 else 2 * Pow2(n - 1)
  }

  lemma ScaleMonotone(d: int, x: int, y: int)
    requires d > 0 && x <= y
    ensures d * x <= d * y
  {
  }

  lemma QuotientUnique(a: int, d: int, q: int, r: int)
    requires d > 0 && 0 <= r < d && a == d * q + r
    ensures a / d == q
  {
    var q', r' := a / d, a % d;
    if q >= q' + 1 {
      ScaleMonotone(d, q' + 1, q);
    } else if q' >= q + 1 {
      ScaleMonotone(d, q + 1, q');
    }
  }

  lemma DivideTwice(a: nat, p: nat)
    requires p >= 1
    ensures a / p / 2 == a / (2 * p)
  {
    var q, r := a / p, a % p;
    assert a == p * q + r;
    var h, b := q / 2, q % 2;
    assert p * q == p * (2 * h) + p * b;
    var rest := p * b + r;
    assert 0 <= rest < 2 * p by {
      assert b == 0 || b == 1;
    }
    assert a == (2 * p) * h + rest by {
      assert p * (2 * h) == (2 * p) * h;
    }
    QuotientUnique(a, 2 * p, h, rest);
  }

  lemma {:induction false} HalveIsDivision(sprayL: nat, hops: nat)
    ensures Halve(sprayL, hops) == sprayL / Pow2(hops)
  {
    if hops > 0 {
      HalveIsDivision(sprayL, hops - 1);
      DivideTwice(sprayL, Pow2(hops - 1));
    }
  }

  /** The largest number of halvings a budget of at least one survives. */
  function Log2Floor(l: nat): (k: nat)
    requires l >= 1
    ensures Pow2(k) <= l < Pow2(k + 1)
  {
    if l == 1 then 0 else 1 + Log2Floor(l / 2)
  }

  lemma {:induction false} Pow2Monotone(a: nat, b: nat)
    requires a <= b
    ensures Pow2(a) <= Pow2(b)
    decreases b
  {
    if a < b {
      Pow2Monotone(a, b - 1);
    }
  }

  lemma {:induction false} HalveFirst(sprayL: nat, hops: nat)
    ensures Halve(sprayL, hops + 1) == Halve(sprayL / 2, hops)
  {
    if hops > 0 {
      HalveFirst(sprayL, hops - 1);
    }
  }

  lemma {:induction false} HalveMonotone(sprayL: nat, a: nat, b: nat)
    requires a <= b
    ensures Halve(sprayL, b) <= Halve(sprayL, a)
    decreases b
  {
    if a < b {
      HalveMonotone(sprayL, a, b - 1);
    }
  }

  /** A copy survives exactly floor(log2 L) hops. */
  lemma {:induction false} SurvivesUpToLog(sprayL: nat, hops: nat)
    requires sprayL >= 1
    ensures Halve(sprayL, hops) >= 1 <==> hops <= Log2Floor(sprayL)
  {
    if hops > 0 {
      HalveFirst(sprayL, hops - 1);
      if sprayL == 1 {
        HalveMonotone(0, 0, hops - 1);
      } else {
        SurvivesUpToLog(sprayL / 2, hops - 1);
      }
    }
  }

  /** One-byte budgets survive at most seven hops. */
  lemma ByteBudgetHops(sprayL: byte, hops: nat)
    requires Halve(sprayL, hops) >= 1
    ensures hops <= 7
  {
    HalveMonotone(sprayL, 0, hops);
    SurvivesUpToLog(sprayL, hops);
    Pow2Monotone(hops, Log2Floor(sprayL));
    assert Pow2(8) == 256;
    if hops >= 8 {
      Pow2Monotone(8, hops);
    }
  }

  /** The first spray_L seen for each message id, and what a later sighting may carry. */
  type Budgets = map<Bytes, byte>

  function BudgetStep(budgets: Budgets, msgId: Bytes, observed: byte): (Budgets, bool) {
    if msgId !in budgets then (budgets[msgId := observed], true)
    else (budgets, observed <= budgets[msgId])
  }

  class SprayBudgetTracker {
    var expected: Budgets

    constructor ()
      ensures expected == map[]
    {
      expected := map[];
    }

    method Check(msgId: Bytes, observed: byte) returns (drop: Option<DropReason>)
      modifies this
      ensures msgId !in old(expected) ==> drop == None && expected == old(expected)[msgId := observed]
      ensures msgId in old(expected) ==>
                expected == old(expected) && (drop == None <==> observed <= expected[msgId])
      ensures drop.Some? ==> drop.value == SprayInflated
    {
      if msgId !in expected {
        expected := expected[msgId := observed];
        return None;
      }
      if observed > expected[msgId] {
        return Some(SprayInflated);
      }
      return None;
    }
  }
}
