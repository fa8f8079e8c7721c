/** Big-endian integers and fixed-width byte fields, as Python's struct module lays them out. */
module ByteCodec {

  type byte = x: int | 0 <= x < 256

  type Bytes = seq<byte>

  predicate FitsU8(n: int) { 0 <= n < 0x100 }

  predicate FitsU16(n: int) { 0 <= n < 0x1_0000 }

  predicate FitsU32(n: int) { 0 <= n < 0x1_0000_0000 }

  function U16(n: int): (b: Bytes)
    requires FitsU16(n)
    ensures |b| == 2
  {
    [n / 0x100, n % 0x100]
  }

  function ReadU16(b: Bytes): (n: int)
    requires |b| == 2
    ensures FitsU16(n)
  {
    b[0] as int * 0x100 + b[1]
  }

  function U32(n: int): (b: Bytes)
    requires FitsU32(n)
    ensures |b| == 4
  {
    U16(n / 0x1_0000) + U16(n % 0x1_0000)
  }

  function ReadU32(b: Bytes): (n: int)
    requires |b| == 4
    ensures FitsU32(n)
  {
    ReadU16(b[..2]) * 0x1_0000 + ReadU16(b[2..])
  }

  /** What four bytes say, the first weighing most. */
  lemma ReadU32Weights(b: Bytes)
    requires |b| == 4
    ensures ReadU32(b) == 16_777_216 * b[0] as int + 65_536 * b[1] as int + 256 * b[2] as int + b[3] as int
  {
  }

  lemma U16RoundTrip(n: int)
    requires FitsU16(n)
    ensures ReadU16(U16(n)) == n
  {
  }

  lemma U32RoundTrip(n: int)
    requires FitsU32(n)
    ensures ReadU32(U32(n)) == n
  {
    U16RoundTrip(n / 0x1_0000);
    U16RoundTrip(n % 0x1_0000);
    assert U32(n)[..2] == U16(n / 0x1_0000);
    assert U32(n)[2..] == U16(n % 0x1_0000);
  }

  lemma ReadU16RoundTrip(b: Bytes)
    requires |b| == 2
    ensures U16(ReadU16(b)) == b
  {
    assert ReadU16(b) / 0x100 == b[0];
  }

  lemma ReadU32RoundTrip(b: Bytes)
    requires |b| == 4
    ensures U32(ReadU32(b)) == b
  {
    ReadU16RoundTrip(b[..2]);
    ReadU16RoundTrip(b[2..]);
    assert ReadU32(b) / 0x1_0000 == ReadU16(b[..2]);
    assert b == b[..2] + b[2..];
  }

  /** A struct field "ns": longer values are cut, shorter ones padded with zero bytes. */
  function Field(b: Bytes, n: nat): (f: Bytes)
    ensures |f| == n
    ensures |b| == n ==> f == b
  {
    if |b| >= n then b[..n] else b + seq(n - |b|, _ => 0)
  }

  /** Shorter values keep their bytes in front and end in zeros, longer ones lose their end. */
  lemma FieldMeans(b: Bytes, n: nat, k: nat)
    requires k < n
    ensures Field(b, n)[k] == if k < |b| then b[k] else 0
  {
  }

  // ----- big-endian -----

  /** The first byte in which two byte strings differ is the smaller one in a. */
  predicate Before(a: Bytes, b: Bytes)
    requires |a| == |b|
  {
    a != [] && (a[0] < b[0] || (a[0] == b[0] && Before(a[1..], b[1..])))
  }

  /** Numbers are ordered as their bytes are, the first byte deciding first; and small ones sit in
      the last byte. */
  lemma U16Order(m: int, n: int)
    requires FitsU16(m) && FitsU16(n)
    ensures m < n <==> Before(U16(m), U16(n))
    ensures n < 256 ==> U16(n) == [0, n]
  {
    var a, b := U16(m), U16(n);
    assert a[1..][0] == a[1] && b[1..][0] == b[1];
    assert !Before(a[1..][1..], b[1..][1..]);
    assert m / 0x100 < n / 0x100 ==> m < n;
    assert m / 0x100 == n / 0x100 ==> (m < n <==> m % 0x100 < n % 0x100);
  }

  lemma {:induction false} BeforeJoin(a: Bytes, b: Bytes, c: Bytes, d: Bytes)
    requires |a| == |b| && |c| == |d|
    ensures Before(a + c, b + d) <==> Before(a, b) || (a == b && Before(c, d))
  {
    if a == [] {
      assert a + c == c && b + d == d;
    } else {
      assert (a + c)[1..] == a[1..] + c && (b + d)[1..] == b[1..] + d;
      BeforeJoin(a[1..], b[1..], c, d);
      assert a == [a[0]] + a[1..] && b == [b[0]] + b[1..];
    }
  }

  lemma U32Order(m: int, n: int)
    requires FitsU32(m) && FitsU32(n)
    ensures m < n <==> Before(U32(m), U32(n))
    ensures n < 256 ==> U32(n) == [0, 0, 0, n]
  {
    U16Order(m / 0x1_0000, n / 0x1_0000);
    U16Order(m % 0x1_0000, n % 0x1_0000);
    U16RoundTrip(m / 0x1_0000);
    U16RoundTrip(n / 0x1_0000);
    BeforeJoin(U16(m / 0x1_0000), U16(n / 0x1_0000), U16(m % 0x1_0000), U16(n % 0x1_0000));
    assert m / 0x1_0000 < n / 0x1_0000 ==> m < n;
    assert m / 0x1_0000 == n / 0x1_0000 ==> (m < n <==> m % 0x1_0000 < n % 0x1_0000);
  }
}
