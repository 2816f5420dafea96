/** The identity of a persistent entity: `equals` and `hashCode` of the JPA
    classes look at the generated id and nothing else. */
module Identity {
  import opened Wrappers

  const IntMin := -0x8000_0000
  const IntMax := 0x7FFF_FFFF

  /** A Java `int` result: the arithmetic value wrapped into 32 bits. */
  function WrapInt(v: int): (r: int)
    ensures IntMin <= r <= IntMax
    ensures IntMin <= v <= IntMax ==> r == v
  {
    var m := v % 0x1_0000_0000;
    if m > IntMax then m - 0x1_0000_0000 else m
  }

  /** Bitwise exclusive or of two non-negative numbers. */
  function Xor(a: nat, b: nat): nat
    decreases a + b
  {
    if a == 0 && b == 0 then 0
    else (if a % 2 == b % 2 then 0 else 1) + 2 * Xor(a / 2, b / 2)
  }

  lemma {:induction false} XorZero(a: nat)
    ensures Xor(a, 0) == a
    decreases a
  {
    if a != 0 {
      XorZero(a / 2);
    }
  }

  /** Long.hashCode: the two 32-bit halves xor-ed, read as an `int`. */
  function LongHashCode(v: int): (h: int)
    requires 0 <= v < 0x8000_0000_0000_0000
    ensures IntMin <= h <= IntMax
  {
    WrapInt(Xor(v % 0x1_0000_0000, v / 0x1_0000_0000))
  }

  /** A value below 2^31 is its own hash. */
  lemma SmallLongHashCode(v: int)
    requires 0 <= v <= IntMax
    ensures LongHashCode(v) == v
  {
    XorZero(v);
  }

  /** `Objects.hash(id)`: 31 * 1 plus the id's hash, 0 for a null id. */
  function ObjectsHash(id: Option<int>): (h: int)
    requires id.Some? ==> 0 <= id.value < 0x8000_0000_0000_0000
    ensures IntMin <= h <= IntMax
    ensures id.None? ==> h == 31
  {
    WrapInt(31 + if id.None? then 0 else LongHashCode(id.value))
  }

  /** Distinct small ids hash apart, so the hash tells small saved entities
      apart. */
  lemma SmallIdsHashApart(a: int, b: int)
    requires 0 <= a <= IntMax - 31 && 0 <= b <= IntMax - 31 && a != b
    ensures ObjectsHash(Some(a)) != ObjectsHash(Some(b))
    ensures ObjectsHash(Some(a)) == 31 + a
  {
    SmallLongHashCode(a);
    SmallLongHashCode(b);
  }
}
