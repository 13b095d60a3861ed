/** Counters as bytes, most significant first. */
module BigEndians {
  import opened Wrappers
  import opened Modular

  function Pow256(k: nat): nat
    ensures Pow256(k) > 0
  {
    if k == 0 then 1 else 256 * Pow256(k - 1)
  }

  /** A number in n bytes, most significant first, cut to what they hold. */
  function BigEndian(v: nat, n: nat): (r: Bytes)
    ensures |r| == n
  {
    if n == 0 then [] else BigEndian(v / 256, n - 1) + [(v % 256) as bv8]
  }

  /** A counter as eight bytes. */
  function Be64(counter: nat): (r: Bytes)
    ensures |r| == 8
  {
    BigEndian(counter, 8)
  }

  /** The number that bytes stand for, most significant first. */
  function Value(b: Bytes): nat {
    if b == [] then 0 else 256 * Value(b[..|b| - 1]) + b[|b| - 1] as nat
  }

  lemma {:induction false} BigEndianValue(v: nat, n: nat)
    ensures Value(BigEndian(v, n)) == v % Pow256(n)
  {
    if n > 0 {
      BigEndianValue(v / 256, n - 1);
      ValueSnoc(BigEndian(v / 256, n - 1), v % 256);
      DigitStep(v, Pow256(n - 1));
    }
  }

  lemma ByteSuccessor(b: bv8)
    requires b != 255
    ensures (b + 1) as int == b as int + 1
  {
  }

  lemma ByteBack(b: bv8)
    ensures (b as int) as bv8 == b
  {
  }

  /** Every number below 256 is the value of a byte. */
  lemma {:induction false} ByteAt(d: nat) returns (b: bv8)
    requires d < 256
    ensures b as int == d
  {
    if d == 0 {
      b := 0;
    } else {
      var c := ByteAt(d - 1);
      ByteSuccessor(c);
      b := c + 1;
    }
  }

  lemma ByteValue(d: nat)
    requires d < 256
    ensures (d as bv8) as nat == d
  {
    var b := ByteAt(d);
    ByteBack(b);
  }

  lemma ValueSnoc(b: Bytes, d: nat)
    requires d < 256
    ensures Value(b + [d as bv8]) == 256 * Value(b) + d
  {
    ByteValue(d);
    assert (b + [d as bv8])[..|b|] == b;
  }

  lemma DigitStep(v: nat, p: nat)
    requires p > 0
    ensures 256 * ((v / 256) % p) + v % 256 == v % (256 * p)
  {
    var k, m, d := v / 256 / p, (v / 256) % p, v % 256;
    assert v / 256 == k * p + m;
    assert v == (256 * m + d) + k * (256 * p);
    AddMultiple(256 * m + d, k, 256 * p);
    SmallMod(256 * m + d, 256 * p);
  }

  /**
   The eight bytes of a counter hold it, most significant first, so different
   64-bit counters have different bytes.
   */
  lemma Be64Exact(c: nat, d: nat)
    requires c < 0x1_0000_0000_0000_0000 && d < 0x1_0000_0000_0000_0000
    ensures Value(Be64(c)) == c && (Be64(c) == Be64(d) <==> c == d)
  {
    BigEndianValue(c, 8);
    BigEndianValue(d, 8);
    assert Pow256(8) == 0x1_0000_0000_0000_0000 by {
      assert Pow256(2) == 0x1_0000 && Pow256(4) == 0x1_0000_0000 && Pow256(6) == 0x1_0000_0000_0000;
    }
    SmallMod(c, Pow256(8));
    SmallMod(d, Pow256(8));
  }
}
