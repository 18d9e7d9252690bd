/** Numbers out of ASN.1 BIT STRINGs: the octets hold the bits from the most significant one on, the
    last octet ends with unused bits. */
module BitString {
  import opened Common
  import opened Octets
  import opened Bits

  datatype BitString = BitString(buf: seq<Octet>, unused: nat)

  /** The number whose octets are s, most significant first. */
  function BigEndian(s: seq<Octet>): (n: nat) {
    if s == [] then 0 else 256 * BigEndian(s[..|s| - 1]) + s[|s| - 1]
  }

  /** What the bits of the string mean as a number. */
  function Value(a: BitString): (n: nat) {
    Quotient(BigEndian(a.buf), Pow2(a.unused))
  }

  function Quotient(n: nat, d: nat): (q: nat)
    requires d > 0
    ensures q == n / d
  {
    n / d
  }

  lemma {:induction false} Pow2Adds(m: nat, n: nat)
    ensures Pow2(m + n) == Pow2(m) * Pow2(n)
  {
    if m > 0 {
      Pow2Adds(m - 1, n);
      Doubled(Pow2(m - 1), Pow2(n));
    }
  }

  lemma Doubled(x: nat, y: nat)
    ensures 2 * (x * y) == (2 * x) * y
  {
  }

  lemma Pow2Eight()
    ensures Pow2(8) == 256
  {
    assert Pow2(4) == 16;
  }

  lemma {:induction false} BigEndianFits(s: seq<Octet>)
    ensures BigEndian(s) < Pow2(8 * |s|)
  {
    if s != [] {
      var n := |s| - 1;
      BigEndianFits(s[..n]);
      Pow2Eight();
      Pow2Adds(8, 8 * n);
      assert 256 * (Pow2(8 * n) - 1) + 255 < 256 * Pow2(8 * n);
      MulMonotone(256, BigEndian(s[..n]), Pow2(8 * n) - 1);
    }
  }

  /** Oring one more octet in, below everything that is there already. */
  lemma OrOctet(high: nat, o: Octet, shift: nat)
    ensures Or(Shl(high, shift + 8), Shl(o, shift)) == Shl(256 * high + o, shift)
  {
    hide Pow2, Or;
    Pow2Eight();
    Pow2Adds(8, shift);
    OctetFits(o, Pow2(shift));
    OrAdds(high, o * Pow2(shift), shift + 8);
    Distributes(high, o, Pow2(shift));
  }

  lemma OctetFits(o: Octet, p: nat)
    requires p > 0
    ensures 0 <= o * p < 256 * p
  {
  }

  lemma Distributes(high: nat, o: Octet, p: nat)
    ensures high * (256 * p) + o * p == (256 * high + o) * p
  {
  }

  /** The last octet loses its unused bits. */
  lemma OrLast(high: nat, o: Octet, unused: nat)
    requires unused <= 7
    ensures Or(Shl(high, 8 - unused), Shr(o, unused)) == Quotient(256 * high + o, Pow2(unused))
  {
    var p, q := Pow2(unused), Pow2(8 - unused);
    Pow2Eight();
    Pow2Adds(unused, 8 - unused);
    ShrDivides(o, unused);
    SplitLast(high, o, p, q);
    OrAdds(high, Shr(o, unused), 8 - unused);
  }

  lemma SplitLast(high: nat, o: Octet, p: nat, q: nat)
    requires p > 0 && p * q == 256
    ensures o / p < q && Quotient(256 * high + o, p) == high * q + o / p
  {
    var d, r := o / p, o % p;
    assert o == p * d + r && r < p;
    SmallQuotient(d, p, q, r, o);
    assert 256 * high + o == p * (high * q + d) + r by {
      assert p * (high * q + d) == p * (high * q) + p * d;
      assert p * (high * q) == (p * q) * high;
    }
    DivModUnique(256 * high + o, p, high * q + d, r);
  }

  lemma SmallQuotient(d: int, p: nat, q: nat, r: nat, o: Octet)
    requires p > 0 && p * q == 256 && o == p * d + r && d >= 0
    ensures d < q
  {
    if d >= q {
      MulMonotone(p, q, d);
    }
  }

  /** `BIT_STRING_to_uint8`; None when the size check ends the process. */
  method ToUint8(a: BitString) returns (r: Option<nat>)
    requires a.unused <= 7
    ensures r == (if |a.buf| == 1 then Some(Value(a)) else None)
    ensures r.Some? ==> r.value < 0x100
  {
    if |a.buf| != 1 {
      return None;
    }
    r := Some(Shr(a.buf[0], a.unused));
    ShrDivides(a.buf[0], a.unused);
    assert BigEndian(a.buf[..0]) == 0;
    ValueFits(a);
  }

  lemma ValueFits(a: BitString)
    requires 1 <= |a.buf| <= 4
    ensures Value(a) < 0x1_0000_0000
    ensures |a.buf| <= 2 ==> Value(a) < 0x1_0000
    ensures |a.buf| <= 1 ==> Value(a) < 0x100
  {
    BigEndianFits(a.buf);
    assert Pow2(4) == 16 && Pow2(8) == 256 && Pow2(12) == 0x1000 && Pow2(16) == 0x1_0000;
    assert Pow2(20) == 0x10_0000 && Pow2(24) == 0x100_0000 && Pow2(28) == 0x1000_0000 && Pow2(32) == 0x1_0000_0000;
    DivideShrinks(BigEndian(a.buf), Pow2(a.unused));
  }

  lemma DivideShrinks(n: nat, d: nat)
    requires d > 0
    ensures n / d <= n
  {
    var q, r := n / d, n % d;
    assert n == d * q + r;
    MulMonotone(q, 1, d);
    assert q * d == d * q;
  }

  /** `BIT_STRING_to_uint16`: with two octets both cases of the switch run. */
  method ToUint16(a: BitString) returns (r: Option<nat>)
    requires a.unused <= 7
    ensures r == (if 1 <= |a.buf| <= 2 then Some(Value(a)) else None)
    ensures r.Some? ==> r.value < 0x1_0000
  {
    if !(0 < |a.buf| <= 2) {
      return None;
    }
    var result, index := 0, 0;
    assert BigEndian([]) == 0 && a.buf[..0] == [];
    if |a.buf| == 2 {
      result := Or(result, Shl(a.buf[index], 8 - a.unused));
      OrZero(Shl(a.buf[0], 8 - a.unused));
      assert a.buf[..1] == [a.buf[0]] && BigEndian([a.buf[0]]) == a.buf[0];
      index := index + 1;
    }
    OrLast(BigEndian(a.buf[..index]), a.buf[index], a.unused);
    result := Or(result, Shr(a.buf[index], a.unused));
    ValueFits(a);
    return Some(result);
  }

  /** `BIT_STRING_to_uint32`. Every shift to the left is by 1 to 24. */
  method ToUint32(a: BitString) returns (r: Option<nat>)
    requires a.unused <= 7
    ensures r == (if 1 <= |a.buf| <= 4 then Some(Value(a)) else None)
    ensures r.Some? ==> r.value < 0x1_0000_0000
  {
    if !(0 < |a.buf| <= 4) {
      return None;
    }
    var result, size := 0, |a.buf|;
    var shift: int := (size - 1) * 8 - a.unused;
    var index := 0;
    assert BigEndian([]) == 0 && a.buf[..0] == [];
    while index < size - 1
      invariant 0 <= index <= size - 1 && shift == (size - 1 - index) * 8 - a.unused
      invariant result == Shl(BigEndian(a.buf[..index]), shift + 8)
    {
      assert 1 <= shift <= 24;
      OrOctet(BigEndian(a.buf[..index]), a.buf[index], shift);
      result := Or(result, Shl(a.buf[index], shift));
      assert a.buf[..index + 1][..index] == a.buf[..index];
      shift := shift - 8;
      index := index + 1;
    }
    OrLast(BigEndian(a.buf[..index]), a.buf[index], a.unused);
    result := Or(result, Shr(a.buf[index], a.unused));
    ValueFits(a);
    return Some(result);
  }
}
