/** Octets, exclusive-or, and the fixed-width integer encodings used on the wire. */
module Bytes {
  newtype byte = x: int | 0 <= x < 256

  type Bytes = seq<byte>

  /** Bitwise exclusive-or of two naturals, lowest bit first. */
  function XorNat(a: nat, b: nat): nat
  {
    if a == 0 && b == 0 then 0
    else 2 * XorNat(a / 2, b / 2) + (if a % 2 == b % 2 then 0 else 1)
  }

  lemma {:induction false} XorNatBound(a: nat, b: nat, bound: nat)
    requires a < bound && b < bound
    requires IsPowerOfTwo(bound)
    ensures XorNat(a, b) < bound
    decreases bound
  {
    if bound > 1 {
      XorNatBound(a / 2, b / 2, bound / 2);
    }
  }

  predicate IsPowerOfTwo(n: nat)
  {
    n == 1 || (n > 1 && n % 2 == 0 && IsPowerOfTwo(n / 2))
  }

  lemma {:induction a, b} XorNatInvolution(a: nat, b: nat)
    ensures XorNat(XorNat(a, b), b) == a
  {
  }

  lemma {:induction a, b} XorNatCommutes(a: nat, b: nat)
    ensures XorNat(a, b) == XorNat(b, a)
  {
  }

  lemma Powers()
    ensures IsPowerOfTwo(256)
  {
    assert IsPowerOfTwo(4);
    assert IsPowerOfTwo(16);
    assert IsPowerOfTwo(64);
  }

  /** `a ^ b` on `u8`. */
  function Xor(a: byte, b: byte): (r: byte)
  {
    Powers();
    XorNatBound(a as nat, b as nat, 256);
    XorNat(a as nat, b as nat) as byte
  }

  lemma XorInvolution(a: byte, b: byte)
    ensures Xor(Xor(a, b), b) == a
    ensures Xor(a, b) == Xor(b, a)
    ensures Xor(b, Xor(a, b)) == a
  {
    XorNatInvolution(a as nat, b as nat);
    XorNatCommutes(a as nat, b as nat);
    XorNatCommutes(b as nat, XorNat(a as nat, b as nat));
  }

  lemma {:induction a, b} XorNatZero(a: nat, b: nat)
    ensures XorNat(a, b) == 0 <==> a == b
    ensures XorNat(0, b) == b
  {
  }

  lemma XorZero(a: byte, b: byte)
    ensures Xor(a, b) == 0 <==> a == b
    ensures Xor(0, b) == b
  {
    XorNatZero(a as nat, b as nat);
  }

  /** Bit `k` of a natural. */
  function Bit(n: nat, k: nat): nat { if k == 0 then n % 2 else Bit(n / 2, k - 1) }

  /** Every bit of the exclusive-or says whether the two bits differ. */
  lemma {:induction false} XorBits(a: nat, b: nat, k: nat)
    ensures Bit(XorNat(a, b), k) == if Bit(a, k) == Bit(b, k) then 0 else 1
    decreases k
  {
    if a == 0 && b == 0 {
      ZeroBits(k);
    } else {
      var rest, low := XorNat(a / 2, b / 2), if a % 2 == b % 2 then 0 else 1;
      assert XorNat(a, b) == 2 * rest + low;
      assert (2 * rest + low) / 2 == rest && (2 * rest + low) % 2 == low;
      if k > 0 {
        XorBits(a / 2, b / 2, k - 1);
      }
    }
  }

  lemma {:induction false} ZeroBits(k: nat)
    ensures Bit(0, k) == 0
  {
    if k > 0 {
      ZeroBits(k - 1);
    }
  }

  function Reverse(s: Bytes): (r: Bytes)
    ensures |r| == |s|
  {
    seq(|s|, i requires 0 <= i < |s| => s[|s| - 1 - i])
  }

  function Zeros(n: nat): (r: Bytes)
    ensures |r| == n
  {
    seq(n, i => 0)
  }

  /** `(n as u16).to_be_bytes()`: a wider length is truncated first. */
  function Be16(n: nat): (r: Bytes)
    ensures |r| == 2
  {
    [(n / 256 % 256) as byte, (n % 256) as byte]
  }

  /** `u16::from_be_bytes([hi, lo])`. */
  function FromBe16(hi: byte, lo: byte): (n: nat)
    ensures n < 65536
  {
    256 * (hi as nat) + lo as nat
  }

  /** The three length octets of a TLS handshake header. */
  function Be24(n: nat): (r: Bytes)
    ensures |r| == 3
  {
    [(n / 65536 % 256) as byte, (n / 256 % 256) as byte, (n % 256) as byte]
  }

  function FromBe24(a: byte, b: byte, c: byte): nat
  {
    65536 * (a as nat) + 256 * (b as nat) + c as nat
  }

  /** `n as i16`: the low sixteen bits, read as two's complement. */
  function AsI16(n: int): (r: int)
    ensures -32768 <= r < 32768
  {
    var low := n % 65536;
    if low < 32768 then low else low - 65536
  }

  type i16 = n: int | -32768 <= n < 32768

  /** `i16::to_le_bytes`. */
  function I16Le(n: i16): (r: Bytes)
    ensures |r| == 2
  {
    var low := n % 65536;
    [(low % 256) as byte, (low / 256) as byte]
  }

  /** `i16::from_le_bytes([lo, hi])`. */
  function FromI16Le(lo: byte, hi: byte): i16
  {
    AsI16(lo as nat + 256 * (hi as nat))
  }

  function FromLe32(a: byte, b: byte, c: byte, d: byte): (n: nat)
    ensures n < 0x1_0000_0000
  {
    a as nat + 256 * (b as nat) + 65536 * (c as nat) + 16777216 * (d as nat)
  }

  /** `u32::to_le_bytes`. */
  function Le32(n: nat): (r: Bytes)
    requires n < 0x1_0000_0000
    ensures |r| == 4
  {
    [(n % 256) as byte, (n / 256 % 256) as byte, (n / 65536 % 256) as byte, (n / 16777216) as byte]
  }

  lemma Low16(n: nat)
    ensures 256 * (n / 256 % 256) + n % 256 == n % 65536
  {
  }

  lemma Low24(n: nat)
    ensures 65536 * (n / 65536 % 256) + n % 65536 == n % 16777216
  {
  }

  /** Lengths go on the wire most significant octet first. */
  lemma MostSignificantFirst(n: nat)
    ensures 256 * (Be16(n)[0] as nat) + Be16(n)[1] as nat == n % 65536
    ensures 65536 * (Be24(n)[0] as nat) + 256 * (Be24(n)[1] as nat) + Be24(n)[2] as nat == n % 16777216
  {
    Low16(n);
    Low24(n);
  }

  /** DC indices and clocks go least significant octet first, the sign as two's complement. */
  lemma LeastSignificantFirst(n: nat, signed: i16)
    requires n < 0x1_0000_0000
    ensures I16Le(signed)[0] as nat + 256 * (I16Le(signed)[1] as nat) == if signed < 0 then signed + 65536 else signed
    ensures var r := Le32(n);
      r[0] as nat + 256 * (r[1] as nat) + 65536 * (r[2] as nat) + 16777216 * (r[3] as nat) == n
    ensures FromLe32(Le32(n)[0], Le32(n)[1], Le32(n)[2], Le32(n)[3]) == n
  {
    Low16(n);
    Low24(n);
    assert n == 16777216 * (n / 16777216) + n % 16777216;
  }

  /** Narrowing to 16 bits keeps the value modulo 65536. */
  lemma Narrowed(n: int)
    ensures (AsI16(n) - n) % 65536 == 0 && (-32768 <= n < 32768 ==> AsI16(n) == n)
  {
  }

  lemma I16RoundTrip(n: i16)
    ensures FromI16Le(I16Le(n)[0], I16Le(n)[1]) == n
  {
  }

  /** The three parts of a concatenation, by position. */
  lemma Cut3<T>(a: seq<T>, b: seq<T>, c: seq<T>)
    ensures var s := a + b + c;
      && s == a + (b + c)
      && s[..|a|] == a && s[|a|..|a| + |b|] == b && s[|a| + |b|..] == c && s[|a|..] == b + c
      && forall i {:trigger b[i]} :: 0 <= i < |b| ==> s[|a| + i] == b[i]
  {
  }

  lemma PrefixEqual<T>(a: seq<T>, b: seq<T>, i: nat)
    requires i < |a| && i < |b|
    ensures a[..i + 1] == b[..i + 1] <==> a[..i] == b[..i] && a[i] == b[i]
  {
    assert a[..i + 1] == a[..i] + [a[i]] && b[..i + 1] == b[..i] + [b[i]];
    if a[..i + 1] == b[..i + 1] {
      assert a[..i] == a[..i + 1][..i] == b[..i + 1][..i] == b[..i];
      assert a[i] == a[..i + 1][i];
    }
  }

  lemma Rebracket<T>(a: seq<T>, b: seq<T>, c: seq<T>)
    ensures (a + b) + c == a + (b + c)
  {
  }

  function Concat(parts: seq<Bytes>): Bytes
  {
    if parts == [] then [] else parts[0] + Concat(parts[1..])
  }

  lemma {:induction false} ConcatAppend(a: seq<Bytes>, b: seq<Bytes>)
    ensures Concat(a + b) == Concat(a) + Concat(b)
  {
    if a == [] {
      assert a + b == b;
    } else {
      assert (a + b)[1..] == a[1..] + b;
      ConcatAppend(a[1..], b);
    }
  }

  lemma ConcatSnoc(a: seq<Bytes>, x: Bytes)
    ensures Concat(a + [x]) == Concat(a) + x
  {
    ConcatAppend(a, [x]);
    assert Concat([x]) == x + Concat([]);
  }
}
