/**
 * Bitstreams as the decoders see them: strings over '0' and '1', most
 * significant bit first, read with Python's `int(bits[a:b], 2)`.
 */
module Bits {
  import opened Results
  import opened PyStr

  function Pow2(n: nat): (r: nat)
    ensures r >= 1
  {
    if n == 0 then 1 else 2 * Pow2(n - 1)
  }

  lemma {:induction false} Pow2Add(a: nat, b: nat)
    ensures Pow2(a + b) == Pow2(a) * Pow2(b)
  {
    if b > 0 {
      Pow2Add(a, b - 1);
      assert Pow2(a + b) == 2 * Pow2(a + b - 1);
    }
  }

  lemma {:induction false} Pow2Monotone(a: nat, b: nat)
    requires a <= b
    ensures Pow2(a) <= Pow2(b)
  {
    if a < b {
      Pow2Monotone(a, b - 1);
    }
  }

  /** A bitstream: every character is a binary digit. */
  predicate IsBits(s: string)
  {
    forall i :: 0 <= i < |s| ==> s[i] == '0' || s[i] == '1'
  }

  function BitValue(c: char): nat
  {
    if c == '1' then 1 else 0
  }

  /** The unsigned, most-significant-bit-first value of a string of binary digits. */
  function BinToNat(s: string): (r: nat)
    ensures r < Pow2(|s|)
  {
    if s == [] then 0 else 2 * BinToNat(s[..|s| - 1]) + BitValue(s[|s| - 1])
  }

  /** `format(v, '0wb')` for `v < 2^w`: exactly `w` binary digits, most significant first. */
  function NatToBin(v: nat, w: nat): (r: string)
    ensures |r| == w && IsBits(r)
  {
    if w == 0 then "" else NatToBin(v / 2, w - 1) + [if v % 2 == 1 then '1' else '0']
  }

  /** Reading back a formatted value gives the value. */
  lemma {:induction false} BinToNatOfNatToBin(v: nat, w: nat)
    requires v < Pow2(w)
    ensures BinToNat(NatToBin(v, w)) == v
  {
    if w > 0 {
      var s := NatToBin(v, w);
      BinToNatOfNatToBin(v / 2, w - 1);
      assert s[..|s| - 1] == NatToBin(v / 2, w - 1);
    }
  }

  /** Formatting the value read from a bitstream gives the bitstream back. */
  lemma {:induction false} NatToBinOfBinToNat(s: string)
    requires IsBits(s)
    ensures NatToBin(BinToNat(s), |s|) == s
  {
    if s != [] {
      var init := s[..|s| - 1];
      NatToBinOfBinToNat(init);
      assert BinToNat(s) / 2 == BinToNat(init);
      assert s == init + [s[|s| - 1]];
    }
  }

  /** The value of a concatenation: the head is shifted left by the length of the tail. */
  lemma {:induction false} BinToNatAppend(a: string, b: string)
    ensures BinToNat(a + b) == BinToNat(a) * Pow2(|b|) + BinToNat(b)
  {
    if b == [] {
      assert a + b == a;
    } else {
      var b' := b[..|b| - 1];
      var ab := a + b;
      var x, y, bit, p := BinToNat(a), BinToNat(b'), BitValue(b[|b| - 1]), Pow2(|b'|);
      BinToNatAppend(a, b');
      assert ab[..|ab| - 1] == a + b';
      assert ab[|ab| - 1] == b[|b| - 1];
      assert BinToNat(ab) == 2 * BinToNat(a + b') + bit;
      assert BinToNat(a + b') == x * p + y;
      assert BinToNat(b) == 2 * y + bit;
      assert Pow2(|b|) == 2 * p;
      MulShift(x, p);
    }
  }

  lemma MulShift(x: nat, p: nat)
    ensures 2 * (x * p) == x * (2 * p)
  {
  }

  /** The most significant bit of a non-empty bitstream is worth `2^(|s|-1)`. */
  lemma MsbValue(s: string)
    requires |s| > 0
    ensures BinToNat(s) == BitValue(s[0]) * Pow2(|s| - 1) + BinToNat(s[1..])
  {
    BinToNatAppend([s[0]], s[1..]);
    assert [s[0]] + s[1..] == s;
    assert BinToNat([s[0]]) == BitValue(s[0]) by {
      assert [s[0]][..0] == [];
    }
  }

  /** `int(s, 2)`, for the strings a bitstream slice can be: "" raises ValueError. */
  function IntBase2(s: string): (r: Result<nat, PyError>)
    ensures r.Ok? <==> s != [] && IsBits(s)
    ensures r.Ok? ==> r.value == BinToNat(s)
  {
    if s != [] && IsBits(s) then Ok(BinToNat(s)) else Err(ValueError)
  }

  /**
   * `int(bits[a:b], 2)`: Python clamps the slice, so a field that starts inside
   * the stream and ends past it reads the shorter tail, and a field that starts
   * at or past the end raises ValueError.
   */
  function Field(bits: string, a: nat, b: nat): (r: Result<nat, PyError>)
    ensures IsBits(bits) ==> (r.Ok? <==> a < b && a < |bits|)
    ensures r.Ok? ==> a < b && r.value < Pow2(b - a)
    ensures r.Ok? ==> a < |bits| && r.value == BinToNat(Slice(bits, a, b))
    ensures r.Ok? && b <= |bits| ==> r.value == BinToNat(bits[a..b])
  {
    var s := Slice(bits, a, b);
    assert s != [] ==> BinToNat(s) < Pow2(b - a) by {
      if s != [] { Pow2Monotone(|s|, b - a); }
    }
    assert b <= |bits| && a < b ==> s == bits[a..b];
    IntBase2(s)
  }

  /** `int(bits[i], 2)`: a single character by index, which raises IndexError past the end. */
  function FieldAt(bits: string, i: nat): (r: Result<nat, PyError>)
    ensures IsBits(bits) ==> (r.Ok? <==> i < |bits|)
    ensures r.Ok? ==> i < |bits| && r.value == BitValue(bits[i])
  {
    if i < |bits| then IntBase2([bits[i]]) else Err(IndexError)
  }

  /** `v & (1 << k) != 0`: bit `k` of `v`, counting from the least significant bit. */
  predicate BitSet(v: nat, k: nat)
  {
    if k == 0 then v % 2 == 1 else BitSet(v / 2, k - 1)
  }

  /** In a `k+1`-bit value, bit `k` is set exactly when the value is at least `2^k`. */
  lemma {:induction false} TopBit(v: nat, k: nat)
    requires v < 2 * Pow2(k)
    ensures BitSet(v, k) <==> v >= Pow2(k)
  {
    if k > 0 {
      TopBit(v / 2, k - 1);
    }
  }

  /**
   * The signed reading of a field of width `w` whose unsigned value is `v`:
   * when the sign bit `w-1` is set, `2^w` is subtracted.
   */
  function SignExtend(v: nat, w: nat): (r: int)
    requires 0 < w && v < Pow2(w)
    ensures -(Pow2(w - 1) as int) <= r < Pow2(w - 1)
    ensures r < 0 <==> v >= Pow2(w - 1)
    ensures (if r < 0 then r + Pow2(w) else r) == v
  {
    assert Pow2(w) == 2 * Pow2(w - 1);
    TopBit(v, w - 1);
    if BitSet(v, w - 1) then v - Pow2(w) else v
  }

  /** The two's-complement value of a bit pattern: the leading bit weighs `-2^(|s|-1)`. */
  function TwosComplement(s: string): int
    requires |s| > 0
  {
    BinToNat(s[1..]) - BitValue(s[0]) * Pow2(|s| - 1)
  }

  /** Sign-extending the unsigned reading of a field is its two's-complement reading. */
  lemma SignExtendIsTwosComplement(s: string)
    requires |s| > 0 && IsBits(s)
    ensures SignExtend(BinToNat(s), |s|) == TwosComplement(s)
  {
    MsbValue(s);
    assert Pow2(|s|) == 2 * Pow2(|s| - 1);
  }
}
