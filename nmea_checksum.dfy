/**
 * The NMEA 0183 sentence checksum as the GNSS parsers compute it: the XOR of
 * the code points of a span of the sentence, written with `format(n, '02X')`
 * as upper-case hexadecimal padded to two digits. Also the framing of a
 * well-formed sentence, `$<tag>,<body>*<hex>\r\n`, and what Python's string
 * operations see in it.
 */
module NmeaChecksum {
  import opened Results
  import opened PyStr
  import opened Bits

  /**
   * Python's `a ^ b` on non-negative integers, bit by bit from the least
   * significant end.
   */
  function Xor(a: nat, b: nat): nat
    decreases a + b
  {
    if a == 0 && b == 0 then 0 else 2 * Xor(a / 2, b / 2) + (a % 2 + b % 2) % 2
  }

  lemma {:induction false} XorZero(a: nat)
    ensures Xor(a, 0) == a && Xor(0, a) == a
    decreases a
  {
    if a != 0 {
      XorZero(a / 2);
    }
  }

  lemma {:induction false} XorSelf(a: nat)
    ensures Xor(a, a) == 0
    decreases a
  {
    if a != 0 {
      XorSelf(a / 2);
    }
  }

  lemma {:induction false} XorCommutes(a: nat, b: nat)
    ensures Xor(a, b) == Xor(b, a)
    decreases a + b
  {
    if a != 0 || b != 0 {
      XorCommutes(a / 2, b / 2);
    }
  }

  lemma XorHalves(a: nat, b: nat)
    ensures Xor(a, b) / 2 == Xor(a / 2, b / 2)
    ensures Xor(a, b) % 2 == (if a % 2 == b % 2 then 0 else 1)
  {
    if a != 0 || b != 0 {
      var q, m := Xor(a / 2, b / 2), (a % 2 + b % 2) % 2;
      assert Xor(a, b) == 2 * q + m && 0 <= m < 2;
    }
  }

  lemma SameHalves(x: nat, y: nat)
    requires x / 2 == y / 2 && x % 2 == y % 2
    ensures x == y
  {
  }

  lemma {:induction false} XorAssociates(a: nat, b: nat, c: nat)
    ensures Xor(Xor(a, b), c) == Xor(a, Xor(b, c))
    decreases a + b + c
  {
    if a != 0 || b != 0 || c != 0 {
      var ab, bc := Xor(a, b), Xor(b, c);
      XorAssociates(a / 2, b / 2, c / 2);
      XorHalves(a, b);
      XorHalves(ab, c);
      XorHalves(b, c);
      XorHalves(a, bc);
      SameHalves(Xor(ab, c), Xor(a, bc));
    }
  }

  /** XOR-ing the same value onto two numbers keeps them apart. */
  lemma XorCancel(x: nat, a: nat, b: nat)
    requires Xor(x, a) == Xor(x, b)
    ensures a == b
  {
    XorAssociates(x, x, a);
    XorAssociates(x, x, b);
    XorSelf(x);
    XorZero(a);
    XorZero(b);
  }

  /** XOR never sets a bit above the widest of its operands. */
  lemma {:induction false} XorBelow(a: nat, b: nat, w: nat)
    requires a < Pow2(w) && b < Pow2(w)
    ensures Xor(a, b) < Pow2(w)
  {
    if w == 0 {
      assert a == 0 && b == 0;
    } else if a != 0 || b != 0 {
      XorBelow(a / 2, b / 2, w - 1);
    }
  }

  /** The running `checksum ^= ord(char)` over all of `s`, starting from 0. */
  function XorFold(s: string): (r: nat)
    ensures (forall k :: 0 <= k < |s| ==> s[k] < 128 as char) ==> r < 128
  {
    if s == [] then 0
    else
      var r := Xor(XorFold(s[..|s| - 1]), s[|s| - 1] as int);
      assert (forall k :: 0 <= k < |s| ==> s[k] < 128 as char) ==> r < 128 by {
        if forall k :: 0 <= k < |s| ==> s[k] < 128 as char {
          assert forall k :: 0 <= k < |s| - 1 ==> s[..|s| - 1][k] == s[k];
          assert Pow2(7) == 128;
          XorBelow(XorFold(s[..|s| - 1]), s[|s| - 1] as int, 7);
        }
      }
      r
  }

  /** The checksum of a concatenation is the XOR of the checksums of its parts. */
  lemma {:induction false} XorFoldAppend(a: string, b: string)
    ensures XorFold(a + b) == Xor(XorFold(a), XorFold(b))
    decreases |b|
  {
    if b == [] {
      assert a + b == a;
      XorZero(XorFold(a));
    } else {
      var b', c := b[..|b| - 1], b[|b| - 1] as int;
      assert (a + b)[..|a + b| - 1] == a + b';
      XorFoldAppend(a, b');
      XorAssociates(XorFold(a), XorFold(b'), c);
    }
  }

  /** Changing any single character changes the checksum. */
  lemma DetectsOneChange(a: string, c: char, d: char, b: string)
    requires c != d
    ensures XorFold(a + [c] + b) != XorFold(a + [d] + b)
  {
    var x, y := XorFold(a + [c]), XorFold(a + [d]);
    XorFoldAppend(a + [c], b);
    XorFoldAppend(a + [d], b);
    assert [c][..0] == [] && [d][..0] == [];
    XorFoldAppend(a, [c]);
    XorFoldAppend(a, [d]);
    XorZero(c as int);
    XorZero(d as int);
    if XorFold(a + [c] + b) == XorFold(a + [d] + b) {
      XorCommutes(x, XorFold(b));
      XorCommutes(y, XorFold(b));
      XorCancel(XorFold(b), x, y);
      XorCancel(XorFold(a), c as int, d as int);
    }
  }

  /** XOR-ing a non-zero value always changes a number. */
  lemma XorNonzeroChanges(k: nat, x: nat)
    requires k != 0
    ensures Xor(x, k) != x
  {
    XorZero(x);
    if Xor(x, k) == x {
      XorCancel(x, k, 0);
    }
  }

  predicate IsHexDigit(c: char)
  {
    '0' <= c <= '9' || 'A' <= c <= 'F'
  }

  /** The upper-case hexadecimal digit for `d`. */
  function HexDigit(d: nat): (c: char)
    requires d < 16
    ensures IsHexDigit(c) && HexValue(c) == d
  {
    if d < 10 then ('0' as int + d) as char else ('A' as int + d - 10) as char
  }

  function HexValue(c: char): (d: nat)
    requires IsHexDigit(c)
    ensures d < 16 && (d == 0 <==> c == '0')
  {
    if c <= '9' then c as int - '0' as int else c as int - 'A' as int + 10
  }

  /** The number an upper-case hexadecimal numeral denotes. */
  function ParseHex(s: string): nat
    requires forall k :: 0 <= k < |s| ==> IsHexDigit(s[k])
  {
    if s == [] then 0 else ParseHex(s[..|s| - 1]) * 16 + HexValue(s[|s| - 1])
  }

  /** `format(n, 'X')`: the shortest upper-case hexadecimal numeral for `n`. */
  function UpperHex(n: nat): (r: string)
    ensures |r| >= 1 && (forall k :: 0 <= k < |r| ==> IsHexDigit(r[k]))
    ensures ParseHex(r) == n
    ensures |r| == 1 || r[0] != '0'
    ensures n < 16 <==> |r| == 1
    ensures n < 256 ==> |r| <= 2
  {
    if n < 16 then [HexDigit(n)]
    else
      var r := UpperHex(n / 16) + [HexDigit(n % 16)];
      assert r[..|r| - 1] == UpperHex(n / 16);
      r
  }

  /** `format(n, '02X')`: upper-case hexadecimal, padded with a zero to two digits. */
  function Format02X(n: nat): (r: string)
    ensures |r| >= 2 && (forall k :: 0 <= k < |r| ==> IsHexDigit(r[k]))
    ensures ParseHex(r) == n
    ensures n < 256 <==> |r| == 2
    ensures |r| == 2 || r[0] != '0'
  {
    if n < 16 then
      var r := ['0', HexDigit(n)];
      assert r[..1] == ['0'] && ['0'][..0] == [];
      r
    else UpperHex(n)
  }

  /** What `format(n, '02X')` can produce: a hexadecimal numeral of at least two digits, zero-padded only up to two. */
  predicate Canonical02X(h: string)
  {
    |h| >= 2 && (forall k :: 0 <= k < |h| ==> IsHexDigit(h[k])) && (|h| == 2 || h[0] != '0')
  }

  lemma HexDigitOfValue(c: char)
    requires IsHexDigit(c)
    ensures HexDigit(HexValue(c)) == c
  {
  }

  lemma {:induction false} LeadingDigitPositive(h: string)
    requires |h| >= 1 && (forall k :: 0 <= k < |h| ==> IsHexDigit(h[k])) && h[0] != '0'
    ensures ParseHex(h) >= 1
  {
    if |h| > 1 {
      LeadingDigitPositive(h[..|h| - 1]);
    }
  }

  /** A numeral without leading zeros is the one UpperHex writes for its value. */
  lemma {:induction false} UpperHexUnique(h: string)
    requires |h| >= 1 && (forall k :: 0 <= k < |h| ==> IsHexDigit(h[k]))
    requires |h| == 1 || h[0] != '0'
    ensures h == UpperHex(ParseHex(h))
  {
    var n := ParseHex(h);
    HexDigitOfValue(h[|h| - 1]);
    if |h| == 1 {
      assert h[..0] == [];
    } else {
      var p := h[..|h| - 1];
      LeadingDigitPositive(p);
      UpperHexUnique(p);
      assert n / 16 == ParseHex(p) && n % 16 == HexValue(h[|h| - 1]);
      assert h == p + [h[|h| - 1]];
    }
  }

  /** `format(n, '02X')` is the only canonical numeral whose value is `n`. */
  lemma Format02XUnique(h: string)
    requires Canonical02X(h)
    ensures h == Format02X(ParseHex(h))
  {
    var n := ParseHex(h);
    if h[0] == '0' {
      assert h[..1] == ['0'] && h[..1][..0] == [];
      assert ParseHex(h[..1]) == 0;
      assert n == HexValue(h[1]);
      HexDigitOfValue(h[1]);
      assert h == ['0', HexDigit(n)];
    } else {
      UpperHexUnique(h);
      assert n >= 16;
    }
  }

  /** A provided checksum field matches `format(n, '02X')` exactly when it is canonical and denotes `n`. */
  lemma MatchesFormat02X(h: string, n: nat)
    ensures h == Format02X(n) <==> Canonical02X(h) && ParseHex(h) == n
  {
    if Canonical02X(h) && ParseHex(h) == n {
      Format02XUnique(h);
    }
  }

  /** A sentence as the parsers expect it: `$<tag>,<body>*<hex>\r\n`. */
  function Framed(tag: string, body: string, hex: string): string
  {
    "$" + tag + "," + body + "*" + hex + "\r\n"
  }

  predicate IsHexNumeral(hex: string)
  {
    |hex| >= 1 && forall k :: 0 <= k < |hex| ==> IsHexDigit(hex[k])
  }

  /** A numeral followed by CR LF strips to the numeral. */
  lemma HexStripped(hex: string)
    requires IsHexNumeral(hex)
    ensures Strip(hex + "\r\n") == hex
  {
    StripPadded(hex, "\r\n");
  }

  /** A numeral holds neither CR nor `*`. */
  lemma HexHasNoMarks(hex: string)
    requires IsHexNumeral(hex)
    ensures '\r' !in hex && '*' !in hex + "\r\n"
  {
    assert forall k :: 0 <= k < |hex| ==> IsHexDigit(hex[k]);
    var tail := hex + "\r\n";
    assert forall k :: 0 <= k < |tail| ==> k < |hex| ==> IsHexDigit(tail[k]);
  }

  /** The checksum field after `*`, stripped, is the numeral itself. */
  lemma HexField(hex: string)
    requires IsHexNumeral(hex)
    ensures Strip(hex + "\r\n") == hex
    ensures Split(hex, '\r') == [hex]
    ensures '*' !in hex + "\r\n"
  {
    HexStripped(hex);
    HexHasNoMarks(hex);
  }

  /** The first `*` of a framed sentence is the one before the checksum. */
  lemma FramedStar(tag: string, body: string, hex: string)
    requires |tag| == 5 && '*' !in tag && '*' !in body && IsHexNumeral(hex)
    ensures StartsWith(Framed(tag, body, hex), "$" + tag)
    ensures Find(Framed(tag, body, hex), '*') == Some(7 + |body|)
    ensures Split(Framed(tag, body, hex), '*') == ["$" + tag + "," + body, hex + "\r\n"]
  {
    var s := Framed(tag, body, hex);
    var head := "$" + tag + "," + body;
    var tail := hex + "\r\n";
    assert s == head + ['*'] + tail;
    assert '*' !in head by {
      assert forall k :: 0 <= k < |head| ==> head[k] == '*' ==> k >= 7 && body[k - 7] == '*';
    }
    HexField(hex);
    assert s[..|"$" + tag|] == "$" + tag;
    FindAfter(head, '*', tail);
    SplitAt(head, '*', tail);
  }

  /** The slices the parsers take of a framed sentence. */
  lemma FramedSlices(tag: string, body: string, hex: string)
    requires |tag| == 5 && '*' !in body && IsHexNumeral(hex)
    ensures Split(Slice(Framed(tag, body, hex), 7, |Framed(tag, body, hex)|), '*')[0] == body
    ensures Slice(Framed(tag, body, hex), 1, 7 + |body|) == tag + "," + body
    ensures Slice(Framed(tag, body, hex), 7, 7 + |body|) == body
  {
    var s := Framed(tag, body, hex);
    var tail := hex + "\r\n";
    assert s == "$" + tag + "," + body + ['*'] + tail;
    assert Slice(s, 7, |s|) == body + ['*'] + tail;
    SplitAt(body, '*', tail);
  }
}
