/** Big-endian fields and the Internet checksum of section 3.1 of RFC 791
  * (collector/src/collector/discovery/dhcp_probe.py, `_checksum`).
  */
module Bytes {

  type Byte = b: int | 0 <= b < 256

  function Be16(s: seq<Byte>, i: nat): nat
    requires i + 2 <= |s|
  {
    (s[i] as int) * 256 + s[i + 1]
  }

  function Be32(s: seq<Byte>, i: nat): nat
    requires i + 4 <= |s|
  {
    Be16(s, i) * 0x1_0000 + Be16(s, i + 2)
  }

  function Word(n: nat): (r: seq<Byte>)
    requires n < 0x1_0000
    ensures |r| == 2 && Be16(r, 0) == n
  {
    [n / 256, n % 256]
  }

  function Long(n: nat): (r: seq<Byte>)
    requires n < 0x1_0000_0000
    ensures |r| == 4 && Be32(r, 0) == n
  {
    Word(n / 0x1_0000) + Word(n % 0x1_0000)
  }

  function Repeat(b: Byte, n: nat): (r: seq<Byte>)
    ensures |r| == n && forall i :: 0 <= i < n ==> r[i] == b
  {
    seq(n, _ => b)
  }

  lemma Reassociate(a: seq<Byte>, b: seq<Byte>, c: seq<Byte>, d: seq<Byte>)
    ensures a + (b + c) + d == (a + b) + c + d
    ensures a + (b + c) + d == a + b + (c + d)
  {
  }

  // --- the Internet checksum ------------------------------------------------------------

  /** The sum of the 16-bit words; an odd last byte counts as the high byte of a word. */
  function SumWords(s: seq<Byte>): nat {
    if s == [] then 0
    else if |s| == 1 then (s[0] as int) * 256
    else Be16(s, 0) + SumWords(s[2..])
  }

  /** Carries folded back in until sixteen bits remain. */
  function Folded(n: nat): nat {
    if n < 0x1_0000 then n else Folded(n % 0x1_0000 + n / 0x1_0000)
  }

  function ChecksumOf(s: seq<Byte>): nat
    ensures ChecksumOf(s) < 0x1_0000
  {
    FoldedFits(SumWords(s));
    0xFFFF - Folded(SumWords(s))
  }

  lemma {:induction false} FoldedFits(n: nat)
    ensures Folded(n) < 0x1_0000
  {
    if n >= 0x1_0000 {
      FoldedFits(n % 0x1_0000 + n / 0x1_0000);
    }
  }

  lemma {:induction false} AddMultiple(x: nat, q: nat)
    ensures (q * 0xFFFF + x) % 0xFFFF == x % 0xFFFF
  {
    if q > 0 {
      AddMultiple(x, q - 1);
      assert q * 0xFFFF + x == ((q - 1) * 0xFFFF + x) + 0xFFFF;
    }
  }

  /** Folding keeps the sum modulo 65535 and never turns a positive sum into zero. */
  lemma {:induction false} FoldedPreserves(n: nat)
    ensures Folded(n) % 0xFFFF == n % 0xFFFF
    ensures Folded(n) == 0 <==> n == 0
  {
    if n >= 0x1_0000 {
      CarryPreserves(n);
      FoldedPreserves(n % 0x1_0000 + n / 0x1_0000);
    }
  }

  /** Adding the carry back in takes away a multiple of 65535. */
  lemma CarryPreserves(n: nat)
    ensures (n % 0x1_0000 + n / 0x1_0000) % 0xFFFF == n % 0xFFFF
  {
    var q, r := n / 0x1_0000, n % 0x1_0000;
    assert n == q * 0xFFFF + (r + q);
    AddMultiple(r + q, q);
  }

  /** The checksum as the code computes it: pad, sum the words, fold the carries, complement. */
  method Checksum(data0: seq<Byte>) returns (c: nat)
    ensures c == ChecksumOf(data0)
  {
    var data := if |data0| % 2 == 1 then data0 + [0] else data0;
    PaddingIsFree(data0);
    var total := Total(data);
    FoldedFits(total);
    total := FoldCarries(total);
    return 0xFFFF - total;
  }

  method Total(data: seq<Byte>) returns (total: nat)
    requires |data| % 2 == 0
    ensures total == SumWords(data)
  {
    total := 0;
    var i := 0;
    while i < |data|
      invariant 0 <= i <= |data| && i % 2 == 0
      invariant total + SumWords(data[i..]) == SumWords(data)
    {
      assert data[i..][2..] == data[i + 2..];
      assert Be16(data[i..], 0) == Be16(data, i);
      total := total + Be16(data, i);
      i := i + 2;
    }
  }

  method FoldCarries(sum: nat) returns (total: nat)
    ensures total == Folded(sum)
  {
    total := sum;
    while total >= 0x1_0000
      invariant Folded(total) == Folded(sum)
      decreases total
    {
      total := total % 0x1_0000 + total / 0x1_0000;
    }
  }

  lemma {:induction false} PaddingIsFree(s: seq<Byte>)
    ensures |s| % 2 == 1 ==> SumWords(s + [0]) == SumWords(s)
  {
    if |s| >= 2 {
      PaddingIsFree(s[2..]);
      assert (s + [0])[2..] == s[2..] + [0];
    } else if |s| == 1 {
      assert (s + [0])[2..] == [];
    }
  }

  /** A checksum of zero says exactly that the words sum to a positive multiple of 65535. */
  lemma ZeroChecksumIff(s: seq<Byte>)
    ensures ChecksumOf(s) == 0 <==> SumWords(s) > 0 && SumWords(s) % 0xFFFF == 0
  {
    FoldedPreserves(SumWords(s));
    FoldedFits(SumWords(s));
  }

  /** The field at an even offset set to `c`. */
  function WithField(s: seq<Byte>, p: nat, c: nat): seq<Byte>
    requires p + 2 <= |s| && c < 0x1_0000
  {
    s[..p] + Word(c) + s[p + 2..]
  }

  lemma {:induction false} FieldAddsToSum(s: seq<Byte>, p: nat, c: nat)
    requires p % 2 == 0 && p + 2 <= |s| && c < 0x1_0000 && s[p] == 0 && s[p + 1] == 0
    ensures SumWords(WithField(s, p, c)) == SumWords(s) + c
    decreases |s|
  {
    var t := WithField(s, p, c);
    if p == 0 {
      assert t[2..] == s[2..];
    } else {
      assert t[2..] == WithField(s[2..], p - 2, c);
      FieldAddsToSum(s[2..], p - 2, c);
    }
  }

  /** Whatever the header, storing the checksum of the header with a zero field into that field
    * makes the header checksum to zero.
    */
  lemma StoredChecksumVerifies(s: seq<Byte>, p: nat)
    requires p % 2 == 0 && p + 2 <= |s| && s[p] == 0 && s[p + 1] == 0
    ensures ChecksumOf(WithField(s, p, ChecksumOf(s))) == 0
  {
    var n := SumWords(s);
    var c := ChecksumOf(s);
    FieldAddsToSum(s, p, c);
    FoldedPreserves(n);
    FoldedFits(n);
    MultipleAfterComplement(n, Folded(n));
    ZeroChecksumIff(WithField(s, p, c));
  }

  lemma MultipleAfterComplement(n: nat, f: nat)
    requires f <= 0xFFFF && f % 0xFFFF == n % 0xFFFF && (f == 0 <==> n == 0)
    ensures (n + (0xFFFF - f)) % 0xFFFF == 0 && n + (0xFFFF - f) > 0
  {
    var q := n / 0xFFFF;
    var r := n % 0xFFFF;
    assert n == q * 0xFFFF + r;
    if f == 0xFFFF {
      assert r == 0;
      AddMultiple(0, q);
    } else {
      assert f == r;
      AddMultiple(0xFFFF, q);
    }
  }

  // --- bitwise and ------------------------------------------------------------------------

  function And(a: nat, b: nat): nat {
    if a == 0 || b == 0 then 0 else (a % 2) * (b % 2) + 2 * And(a / 2, b / 2)
  }

  function Pow2(n: nat): nat {
    if n == 0 then 1 else 2 * Pow2(n - 1)
  }

  lemma AndOdd(a: nat, h: nat)
    ensures And(a, 2 * h + 1) == a % 2 + 2 * And(a / 2, h)
  {
    assert (2 * h + 1) / 2 == h && (2 * h + 1) % 2 == 1;
  }

  /** Masking with ones keeps the low bits. */
  lemma {:induction false} AndOnes(a: nat, n: nat)
    ensures Pow2(n) > 0 && And(a, Pow2(n) - 1) == a % Pow2(n)
  {
    if n > 0 {
      AndOnes(a / 2, n - 1);
      var m := Pow2(n - 1);
      AndOdd(a, m - 1);
      HalfMod(a, m);
    }
  }

  lemma HalfMod(a: nat, m: nat)
    requires m > 0
    ensures a % (2 * m) == a % 2 + 2 * (a / 2 % m)
  {
    var h := a / 2;
    var q, r := h / m, h % m;
    assert a == 2 * (q * m + r) + a % 2;
    assert a == q * (2 * m) + (2 * r + a % 2);
    assert 2 * r + a % 2 < 2 * m;
    ModUnique(a, 2 * m, q, 2 * r + a % 2);
  }

  lemma AtLeastOne(x: nat, m: nat)
    requires x >= 1
    ensures x * m >= m
  {
  }

  lemma LargerQuotient(m: nat, q: nat, r: nat, q': nat, r': nat)
    requires q * m + r == q' * m + r' && q > q'
    ensures r' >= m
  {
    AtLeastOne(q - q', m);
    assert (q - q') * m == q * m - q' * m;
  }

  lemma SameRemainder(m: nat, q: nat, r: nat, q': nat, r': nat)
    requires q * m + r == q' * m + r' && r < m && r' < m
    ensures r == r'
  {
    if q > q' {
      LargerQuotient(m, q, r, q', r');
    } else if q < q' {
      LargerQuotient(m, q', r', q, r);
    }
  }

  lemma ModUnique(a: nat, m: nat, q: nat, r: nat)
    requires m > 0 && a == q * m + r && r < m
    ensures a % m == r
  {
    SameRemainder(m, q, r, a / m, a % m);
  }
}
