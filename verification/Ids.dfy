/** 128-bit identifiers and the XOR metric (src/keyutil.rs). An identifier is its
    bit sequence, most significant bit first; `Value` is the unsigned integer it denotes. */
module Ids {

  const WIDTH: nat := 128

  type Id = b: seq<bool> | |b| == WIDTH witness seq(WIDTH, _ => false)

  type Byte = x: int | 0 <= x < 256

  function Pow2(n: nat): (r: nat)
    ensures r >= 1
  {
    if n == 0 then 1 else 2 * Pow2(n - 1)
  }

  function Value(b: seq<bool>): (v: nat)
    ensures v < Pow2(|b|)
  {
    if b == [] then 0 else (if b[0] then Pow2(|b| - 1) else 0) + Value(b[1..])
  }

  function Xor(a: seq<bool>, b: seq<bool>): (r: seq<bool>)
    requires |a| == |b|
    ensures |r| == |a|
  {
    seq(|a|, i requires 0 <= i < |a| => a[i] != b[i])
  }

  /** `u128::leading_zeros` */
  function LeadingZeros(b: seq<bool>): (z: nat)
    ensures z <= |b|
  {
    if b == [] || b[0] then 0 else 1 + LeadingZeros(b[1..])
  }

  function Cpl(a: seq<bool>, b: seq<bool>): (c: nat)
    requires |a| == |b|
    ensures c <= |a|
  {
    LeadingZeros(Xor(a, b))
  }

  function Distance(a: Id, b: Id): nat {
    Value(Xor(a, b))
  }

  function Zero(): Id {
    seq(WIDTH, _ => false)
  }

  // ---------- common prefixes ----------

  lemma {:induction false} LeadingZerosMeaning(b: seq<bool>)
    ensures forall i :: 0 <= i < LeadingZeros(b) ==> !b[i]
    ensures LeadingZeros(b) < |b| ==> b[LeadingZeros(b)]
  {
    if b != [] && !b[0] {
      LeadingZerosMeaning(b[1..]);
    }
  }

  lemma CplMeaning(a: seq<bool>, b: seq<bool>, c: nat)
    requires |a| == |b|
    ensures Cpl(a, b) == c <==> c <= |a| && a[..c] == b[..c] && (c < |a| ==> a[c] != b[c])
  {
    var z := Cpl(a, b);
    LeadingZerosMeaning(Xor(a, b));
    forall i | 0 <= i < z
      ensures a[i] == b[i]
    {
      assert !Xor(a, b)[i];
    }
    if c <= |a| && a[..c] == b[..c] {
      forall i | 0 <= i < c
        ensures a[i] == b[i]
      {
        assert a[..c][i] == b[..c][i];
      }
    }
  }

  lemma CplMetric(a: Id, b: Id, c: Id)
    ensures Cpl(a, b) == Cpl(b, a) <= WIDTH
    ensures Cpl(a, b) == WIDTH <==> a == b
    ensures Cpl(a, b) != Cpl(b, c) ==>
              Cpl(a, c) == if Cpl(a, b) < Cpl(b, c) then Cpl(a, b) else Cpl(b, c)
    ensures Cpl(a, b) == Cpl(b, c) ==> Cpl(a, c) >= Cpl(a, b)
  {
    assert Xor(a, b) == Xor(b, a);
    var x, y, z := Cpl(a, b), Cpl(b, c), Cpl(a, c);
    CplMeaning(a, b, x);
    CplMeaning(a, b, WIDTH);
    CplMeaning(b, c, y);
    CplMeaning(a, c, z);
    forall i | 0 <= i < x && i < y
      ensures a[i] == b[i] == c[i]
    {
      assert a[..x][i] == b[..x][i] && b[..y][i] == c[..y][i];
    }
    if x < y {
      assert b[..y][x] == c[..y][x];
    } else if y < x {
      assert a[..x][y] == b[..x][y];
    }
  }

  // Bits are binary: two ids that leave a third at the same place agree there.
  lemma CplBinary(a: Id, b: Id, c: Id)
    requires Cpl(a, b) == Cpl(a, c) < WIDTH
    ensures Cpl(b, c) > Cpl(a, b)
  {
    CplMetric(b, a, c);
    CplMeaning(a, b, Cpl(a, b));
    CplMeaning(a, c, Cpl(a, b));
    CplMeaning(b, c, Cpl(b, c));
  }

  lemma Pow2Monotone(m: nat, n: nat)
    requires m <= n
    ensures Pow2(m) <= Pow2(n)
  {
  }

  // The leading bit decides the power-of-two band a value lies in.
  lemma {:induction false} ValueBand(b: seq<bool>)
    ensures var z := LeadingZeros(b);
            if z == |b| then Value(b) == 0
            else Pow2(|b| - 1 - z) <= Value(b) < Pow2(|b| - z)
  {
    if b != [] && !b[0] {
      ValueBand(b[1..]);
    }
  }

  lemma DistanceBand(a: Id, b: Id)
    ensures var c := Cpl(a, b);
            if c == WIDTH then Distance(a, b) == 0
            else Pow2(WIDTH - 1 - c) <= Distance(a, b) < Pow2(WIDTH - c)
  {
    ValueBand(Xor(a, b));
  }

  // A longer common prefix with the target means strictly nearer to it.
  lemma LongerPrefixIsNearer(t: Id, p: Id, q: Id)
    requires Cpl(t, p) > Cpl(t, q)
    ensures Distance(p, t) < Distance(q, t)
  {
    DistanceBand(p, t);
    DistanceBand(q, t);
    CplMetric(t, p, t);
    CplMetric(t, q, t);
    if Cpl(t, p) < WIDTH {
      Pow2Monotone(WIDTH - Cpl(t, p), WIDTH - 1 - Cpl(t, q));
    }
  }

  // ---------- numeric order ----------

  // Numeric order is decided at the first differing bit.
  lemma {:induction false} ValueOrder(a: seq<bool>, b: seq<bool>)
    requires |a| == |b|
    ensures Value(a) < Value(b) <==> Cpl(a, b) < |a| && b[Cpl(a, b)]
    ensures Value(a) == Value(b) <==> a == b
  {
    var c := Cpl(a, b);
    CplMeaning(a, b, c);
    if a == [] {
    } else {
      assert Xor(a, b)[1..] == Xor(a[1..], b[1..]);
      if a[0] == b[0] {
        ValueOrder(a[1..], b[1..]);
        assert a == [a[0]] + a[1..] && b == [b[0]] + b[1..];
      }
    }
  }

  lemma DistanceIdentifies(a: Id, b: Id, t: Id)
    ensures Distance(a, t) == Distance(b, t) <==> a == b
    ensures Distance(a, Zero()) == Value(a)
  {
    var x, y := Xor(a, t), Xor(b, t);
    ValueOrder(x, y);
    if x == y {
      assert forall i :: 0 <= i < WIDTH ==> x[i] == y[i] ==> a[i] == b[i];
      assert a == b;
    }
    assert Xor(a, Zero()) == a;
  }

  // Which of two ids is nearer to a third is decided at the first bit where they differ.
  lemma DistanceOrder(a: Id, b: Id, t: Id)
    ensures Distance(a, t) < Distance(b, t) <==> Cpl(a, b) < WIDTH && b[Cpl(a, b)] != t[Cpl(a, b)]
  {
    assert Xor(Xor(a, t), Xor(b, t)) == Xor(a, b);
    ValueOrder(Xor(a, t), Xor(b, t));
  }

  // ---------- big-endian bytes ----------

  /** The `w`-bit binary form of `v`. */
  function Bits(v: nat, w: nat): (b: seq<bool>)
    requires v < Pow2(w)
    ensures |b| == w && Value(b) == v
  {
    if w == 0 then []
    else if v >= Pow2(w - 1) then [true] + Bits(v - Pow2(w - 1), w - 1)
    else [false] + Bits(v, w - 1)
  }

  lemma BitsOfValue(b: seq<bool>)
    ensures Bits(Value(b), |b|) == b
  {
    ValueOrder(Bits(Value(b), |b|), b);
  }

  lemma ByteRange()
    ensures Pow2(8) == 256
  {
    assert Pow2(4) == 16;
    assert Pow2(6) == 64;
  }

  function ToBytes(b: seq<bool>): (r: seq<Byte>)
    requires |b| % 8 == 0
    ensures |r| * 8 == |b|
  {
    if b == [] then []
    else
      ByteRange();
      [Value(b[..8])] + ToBytes(b[8..])
  }

  function FromBytes(s: seq<Byte>): (b: seq<bool>)
    ensures |b| == 8 * |s|
  {
    if s == [] then []
    else
      ByteRange();
      Bits(s[0], 8) + FromBytes(s[1..])
  }

  function KeyToBytes(k: Id): (r: seq<Byte>)
    ensures |r| == 16
  {
    ToBytes(k)
  }

  /** Panics in the source on fewer than 16 bytes; bytes after the 16th are ignored. */
  function KeyFromBytes(s: seq<Byte>): Id
    requires |s| >= 16
  {
    FromBytes(s[..16])
  }

  lemma {:induction false} BytesRoundTrip(b: seq<bool>)
    requires |b| % 8 == 0
    ensures FromBytes(ToBytes(b)) == b
  {
    ByteRange();
    if b != [] {
      BytesRoundTrip(b[8..]);
      BitsOfValue(b[..8]);
      var s := ToBytes(b);
      assert s[1..] == ToBytes(b[8..]);
      assert b == b[..8] + b[8..];
    }
  }

  lemma {:induction false} BitsRoundTrip(s: seq<Byte>)
    ensures ToBytes(FromBytes(s)) == s
  {
    ByteRange();
    if s != [] {
      BitsRoundTrip(s[1..]);
      var b := FromBytes(s);
      assert b[..8] == Bits(s[0], 8) && b[8..] == FromBytes(s[1..]);
      assert s == [s[0]] + s[1..];
    }
  }

  // Encoding and decoding are inverse; decoding reads only the first sixteen bytes.
  lemma KeyRoundTrip(k: Id, s: seq<Byte>, rest: seq<Byte>)
    ensures KeyFromBytes(KeyToBytes(k) + rest) == k
    ensures |s| == 16 ==> KeyToBytes(KeyFromBytes(s)) == s
    ensures KeyFromBytes(KeyToBytes(k)) == k
  {
    BytesRoundTrip(k);
    assert (KeyToBytes(k) + rest)[..16] == KeyToBytes(k);
    assert KeyToBytes(k)[..16] == KeyToBytes(k);
    if |s| == 16 {
      assert s[..16] == s;
      BitsRoundTrip(s);
    }
  }

  function BigEndian(s: seq<Byte>): nat {
    if s == [] then 0 else BigEndian(s[..|s| - 1]) * 256 + s[|s| - 1]
  }

  lemma {:induction false} ValueAppend(a: seq<bool>, b: seq<bool>)
    ensures Value(a + b) == Value(a) * Pow2(|b|) + Value(b)
  {
    if a == [] {
      assert a + b == b;
    } else {
      ValueAppend(a[1..], b);
      assert (a + b)[1..] == a[1..] + b;
      Pow2Sum(|a| - 1, |b|);
      var head := if a[0] then Pow2(|a| - 1) else 0;
      Distribute(head, Value(a[1..]), Pow2(|b|));
    }
  }

  lemma Distribute(x: nat, y: nat, m: nat)
    ensures (x + y) * m == x * m + y * m
  {
  }

  lemma {:induction false} Pow2Sum(m: nat, n: nat)
    ensures Pow2(m + n) == Pow2(m) * Pow2(n)
  {
    if m > 0 {
      Pow2Sum(m - 1, n);
    }
  }

  lemma BitsAssociate(whole: seq<bool>, tail: seq<bool>, last: seq<bool>)
    requires |whole| >= 8 && whole[8..] == tail
    ensures whole + last == whole[..8] + (tail + last)
  {
  }

  lemma {:induction false} FromBytesAppend(s: seq<Byte>, x: Byte)
    ensures FromBytes(s + [x]) == FromBytes(s) + FromBytes([x])
  {
    if s == [] {
      assert s + [x] == [x];
    } else {
      FromBytesAppend(s[1..], x);
      assert (s + [x])[1..] == s[1..] + [x];
      BitsAssociate(FromBytes(s), FromBytes(s[1..]), FromBytes([x]));
    }
  }

  // Decoding is the base-256 reading, so equal-length byte strings compare as numbers do.
  lemma {:induction false} BytesAreBigEndian(s: seq<Byte>)
    ensures Value(FromBytes(s)) == BigEndian(s)
  {
    if s != [] {
      var n := |s| - 1;
      BytesAreBigEndian(s[..n]);
      assert s == s[..n] + [s[n]];
      FromBytesAppend(s[..n], s[n]);
      ByteRange();
      assert FromBytes([s[n]]) == Bits(s[n], 8);
      ValueAppend(FromBytes(s[..n]), Bits(s[n], 8));
    }
  }

  // Keys travel as the base-256 digits of their number, most significant first.
  lemma KeysAreBigEndian(k: Id, s: seq<Byte>)
    requires |s| >= 16
    ensures Value(KeyFromBytes(s)) == BigEndian(s[..16])
    ensures BigEndian(KeyToBytes(k)) == Value(k)
  {
    BytesAreBigEndian(s[..16]);
    BytesAreBigEndian(KeyToBytes(k));
    BytesRoundTrip(k);
  }

  /** Lexicographic order of byte strings. */
  predicate LexLess(a: seq<Byte>, b: seq<Byte>)
    requires |a| == |b|
  {
    a != [] && (a[0] < b[0] || (a[0] == b[0] && LexLess(a[1..], b[1..])))
  }

  lemma {:induction false} LexIsNumeric(a: seq<Byte>, b: seq<Byte>)
    requires |a| == |b|
    ensures LexLess(a, b) <==> Value(FromBytes(a)) < Value(FromBytes(b))
  {
    if a != [] {
      LexIsNumeric(a[1..], b[1..]);
      ByteRange();
      var x, y := FromBytes(a[1..]), FromBytes(b[1..]);
      ValueAppend(Bits(a[0], 8), x);
      ValueAppend(Bits(b[0], 8), y);
      ScaledOrder(a[0], b[0], Value(x), Value(y), Pow2(|x|));
    }
  }

  lemma ScaledOrder(p: nat, q: nat, x: nat, y: nat, m: nat)
    requires x < m && y < m
    ensures p * m + x < q * m + y <==> p < q || (p == q && x < y)
  {
    if p < q {
      assert (p + 1) * m <= q * m;
    } else if q < p {
      assert (q + 1) * m <= p * m;
    }
  }
}
