/** Byte strings as big-endian numbers, and what the lexicographic order means for them. */
module Numbers {
  import opened Words

  function Pow256(k: nat): (p: nat)
    ensures p >= 1
  {
    if k == 0 then 1 else 256 * Pow256(k - 1)
  }

  function BigEndian(n: nat, k: nat): (b: Bytes)
    ensures |b| == k
  {
    if k == 0 then [] else BigEndian(n / 256, k - 1) + [n % 256]
  }

  function FromBigEndian(b: Bytes): nat
  {
    if b == [] then 0 else 256 * FromBigEndian(b[..|b| - 1]) + b[|b| - 1]
  }

  lemma {:induction false} BigEndianRoundTrip(n: nat, k: nat)
    requires n < Pow256(k)
    ensures FromBigEndian(BigEndian(n, k)) == n
  {
    if k > 0 {
      BigEndianRoundTrip(n / 256, k - 1);
      assert BigEndian(n, k)[..k - 1] == BigEndian(n / 256, k - 1);
    }
  }

  lemma {:induction false} FromBigEndianRoundTrip(b: Bytes)
    ensures FromBigEndian(b) < Pow256(|b|) && BigEndian(FromBigEndian(b), |b|) == b
  {
    if b != [] {
      FromBigEndianRoundTrip(b[..|b| - 1]);
      assert b == b[..|b| - 1] + [b[|b| - 1]];
    }
  }

  /** The most significant byte comes first. */
  lemma {:induction false} FirstByteCounts(x: byte, b: Bytes)
    ensures FromBigEndian([x] + b) == x * Pow256(|b|) + FromBigEndian(b)
    decreases |b|
  {
    var s := [x] + b;
    if b == [] {
      assert s == [x] && s[..0] == [];
      assert FromBigEndian(s[..0]) == 0;
    } else {
      var front := b[..|b| - 1];
      FirstByteCounts(x, front);
      assert s[..|s| - 1] == [x] + front && s[|s| - 1] == b[|b| - 1];
      Regroup(x, Pow256(|front|), FromBigEndian(front), b[|b| - 1]);
    }
  }

  lemma Regroup(x: int, p: int, v: int, last: int)
    ensures 256 * (x * p + v) + last == x * (256 * p) + (256 * v + last)
  {
  }

  lemma Scaled(x: int, y: int, p: int)
    requires x < y && p >= 0
    ensures x * p + p <= y * p
  {
    assert (y - x - 1) * p >= 0;
  }

  /** On byte strings of one length the lexicographic order is the order of numbers. */
  lemma {:induction false} LexIsNumeric(a: Bytes, b: Bytes)
    requires |a| == |b|
    ensures LexLeq(a, b) <==> FromBigEndian(a) <= FromBigEndian(b)
    decreases |a|
  {
    if a != [] {
      var s, t, p := a[1..], b[1..], Pow256(|a| - 1);
      assert a == [a[0]] + s && b == [b[0]] + t;
      FirstByteCounts(a[0], s);
      FirstByteCounts(b[0], t);
      FromBigEndianRoundTrip(s);
      FromBigEndianRoundTrip(t);
      if a[0] < b[0] {
        Scaled(a[0], b[0], p);
      } else if b[0] < a[0] {
        Scaled(b[0], a[0], p);
      } else {
        LexIsNumeric(s, t);
      }
    }
  }
}
