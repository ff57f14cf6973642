/** Octet strings and the fixed-width big-endian integers of encoding/binary. */
module Bytes {

  newtype byte = x: int | 0 <= x < 256

  type Octets = seq<byte>

  /** A string constant as octets. Only ASCII constants are written this way. */
  function Ascii(s: string): (b: Octets)
    ensures |b| == |s|
    ensures forall i :: 0 <= i < |s| && s[i] < 128 as char ==> b[i] as int == s[i] as int
  {
    seq(|s|, i requires 0 <= i < |s| => ((s[i] as int) % 256) as byte)
  }

  /** White space as bytes.TrimSpace cuts it from a JSON text. */
  predicate White(b: byte) {
    b == 32 || 9 <= b <= 13
  }

  function FirstInk(b: Octets): (i: nat)
    ensures i <= |b| && AllWhite(b[..i]) && (i < |b| ==> !White(b[i]))
  {
    if b == [] || !White(b[0]) then 0
    else
      var i := FirstInk(b[1..]);
      assert b[..i + 1] == [b[0]] + b[1..][..i];
      i + 1
  }

  function InkEnd(b: Octets): (j: nat)
    ensures j <= |b| && AllWhite(b[j..]) && (j > 0 ==> !White(b[j - 1]))
    decreases |b|
  {
    if b == [] || !White(b[|b| - 1]) then |b|
    else
      var j := InkEnd(b[..|b| - 1]);
      assert b[j..] == b[..|b| - 1][j..] + [b[|b| - 1]];
      j
  }

  /** The text without the white space around it. */
  function Trimmed(b: Octets): Octets {
    var t := b[FirstInk(b)..];
    t[..InkEnd(t)]
  }

  ghost predicate AllWhite(b: Octets) {
    forall k :: 0 <= k < |b| ==> White(b[k])
  }

  /** Exactly the white space at both ends is cut: tabulators, line ends, form feeds and spaces. */
  lemma TrimmedMeans(left: Octets, ink: Octets, right: Octets)
    requires AllWhite(left) && AllWhite(right)
    ensures forall c: byte :: White(c) <==> c == 9 || c == 10 || c == 11 || c == 12 || c == 13 || c == 32
    requires ink == [] || (!White(ink[0]) && !White(ink[|ink| - 1]))
    ensures Trimmed(left + ink + right) == ink
  {
    var b := left + ink + right;
    var i := FirstInk(b);
    assert forall k :: 0 <= k < i ==> White(b[k]) by {
      forall k | 0 <= k < i ensures White(b[k]) { assert b[..i][k] == b[k]; }
    }
    assert forall k :: 0 <= k < |left| ==> b[k] == left[k];
    if ink != [] {
      assert b[|left|] == ink[0];
      assert i == |left|;
      var t := b[i..];
      assert t == ink + right;
      var j := InkEnd(t);
      assert forall k :: j <= k < |t| ==> White(t[k]) by {
        forall k | j <= k < |t| ensures White(t[k]) { assert t[j..][k - j] == t[k]; }
      }
      assert t[|ink| - 1] == ink[|ink| - 1];
      assert forall k :: |ink| <= k < |t| ==> t[k] == right[k - |ink|];
      assert j == |ink|;
    } else {
      assert forall k :: |left| <= k < |b| ==> b[k] == right[k - |left|];
      assert i == |b|;
    }
  }

  function Pow256(width: nat): (p: nat)
    ensures p > 0
  {
    if width == 0 then 1 else 256 * Pow256(width - 1)
  }

  /** PutUint16/32/64: bits above the width are dropped, as the Go conversions do. */
  function BigEndian(value: nat, width: nat): (b: Octets)
    ensures |b| == width
  {
    if width == 0 then [] else BigEndian(value / 256, width - 1) + [(value % 256) as byte]
  }

  function FromBigEndian(b: Octets): (value: nat)
    ensures value < Pow256(|b|)
    decreases |b|
  {
    if |b| == 0 then 0 else 256 * FromBigEndian(b[..|b| - 1]) + b[|b| - 1] as nat
  }

  lemma {:induction false} BigEndianRoundTrip(value: nat, width: nat)
    requires value < Pow256(width)
    ensures FromBigEndian(BigEndian(value, width)) == value
  {
    if width > 0 {
      BigEndianRoundTrip(value / 256, width - 1);
      var b := BigEndian(value, width);
      assert b[..|b| - 1] == BigEndian(value / 256, width - 1);
    }
  }

  /** The encoding has no second spelling: every octet string is the encoding of its value. */
  lemma {:induction false} BigEndianIsOnto(b: Octets)
    ensures BigEndian(FromBigEndian(b), |b|) == b
    decreases |b|
  {
    if |b| > 0 {
      BigEndianIsOnto(b[..|b| - 1]);
      var high, low := FromBigEndian(b[..|b| - 1]), b[|b| - 1] as nat;
      assert FromBigEndian(b) / 256 == high && FromBigEndian(b) % 256 == low;
      assert b == b[..|b| - 1] + [b[|b| - 1]];
    }
  }

  lemma Pow256Values()
    ensures Pow256(2) == 0x1_0000 && Pow256(4) == 0x1_0000_0000 && Pow256(8) == 0x1_0000_0000_0000_0000
  {
    assert Pow256(1) == 256 * Pow256(0);
    assert Pow256(2) == 256 * Pow256(1);
    assert Pow256(3) == 256 * Pow256(2);
    assert Pow256(4) == 256 * Pow256(3);
    assert Pow256(5) == 256 * Pow256(4);
    assert Pow256(6) == 256 * Pow256(5);
    assert Pow256(7) == 256 * Pow256(6);
    assert Pow256(8) == 256 * Pow256(7);
  }

  /** The most significant octet comes first, at the three widths in use. */
  lemma MostSignificantFirst(value: nat)
    ensures value < 0x1_0000 ==> var b := BigEndian(value, 2); value == 256 * b[0] as nat + b[1] as nat
    ensures value < 0x1_0000_0000 ==>
              var b := BigEndian(value, 4);
              value == 0x100_0000 * b[0] as nat + 0x1_0000 * b[1] as nat + 0x100 * b[2] as nat + b[3] as nat
    ensures value < 0x1_0000_0000_0000_0000 ==>
              var b := BigEndian(value, 8);
              value == 0x100_0000_0000_0000 * b[0] as nat + 0x1_0000_0000_0000 * b[1] as nat
                       + 0x100_0000_0000 * b[2] as nat + 0x1_0000_0000 * b[3] as nat
                       + 0x100_0000 * b[4] as nat + 0x1_0000 * b[5] as nat + 0x100 * b[6] as nat + b[7] as nat
  {
    Pow256Values();
    if value < 0x1_0000 { BigEndianRoundTrip(value, 2); TwoOctets(BigEndian(value, 2)); }
    if value < 0x1_0000_0000 { BigEndianRoundTrip(value, 4); FourOctets(BigEndian(value, 4)); }
    if value < 0x1_0000_0000_0000_0000 { BigEndianRoundTrip(value, 8); EightOctets(BigEndian(value, 8)); }
  }

  lemma TwoOctets(b: Octets)
    requires |b| == 2
    ensures FromBigEndian(b) == 256 * b[0] as nat + b[1] as nat
  {
    LastOctet(b, 1);
    LastOctet(b, 0);
    assert b[..0] == [];
  }

  lemma FourOctets(b: Octets)
    requires |b| == 4
    ensures FromBigEndian(b)
            == 0x100_0000 * b[0] as nat + 0x1_0000 * b[1] as nat + 0x100 * b[2] as nat + b[3] as nat
  {
    hide FromBigEndian;
    LastOctet(b, 3);
    LastOctet(b, 2);
    TwoOctets(b[..2]);
  }

  lemma EightOctets(b: Octets)
    requires |b| == 8
    ensures FromBigEndian(b)
            == 0x100_0000_0000_0000 * b[0] as nat + 0x1_0000_0000_0000 * b[1] as nat
               + 0x100_0000_0000 * b[2] as nat + 0x1_0000_0000 * b[3] as nat
               + 0x100_0000 * b[4] as nat + 0x1_0000 * b[5] as nat + 0x100 * b[6] as nat + b[7] as nat
  {
    hide FromBigEndian;
    LastOctet(b, 7);
    LastOctet(b, 6);
    LastOctet(b, 5);
    LastOctet(b, 4);
    FourOctets(b[..4]);
  }

  lemma LastOctet(b: Octets, n: nat)
    requires n < |b|
    ensures FromBigEndian(b[..n + 1]) == 256 * FromBigEndian(b[..n]) + b[n] as nat
    ensures |b| == n + 1 ==> b[..n + 1] == b
  {
    assert b[..n + 1][..n] == b[..n];
  }
}
