/** Frames of the WebSocket client and the reader that reassembles messages (internal/wsclient/wsclient.go). */
module WebSocket {
  import opened Wrappers
  import opened Bytes

  type Opcode = x: nat | x < 16

  const CONTINUATION: Opcode := 0
  const TEXT: Opcode := 1
  const BINARY: Opcode := 2
  const CLOSE: Opcode := 8
  const PING: Opcode := 9
  const PONG: Opcode := 10

  const MAX_CONTROL: nat := 125
  const INT64_LIMIT: nat := 0x8000_0000_0000_0000

  type Mask = m: Octets | |m| == 4 witness [0, 0, 0, 0]

  // ---------- masking ----------

  /** Exclusive or of the low bits, bit by bit. */
  function Xor(a: nat, b: nat, bits: nat): nat {
    if bits == 0 then 0 else 2 * Xor(a / 2, b / 2, bits - 1) + (if a % 2 == b % 2 then 0 else 1)
  }

  function Pow2(bits: nat): nat {
    if bits == 0 then 1 else 2 * Pow2(bits - 1)
  }

  lemma {:induction false} XorFits(a: nat, b: nat, bits: nat)
    ensures Xor(a, b, bits) < Pow2(bits)
  {
    if bits > 0 { XorFits(a / 2, b / 2, bits - 1); }
  }

  lemma {:induction false} XorTwice(a: nat, b: nat, bits: nat)
    requires a < Pow2(bits)
    ensures Xor(Xor(a, b, bits), b, bits) == a
  {
    if bits > 0 {
      XorTwice(a / 2, b / 2, bits - 1);
      assert Xor(a, b, bits) / 2 == Xor(a / 2, b / 2, bits - 1);
    }
  }

  lemma Pow2Of8()
    ensures Pow2(8) == 256
  {
    assert Pow2(4) == 16;
    assert Pow2(8) == 16 * Pow2(4);
  }

  function XorByte(a: byte, b: byte): byte {
    XorFits(a as nat, b as nat, 8);
    Pow2Of8();
    Xor(a as nat, b as nat, 8) as byte
  }

  /** Each of the eight bits of x is set exactly if that bit of a and that bit of b differ. */
  predicate ExclusiveOr(x: byte, a: byte, b: byte) {
    && ((x / 128) % 2 == 1 <==> (a / 128) % 2 != (b / 128) % 2)
    && ((x / 64) % 2 == 1 <==> (a / 64) % 2 != (b / 64) % 2)
    && ((x / 32) % 2 == 1 <==> (a / 32) % 2 != (b / 32) % 2)
    && ((x / 16) % 2 == 1 <==> (a / 16) % 2 != (b / 16) % 2)
    && ((x / 8) % 2 == 1 <==> (a / 8) % 2 != (b / 8) % 2)
    && ((x / 4) % 2 == 1 <==> (a / 4) % 2 != (b / 4) % 2)
    && ((x / 2) % 2 == 1 <==> (a / 2) % 2 != (b / 2) % 2)
    && (x % 2 == 1 <==> a % 2 != b % 2)
  }

  /** Bit k of a number. */
  predicate BitSet(n: nat, k: nat) {
    if k == 0 then n % 2 == 1 else BitSet(n / 2, k - 1)
  }

  lemma {:induction false} XorBits(a: nat, b: nat, bits: nat, k: nat)
    requires k < bits
    ensures BitSet(Xor(a, b, bits), k) <==> BitSet(a, k) != BitSet(b, k)
  {
    var x := Xor(a, b, bits);
    if k > 0 {
      assert x / 2 == Xor(a / 2, b / 2, bits - 1);
      XorBits(a / 2, b / 2, bits - 1, k - 1);
    }
  }

  lemma BitBelow(n: nat, k: nat)
    ensures BitSet(n, k + 1) == BitSet(n / 2, k) && BitSet(n, 0) == (n % 2 == 1)
  {
  }

  lemma FourBits(n: nat)
    ensures BitSet(n, 3) == ((n / 8) % 2 == 1) && BitSet(n, 2) == ((n / 4) % 2 == 1)
    ensures BitSet(n, 1) == ((n / 2) % 2 == 1) && BitSet(n, 0) == (n % 2 == 1)
  {
    hide BitSet;
    BitBelow(n, 0);
    BitBelow(n, 1);
    BitBelow(n, 2);
    BitBelow(n / 2, 0);
    BitBelow(n / 2, 1);
    BitBelow(n / 2 / 2, 0);
    BitBelow(n / 2 / 2 / 2, 0);
  }

  lemma EightBits(n: nat)
    ensures BitSet(n, 7) == ((n / 128) % 2 == 1) && BitSet(n, 6) == ((n / 64) % 2 == 1)
    ensures BitSet(n, 5) == ((n / 32) % 2 == 1) && BitSet(n, 4) == ((n / 16) % 2 == 1)
    ensures BitSet(n, 3) == ((n / 8) % 2 == 1) && BitSet(n, 2) == ((n / 4) % 2 == 1)
    ensures BitSet(n, 1) == ((n / 2) % 2 == 1) && BitSet(n, 0) == (n % 2 == 1)
  {
    hide BitSet;
    FourBits(n);
    FourBits(n / 16);
    HighBits(n);
    Sixteenths(n);
  }

  lemma Sixteenths(n: nat)
    ensures n / 16 / 8 == n / 128 && n / 16 / 4 == n / 64 && n / 16 / 2 == n / 32
  {
  }

  lemma HighBits(n: nat)
    ensures BitSet(n, 7) == BitSet(n / 16, 3) && BitSet(n, 6) == BitSet(n / 16, 2)
    ensures BitSet(n, 5) == BitSet(n / 16, 1) && BitSet(n, 4) == BitSet(n / 16, 0)
  {
    hide BitSet;
    assert n / 2 / 2 / 2 / 2 == n / 16;
    FourBelow(n, 0);
    FourBelow(n, 1);
    FourBelow(n, 2);
    FourBelow(n, 3);
  }

  lemma FourBelow(n: nat, k: nat)
    ensures BitSet(n, k + 4) == BitSet(n / 2 / 2 / 2 / 2, k)
  {
    BitBelow(n, k + 3);
    BitBelow(n / 2, k + 2);
    BitBelow(n / 2 / 2, k + 1);
    BitBelow(n / 2 / 2 / 2, k);
  }

  /** XorByte is the exclusive or of two octets. */
  lemma XorByteMeans(a: byte, b: byte)
    ensures ExclusiveOr(XorByte(a, b), a, b)
  {
    var x := XorByte(a, b);
    Pow2Of8();
    XorFits(a as nat, b as nat, 8);
    assert x as nat == Xor(a as nat, b as nat, 8);
    hide Xor, XorByte;
    EightBits(x as nat);
    EightBits(a as nat);
    EightBits(b as nat);
    hide BitSet;
    XorBits(a as nat, b as nat, 8, 0);
    XorBits(a as nat, b as nat, 8, 1);
    XorBits(a as nat, b as nat, 8, 2);
    XorBits(a as nat, b as nat, 8, 3);
    XorBits(a as nat, b as nat, 8, 4);
    XorBits(a as nat, b as nat, 8, 5);
    XorBits(a as nat, b as nat, 8, 6);
    XorBits(a as nat, b as nat, 8, 7);
  }

  function Masked(payload: Octets, mask: Mask): (masked: Octets)
    ensures |masked| == |payload|
  {
    seq(|payload|, i requires 0 <= i < |payload| => XorByte(payload[i], mask[i % 4]))
  }

  lemma MaskedTwice(payload: Octets, mask: Mask)
    ensures Masked(Masked(payload, mask), mask) == payload
  {
    forall i | 0 <= i < |payload| ensures Masked(Masked(payload, mask), mask)[i] == payload[i] {
      Pow2Of8();
      XorTwice(payload[i] as nat, mask[i % 4] as nat, 8);
    }
  }

  // ---------- the wire form ----------

  datatype Frame = Frame(fin: bool, opcode: Opcode, mask: Option<Mask>, payload: Octets)

  /** The three spellings of a payload length. */
  datatype Form = Short | Medium | Long

  predicate Fits(form: Form, length: nat) {
    match form
    case Short => length < 126
    case Medium => length < 0x1_0000
    case Long => length < INT64_LIMIT
  }

  function Minimal(length: nat): Form {
    if length < 126 then Short else if length < 0x1_0000 then Medium else Long
  }

  function LengthCode(form: Form, length: nat): nat {
    match form
    case Short => length
    case Medium => 126
    case Long => 127
  }

  function Extension(form: Form, length: nat): Octets {
    match form
    case Short => []
    case Medium => BigEndian(length, 2)
    case Long => BigEndian(length, 8)
  }

  function Bit(b: bool): nat {
    if b then 128 else 0
  }

  function Head(fin: bool, opcode: Opcode, masked: bool, code: nat): (h: Octets)
    requires code < 128
    ensures |h| == 2
  {
    [(Bit(fin) + opcode) as byte, (Bit(masked) + code) as byte]
  }

  function Body(f: Frame): Octets {
    match f.mask
    case None => f.payload
    case Some(mask) => mask + Masked(f.payload, mask)
  }

  /** Section 5.2 of RFC 6455: flags and opcode, mask bit and length, extended length, masking key, payload. */
  function Spell(f: Frame, form: Form): Octets
    requires Fits(form, |f.payload|)
  {
    Head(f.fin, f.opcode, f.mask.Some?, LengthCode(form, |f.payload|)) + Extension(form, |f.payload|) + Body(f)
  }

  /** Section 5.5: control frames are short and whole. */
  predicate ControlIsLegal(f: Frame) {
    f.opcode >= 8 ==> f.fin && |f.payload| <= MAX_CONTROL
  }

  /** A server's parser of client frames: reserved bits clear, masked, lengths spelled minimally, control frames
      legal. */
  function Decode(b: Octets): Option<(Frame, Octets)> {
    if |b| < 2 || (b[0] / 16) % 8 != 0 || b[1] < 128 then None
    else
      match DecodeLength((b[1] - 128) as nat, b[2..])
      case None => None
      case Some((form, n, rest)) =>
        if form != Minimal(n) || |rest| < 4 + n then None
        else
          var f := Frame(b[0] >= 128, (b[0] % 16) as nat, Some(rest[..4]), Masked(rest[4..4 + n], rest[..4]));
          if ControlIsLegal(f) then Some((f, rest[4 + n..])) else None
  }

  function DecodeLength(code: nat, b: Octets): (r: Option<(Form, nat, Octets)>)
    requires code < 128
  {
    if code < 126 then Some((Short, code, b))
    else
      var width := if code == 126 then 2 else 8;
      if |b| < width then None
      else
        var n := FromBigEndian(b[..width]);
        if n >= INT64_LIMIT then None else Some((if code == 126 then Medium else Long, n, b[width..]))
  }

  lemma LengthInverse(form: Form, n: nat, rest: Octets)
    requires Fits(form, n)
    ensures DecodeLength(LengthCode(form, n), Extension(form, n) + rest) == Some((form, n, rest))
  {
    Pow256Values();
    if form.Short? {
      assert Extension(form, n) + rest == rest;
    } else {
      var width := if form.Medium? then 2 else 8;
      BigEndianRoundTrip(n, width);
      hide FromBigEndian, BigEndian;
      assert Extension(form, n) + rest == BigEndian(n, width) + rest;
      assert (BigEndian(n, width) + rest)[..width] == BigEndian(n, width)
          && (BigEndian(n, width) + rest)[width..] == rest;
    }
  }

  lemma LengthSpelled(code: nat, b: Octets)
    requires code < 128 && DecodeLength(code, b).Some?
    ensures var (form, n, rest) := DecodeLength(code, b).value;
            Fits(form, n) && code == LengthCode(form, n) && b == Extension(form, n) + rest
  {
    Pow256Values();
    if code >= 126 {
      var width := if code == 126 then 2 else 8;
      BigEndianIsOnto(b[..width]);
      hide BigEndian, FromBigEndian;
      assert b == b[..width] + b[width..];
    }
  }

  lemma HeadFields(fin: bool, opcode: Opcode, masked: bool, code: nat)
    requires code < 128
    ensures var h := Head(fin, opcode, masked, code);
            && (h[0] / 16) % 8 == 0 && (h[0] >= 128) == fin && (h[0] % 16) as nat == opcode
            && (h[1] >= 128) == masked && h[1] as nat == Bit(masked) + code
  {
  }

  lemma HeadIsOnto(h: Octets)
    requires |h| == 2 && (h[0] / 16) % 8 == 0
    ensures h == Head(h[0] >= 128, (h[0] % 16) as nat, h[1] >= 128, (if h[1] >= 128 then h[1] - 128 else h[1]) as nat)
  {
    var high := h[0] / 16;
    assert high < 16 && h[0] == 16 * high + h[0] % 16;
    assert high == 0 || high == 8;
  }

  /** The parser recovers every legal client frame from its spelling and leaves the rest of the stream alone. */
  lemma DecodeInvertsSpell(f: Frame, rest: Octets)
    requires f.mask.Some? && |f.payload| < INT64_LIMIT && ControlIsLegal(f)
    ensures Decode(Spell(f, Minimal(|f.payload|)) + rest) == Some((f, rest))
  {
    var form, mask := Minimal(|f.payload|), f.mask.value;
    var n := |f.payload|;
    var b, tail := Spell(f, form) + rest, mask + Masked(f.payload, mask) + rest;
    LengthInverse(form, n, tail);
    MaskedTwice(f.payload, mask);
    HeadFields(f.fin, f.opcode, true, LengthCode(form, n));
    hide DecodeLength, Extension, Masked, Head;
    SpellSplits(f, form, rest);
    assert b[..2] == Head(f.fin, f.opcode, true, LengthCode(form, n)) && b[0] == b[..2][0] && b[1] == b[..2][1];
    assert b[2..] == Extension(form, n) + tail;
    assert tail[..4] == mask && tail[4..4 + n] == Masked(f.payload, mask) && tail[4 + n..] == rest;
  }

  lemma SpellSplits(f: Frame, form: Form, rest: Octets)
    requires Fits(form, |f.payload|)
    ensures Spell(f, form) + rest
            == Head(f.fin, f.opcode, f.mask.Some?, LengthCode(form, |f.payload|))
                + (Extension(form, |f.payload|) + (Body(f) + rest))
  {
    hide Masked, Extension, Head, Body;
  }

  /** And it accepts nothing else: what it parses is the one spelling of a legal frame. */
  lemma DecodeIsExact(b: Octets)
    requires Decode(b).Some?
    ensures var (f, rest) := Decode(b).value;
            f.mask.Some? && ControlIsLegal(f) && |f.payload| < INT64_LIMIT && b == Spell(f, Minimal(|f.payload|)) + rest
  {
    hide DecodeLength, Extension, Masked, Head, Spell, FromBigEndian, LengthCode, Fits;
    LengthSpelled((b[1] - 128) as nat, b[2..]);
    HeadIsOnto(b[..2]);
    var (form, n, tail) := DecodeLength((b[1] - 128) as nat, b[2..]).value;
    MaskedTwice(tail[4..4 + n], tail[..4]);
    MinimalFits(n);
    var (f, rest) := Decode(b).value;
    assert Body(f) == tail[..4] + tail[4..4 + n];
    assert tail == tail[..4] + tail[4..4 + n] + rest;
    Assembled(b, f, form, tail, rest);
  }

  lemma MinimalFits(n: nat)
    ensures Fits(Minimal(n), n) <==> n < INT64_LIMIT
  {
  }

  lemma Assembled(b: Octets, f: Frame, form: Form, tail: Octets, rest: Octets)
    requires |b| >= 2 && Fits(form, |f.payload|)
    requires b[..2] == Head(f.fin, f.opcode, f.mask.Some?, LengthCode(form, |f.payload|))
    requires b[2..] == Extension(form, |f.payload|) + tail && tail == Body(f) + rest
    ensures b == Spell(f, form) + rest
  {
    hide Extension, Masked, Head, Body, Spell;
    SpellSplits(f, form, rest);
    assert b == b[..2] + b[2..];
  }
}
