/** The client connection: writeFrame, readFrame and Read (internal/wsclient/wsclient.go:119-202 and 255-291). */
module WebSocketClient {
  import opened Wrappers
  import opened Bytes
  import opened WebSocket

  datatype Error =
    | Eof | UnexpectedEof | Cancelled | BadFlags | BadLength | BadControl | FrameTooLong
    | NewBeforeFinal | UnexpectedContinuation | BadOpcode | MessageTooLong | WriteFailed

  // ---------- one frame ----------

  datatype Scanned = Got(fin: bool, opcode: Opcode, payload: Octets) | Failed(error: Error)

  /** What a read that finds too little reports; a context that is over takes precedence. */
  function ShortRead(b: Octets, over: bool): Error {
    if over then Cancelled else if b == [] then Eof else UnexpectedEof
  }

  function Width(code: nat): nat {
    if code < 126 then 0 else if code == 126 then 2 else 8
  }

  /** What readFrame reports for a stream, and the stream it leaves. */
  function Scan(b: Octets, limit: nat, over: bool): (r: (Scanned, Octets))
    ensures r.0.Got? ==>
              |r.1| + 2 + |r.0.payload| <= |b| && |r.0.payload| <= limit
                  && (r.0.opcode >= 8 ==> |r.0.payload| <= MAX_CONTROL)
  {
    if |b| < 2 then (Failed(ShortRead(b, over)), [])
    else if (b[0] / 16) % 8 != 0 || b[1] >= 128 then (Failed(BadFlags), b[2..])
    else
      var fin, opcode, code := b[0] >= 128, (b[0] % 16) as nat, b[1] as nat;
      if |b| - 2 < Width(code) then (Failed(ShortRead(b[2..], over)), [])
      else
        match DecodeLength(code, b[2..])
        case None => (Failed(BadLength), b[2 + Width(code)..])
        case Some((form, n, rest)) =>
          if opcode >= 8 && (!fin || n > MAX_CONTROL) then (Failed(BadControl), rest)
          else if n > limit then (Failed(FrameTooLong), rest)
          else if |rest| < n then (Failed(ShortRead(rest, over)), [])
          else (Got(fin, opcode, rest[..n]), rest[n..])
  }

  datatype Framing = Piece(fin: bool, opcode: Opcode, payload: Octets, form: Form)

  function Unmasked(p: Framing): Frame {
    Frame(p.fin, p.opcode, None, p.payload)
  }

  predicate WellFormed(p: Framing) {
    Fits(p.form, |p.payload|) && ControlIsLegal(Unmasked(p))
  }

  /** A legal server frame in any of its length spellings. */
  type ServerFrame = p: Framing | WellFormed(p) witness Piece(true, PING, [], Short)

  function Wired(p: ServerFrame): (b: Octets)
    ensures |b| >= 2
  {
    Spell(Unmasked(p), p.form)
  }

  /** readFrame inverts every length spelling of a legal server frame and leaves the rest of the stream untouched. */
  lemma ScanReadsFrame(p: ServerFrame, rest: Octets, limit: nat, over: bool)
    requires |p.payload| <= limit
    ensures Scan(Wired(p) + rest, limit, over) == (Got(p.fin, p.opcode, p.payload), rest)
  {
    var n := |p.payload|;
    var b, tail := Wired(p) + rest, p.payload + rest;
    LengthInverse(p.form, n, tail);
    HeadFields(p.fin, p.opcode, false, LengthCode(p.form, n));
    SpellSplits(Unmasked(p), p.form, rest);
    ExtensionWidth(p.form, n);
    hide DecodeLength, Extension, Head, Wired;
    assert b == Head(p.fin, p.opcode, false, LengthCode(p.form, n)) + (Extension(p.form, n) + tail);
    assert b[..2] == Head(p.fin, p.opcode, false, LengthCode(p.form, n)) && b[0] == b[..2][0] && b[1] == b[..2][1];
    assert b[2..] == Extension(p.form, n) + tail;
    assert tail[..n] == p.payload && tail[n..] == rest;
  }

  lemma ExtensionWidth(form: Form, n: nat)
    requires Fits(form, n)
    ensures |Extension(form, n)| == Width(LengthCode(form, n))
  {
  }

  function FormOf(code: nat): Form {
    if code < 126 then Short else if code == 126 then Medium else Long
  }

  /** And it accepts nothing else. */
  lemma ScanIsExact(b: Octets, limit: nat, over: bool)
    requires Scan(b, limit, over).0.Got?
    ensures var (f, rest) := Scan(b, limit, over);
            var p := Piece(f.fin, f.opcode, f.payload, FormOf(b[1] as nat));
            WellFormed(p) && |p.payload| <= limit && b == Wired(p) + rest
  {
    var (form, n, tail) := DecodeLength(b[1] as nat, b[2..]).value;
    LengthSpelled(b[1] as nat, b[2..]);
    assert form == FormOf(b[1] as nat);
    HeadIsOnto(b[..2]);
    hide DecodeLength, Extension, Head, Spell;
    var (f, rest) := Scan(b, limit, over);
    assert tail == tail[..n] + tail[n..];
    Assembled(b, Frame(f.fin, f.opcode, None, f.payload), form, tail, rest);
  }

  /** The octets of one frame a server may send and what follows it: no reserved bit, no mask, any spelling of a length
      below 2^63 and within the limit, and a control frame whole and of at most 125 octets. */
  ghost predicate ServerOctets(b: Octets, limit: nat, fin: bool, opcode: Opcode, payload: Octets, rest: Octets) {
    && |b| >= 2 && b[0] as nat == (if fin then 128 else 0) + opcode && b[1] < 128
    && var start := if b[1] < 126 then 2 else if b[1] == 126 then 4 else 10;
    && |b| >= start
    && var n := if b[1] < 126 then b[1] as nat
                else if b[1] == 126 then 256 * b[2] as nat + b[3] as nat
                else 0x100_0000_0000_0000 * b[2] as nat + 0x1_0000_0000_0000 * b[3] as nat
                     + 0x100_0000_0000 * b[4] as nat + 0x1_0000_0000 * b[5] as nat + 0x100_0000 * b[6] as nat
                     + 0x1_0000 * b[7] as nat + 0x100 * b[8] as nat + b[9] as nat;
    && n < 0x8000_0000_0000_0000 && n <= limit && (opcode >= 8 ==> fin && n <= 125)
    && |b| >= start + n && payload == b[start..start + n] && rest == b[start + n..]
  }

  /** readFrame returns a frame exactly if the stream begins with its octets. */
  lemma ScanIff(b: Octets, limit: nat, over: bool, fin: bool, opcode: Opcode, payload: Octets, rest: Octets)
    ensures Scan(b, limit, over) == (Got(fin, opcode, payload), rest) <==>
            ServerOctets(b, limit, fin, opcode, payload, rest)
  {
    if |b| >= 2 && b[1] < 128 {
      hide ServerOctets, DecodeLength, Scan, LengthOf;
      FirstOctet(b[0], fin, opcode);
      ScanByLength(b, limit, over);
      OctetsByLength(b, limit, fin, opcode, payload, rest);
    } else {
      hide DecodeLength;
    }
  }

  /** Which error readFrame reports, in the order of its checks: the end of the stream between frames or within one (or
      the context's, once that is over), reserved bits or a mask, a length of 2^63 or more, a control frame in pieces or
      over 125 octets, a payload over the limit. */
  lemma ScanFailure(b: Octets, limit: nat, over: bool)
    ensures var f, ended := Scan(b, limit, over).0, if over then Cancelled else UnexpectedEof;
            && (b == [] ==> f == Failed(if over then Cancelled else Eof))
            && (|b| == 1 ==> f == Failed(ended))
            && (|b| >= 2 && ((b[0] / 16) % 8 != 0 || b[1] >= 128) ==> f == Failed(BadFlags))
            && (|b| >= 2 && (b[0] / 16) % 8 == 0 && b[1] < 128 ==>
                  var start, n := if b[1] < 126 then 2 else if b[1] == 126 then 4 else 10, LengthOf(b);
                  var wide, broken := n >= 0x8000_0000_0000_0000, b[0] % 16 >= 8 && (b[0] < 128 || n > 125);
                  && (2 < |b| < start ==> f == Failed(ended))
                  && (|b| >= start && wide ==> f == Failed(BadLength))
                  && (|b| >= start && !wide && broken ==> f == Failed(BadControl))
                  && (|b| >= start && !wide && !broken && n > limit ==> f == Failed(FrameTooLong))
                  && (start < |b| < start + n && !wide && !broken && n <= limit ==> f == Failed(ended)))
  {
    hide DecodeLength, LengthOf;
    if |b| >= 2 && b[1] < 128 && |b| >= 2 + Width(b[1] as nat) {
      LengthDecodes(b);
    }
  }

  /** The length a header spells, 0 if it is cut short. */
  ghost function LengthOf(b: Octets): nat
    requires |b| >= 2
  {
    if b[1] < 126 then b[1] as nat
    else if b[1] == 126 then if |b| < 4 then 0 else 256 * b[2] as nat + b[3] as nat
    else if |b| < 10 then 0
    else 0x100_0000_0000_0000 * b[2] as nat + 0x1_0000_0000_0000 * b[3] as nat
         + 0x100_0000_0000 * b[4] as nat + 0x1_0000_0000 * b[5] as nat + 0x100_0000 * b[6] as nat
         + 0x1_0000 * b[7] as nat + 0x100 * b[8] as nat + b[9] as nat
  }

  lemma FirstOctet(x: byte, fin: bool, opcode: Opcode)
    ensures x as nat == (if fin then 128 else 0) + opcode <==>
            (x / 16) % 8 == 0 && (x >= 128) == fin && (x % 16) as nat == opcode
  {
  }

  lemma LengthDecodes(b: Octets)
    requires |b| >= 2 && b[1] < 128 && |b| >= 2 + Width(b[1] as nat)
    ensures var code, n := b[1] as nat, LengthOf(b);
            && (DecodeLength(code, b[2..]).Some? <==> n < 0x8000_0000_0000_0000)
            && (n < 0x8000_0000_0000_0000 ==>
                  DecodeLength(code, b[2..]) == Some((FormOf(code), n, b[2 + Width(code)..])))
  {
    hide FromBigEndian;
    if b[1] == 126 {
      TwoOctets(b[2..][..2]);
    } else if b[1] == 127 {
      EightOctets(b[2..][..8]);
    }
  }

  lemma ScanByLength(b: Octets, limit: nat, over: bool)
    requires |b| >= 2 && b[1] < 128
    ensures var start, n, (f, rest) := 2 + Width(b[1] as nat), LengthOf(b), Scan(b, limit, over);
            var fin, op := b[0] >= 128, b[0] % 16;
            && (f.Got? <==>
                && (b[0] / 16) % 8 == 0 && |b| >= start && n < 0x8000_0000_0000_0000 && n <= limit
                && (op >= 8 ==> fin && n <= 125) && |b| >= start + n)
            && (f.Got? ==>
                  f == Got(fin, op as nat, b[start..start + n]) && rest == b[start + n..])
  {
    hide DecodeLength, LengthOf;
    if |b| >= 2 + Width(b[1] as nat) {
      LengthDecodes(b);
    }
  }

  lemma OctetsByLength(b: Octets, limit: nat, fin: bool, opcode: Opcode, payload: Octets, rest: Octets)
    requires |b| >= 2 && b[1] < 128
    ensures var start, n := 2 + Width(b[1] as nat), LengthOf(b);
            ServerOctets(b, limit, fin, opcode, payload, rest) <==>
            && b[0] as nat == (if fin then 128 else 0) + opcode && |b| >= start
            && n < 0x8000_0000_0000_0000 && n <= limit
            && (opcode >= 8 ==> fin && n <= 125) && |b| >= start + n
            && payload == b[start..start + n] && rest == b[start + n..]
  {
  }

  // ---------- the connection ----------

  /** Randomness and the network: the mask of the k-th write, how much of it is sent when it fails, and whether it is
      because the context is over that reads and writes fail; the input is what arrives until then. */
  datatype Outside = Outside(mask: nat -> Mask, cut: nat -> Option<nat>, over: bool)

  /** Unread input, output so far, number of writes attempted, pings awaiting a pong. */
  datatype Wire = Wire(input: Octets, output: Octets, writes: nat, waiting: set<Octets>, closed: bool)

  function ClientFrame(mask: Mask, opcode: Opcode, payload: Octets): Octets
    requires |payload| < INT64_LIMIT
  {
    Spell(Frame(true, opcode, Some(mask), payload), Minimal(|payload|))
  }

  /** The octets of one client frame, as sections 5.2 and 5.3 of RFC 6455 number them: final bit and opcode, mask bit
      and length in its shortest spelling with the most significant octet first, the masking key, and the payload
      combined with it by exclusive or. */
  ghost predicate FrameOctets(b: Octets, opcode: Opcode, mask: Mask, payload: Octets) {
    var n := |payload|;
    var start := if n < 126 then 2 else if n < 0x1_0000 then 4 else 10;
    && |b| == start + 4 + n && b[0] as nat == 128 + opcode
    && (start == 2 ==> b[1] as nat == 128 + n)
    && var e, body := b[2..start], b[start + 4..];
    && (start == 4 ==> b[1] == 254 && 256 * e[0] as nat + e[1] as nat == n)
    && (start == 10 ==>
          && b[1] == 255
          && 0x100_0000_0000_0000 * e[0] as nat + 0x1_0000_0000_0000 * e[1] as nat + 0x100_0000_0000 * e[2] as nat
             + 0x1_0000_0000 * e[3] as nat + 0x100_0000 * e[4] as nat + 0x1_0000 * e[5] as nat
             + 0x100 * e[6] as nat + e[7] as nat == n)
    && b[start..start + 4] == mask
    && forall i :: 0 <= i < n ==> ExclusiveOr(body[i], payload[i], mask[i % 4])
  }

  lemma ClientFrameOctets(mask: Mask, opcode: Opcode, payload: Octets)
    requires |payload| < INT64_LIMIT
    ensures FrameOctets(ClientFrame(mask, opcode, payload), opcode, mask, payload)
  {
    var n, form := |payload|, Minimal(|payload|);
    var head, extension := Head(true, opcode, true, LengthCode(form, n)), Extension(form, n);
    var masked := Masked(payload, mask);
    HeadOctets(opcode, LengthCode(form, n));
    ExtensionOctets(n);
    MaskedOctets(payload, mask);
    hide Masked, BigEndian, Head, ExclusiveOr, Extension;
    Sections(head, extension, mask, masked);
  }

  lemma Sections(head: Octets, extension: Octets, mask: Mask, masked: Octets)
    requires |head| == 2
    ensures var b, start := head + extension + (mask + masked), 2 + |extension|;
            && |b| == start + 4 + |masked| && b[0] == head[0] && b[1] == head[1] && b[start..start + 4] == mask
            && b[2..start] == extension && b[start + 4..] == masked
  {
  }

  lemma MaskedOctets(payload: Octets, mask: Mask)
    ensures forall i :: 0 <= i < |payload| ==> ExclusiveOr(Masked(payload, mask)[i], payload[i], mask[i % 4])
  {
    forall i | 0 <= i < |payload| { XorByteMeans(payload[i], mask[i % 4]); }
  }

  lemma ExtensionOctets(n: nat)
    requires n < INT64_LIMIT
    ensures var e := Extension(Minimal(n), n);
            && (n < 126 ==> e == [])
            && (126 <= n < 0x1_0000 ==> |e| == 2 && 256 * e[0] as nat + e[1] as nat == n)
            && (0x1_0000 <= n ==>
                  && |e| == 8
                  && 0x100_0000_0000_0000 * e[0] as nat + 0x1_0000_0000_0000 * e[1] as nat
                     + 0x100_0000_0000 * e[2] as nat + 0x1_0000_0000 * e[3] as nat + 0x100_0000 * e[4] as nat
                     + 0x1_0000 * e[5] as nat + 0x100 * e[6] as nat + e[7] as nat == n)
  {
    MostSignificantFirst(n);
    hide BigEndian;
  }

  lemma HeadOctets(opcode: Opcode, code: nat)
    requires code < 128
    ensures var h := Head(true, opcode, true, code); h[0] as nat == 128 + opcode && h[1] as nat == 128 + code
  {
  }

  function Upto(b: Octets, n: nat): Octets {
    if n < |b| then b[..n] else b
  }

  function Written(o: Outside, w: Wire, opcode: Opcode, payload: Octets): (bool, Wire)
    requires |payload| < INT64_LIMIT
  {
    if opcode >= 8 && |payload| > MAX_CONTROL then (false, w)
    else
      var b := ClientFrame(o.mask(w.writes), opcode, payload);
      match o.cut(w.writes)
      case None => (true, w.(output := w.output + b, writes := w.writes + 1))
      case Some(n) => (false, w.(output := w.output + Upto(b, n), writes := w.writes + 1))
  }

  /** Whatever writeFrame reports as sent is one frame that a server's parser reads back exactly. */
  lemma WrittenIsDecoded(o: Outside, w: Wire, opcode: Opcode, payload: Octets, rest: Octets)
    requires |payload| < INT64_LIMIT && Written(o, w, opcode, payload).0
    ensures var w' := Written(o, w, opcode, payload).1;
            |w.output| <= |w'.output| && w'.output[..|w.output|] == w.output
            && Decode(w'.output[|w.output|..] + rest)
            == Some((Frame(true, opcode, Some(o.mask(w.writes)), payload), rest))
  {
    DecodeInvertsSpell(Frame(true, opcode, Some(o.mask(w.writes)), payload), rest);
    var b := ClientFrame(o.mask(w.writes), opcode, payload);
    assert (w.output + b)[|w.output|..] == b;
    hide Decode, Spell;
  }

  datatype ReadResult = Message(kind: Opcode, body: Octets) | Stopped(error: Error)

  predicate IsData(opcode: Opcode) {
    opcode == CONTINUATION || opcode == TEXT || opcode == BINARY
  }

  datatype Turn = Finished(result: ReadResult, w: Wire) | More(w: Wire, kind: Opcode, message: Octets)

  /** One turn of Read's loop, with the kind and payload gathered so far. */
  function ReadTurn(o: Outside, limit: nat, w: Wire, kind: Opcode, message: Octets): (r: Turn)
    ensures r.More? ==> |r.w.input| < |w.input|
  {
    var (frame, rest) := Scan(w.input, limit, o.over);
    var w1 := w.(input := rest);
    match frame
    case Failed(error) => Finished(Stopped(error), w1)
    case Got(fin, opcode, payload) =>
      if opcode == CLOSE then Finished(Stopped(Eof), Written(o, w1, CLOSE, payload).1.(closed := true))
      else if opcode == PING then
        var (ok, w2) := Written(o, w1, PONG, payload);
        if ok then More(w2, kind, message) else Finished(Stopped(if o.over then Cancelled else WriteFailed), w2)
      else if opcode == PONG then More(w1.(waiting := w1.waiting - {payload}), kind, message)
      else if !IsData(opcode) then Finished(Stopped(BadOpcode), w1)
      else if opcode != CONTINUATION && kind != 0 then Finished(Stopped(NewBeforeFinal), w1)
      else if opcode == CONTINUATION && kind == 0 then Finished(Stopped(UnexpectedContinuation), w1)
      else if |message| + |payload| > limit then Finished(Stopped(MessageTooLong), w1)
      else
        var kind1 := if kind == 0 then opcode else kind;
        if fin then Finished(Message(kind1, message + payload), w1) else More(w1, kind1, message + payload)
  }

  /** What Read makes of one frame, by the opcode's number. */
  lemma TurnByOpcode(o: Outside, limit: nat, w: Wire, kind: Opcode, message: Octets, fin: bool, op: Opcode,
                     payload: Octets, rest: Octets)
    requires Scan(w.input, limit, o.over) == (Got(fin, op, payload), rest)
    ensures var turn, w1 := ReadTurn(o, limit, w, kind, message), w.(input := rest);
            && (op == 8 ==>
                  && turn.Finished? && turn.result == Stopped(Eof) && turn.w.closed && turn.w.input == rest
                  && turn.w.waiting == w.waiting
                  && (o.cut(w.writes).None? ==>
                        && |w.output| <= |turn.w.output| && turn.w.output[..|w.output|] == w.output
                        && FrameOctets(turn.w.output[|w.output|..], 8, o.mask(w.writes), payload)))
            && (op == 9 ==>
                  && turn.w.input == rest && turn.w.waiting == w.waiting && turn.w.closed == w.closed
                  && turn.w.writes == w.writes + 1 && (turn.More? <==> o.cut(w.writes).None?)
                  && (turn.More? ==>
                        && turn.kind == kind && turn.message == message
                        && |w.output| <= |turn.w.output| && turn.w.output[..|w.output|] == w.output
                        && FrameOctets(turn.w.output[|w.output|..], 10, o.mask(w.writes), payload)))
            && (op == 10 ==> turn == More(w1.(waiting := w.waiting - {payload}), kind, message))
            && (3 <= op <= 7 || op >= 11 ==> turn == Finished(Stopped(BadOpcode), w1))
            && ((op == 1 || op == 2) && kind != 0 ==> turn == Finished(Stopped(NewBeforeFinal), w1))
            && (op == 0 && kind == 0 ==> turn == Finished(Stopped(UnexpectedContinuation), w1))
            && (op <= 2 && (op == 0 <==> kind != 0) ==>
                  var whole := if op == 0 then kind else op;
                  && (|message| + |payload| > limit ==> turn == Finished(Stopped(MessageTooLong), w1))
                  && (|message| + |payload| <= limit && fin ==>
                        turn == Finished(Message(whole, message + payload), w1))
                  && (|message| + |payload| <= limit && !fin ==> turn == More(w1, whole, message + payload)))
  {
    hide Scan, ClientFrame, FrameOctets;
    if op == 8 || op == 9 {
      var answer: Opcode := if op == 8 then 8 else 10;
      ClientFrameOctets(o.mask(w.writes), answer, payload);
      var b := ClientFrame(o.mask(w.writes), answer, payload);
      assert (w.output + b)[|w.output|..] == b && (w.output + b)[..|w.output|] == w.output;
    }
  }

  function ReadAll(o: Outside, limit: nat, w: Wire, kind: Opcode, message: Octets): (ReadResult, Wire)
    decreases |w.input|
  {
    match ReadTurn(o, limit, w, kind, message)
    case Finished(result, w') => (result, w')
    case More(w', kind', message') => ReadAll(o, limit, w', kind', message')
  }

  class Conn {
    const outside: Outside
    var limit: nat
    var input: Octets
    var output: Octets
    var writes: nat
    var waiting: set<Octets>
    var closed: bool

    function View(): Wire
      reads this
    {
      Wire(input, output, writes, waiting, closed)
    }

    constructor (outside: Outside, input: Octets)
      ensures View() == Wire(input, [], 0, {}, false) && limit == 0x10_0000 && this.outside == outside
    {
      this.outside, this.input := outside, input;
      output, writes, waiting, closed, limit := [], 0, {}, false, 0x10_0000;
    }

    method SetReadLimit(limit: int)
      modifies this`limit
      ensures this.limit == if limit > 0 then limit else old(this.limit)
    {
      if limit > 0 {
        this.limit := limit;
      }
    }

    method ReadFull(n: nat) returns (r: Option<Octets>, error: Error)
      modifies this`input
      ensures r.Some? <==> n <= |old(input)|
      ensures r.Some? ==> r.value == old(input)[..n] && input == old(input)[n..]
      ensures r.None? ==> error == ShortRead(old(input), outside.over) && input == []
      ensures error == (if outside.over then Cancelled else if |old(input)| == 0 then Eof else UnexpectedEof)
    {
      error := ShortRead(input, outside.over);
      if |input| < n {
        input := [];
        return None, error;
      }
      r, input := Some(input[..n]), input[n..];
    }

    method ReadFrame() returns (r: Scanned)
      modifies this`input
      ensures (r, input) == Scan(old(input), limit, outside.over)
    {
      hide FromBigEndian;
      var header, error := ReadFull(2);
      if header.None? {
        return Failed(error);
      }
      if (header.value[0] / 16) % 8 != 0 || header.value[1] >= 128 {
        return Failed(BadFlags);
      }
      var fin, opcode, length := header.value[0] >= 128, (header.value[0] % 16) as nat, header.value[1] as nat;
      if length >= 126 {
        var extended;
        extended, error := ReadFull(if length == 126 then 2 else 8);
        if extended.None? {
          return Failed(error);
        }
        var wide := length == 127;
        length := FromBigEndian(extended.value);
        Pow256Values();
        if wide && length >= INT64_LIMIT {
          return Failed(BadLength);
        }
      }
      if opcode >= 8 && (!fin || length > MAX_CONTROL) {
        return Failed(BadControl);
      }
      if length > limit {
        return Failed(FrameTooLong);
      }
      var payload;
      payload, error := ReadFull(length);
      if payload.None? {
        return Failed(error);
      }
      return Got(fin, opcode, payload.value);
    }

    method WriteFrame(opcode: Opcode, payload: Octets) returns (ok: bool)
      requires |payload| < INT64_LIMIT
      modifies this`output, this`writes
      ensures (ok, View()) == Written(outside, old(View()), opcode, payload)
      ensures ok <==> (opcode < 8 || |payload| <= 125) && outside.cut(old(writes)).None?
      ensures |old(output)| <= |output| && output[..|old(output)|] == old(output)
      ensures ok ==> FrameOctets(output[|old(output)|..], opcode, outside.mask(old(writes)), payload)
    {
      hide Extension, Masked, XorByte, FrameOctets;
      ClientFrameOctets(outside.mask(writes), opcode, payload);
      if opcode >= 8 && |payload| > MAX_CONTROL {
        return false;
      }
      var mask := outside.mask(writes);
      var header := [(128 + opcode) as byte, 128];
      if |payload| < 126 {
        header := header[1 := (128 + |payload|) as byte];
        assert header
            == Head(true, opcode, true, LengthCode(Short, |payload|))
                + Extension(Short, |payload|) by { EmptyExtension(|payload|); }
      } else if |payload| <= 0xFFFF {
        header := header[1 := 128 + 126] + BigEndian(|payload|, 2);
        assert header
            == Head(true, opcode, true, LengthCode(Medium, |payload|))
                + Extension(Medium, |payload|) by { EmptyExtension(|payload|); }
      } else {
        header := header[1 := 128 + 127] + BigEndian(|payload|, 8);
        assert header
            == Head(true, opcode, true, LengthCode(Long, |payload|))
                + Extension(Long, |payload|) by { EmptyExtension(|payload|); }
      }
      header := header + mask;
      var masked := MaskPayload(payload, mask);
      var b := header + masked;
      assert b == ClientFrame(mask, opcode, payload);
      match outside.cut(writes) {
        case None =>
          assert (output + b)[|output|..] == b;
          output, ok := output + b, true;
        case Some(n) => output, ok := output + Upto(b, n), false;
      }
      writes := writes + 1;
    }

    method MaskPayload(payload: Octets, mask: Mask) returns (masked: Octets)
      ensures masked == Masked(payload, mask)
      ensures |masked| == |payload|
      ensures forall i :: 0 <= i < |payload| ==> ExclusiveOr(masked[i], payload[i], mask[i % 4])
    {
      hide XorByte, ExclusiveOr;
      forall i | 0 <= i < |payload| { XorByteMeans(payload[i], mask[i % 4]); }
      var a := new byte[|payload|];
      for index := 0 to |payload|
        invariant forall j :: 0 <= j < index ==> a[j] == XorByte(payload[j], mask[j % 4])
      {
        a[index] := XorByte(payload[index], mask[index % 4]);
      }
      masked := a[..];
    }

    method Write(kind: Opcode, payload: Octets) returns (ok: bool)
      requires |payload| < INT64_LIMIT
      modifies this`output, this`writes
      ensures (ok, View()) == if kind == TEXT || kind == BINARY then
              Written(outside, old(View()), kind, payload) else (false, old(View()))
    {
      if kind != TEXT && kind != BINARY {
        return false;
      }
      ok := WriteFrame(kind, payload);
    }

    /** Ping up to its wait: the token is listed, then sent, and struck off again when it could not be sent. */
    method StartPing(token: Octets) returns (ok: bool)
      requires |token| == 8
      modifies this`output, this`writes, this`waiting
      ensures var (sent, w) := Written(outside, old(View()), PING, token);
              ok == sent
              && View() == w.(waiting := if ok then old(waiting) + {token} else old(waiting) - {token})
    {
      hide FrameOctets, ClientFrame;
      waiting := waiting + {token};
      ok := WriteFrame(PING, token);
      if !ok {
        waiting := waiting - {token};
      }
    }

    method Read() returns (r: ReadResult)
      modifies this`input, this`output, this`writes, this`waiting, this`closed
      ensures (r, View()) == ReadAll(outside, limit, old(View()), 0, [])
    {
      hide Scan, Written;
      var kind: Opcode, message: Octets := 0, [];
      while true
        invariant ReadAll(outside, limit, View(), kind, message) == ReadAll(outside, limit, old(View()), 0, [])
        decreases |input|
      {
        var frame := ReadFrame();
        match frame
        case Failed(error) => return Stopped(error);
        case Got(fin, opcode, payload) =>
          if opcode == CLOSE {
            var _ := WriteFrame(CLOSE, payload);
            closed := true;
            return Stopped(Eof);
          } else if opcode == PING {
            var ok := WriteFrame(PONG, payload);
            if !ok {
              return Stopped(if outside.over then Cancelled else WriteFailed);
            }
            continue;
          } else if opcode == PONG {
            waiting := waiting - {payload};
            continue;
          } else if opcode == TEXT || opcode == BINARY {
            if kind != 0 {
              return Stopped(NewBeforeFinal);
            }
            kind := opcode;
          } else if opcode == CONTINUATION {
            if kind == 0 {
              return Stopped(UnexpectedContinuation);
            }
          } else {
            return Stopped(BadOpcode);
          }
          if |message| + |payload| > limit {
            return Stopped(MessageTooLong);
          }
          message := message + payload;
          if fin {
            return Message(kind, message);
          }
      }
    }
  }

  lemma EmptyExtension(n: nat)
    ensures Extension(Short, n) == [] && Extension(Medium, n) == BigEndian(n, 2)
            && Extension(Long, n) == BigEndian(n, 8)
  {
  }
}
