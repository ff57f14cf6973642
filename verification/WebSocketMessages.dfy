/** Read reassembles exactly the messages of section 5.4 of RFC 6455 (internal/wsclient/wsclient.go:119-160). */
module WebSocketMessages {
  import opened Wrappers
  import opened Bytes
  import opened WebSocket
  import opened WebSocketClient

  type Small = s: Octets | |s| <= MAX_CONTROL witness []

  /** The message kind known after one more frame; 0 while none has started. */
  function KindAfter(p: ServerFrame, kind: Opcode): Opcode {
    if IsData(p.opcode) && kind == 0 then p.opcode else kind
  }

  /** A data frame starts a message when none is open and continues it otherwise. */
  predicate InOrder(p: ServerFrame, kind: Opcode) {
    IsData(p.opcode) && (p.opcode == CONTINUATION <==> kind != 0)
  }

  predicate MayPrecede(p: ServerFrame, kind: Opcode) {
    p.opcode == PING || p.opcode == PONG || (InOrder(p, kind) && !p.fin)
  }

  /** Frames that leave a message unfinished: pings, pongs and non-final fragments in order. */
  ghost predicate Unfinished(pieces: seq<ServerFrame>, limit: nat, kind: Opcode) {
    pieces != [] ==>
      && |pieces[0].payload| <= limit && MayPrecede(pieces[0], kind)
      && Unfinished(pieces[1..], limit, KindAfter(pieces[0], kind))
  }

  function KindOf(pieces: seq<ServerFrame>, kind: Opcode): Opcode {
    if pieces == [] then kind else KindOf(pieces[1..], KindAfter(pieces[0], kind))
  }

  function Body(p: ServerFrame): Octets {
    if IsData(p.opcode) then p.payload else []
  }

  function Joined(pieces: seq<ServerFrame>): Octets {
    if pieces == [] then [] else Body(pieces[0]) + Joined(pieces[1..])
  }

  function Pings(pieces: seq<ServerFrame>): seq<Small> {
    if pieces == [] then []
    else if pieces[0].opcode == PING then [pieces[0].payload] + Pings(pieces[1..])
    else Pings(pieces[1..])
  }

  function Pongs(pieces: seq<ServerFrame>): set<Octets> {
    if pieces == [] then {}
    else if pieces[0].opcode == PONG then {pieces[0].payload} + Pongs(pieces[1..])
    else Pongs(pieces[1..])
  }

  function WiredAll(pieces: seq<ServerFrame>): Octets
  {
    if pieces == [] then [] else Wired(pieces[0]) + WiredAll(pieces[1..])
  }

  /** Pongs answering the pings in order, masked with the masks drawn from the first-th on. */
  function Echoes(o: Outside, first: nat, pings: seq<Small>): Octets
    decreases |pings|
  {
    if pings == [] then [] else ClientFrame(o.mask(first), PONG, pings[0]) + Echoes(o, first + 1, pings[1..])
  }

  ghost predicate Sent(o: Outside, first: nat, count: nat) {
    forall k :: first <= k < first + count ==> o.cut(k).None?
  }

  /** The connection once it has read past the pieces. */
  function Past(o: Outside, w: Wire, pieces: seq<ServerFrame>, rest: Octets): Wire
  {
    w.(input := rest, output := w.output + Echoes(o, w.writes, Pings(pieces)),
       writes := w.writes + |Pings(pieces)|, waiting := w.waiting - Pongs(pieces))
  }

  lemma OneStep(o: Outside, limit: nat, w: Wire, kind: Opcode, message: Octets, p: ServerFrame, rest: Octets)
    requires |p.payload| <= limit && MayPrecede(p, kind) && w.input == Wired(p) + rest
    requires |message| + |Body(p)| <= limit && (p.opcode == PING ==> o.cut(w.writes).None?)
    ensures ReadTurn(o, limit, w, kind, message) == More(Stepped(o, w, p, rest), KindAfter(p, kind), message + Body(p))
  {
    ScanReadsFrame(p, rest, limit, o.over);
    hide Scan, Wired, ClientFrame;
    assert message + [] == message;
  }

  /** The connection after a ping, pong or fragment. */
  function Stepped(o: Outside, w: Wire, p: ServerFrame, rest: Octets): Wire {
    var w1 := w.(input := rest);
    if p.opcode == PING then
        w1.(output := w.output + ClientFrame(o.mask(w.writes), PONG, p.payload), writes := w.writes + 1)
    else if p.opcode == PONG then w1.(waiting := w.waiting - {p.payload})
    else w1
  }

  lemma ReadUnfolds(o: Outside, limit: nat, w: Wire, kind: Opcode, message: Octets)
    ensures ReadAll(o, limit, w, kind, message)
            == match ReadTurn(o, limit, w, kind, message)
               case Finished(result, w') => (result, w')
               case More(w', kind', message') => ReadAll(o, limit, w', kind', message')
  {
    hide ReadTurn;
  }

  /** Reading past an unfinished message collects its fragments, answers its pings in order and settles its pongs. */
  lemma {:induction false} PassOver(o: Outside, limit: nat, w: Wire, kind: Opcode, message: Octets,
                                    pieces: seq<ServerFrame>, rest: Octets)
    requires Unfinished(pieces, limit, kind)
    requires |message| + |Joined(pieces)| <= limit && Sent(o, w.writes, |Pings(pieces)|)
             && w.input == WiredAll(pieces) + rest
    ensures ReadAll(o, limit, w, kind, message)
            == ReadAll(o, limit, Past(o, w, pieces, rest), KindOf(pieces, kind), message + Joined(pieces))
    decreases |pieces|
  {
    hide ReadAll, ReadTurn, ClientFrame, Wired, MayPrecede, KindAfter, Body;
    ReadUnfolds(o, limit, w, kind, message);
    if pieces == [] {
      assert WiredAll(pieces) + rest == rest && message + Joined(pieces) == message;
      assert w.output + Echoes(o, w.writes, Pings(pieces)) == w.output && w.waiting - Pongs(pieces) == w.waiting;
    } else {
      var p := pieces[0];
      assert w.input == Wired(p) + (WiredAll(pieces[1..]) + rest);
      assert message + Joined(pieces) == (message + Body(p)) + Joined(pieces[1..]);
      OneStep(o, limit, w, kind, message, p, WiredAll(pieces[1..]) + rest);
      var w' := Stepped(o, w, p, WiredAll(pieces[1..]) + rest);
      PassOver(o, limit, w', KindAfter(p, kind), message + Body(p), pieces[1..], rest);
      PastStep(o, w, w', pieces, rest);
    }
  }

  lemma PastStep(o: Outside, w: Wire, w': Wire, pieces: seq<ServerFrame>, rest: Octets)
    requires pieces != [] && w' == Stepped(o, w, pieces[0], w'.input)
    ensures Past(o, w', pieces[1..], rest) == Past(o, w, pieces, rest)
  {
    hide ClientFrame;
    if pieces[0].opcode == PING {
      assert Pings(pieces)[1..] == Pings(pieces[1..]);
      assert Echoes(o, w.writes, Pings(pieces))
          == ClientFrame(o.mask(w.writes), PONG, pieces[0].payload) + Echoes(o, w.writes + 1, Pings(pieces[1..]));
    }
  }

  // ---------- whole messages ----------

  /** One message of section 5.4: an unfinished part, then a final data frame in order, within the limit. */
  ghost predicate IsMessage(pieces: seq<ServerFrame>, last: ServerFrame, limit: nat) {
    && Unfinished(pieces, limit, 0) && |last.payload| <= limit && last.fin && InOrder(last, KindOf(pieces, 0))
    && |Joined(pieces)| + |last.payload| <= limit
  }

  /** Every fragmented message, its control frames wherever they fall and its lengths spelled in any form, is read
      back whole: the kind of its first fragment, all payloads joined, every ping answered in order, the rest of the
      stream untouched. */
  lemma MessageIsRead(o: Outside, limit: nat, w: Wire, pieces: seq<ServerFrame>, last: ServerFrame, rest: Octets)
    requires IsMessage(pieces, last, limit) && Sent(o, w.writes, |Pings(pieces)|)
    requires w.input == WiredAll(pieces) + (Wired(last) + rest)
    ensures ReadAll(o, limit, w, 0, [])
            == (Message(KindAfter(last, KindOf(pieces, 0)), Joined(pieces) + last.payload), Past(o, w, pieces, rest))
  {
    hide ReadAll, ReadTurn, Wired, Unfinished, WiredAll, Echoes, Joined, KindOf, Pings, Pongs, InOrder, KindAfter;
    PassOver(o, limit, w, 0, [], pieces, Wired(last) + rest);
    assert [] + Joined(pieces) == Joined(pieces);
    LastTurn(o, limit, Past(o, w, pieces, Wired(last) + rest), KindOf(pieces, 0), Joined(pieces), last, rest);
    ReadUnfolds(o, limit, Past(o, w, pieces, Wired(last) + rest), KindOf(pieces, 0), Joined(pieces));
  }

  lemma LastTurn(o: Outside, limit: nat, w: Wire, kind: Opcode, message: Octets, last: ServerFrame, rest: Octets)
    requires last.fin && InOrder(last, kind) && |message| + |last.payload| <= limit && w.input == Wired(last) + rest
    ensures ReadTurn(o, limit, w, kind, message)
            == Finished(Message(KindAfter(last, kind), message + last.payload), w.(input := rest))
  {
    ScanReadsFrame(last, rest, limit, o.over);
    hide Scan, Wired, ClientFrame;
  }

  lemma CloseTurn(o: Outside, limit: nat, w: Wire, kind: Opcode, message: Octets, close: ServerFrame, rest: Octets)
    requires close.opcode == CLOSE && |close.payload| <= limit && w.input == Wired(close) + rest
             && o.cut(w.writes).None?
    ensures var turn := ReadTurn(o, limit, w, kind, message);
            turn.Finished? && turn.result == Stopped(Eof) && turn.w.closed
            && turn.w.output == w.output + ClientFrame(o.mask(w.writes), CLOSE, close.payload)
  {
    ScanReadsFrame(close, rest, limit, o.over);
    hide Scan, Wired, ClientFrame;
  }

  /** A close frame anywhere before the message is complete ends the reading, after the echo of its payload. */
  lemma CloseStopsReading(o: Outside, limit: nat, w: Wire, pieces: seq<ServerFrame>, close: ServerFrame, rest: Octets)
    requires Unfinished(pieces, limit, 0) && |close.payload| <= limit && close.opcode == CLOSE
             && |Joined(pieces)| <= limit
    requires Sent(o, w.writes, |Pings(pieces)| + 1) && w.input == WiredAll(pieces) + (Wired(close) + rest)
    ensures var (r, w') := ReadAll(o, limit, w, 0, []);
            r == Stopped(Eof) && w'.closed
            && w'.output
            == w.output + Echoes(o, w.writes, Pings(pieces))
                + ClientFrame(o.mask(w.writes + |Pings(pieces)|), CLOSE, close.payload)
  {
    hide ReadAll, ReadTurn, Wired, Unfinished, WiredAll, Echoes, Joined, KindOf, Pings, Pongs, InOrder, KindAfter,
         ClientFrame;
    PassOver(o, limit, w, 0, [], pieces, Wired(close) + rest);
    assert o.cut(w.writes + |Pings(pieces)|).None?;
    CloseTurn(o, limit, Past(o, w, pieces, Wired(close) + rest), KindOf(pieces, 0), [] + Joined(pieces), close, rest);
    ReadUnfolds(o, limit, Past(o, w, pieces, Wired(close) + rest), KindOf(pieces, 0), [] + Joined(pieces));
  }

  /** What the stream was, when Read returned a message while one of the given kind was open. */
  lemma {:induction false} ReadMeansMessage(o: Outside, limit: nat, w: Wire, kind: Opcode, message: Octets)
    returns (pieces: seq<ServerFrame>, last: ServerFrame)
    requires ReadAll(o, limit, w, kind, message).0.Message?
    ensures Unfinished(pieces, limit, kind)
    ensures |last.payload| <= limit && last.fin && InOrder(last, KindOf(pieces, kind))
    ensures var (r, w') := ReadAll(o, limit, w, kind, message);
            && r == Message(KindAfter(last, KindOf(pieces, kind)), message + Joined(pieces) + last.payload)
            && w.input == WiredAll(pieces) + (Wired(last) + w'.input)
            && |message| + |Joined(pieces)| + |last.payload| <= limit
            && Sent(o, w.writes, |Pings(pieces)|)
    decreases |w.input|
  {
    hide ReadTurn, Wired, ClientFrame, Scan;
    var p, rest := FrameRead(o, limit, w, kind, message);
    if IsData(p.opcode) && p.fin {
      pieces, last := [], p;
      assert WiredAll([]) + (Wired(p) + rest) == w.input && message + Joined([]) == message;
    } else {
      var more;
      more, last := ReadMeansMessage(o, limit, Stepped(o, w, p, rest), KindAfter(p, kind), message + Body(p));
      pieces := [p] + more;
      ConsPiece(o, limit, w, kind, message, p, rest, more, last);
    }
  }

  lemma ConsPiece(o: Outside, limit: nat, w: Wire, kind: Opcode, message: Octets, p: ServerFrame, rest: Octets,
                  more: seq<ServerFrame>, last: ServerFrame)
    ensures var pieces := [p] + more;
            && KindOf(pieces, kind) == KindOf(more, KindAfter(p, kind))
            && message + Joined(pieces) == message + Body(p) + Joined(more)
            && (Unfinished(pieces, limit, kind) <==>
                  |p.payload| <= limit && MayPrecede(p, kind) && Unfinished(more, limit, KindAfter(p, kind)))
            && (forall tail :: WiredAll(pieces) + tail == Wired(p) + (WiredAll(more) + tail))
            && Pings(pieces) == (if p.opcode == PING then [p.payload] + Pings(more) else Pings(more))
  {
    hide Wired, Body, KindAfter, MayPrecede;
    assert ([p] + more)[1..] == more;
  }

  /** The frame at the front of a stream from which Read returns a message, and what reading it led to. */
  lemma FrameRead(o: Outside, limit: nat, w: Wire, kind: Opcode, message: Octets) returns (p: ServerFrame, rest: Octets)
    requires ReadAll(o, limit, w, kind, message).0.Message?
    ensures |p.payload| <= limit && w.input == Wired(p) + rest && |rest| < |w.input|
    ensures if IsData(p.opcode) && p.fin
            then InOrder(p, kind) && |message| + |p.payload| <= limit
                 && ReadAll(o, limit, w, kind, message)
                 == (Message(KindAfter(p, kind), message + p.payload), w.(input := rest))
            else MayPrecede(p, kind) && (p.opcode == PING ==> o.cut(w.writes).None?)
                 && ReadAll(o, limit, w, kind, message)
                 == ReadAll(o, limit, Stepped(o, w, p, rest), KindAfter(p, kind), message + Body(p))
  {
    hide ReadAll, ReadTurn, Wired;
    ReadUnfolds(o, limit, w, kind, message);
    p, rest := TurnMeans(o, limit, w, kind, message);
  }

  lemma TurnMeans(o: Outside, limit: nat, w: Wire, kind: Opcode, message: Octets) returns (p: ServerFrame, rest: Octets)
    requires var turn := ReadTurn(o, limit, w, kind, message); turn.Finished? ==> turn.result.Message?
    ensures |p.payload| <= limit && w.input == Wired(p) + rest && |rest| < |w.input|
    ensures if IsData(p.opcode) && p.fin
            then InOrder(p, kind) && |message| + |p.payload| <= limit
                 && ReadTurn(o, limit, w, kind, message)
                 == Finished(Message(KindAfter(p, kind), message + p.payload), w.(input := rest))
            else MayPrecede(p, kind) && (p.opcode == PING ==> o.cut(w.writes).None?)
                 && ReadTurn(o, limit, w, kind, message)
                 == More(Stepped(o, w, p, rest), KindAfter(p, kind), message + Body(p))
  {
    hide Scan, Wired, ClientFrame, WellFormed;
    TurnGotFrame(o, limit, w, kind, message);
    ScanIsExact(w.input, limit, o.over);
    var (f, rest') := Scan(w.input, limit, o.over);
    p, rest := Piece(f.fin, f.opcode, f.payload, FormOf(w.input[1] as nat)), rest';
    assert message + [] == message;
    TurnOf(o, limit, w, kind, message, p, rest);
  }

  lemma TurnGotFrame(o: Outside, limit: nat, w: Wire, kind: Opcode, message: Octets)
    requires var turn := ReadTurn(o, limit, w, kind, message); turn.Finished? ==> turn.result.Message?
    ensures Scan(w.input, limit, o.over).0.Got?
  {
    hide Scan, Written;
  }

  lemma TurnOf(o: Outside, limit: nat, w: Wire, kind: Opcode, message: Octets, p: ServerFrame, rest: Octets)
    requires Scan(w.input, limit, o.over) == (Got(p.fin, p.opcode, p.payload), rest)
    requires var turn := ReadTurn(o, limit, w, kind, message); turn.Finished? ==> turn.result.Message?
    ensures if IsData(p.opcode) && p.fin
            then InOrder(p, kind) && |message| + |p.payload| <= limit
                 && ReadTurn(o, limit, w, kind, message)
                 == Finished(Message(KindAfter(p, kind), message + p.payload), w.(input := rest))
            else MayPrecede(p, kind) && (p.opcode == PING ==> o.cut(w.writes).None?)
                 && ReadTurn(o, limit, w, kind, message)
                 == More(Stepped(o, w, p, rest), KindAfter(p, kind), message + Body(p))
  {
    hide Scan, ClientFrame, WellFormed;
    assert message + [] == message;
  }

  /** Read returns a message if and only if the stream begins with one. */
  lemma ReadsExactlyMessages(o: Outside, limit: nat, w: Wire, kind: Opcode, body: Octets, rest: Octets)
    ensures (ReadAll(o, limit, w, 0, []).0 == Message(kind, body) && ReadAll(o, limit, w, 0, []).1.input == rest)
            <==> exists pieces, last ::
                   && IsMessage(pieces, last, limit) && w.input == WiredAll(pieces) + (Wired(last) + rest)
                   && kind == KindAfter(last, KindOf(pieces, 0)) && body == Joined(pieces) + last.payload
                   && Sent(o, w.writes, |Pings(pieces)|)
  {
    hide ReadAll, Wired, WiredAll, Unfinished;
    if ReadAll(o, limit, w, 0, []).0 == Message(kind, body) && ReadAll(o, limit, w, 0, []).1.input == rest {
      var pieces, last := ReadMeansMessage(o, limit, w, 0, []);
      assert [] + Joined(pieces) == Joined(pieces);
    }
    if pieces, last :| IsMessage(pieces, last, limit) && w.input == WiredAll(pieces) + (Wired(last) + rest)
                       && kind == KindAfter(last, KindOf(pieces, 0)) && body == Joined(pieces) + last.payload
                       && Sent(o, w.writes, |Pings(pieces)|) {
      MessageIsRead(o, limit, w, pieces, last, rest);
    }
  }
}
