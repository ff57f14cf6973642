/** The command envelope, its results and its canonical signed encoding
    (internal/controlproto/types.go and internal/controlproto/sign.go). */
module Protocol {
  import opened Bytes

  const VERSION: Octets := Ascii("1")
  const COMMAND_TYPE: Octets := Ascii("command")
  const RESULT_TYPE: Octets := Ascii("command_result")
  const EMPTY_OBJECT: Octets := Ascii("{}")
  const REJECTED_OBJECT: Octets := Ascii("{\"status\":\"rejected\"}")
  const MAX_MESSAGE_BYTES: nat := 65536

  const COLLECT_NOW: Octets := Ascii("collect_now")
  const RELOAD_CONFIG: Octets := Ascii("reload_config")
  const SELF_CHECK: Octets := Ascii("self_check")
  const UPGRADE: Octets := Ascii("upgrade")

  /** Lifetime of a command in seconds; 0 for an unknown action. */
  function TTL(action: Octets): nat {
    if action == COLLECT_NOW then 5 * 60
    else if action == RELOAD_CONFIG || action == SELF_CHECK then 30 * 60
    else if action == UPGRADE then 24 * 3600
    else 0
  }

  datatype Command = Command(
    controlVersion: Octets, messageType: Octets, commandId: Octets, sequence: nat, agentId: Octets,
    action: Octets, issuedAt: int, expiresAt: int, payload: Octets, signature: Octets)

  datatype ResultState = Accepted | Running | Succeeded | Failed | Other

  datatype CommandResult = CommandResult(
    controlVersion: Octets, messageType: Octets, commandId: Octets, sequence: nat,
    state: ResultState, code: string, data: Octets)

  /** Code outside the model: the hash, signature verification and JSON syntax beyond the two constant objects. */
  datatype Primitives = Primitives(
    sha256: Octets -> Octets, verify: (Octets, Octets) -> bool, otherJson: Octets -> bool)
  {
    predicate ValidJson(body: Octets) {
      body == EMPTY_OBJECT || body == REJECTED_OBJECT || otherJson(body)
    }
  }

  /** SHA-256 yields 32 octets. */
  ghost predicate FixedWidth(sha256: Octets -> Octets) {
    forall x :: |sha256(x)| == 32
  }

  /** These two octet strings do not collide. */
  predicate NoCollision(sha256: Octets -> Octets, x: Octets, y: Octets) {
    sha256(x) == sha256(y) ==> x == y
  }
}

module Signing {
  import opened Bytes
  import opened Protocol
  import opened Wrappers

  const TWO_TO_THE_32: int := 0x1_0000_0000
  const TWO_TO_THE_63: int := 0x8000_0000_0000_0000
  const TWO_TO_THE_64: int := 0x1_0000_0000_0000_0000

  function LengthPrefixed(value: Octets): Octets {
    BigEndian(|value|, 4) + value
  }

  function Uint64Bytes(value: nat): (b: Octets)
    ensures |b| == 8
  {
    BigEndian(value, 8)
  }

  /** The conversion uint64(value) of a signed 64-bit integer. */
  function Int64Bytes(value: int): (b: Octets)
    ensures |b| == 8
  {
    Uint64Bytes(value % TWO_TO_THE_64)
  }

  function FromInt64Bytes(b: Octets): int {
    var unsigned := FromBigEndian(b);
    if unsigned < TWO_TO_THE_63 then unsigned else unsigned - TWO_TO_THE_64
  }

  function Fields(cmd: Command, sha256: Octets -> Octets): seq<Octets> {
    [cmd.controlVersion, cmd.messageType, cmd.commandId, Uint64Bytes(cmd.sequence), cmd.agentId, cmd.action,
     Int64Bytes(cmd.issuedAt), Int64Bytes(cmd.expiresAt), sha256(cmd.payload)]
  }

  function Concat(fields: seq<Octets>): Octets {
    if fields == [] then [] else LengthPrefixed(fields[0]) + Concat(fields[1..])
  }

  /** What a signature covers. */
  function SigningBytes(cmd: Command, sha256: Octets -> Octets): Octets {
    Concat(Fields(cmd, sha256))
  }

  lemma ConcatCons(first: Octets, rest: seq<Octets>)
    ensures Concat([first] + rest) == LengthPrefixed(first) + Concat(rest)
  {
    assert ([first] + rest)[1..] == rest;
  }

  lemma ConcatThree(a: Octets, b: Octets, c: Octets, rest: seq<Octets>)
    ensures Concat([a, b, c] + rest) == LengthPrefixed(a) + LengthPrefixed(b) + LengthPrefixed(c) + Concat(rest)
  {
    hide Concat, LengthPrefixed;
    ConcatCons(a, [b, c] + rest);
    ConcatCons(b, [c] + rest);
    ConcatCons(c, rest);
    assert [a, b, c] + rest == [a] + ([b, c] + rest) && [b, c] + rest == [b] + ([c] + rest);
  }

  /** What is signed, octet for octet: nine fields in this order, each after its length in four octets; the sequence and
      the two times as eight octets, a negative time in two's complement; the payload by its hash alone. */
  lemma NineFieldsInOrder(cmd: Command, sha256: Octets -> Octets)
    requires -0x8000_0000_0000_0000 <= cmd.issuedAt < 0x8000_0000_0000_0000
    requires -0x8000_0000_0000_0000 <= cmd.expiresAt < 0x8000_0000_0000_0000
    ensures var issued := if cmd.issuedAt < 0 then cmd.issuedAt + 0x1_0000_0000_0000_0000 else cmd.issuedAt;
            var expires := if cmd.expiresAt < 0 then cmd.expiresAt + 0x1_0000_0000_0000_0000 else cmd.expiresAt;
            SigningBytes(cmd, sha256) ==
            (LengthPrefixed(cmd.controlVersion) + LengthPrefixed(cmd.messageType) + LengthPrefixed(cmd.commandId))
            + ((LengthPrefixed(BigEndian(cmd.sequence, 8)) + LengthPrefixed(cmd.agentId) + LengthPrefixed(cmd.action))
               + (LengthPrefixed(BigEndian(issued, 8)) + LengthPrefixed(BigEndian(expires, 8))
                  + LengthPrefixed(sha256(cmd.payload))))
  {
    var f := Fields(cmd, sha256);
    TwosComplement(cmd.issuedAt);
    TwosComplement(cmd.expiresAt);
    hide Concat, LengthPrefixed;
    ConcatThree(f[0], f[1], f[2], [f[3], f[4], f[5]] + ([f[6], f[7], f[8]] + []));
    ConcatThree(f[3], f[4], f[5], [f[6], f[7], f[8]] + []);
    ConcatThree(f[6], f[7], f[8], []);
    ConcatNothing();
    assert f == [f[0], f[1], f[2]] + ([f[3], f[4], f[5]] + ([f[6], f[7], f[8]] + []));
  }

  lemma ConcatNothing()
    ensures Concat([]) == []
  {
  }

  lemma TwosComplement(value: int)
    requires -0x8000_0000_0000_0000 <= value < 0x8000_0000_0000_0000
    ensures Int64Bytes(value) == BigEndian(if value < 0 then value + 0x1_0000_0000_0000_0000 else value, 8)
  {
    hide BigEndian;
  }

  /** A length-prefixed field: four octets of length, the most significant first, and the value. */
  lemma LengthComesFirst(value: Octets)
    requires |value| < 0x1_0000_0000
    ensures var b := LengthPrefixed(value);
            && |b| == 4 + |value| && b[4..] == value
            && 0x100_0000 * b[0] as nat + 0x1_0000 * b[1] as nat + 0x100 * b[2] as nat + b[3] as nat == |value|
  {
    MostSignificantFirst(|value|);
    hide BigEndian;
    var b := LengthPrefixed(value);
    assert b[..4] == BigEndian(|value|, 4);
    assert b[0] == b[..4][0] && b[1] == b[..4][1] && b[2] == b[..4][2] && b[3] == b[..4][3];
  }

  method AppendLengthPrefixed(dst: Octets, value: Octets) returns (r: Octets)
    ensures r == dst + LengthPrefixed(value)
  {
    var length := BigEndian(|value|, 4);
    r := dst + length;
    r := r + value;
  }

  /** The buffer grown field by field in the source holds the concatenation the parser below inverts. */
  method BuildSigningBytes(cmd: Command, sha256: Octets -> Octets) returns (buf: Octets)
    ensures buf == SigningBytes(cmd, sha256)
  {
    var fields := Fields(cmd, sha256);
    buf := [];
    for i := 0 to |fields|
      invariant buf + Concat(fields[i..]) == Concat(fields)
    {
      ghost var before := buf;
      buf := AppendLengthPrefixed(buf, fields[i]);
      ConcatStep(before, fields[i..]);
      assert fields[i..][1..] == fields[i + 1..];
    }
    assert Concat([]) == [];
  }

  lemma ConcatStep(prefix: Octets, fields: seq<Octets>)
    requires fields != []
    ensures prefix + Concat(fields) == prefix + LengthPrefixed(fields[0]) + Concat(fields[1..])
  {
  }

  /** Reads one length-prefixed field and returns what follows it. */
  function TakeField(b: Octets): Option<(Octets, Octets)> {
    if |b| < 4 then None
    else
      var length := FromBigEndian(b[..4]);
      if |b| - 4 < length then None else Some((b[4..4 + length], b[4 + length..]))
  }

  /** Reads fields until the input is used up. */
  function ParseFields(b: Octets): Option<seq<Octets>>
    decreases |b|
  {
    if b == [] then Some([])
    else
      match TakeField(b)
      case None => None
      case Some((field, rest)) =>
        match ParseFields(rest)
        case None => None
        case Some(fields) => Some([field] + fields)
  }

  ghost predicate ShortFields(fields: seq<Octets>) {
    forall i :: 0 <= i < |fields| ==> |fields[i]| < TWO_TO_THE_32
  }

  lemma TakeFieldInverts(value: Octets, rest: Octets)
    requires |value| < TWO_TO_THE_32
    ensures TakeField(LengthPrefixed(value) + rest) == Some((value, rest))
  {
    var b := LengthPrefixed(value) + rest;
    Pow256Values();
    BigEndianRoundTrip(|value|, 4);
    assert b[..4] == BigEndian(|value|, 4);
    assert b[4..4 + |value|] == value && b[4 + |value|..] == rest;
  }

  /** The parser recovers every field, so neighbouring fields cannot be read differently. */
  lemma {:induction false} ParseInvertsConcat(fields: seq<Octets>)
    requires ShortFields(fields)
    ensures ParseFields(Concat(fields)) == Some(fields)
  {
    if fields != [] {
      TakeFieldInverts(fields[0], Concat(fields[1..]));
      ParseInvertsConcat(fields[1..]);
      assert fields == [fields[0]] + fields[1..];
    }
  }

  lemma Int64RoundTrip(value: int)
    requires -TWO_TO_THE_63 <= value < TWO_TO_THE_63
    ensures FromInt64Bytes(Int64Bytes(value)) == value
  {
    Uint64RoundTrip(value % TWO_TO_THE_64);
  }

  lemma Uint64RoundTrip(value: nat)
    requires value < TWO_TO_THE_64
    ensures FromBigEndian(Uint64Bytes(value)) == value
  {
    Pow256Values();
    BigEndianRoundTrip(value, 8);
  }

  /** Values the Go types can hold, with fields short enough for a 32-bit length. */
  ghost predicate Encodable(cmd: Command) {
    && |cmd.controlVersion| < TWO_TO_THE_32 && |cmd.messageType| < TWO_TO_THE_32 && |cmd.commandId| < TWO_TO_THE_32
    && |cmd.agentId| < TWO_TO_THE_32 && |cmd.action| < TWO_TO_THE_32
    && cmd.sequence < TWO_TO_THE_64
    && -TWO_TO_THE_63 <= cmd.issuedAt < TWO_TO_THE_63
    && -TWO_TO_THE_63 <= cmd.expiresAt < TWO_TO_THE_63
  }

  /** Equal signed bytes mean equal commands, the signature itself aside, unless their payloads collide. */
  lemma SigningBytesInjective(a: Command, b: Command, sha256: Octets -> Octets)
    requires FixedWidth(sha256) && Encodable(a) && Encodable(b) && NoCollision(sha256, a.payload, b.payload)
    requires SigningBytes(a, sha256) == SigningBytes(b, sha256)
    ensures a == b.(signature := a.signature)
  {
    hide Concat, ParseFields;
    FieldsAreShort(a, sha256);
    FieldsAreShort(b, sha256);
    ParseInvertsConcat(Fields(a, sha256));
    ParseInvertsConcat(Fields(b, sha256));
    FieldsInjective(a, b, sha256);
  }

  lemma FieldsAreShort(cmd: Command, sha256: Octets -> Octets)
    requires FixedWidth(sha256) && Encodable(cmd)
    ensures ShortFields(Fields(cmd, sha256))
  {
  }

  lemma FieldsInjective(a: Command, b: Command, sha256: Octets -> Octets)
    requires Encodable(a) && Encodable(b) && NoCollision(sha256, a.payload, b.payload)
             && Fields(a, sha256) == Fields(b, sha256)
    ensures a == b.(signature := a.signature)
  {
    hide Uint64Bytes, Int64Bytes;
    var fa, fb := Fields(a, sha256), Fields(b, sha256);
    assert forall i :: 0 <= i < |fa| ==> fa[i] == fb[i];
    Uint64RoundTrip(a.sequence);
    Uint64RoundTrip(b.sequence);
    assert fa[3] == fb[3] && fa[0] == fb[0] && fa[1] == fb[1] && fa[2] == fb[2] && fa[4] == fb[4] && fa[5] == fb[5];
    assert fa[6] == fb[6] && fa[7] == fb[7] && fa[8] == fb[8];
    Int64RoundTrip(a.issuedAt);
    Int64RoundTrip(b.issuedAt);
    Int64RoundTrip(a.expiresAt);
    Int64RoundTrip(b.expiresAt);
  }
}
