/**
 * The Art-Net wire format as both revisions of the node read it: the packet
 * header (identifier and opcode), the opcode table, the ArtDmx (OpOutput)
 * fixed prefix, and the SubUni address comparison.
 */
module ArtNetWire {
  import opened Bytes

  /** `"Art-Net"` followed by its NUL: the 8-byte identifier field. */
  const ArtNetId: seq<byte> := Ascii("Art-Net") + [0]

  /** `struct artnet_header`: `id[8]` followed by a `uint16_t` opcode. */
  const HeaderSize: nat := 10

  /** `sizeof(struct artnet_dmx)`: the bytes before the first channel value. */
  const DmxPrefixSize: nat := 18

  const OpPollCode: uint16 := 0x2000
  const OpPollReplyCode: uint16 := 0x2100
  const OpOutputCode: uint16 := 0x5000
  const OpAddressCode: uint16 := 0x6000
  const OpIpProgCode: uint16 := 0xf800

  /** The opcodes the receive switch names, plus everything else. */
  datatype Op = Poll | PollReply | Output | Address | IpProg | Unknown(code: uint16)

  predicate IsKnownCode(code: uint16) {
    code == OpPollCode || code == OpPollReplyCode || code == OpOutputCode
    || code == OpAddressCode || code == OpIpProgCode
  }

  /** The 16-bit value an opcode stands for on the wire. */
  function CodeOf(op: Op): uint16 {
    match op
    case Poll => OpPollCode
    case PollReply => OpPollReplyCode
    case Output => OpOutputCode
    case Address => OpAddressCode
    case IpProg => OpIpProgCode
    case Unknown(c) => c
  }

  /** The `case` label of the receive switch that a 16-bit opcode selects. */
  function Classify(code: uint16): (op: Op)
    ensures CodeOf(op) == code
    ensures op.Unknown? <==> !IsKnownCode(code)
  {
    if code == OpPollCode then Poll
    else if code == OpPollReplyCode then PollReply
    else if code == OpOutputCode then Output
    else if code == OpAddressCode then Address
    else if code == OpIpProgCode then IpProg
    else Unknown(code)
  }

  /** Classification inverts `CodeOf` on every opcode that is written canonically. */
  lemma ClassifyCodeOf(op: Op)
    requires op.Unknown? ==> !IsKnownCode(op.code)
    ensures Classify(CodeOf(op)) == op
  {
  }

  /** A C string literal as stored: one NUL, at its end. */
  predicate IsCStringLiteral(lit: seq<byte>) {
    |lit| >= 1 && lit[|lit| - 1] == 0 && forall i | 0 <= i < |lit| - 1 :: lit[i] != 0
  }

  /**
   * `strcmp(s, lit) == 0`: bytes are compared in order until they differ
   * or the common byte is the NUL. Against a literal it reads no more than
   * the literal's length, and holds exactly when `s` starts with the literal
   * and its NUL.
   */
  function CStrEquals(s: seq<byte>, lit: seq<byte>): (r: bool)
    requires IsCStringLiteral(lit) && |s| >= |lit|
    ensures r <==> s[..|lit|] == lit
    decreases |lit|
  {
    if s[0] != lit[0] then false
    else if lit[0] == 0 then true
    else
      assert s[..|lit|] == [s[0]] + s[1..][..|lit| - 1] && lit == [lit[0]] + lit[1..];
      CStrEquals(s[1..], lit[1..])
  }

  /** `os_strcmp(header->id, "Art-Net\0") == 0`. */
  predicate IdMatches(d: seq<byte>)
    ensures IdMatches(d) <==> |d| >= 8 && d[..8] == ArtNetId
  {
    |d| >= 8 && CStrEquals(d, ArtNetId)
  }

  /** Any single wrong byte among the first eight rejects the datagram. */
  lemma IdMismatchRejects(d: seq<byte>, k: nat)
    requires |d| >= 8 && k < 8 && d[k] != ArtNetId[k]
    ensures !IdMatches(d)
  {
  }

  /** `header->opcode`: the `uint16_t` at offsets 8-9 in host order, low byte first. */
  function Opcode(d: seq<byte>): (code: uint16)
    requires |d| >= HeaderSize
    ensures LE16(code) == d[8..10]
  {
    ReadLE16(d[8], d[9])
  }

  /** The opcode the switch in the receive callback dispatches on. */
  function OpOf(d: seq<byte>): (op: Op)
    requires |d| >= HeaderSize
    ensures LE16(CodeOf(op)) == d[8..10]
    ensures op.Unknown? <==> !IsKnownCode((d[8] as int) + 0x100 * (d[9] as int))
  {
    Classify(Opcode(d))
  }

  /** `dmx->universe`: the SubUni byte at offset 14. */
  function SubUni(d: seq<byte>): byte
    requires |d| > 14
  {
    d[14]
  }

  /**
   * `(subnet << 4) | universe`, computed in `int` after the usual promotions,
   * for any byte values of the two settings.
   */
  function AddressValue(subnet: byte, universe: byte): (v: nat)
    ensures subnet * 16 <= v <= subnet * 16 + universe
  {
    BitOr(subnet * 16, universe)
  }

  /** Whether an ArtDmx SubUni byte selects a node configured with `subnet` and `universe`. */
  predicate AddressAccepted(subUni: byte, subnet: byte, universe: byte) {
    subUni == AddressValue(subnet, universe)
  }

  /** With both settings below 16 the address is the byte with those two nibbles. */
  lemma AddressNibbles(subnet: byte, universe: byte)
    requires universe < 16
    ensures AddressValue(subnet, universe) == subnet * 16 + universe
  {
    assert Pow2(4) == 16;
    BitOrDisjoint(subnet, universe, 4);
  }

  /**
   * With nibble-sized settings a SubUni byte is accepted exactly when its
   * high nibble is the sub-net and its low nibble the universe.
   */
  lemma AddressAcceptedIff(subUni: byte, subnet: byte, universe: byte)
    requires subnet < 16 && universe < 16
    ensures AddressAccepted(subUni, subnet, universe)
            <==> subUni / 16 == subnet && subUni % 16 == universe
  {
    AddressNibbles(subnet, universe);
  }

  /** A sub-net setting of 16 or more shifts past the byte: no frame is ever accepted. */
  lemma WideSubnetAcceptsNothing(subUni: byte, subnet: byte, universe: byte)
    requires subnet >= 16
    ensures !AddressAccepted(subUni, subnet, universe)
  {
  }

  /** A universe setting of 16 or more spills into the sub-net nibble and aliases another address. */
  lemma WideUniverseAliases()
    ensures AddressAccepted(0x10, 0, 0x10) && AddressAccepted(0x10, 1, 0)
  {
  }

  /** The declared channel count of a standard ArtDmx: `(lengthHi << 8) | length` at offsets 16-17. */
  function DeclaredLength(d: seq<byte>): (n: uint16)
    requires |d| >= DmxPrefixSize
    ensures n / 0x100 == d[16] && n % 0x100 == d[17]
  {
    ReadBE16(d[16], d[17])
  }

  /**
   * The clamp of artnet/artnet.c: a declared count larger than the channel
   * bytes received is replaced by the number received; it is never raised.
   */
  function ClampCount(declared: nat, packetLen: nat): (n: nat)
    requires packetLen >= DmxPrefixSize
    ensures n <= declared && DmxPrefixSize + n <= packetLen
    ensures n == declared || DmxPrefixSize + n == packetLen
  {
    if declared > packetLen - DmxPrefixSize then packetLen - DmxPrefixSize else declared
  }

  /**
   * A reference encoder for ArtDmx (the node only decodes): header, protocol
   * version 14, sequence, physical, SubUni, Net, big-endian length, data.
   */
  function EncodeDmx(sequence: byte, physical: byte, subUni: byte, net: byte, data: seq<byte>): (d: seq<byte>)
    requires |data| <= 512
    ensures |d| == DmxPrefixSize + |data|
  {
    ArtNetId + LE16(OpOutputCode) + [0, 14, sequence, physical, subUni, net]
    + [|data| / 0x100, |data| % 0x100] + data
  }

  /**
   * Decoding an encoded ArtDmx gives back its opcode, address and data, and
   * the clamp keeps an honest declared length as it is.
   */
  lemma DecodeEncodedDmx(sequence: byte, physical: byte, subUni: byte, net: byte, data: seq<byte>)
    requires |data| <= 512
    ensures var d := EncodeDmx(sequence, physical, subUni, net, data);
      && IdMatches(d) && OpOf(d) == Output && SubUni(d) == subUni
      && DeclaredLength(d) == |data|
      && ClampCount(DeclaredLength(d), |d|) == |data|
      && d[DmxPrefixSize..] == data
  {
    var d := EncodeDmx(sequence, physical, subUni, net, data);
    assert d[..8] == ArtNetId;
    assert d[8] == 0 && d[9] == 0x50;
    assert d[16] == |data| / 0x100 && d[17] == |data| % 0x100;
    assert d[DmxPrefixSize..] == data;
  }

  /**
   * A frame that declares more channels than it carries is cut to what it
   * carries: 600 declared, 50 received, 50 used.
   */
  lemma OverlongDeclarationClamped(d: seq<byte>)
    requires |d| == DmxPrefixSize + 50 && DeclaredLength(d) == 600
    ensures ClampCount(DeclaredLength(d), |d|) == 50
  {
  }
}
