/**
 * ArtPollReply as both revisions build it: `struct artnet_pollreply` is
 * zero-filled with `memset` and then assigned field by field. The struct has
 * no packing attribute; every `uint16_t` in it falls on an even offset, so
 * its fields occupy 239 bytes and `sizeof` rounds that up to 240 with one
 * trailing padding byte, which the `memset` leaves zero.
 */
module PollReply {
  import opened Bytes
  import opened ArtNetWire

  const ReplySize: nat := 240
  const ArtNetPort: uint16 := 0x1936
  const PortTypeDmxOutput: byte := 0x80

  /** The node names both `artnet_init` functions `strcpy` into the zeroed `shortname[18]` and `longname[64]`. */
  const DefaultShortName: seq<byte> := CStringField("ESP8266 NODE", 18)
  const DefaultLongName: seq<byte> := CStringField("ESP based Art-Net Node", 64)

  /** What the reply reports about the node; IP and MAC come from the Wi-Fi SDK. */
  datatype NodeInfo = NodeInfo(
    ip: seq<byte>, mac: seq<byte>,
    net: byte, subnet: byte, universe: byte,
    shortName: seq<byte>, longName: seq<byte>)

  predicate WellFormed(info: NodeInfo) {
    |info.ip| == 4 && |info.mac| == 6 && |info.shortName| == 18 && |info.longName| == 64
  }

  /**
   * Offsets the builder assigns: ID through EstaMan (0-25), ShortName,
   * LongName and the three bytes `strcpy` writes for NodeReport "OK"
   * (26-110), NumPorts and PortTypes[0] (172-174), SwOut[0] (190) and MAC
   * (201-206). Every other byte keeps the value of the `memset`.
   */
  predicate Assigned(i: int) {
    (0 <= i < 111) || (172 <= i < 175) || i == 190 || (201 <= i < 207)
  }

  /** The layout of the reply for `info`, field by field at the struct's offsets. */
  predicate IsPollReplyFor(r: seq<byte>, info: NodeInfo)
    requires WellFormed(info)
  {
    && |r| == ReplySize
    && r[0..8] == ArtNetId                         // ID
    && r[8..10] == LE16(OpPollReplyCode)           // OpCode
    && r[10..14] == info.ip                        // IP
    && r[14..16] == LE16(ArtNetPort)               // Port
    && r[16..18] == LE16(Htons(0x0100))            // VersInfo
    && r[18] == info.net                           // NetSwitch
    && r[19] == info.subnet                        // SubSwitch
    && r[20..22] == LE16(Htons(0x08B1))            // Oem
    && r[22] == 0 && r[23] == 0                    // Ubea_Version, Status1
    && r[24..26] == [0, 0]                         // EstaMan
    && r[26..44] == info.shortName                 // ShortName
    && r[44..108] == info.longName                 // LongName
    && r[108..111] == Ascii("OK") + [0]            // NodeReport
    && r[172..174] == LE16(Htons(1))               // NumPorts
    && r[174] == PortTypeDmxOutput                 // PortTypes[0]
    && r[190] == info.universe                     // SwOut[0]
    && r[201..207] == info.mac                     // MAC
    && forall i | 0 <= i < ReplySize && !Assigned(i) :: r[i] == 0
  }

  /** The byte at offset `i` of the reply for `info`, read off the struct layout. */
  function ReplyByte(info: NodeInfo, i: nat): byte
    requires WellFormed(info) && i < ReplySize
  {
    if i < 8 then ArtNetId[i]
    else if i < 10 then LE16(OpPollReplyCode)[i - 8]
    else if i < 14 then info.ip[i - 10]
    else if i < 16 then LE16(ArtNetPort)[i - 14]
    else if i < 18 then LE16(Htons(0x0100))[i - 16]
    else if i == 18 then info.net
    else if i == 19 then info.subnet
    else if i < 22 then LE16(Htons(0x08B1))[i - 20]
    else if i < 26 then 0
    else if i < 44 then info.shortName[i - 26]
    else if i < 108 then info.longName[i - 44]
    else if i < 111 then (Ascii("OK") + [0])[i - 108]
    else if i < 172 then 0
    else if i < 174 then LE16(Htons(1))[i - 172]
    else if i == 174 then PortTypeDmxOutput
    else if i == 190 then info.universe
    else if 201 <= i < 207 then info.mac[i - 201]
    else 0
  }

  /** The first `p` bytes of `s` are those of the reply and the rest are still zero. */
  predicate FilledUpTo(s: seq<byte>, info: NodeInfo, p: nat)
    requires WellFormed(info)
  {
    && |s| == ReplySize && p <= ReplySize
    && (forall k | 0 <= k < p :: s[k] == ReplyByte(info, k))
    && (forall k | p <= k < ReplySize :: s[k] == 0)
  }

  lemma {:induction false} FilledIsPollReply(s: seq<byte>, info: NodeInfo)
    requires WellFormed(info) && FilledUpTo(s, info, ReplySize)
    ensures IsPollReplyFor(s, info)
  {
    assert s[0..8] == ArtNetId by {
      forall k | 0 <= k < 8 ensures s[k] == ArtNetId[k] { assert s[k] == ReplyByte(info, k); }
    }
    assert s[10..14] == info.ip by {
      forall k | 0 <= k < 4 ensures s[10 + k] == info.ip[k] { assert s[10 + k] == ReplyByte(info, 10 + k); }
    }
    assert s[26..44] == info.shortName by {
      forall k | 0 <= k < 18 ensures s[26 + k] == info.shortName[k] {
        assert s[26 + k] == ReplyByte(info, 26 + k);
      }
    }
    assert s[44..108] == info.longName by {
      forall k | 0 <= k < 64 ensures s[44 + k] == info.longName[k] {
        assert s[44 + k] == ReplyByte(info, 44 + k);
      }
    }
    assert s[201..207] == info.mac by {
      forall k | 0 <= k < 6 ensures s[201 + k] == info.mac[k] { assert s[201 + k] == ReplyByte(info, 201 + k); }
    }
    assert s[8..10] == LE16(OpPollReplyCode) by {
      assert s[8] == ReplyByte(info, 8) && s[9] == ReplyByte(info, 9);
    }
    assert s[14..16] == LE16(ArtNetPort) by {
      assert s[14] == ReplyByte(info, 14) && s[15] == ReplyByte(info, 15);
    }
    assert s[16..18] == LE16(Htons(0x0100)) by {
      assert s[16] == ReplyByte(info, 16) && s[17] == ReplyByte(info, 17);
    }
    assert s[18] == ReplyByte(info, 18) && s[19] == ReplyByte(info, 19);
    assert s[20..22] == LE16(Htons(0x08B1)) by {
      assert s[20] == ReplyByte(info, 20) && s[21] == ReplyByte(info, 21);
    }
    assert s[22] == ReplyByte(info, 22) && s[23] == ReplyByte(info, 23);
    assert s[24..26] == [0, 0] by {
      assert s[24] == ReplyByte(info, 24) && s[25] == ReplyByte(info, 25);
    }
    assert s[108..111] == Ascii("OK") + [0] by {
      assert s[108] == ReplyByte(info, 108) && s[109] == ReplyByte(info, 109) && s[110] == ReplyByte(info, 110);
    }
    assert s[172..174] == LE16(Htons(1)) by {
      assert s[172] == ReplyByte(info, 172) && s[173] == ReplyByte(info, 173);
    }
    assert s[174] == ReplyByte(info, 174) && s[190] == ReplyByte(info, 190);
    forall i | 0 <= i < ReplySize && !Assigned(i) ensures s[i] == 0 {
      assert s[i] == ReplyByte(info, i);
    }
  }

  /** Conversely, the field-by-field layout fixes every byte of the reply. */
  lemma {:induction false} PollReplyBytes(r: seq<byte>, info: NodeInfo)
    requires WellFormed(info) && IsPollReplyFor(r, info)
    ensures forall i | 0 <= i < ReplySize :: r[i] == ReplyByte(info, i)
  {
    forall i | 0 <= i < ReplySize ensures r[i] == ReplyByte(info, i) {
      if i < 8 { assert r[0..8][i] == r[i]; }
      else if i < 10 { assert r[8..10][i - 8] == r[i]; }
      else if i < 14 { assert r[10..14][i - 10] == r[i]; }
      else if i < 16 { assert r[14..16][i - 14] == r[i]; }
      else if i < 18 { assert r[16..18][i - 16] == r[i]; }
      else if i < 20 { }
      else if i < 22 { assert r[20..22][i - 20] == r[i]; }
      else if i < 24 { }
      else if i < 26 { assert r[24..26][i - 24] == r[i]; }
      else if i < 44 { assert r[26..44][i - 26] == r[i]; }
      else if i < 108 { assert r[44..108][i - 44] == r[i]; }
      else if i < 111 { assert r[108..111][i - 108] == r[i]; }
      else if i < 172 { }
      else if i < 174 { assert r[172..174][i - 172] == r[i]; }
      else if 201 <= i < 207 { assert r[201..207][i - 201] == r[i]; }
    }
  }

  /** The reply is deterministic: one byte sequence satisfies the layout for given node data. */
  lemma PollReplyDeterministic(r1: seq<byte>, r2: seq<byte>, info: NodeInfo)
    requires WellFormed(info) && IsPollReplyFor(r1, info) && IsPollReplyFor(r2, info)
    ensures r1 == r2
  {
    PollReplyBytes(r1, info);
    PollReplyBytes(r2, info);
  }

  /**
   * One field assignment of the builder: `memcpy`/`strcpy` of `src` to offset
   * `off`, or a plain store when `src` is one or two bytes.
   */
  method Put(buf: array<byte>, off: nat, src: seq<byte>, ghost info: NodeInfo)
    requires WellFormed(info) && FilledUpTo(buf[..], info, off)
    requires off + |src| <= ReplySize
    requires forall j | 0 <= j < |src| :: src[j] == ReplyByte(info, off + j)
    modifies buf
    ensures FilledUpTo(buf[..], info, off + |src|)
  {
    var k := 0;
    while k < |src|
      invariant 0 <= k <= |src|
      invariant FilledUpTo(buf[..], info, off + k)
    {
      buf[off + k] := src[k];
      k := k + 1;
    }
  }

  /** Bytes the builder never assigns already hold their value from the `memset`. */
  lemma SkipZeros(s: seq<byte>, info: NodeInfo, p: nat, q: nat)
    requires WellFormed(info) && FilledUpTo(s, info, p) && p <= q <= ReplySize
    requires forall k | p <= k < q :: !Assigned(k)
    ensures FilledUpTo(s, info, q)
  {
    forall k | p <= k < q ensures s[k] == ReplyByte(info, k) {
      assert !Assigned(k);
    }
  }

  /** ID, OpCode, IP, Port and VersInfo. */
  method PutHeader(msg: array<byte>, info: NodeInfo)
    requires WellFormed(info) && FilledUpTo(msg[..], info, 0)
    modifies msg
    ensures FilledUpTo(msg[..], info, 18)
  {
    Put(msg, 0, ArtNetId, info);                   // ID
    Put(msg, 8, LE16(OpPollReplyCode), info);      // OpCode
    Put(msg, 10, info.ip, info);                   // IP
    Put(msg, 14, LE16(ArtNetPort), info);          // Port
    Put(msg, 16, LE16(Htons(0x0100)), info);       // VersInfo
  }

  /** NetSwitch through EstaMan. */
  method PutSwitches(msg: array<byte>, info: NodeInfo)
    requires WellFormed(info) && FilledUpTo(msg[..], info, 18)
    modifies msg
    ensures FilledUpTo(msg[..], info, 26)
  {
    Put(msg, 18, [info.net], info);                // NetSwitch
    Put(msg, 19, [info.subnet], info);             // SubSwitch
    Put(msg, 20, LE16(Htons(0x08B1)), info);       // Oem
    Put(msg, 22, [0, 0], info);                    // Ubea_Version, Status1
    Put(msg, 24, LE16(0), info);                   // EstaMan
  }

  /** ShortName, LongName and NodeReport; the rest of NodeReport stays zero. */
  method PutNames(msg: array<byte>, info: NodeInfo)
    requires WellFormed(info) && FilledUpTo(msg[..], info, 26)
    modifies msg
    ensures FilledUpTo(msg[..], info, 172)
  {
    Put(msg, 26, info.shortName, info);            // ShortName
    Put(msg, 44, info.longName, info);             // LongName
    Put(msg, 108, Ascii("OK") + [0], info);        // NodeReport
    SkipZeros(msg[..], info, 111, 172);
  }

  /** NumPorts, PortTypes[0], SwOut[0] and MAC; every byte between stays zero. */
  method PutPorts(msg: array<byte>, info: NodeInfo)
    requires WellFormed(info) && FilledUpTo(msg[..], info, 172)
    modifies msg
    ensures FilledUpTo(msg[..], info, ReplySize)
  {
    Put(msg, 172, LE16(Htons(1)), info);           // NumPorts
    Put(msg, 174, [PortTypeDmxOutput], info);      // PortTypes[0]
    SkipZeros(msg[..], info, 175, 190);
    Put(msg, 190, [info.universe], info);          // SwOut[0]
    SkipZeros(msg[..], info, 191, 201);
    Put(msg, 201, info.mac, info);                 // MAC
    SkipZeros(msg[..], info, 207, ReplySize);
  }

  /** `artnet_sendPollReply` without the send: the bytes handed to `espconn_sent`. */
  method BuildPollReply(info: NodeInfo) returns (r: seq<byte>)
    requires WellFormed(info)
    ensures IsPollReplyFor(r, info)
  {
    var msg := new byte[ReplySize];
    var i := 0;
    while i < ReplySize
      invariant 0 <= i <= ReplySize
      invariant forall k | 0 <= k < i :: msg[k] == 0
    {
      msg[i] := 0;
      i := i + 1;
    }
    assert FilledUpTo(msg[..], info, 0);

    PutHeader(msg, info);
    PutSwitches(msg, info);
    PutNames(msg, info);
    PutPorts(msg, info);
    r := msg[..];
    FilledIsPollReply(r, info);
  }
}
