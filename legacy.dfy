/**
 * The receive path of the older firmware revision (Source/user/artnet.c):
 * node identity in globals set by `artnet_init`, ArtDmx channel data copied
 * into the 513-byte `dmx_data` buffer (slot 0 is the DMX512 start code),
 * and slot 1 alone driving PWM channel 1, with a function-static `old`
 * deciding when `pwm_start` is called.
 */
module LegacyArtNet {
  import opened Bytes
  import opened Options
  import opened ArtNetWire
  import opened PollReply
  import opened PwmOutput

  /** `uint8_t dmx_data[513]`: the start code and 512 slots. */
  const DmxBufferSize: nat := 513
  /** `MAX_CHANNELS`. */
  const MaxChannels: nat := 512

  /**
   * The channel count as the older `struct artnet_dmx` declares it: that
   * struct has no Net byte, so `lengthHi` and `length` sit at offsets 15 and
   * 16; the count is then capped at `MAX_CHANNELS`.
   */
  function LegacyChannelCount(d: seq<byte>): (n: nat)
    requires |d| >= 17
    ensures n <= MaxChannels && n <= (d[15] as int) * 0x100 + (d[16] as int)
    ensures n == MaxChannels || n == (d[15] as int) * 0x100 + (d[16] as int)
  {
    var count := ReadBE16(d[15], d[16]);
    if count > MaxChannels then MaxChannels else count
  }

  /**
   * A standard ArtDmx carrying 512 channels (Net 0, length 0x0200 at 16-17)
   * is read by the older struct as declaring 2 channels.
   */
  lemma LegacyCountMisreadsStandardFrame(sequence: byte, physical: byte, subUni: byte, data: seq<byte>)
    requires |data| == 512
    ensures var d := EncodeDmx(sequence, physical, subUni, 0, data);
      DeclaredLength(d) == 512 && LegacyChannelCount(d) == 2
  {
    var d := EncodeDmx(sequence, physical, subUni, 0, data);
    assert d[15] == 0 && d[16] == 2 && d[17] == 0;
  }

  /**
   * The number of slots the corrected copy fills: the standard declared
   * length (offsets 16-17), capped at `MAX_CHANNELS` and at the channel bytes
   * actually received.
   */
  function CopyCount(d: seq<byte>): (n: nat)
    requires DmxPrefixSize <= |d|
    ensures n <= MaxChannels && DmxPrefixSize + n <= |d| && n <= DeclaredLength(d)
    ensures n == MaxChannels || DmxPrefixSize + n == |d| || n == DeclaredLength(d)
  {
    var count := DeclaredLength(d);
    var capped := if count > MaxChannels then MaxChannels else count;
    if capped > |d| - DmxPrefixSize then |d| - DmxPrefixSize else capped
  }

  /** The buffer after copying `n` channel values: slot `k + 1` takes data byte `18 + k`. */
  function CopiedFrame(buf: seq<byte>, d: seq<byte>, n: nat): (r: seq<byte>)
    requires |buf| == DmxBufferSize && n <= MaxChannels && DmxPrefixSize + n <= |d|
    ensures |r| == DmxBufferSize && r[0] == buf[0]
    ensures forall k | n < k < DmxBufferSize :: r[k] == buf[k]
  {
    seq(DmxBufferSize, k requires 0 <= k < DmxBufferSize =>
      if 1 <= k <= n then d[DmxPrefixSize + k - 1] else buf[k])
  }

  /**
   * What the copy promises: the start code is never written, slots 1..n hold
   * the received channel values in order, later slots keep their values.
   */
  lemma CopiedFrameSlots(buf: seq<byte>, d: seq<byte>, n: nat)
    requires |buf| == DmxBufferSize && n <= MaxChannels && DmxPrefixSize + n <= |d|
    ensures CopiedFrame(buf, d, n)[0] == buf[0]
    ensures CopiedFrame(buf, d, n)[1..n + 1] == d[DmxPrefixSize..DmxPrefixSize + n]
    ensures CopiedFrame(buf, d, n)[n + 1..] == buf[n + 1..]
  {
    var r := CopiedFrame(buf, d, n);
    assert forall j | 1 <= j <= n :: r[j] == d[DmxPrefixSize + j - 1];
    assert r[1..n + 1] == d[DmxPrefixSize..DmxPrefixSize + n];
  }

  /**
   * For a standard ArtDmx the corrected copy puts exactly the encoded channel
   * values into slots 1..n, whatever the buffer held.
   */
  lemma CopyEncodedFrame(buf: seq<byte>, sequence: byte, physical: byte, subUni: byte, net: byte, data: seq<byte>)
    requires |buf| == DmxBufferSize && |data| <= MaxChannels
    ensures var d := EncodeDmx(sequence, physical, subUni, net, data);
      && CopyCount(d) == |data|
      && CopiedFrame(buf, d, |data|)[1..|data| + 1] == data
      && CopiedFrame(buf, d, |data|)[0] == buf[0]
  {
    var d := EncodeDmx(sequence, physical, subUni, net, data);
    DecodeEncodedDmx(sequence, physical, subUni, net, data);
    CopiedFrameSlots(buf, d, |data|);
    assert d[DmxPrefixSize..DmxPrefixSize + |data|] == d[DmxPrefixSize..];
  }

  /** The corrected copy loop: ascending `k`, `dmx_data[k + 1] = data[k + 18]` for `k < n`. */
  method CopyChannels(buf: array<byte>, d: seq<byte>, n: nat)
    requires buf.Length == DmxBufferSize && n <= MaxChannels && DmxPrefixSize + n <= |d|
    modifies buf
    ensures buf[..] == CopiedFrame(old(buf[..]), d, n)
  {
    var k := 0;
    while k < n
      invariant 0 <= k <= n
      invariant forall j | 0 <= j < DmxBufferSize ::
        buf[j] == if 1 <= j <= k then d[DmxPrefixSize + j - 1] else old(buf[j])
    {
      buf[k + 1] := d[k + DmxPrefixSize];
      k := k + 1;
    }
    assert buf[..] == CopiedFrame(old(buf[..]), d, n);
  }

  /**
   * What the copy loop as written needs in order to stay inside its arrays:
   * `tmp` runs to 512, so it writes index 513 and reads index 530.
   */
  predicate AsWrittenCopyDefined(bufferLength: nat, packetLength: nat) {
    bufferLength >= DmxBufferSize + 1 && packetLength >= DmxPrefixSize + DmxBufferSize
  }

  /** The copy loop as written: `for (tmp = 0; tmp < 513; tmp++) dmx_data[tmp+1] = data[tmp+18];`. */
  method CopyChannelsAsWritten(buf: array<byte>, d: seq<byte>)
    requires AsWrittenCopyDefined(buf.Length, |d|)
    modifies buf
    ensures buf[0] == old(buf[0])
    ensures forall k | 1 <= k <= DmxBufferSize :: buf[k] == d[DmxPrefixSize + k - 1]
    ensures forall k | DmxBufferSize < k < buf.Length :: buf[k] == old(buf[k])
  {
    var tmp := 0;
    while tmp < DmxBufferSize
      invariant 0 <= tmp <= DmxBufferSize
      invariant buf[0] == old(buf[0])
      invariant forall k | 1 <= k <= tmp :: buf[k] == d[DmxPrefixSize + k - 1]
      invariant forall k | tmp < k < buf.Length :: buf[k] == old(buf[k])
    {
      buf[tmp + 1] := d[tmp + DmxPrefixSize];
      tmp := tmp + 1;
    }
  }

  /** The loop as written cannot run on the 513-byte `dmx_data`, whatever the datagram. */
  lemma AsWrittenCopyOverrunsBuffer(packetLength: nat)
    ensures !AsWrittenCopyDefined(DmxBufferSize, packetLength)
  {
  }

  /**
   * Nor on a complete 512-channel frame (530 bytes), whatever the buffer:
   * it reads one byte past the datagram.
   */
  lemma AsWrittenCopyOverrunsFullFrame(bufferLength: nat)
    ensures !AsWrittenCopyDefined(bufferLength, DmxPrefixSize + MaxChannels)
  {
  }

  /** With the initial settings (sub-net 0, universe 1) only SubUni 0x01 is accepted. */
  lemma InitialAddressAcceptsOnlyOne(subUni: byte)
    ensures AddressAccepted(subUni, 0, 1) <==> subUni == 1
  {
    AddressNibbles(0, 1);
  }

  /**
   * The PWM half of `artnet_recv_opoutput` for an accepted frame whose slot 1
   * holds `level`: PWM channel 1 stores `level`; `pwm_start` is called, and
   * `old` becomes `level`, exactly when `level` differs from `old`.
   */
  predicate LegacyPwmStep(old0: byte, duty0: seq<byte>, committed0: seq<byte>, starts0: nat, level: byte,
                          old1: byte, duty1: seq<byte>, committed1: seq<byte>, starts1: nat)
    requires |duty0| == PwmChannelCount
    ensures LegacyPwmStep(old0, duty0, committed0, starts0, level, old1, duty1, committed1, starts1) ==>
      starts0 <= starts1 <= starts0 + 1 && (starts1 == starts0 + 1 <==> old0 != level)
  {
    && duty1 == duty0[1 := level] && old1 == level
    && if old0 != level then committed1 == duty1 && starts1 == starts0 + 1
       else committed1 == committed0 && starts1 == starts0
  }

  /**
   * As `artnet_init` leaves the node (`old` 0, every duty 64), a first frame
   * whose slot 1 is 0 stores duty 0 without calling `pwm_start`: channel 1
   * keeps running at 64.
   */
  lemma InitialOldHidesFirstZero(old1: byte, duty1: seq<byte>, committed1: seq<byte>, starts1: nat)
    requires LegacyPwmStep(0, [64, 64, 64], [64, 64, 64], 0, 0, old1, duty1, committed1, starts1)
    ensures duty1 == [64, 0, 64] && committed1 == [64, 64, 64] && committed1 != duty1 && starts1 == 0
  {
    assert duty1[1] != committed1[1];
  }

  /**
   * With `old` equal to the stored duty of channel 1 and the outputs running
   * the stored duties, every frame keeps both so: a changed duty is always
   * committed.
   */
  lemma TrackedOldKeepsOutputsCurrent(old0: byte, duty0: seq<byte>, starts0: nat, level: byte,
                                      old1: byte, duty1: seq<byte>, committed1: seq<byte>, starts1: nat)
    requires |duty0| == PwmChannelCount && old0 == duty0[1]
    requires LegacyPwmStep(old0, duty0, duty0, starts0, level, old1, duty1, committed1, starts1)
    ensures committed1 == duty1 && old1 == duty1[1]
    ensures starts1 == starts0 + 1 <==> duty1 != duty0
  {
    if old0 == level {
      assert duty1 == duty0;
    } else {
      assert duty1[1] != duty0[1];
    }
  }

  /** The globals of the older revision and the PWM driver they feed. */
  class LegacyNode {
    var net: byte
    var subNet: byte
    var outputUniverse1: byte
    var shortName: seq<byte>
    var longName: seq<byte>
    const dmxData: array<byte>
    /** The function-static `old` of `artnet_recv_opoutput`. */
    var lastLevel: byte
    const pwm: Pwm

    /**
     * `old` always equals the stored duty of PWM channel 1, and the outputs
     * run the stored duties.
     */
    predicate Valid()
      reads this, dmxData, pwm
    {
      && dmxData.Length == DmxBufferSize && pwm.Valid()
      && |shortName| == 18 && |longName| == 64
      && lastLevel == pwm.duty[1] && pwm.committed == pwm.duty
    }

    /** What `artnet_sendPollReply` reports for this node. */
    function Info(ip: seq<byte>, mac: seq<byte>): (info: NodeInfo)
      reads this
      requires |shortName| == 18 && |longName| == 64 && |ip| == 4 && |mac| == 6
      ensures WellFormed(info)
    {
      NodeInfo(ip, mac, net, subNet, outputUniverse1, shortName, longName)
    }

    /**
     * `artnet_init`, with the zero-initialised globals and
     * `pwm_init(100, {64, 64, 64})`; `old` starts at channel 1's initial duty
     * rather than 0, so that the first change is committed.
     */
    constructor ()
      ensures Valid() && fresh(dmxData) && fresh(pwm)
      ensures net == 0 && subNet == 0 && outputUniverse1 == 1
      ensures shortName == DefaultShortName && longName == DefaultLongName
      ensures forall k | 0 <= k < DmxBufferSize :: dmxData[k] == 0
      ensures lastLevel == 64
      ensures pwm.duty == [64, 64, 64] && pwm.committed == [64, 64, 64] && pwm.starts == 0
    {
      net := 0;
      subNet := 0;
      outputUniverse1 := 1;
      shortName := DefaultShortName;
      longName := DefaultLongName;
      dmxData := new byte[DmxBufferSize](_ => 0);
      lastLevel := 64;
      pwm := new Pwm([64, 64, 64]);
    }

    /** `artnet_recv_opoutput`, with the copy corrected to the received channel count. */
    method RecvOpOutput(d: seq<byte>)
      requires Valid() && DmxPrefixSize <= |d|
      modifies this, dmxData, pwm
      ensures Valid()
      ensures net == old(net) && subNet == old(subNet) && outputUniverse1 == old(outputUniverse1)
      ensures shortName == old(shortName) && longName == old(longName)
      ensures !AddressAccepted(SubUni(d), subNet, outputUniverse1) ==>
        dmxData[..] == old(dmxData[..]) && lastLevel == old(lastLevel)
        && pwm.duty == old(pwm.duty) && pwm.committed == old(pwm.committed) && pwm.starts == old(pwm.starts)
      ensures AddressAccepted(SubUni(d), subNet, outputUniverse1) ==>
        && dmxData[..] == CopiedFrame(old(dmxData[..]), d, CopyCount(d))
        && LegacyPwmStep(old(lastLevel), old(pwm.duty), old(pwm.committed), old(pwm.starts), dmxData[1],
                         lastLevel, pwm.duty, pwm.committed, pwm.starts)
    {
      if d[14] == AddressValue(subNet, outputUniverse1) {
        var count := CopyCount(d);
        CopyChannels(dmxData, d, count);
        var _ := pwm.SetDuty(dmxData[1], 1);
        if lastLevel != dmxData[1] {
          lastLevel := dmxData[1];
          pwm.Start();
        }
      }
    }

    /**
     * `artnet_get`: the UDP receive callback. Returns the reply sent back on
     * the receiving connection, if any.
     */
    method Get(ip: seq<byte>, mac: seq<byte>, d: seq<byte>) returns (reply: Option<seq<byte>>)
      requires Valid() && |ip| == 4 && |mac| == 6
      requires HeaderSize <= |d|
      requires IdMatches(d) && OpOf(d) == Output ==> DmxPrefixSize <= |d|
      modifies this, dmxData, pwm
      ensures Valid()
      ensures net == old(net) && subNet == old(subNet) && outputUniverse1 == old(outputUniverse1)
      ensures shortName == old(shortName) && longName == old(longName)
      ensures reply.Some? <==> IdMatches(d) && OpOf(d) == Poll
      ensures reply.Some? ==> IsPollReplyFor(reply.value, Info(ip, mac))
      ensures !(IdMatches(d) && OpOf(d) == Output) ==>
        dmxData[..] == old(dmxData[..]) && lastLevel == old(lastLevel)
        && pwm.duty == old(pwm.duty) && pwm.committed == old(pwm.committed) && pwm.starts == old(pwm.starts)
      ensures IdMatches(d) && OpOf(d) == Output && !AddressAccepted(SubUni(d), subNet, outputUniverse1) ==>
        dmxData[..] == old(dmxData[..]) && lastLevel == old(lastLevel)
        && pwm.duty == old(pwm.duty) && pwm.committed == old(pwm.committed) && pwm.starts == old(pwm.starts)
      ensures IdMatches(d) && OpOf(d) == Output && AddressAccepted(SubUni(d), subNet, outputUniverse1) ==>
        && dmxData[..] == CopiedFrame(old(dmxData[..]), d, CopyCount(d))
        && LegacyPwmStep(old(lastLevel), old(pwm.duty), old(pwm.committed), old(pwm.starts), dmxData[1],
                         lastLevel, pwm.duty, pwm.committed, pwm.starts)
    {
      reply := None;
      if d[..8] != ArtNetId {
        return;
      }
      match Classify(Opcode(d))
      case Poll =>
        var r := BuildPollReply(Info(ip, mac));
        reply := Some(r);
      case PollReply =>
      case Output =>
        RecvOpOutput(d);
      case Address =>
      case IpProg =>
      case Unknown(_) =>
    }

    /** Two frames with the same first slot call `pwm_start` at most once between them. */
    method SameFirstSlotStartsOnce(d1: seq<byte>, d2: seq<byte>)
      requires Valid() && DmxPrefixSize <= |d1| && DmxPrefixSize <= |d2|
      requires AddressAccepted(SubUni(d1), subNet, outputUniverse1) && AddressAccepted(SubUni(d2), subNet, outputUniverse1)
      requires CopyCount(d1) >= 1 && CopyCount(d2) >= 1 && d1[DmxPrefixSize] == d2[DmxPrefixSize]
      modifies this, dmxData, pwm
      ensures Valid() && pwm.starts <= old(pwm.starts) + 1
    {
      RecvOpOutput(d1);
      ghost var starts1 := pwm.starts;
      assert dmxData[1] == d1[DmxPrefixSize];
      RecvOpOutput(d2);
      assert dmxData[1] == d2[DmxPrefixSize];
      assert pwm.starts == starts1;
    }
  }
}
