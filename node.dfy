/**
 * The receive path of the current firmware revision (Source/artnet/artnet.c):
 * the UDP callback checks the Art-Net identifier, dispatches on the opcode,
 * answers ArtPoll with an ArtPollReply and maps ArtDmx channel data onto the
 * PWM outputs, calling `pwm_start` only when a duty changed.
 */
module ArtNetNode {
  import opened Bytes
  import opened Options
  import opened ArtNetWire
  import opened PollReply
  import opened PwmOutput

  /** `artnet_net`: the Net switch this revision reports (a constant). */
  const ArtnetNet: byte := 0

  /** The node settings read from flash, and the names set by `artnet_init`. */
  datatype NodeConfig = NodeConfig(
    subnet: byte, universe: byte, pwmStart: byte,
    shortName: seq<byte>, longName: seq<byte>)

  predicate ValidConfig(cfg: NodeConfig) {
    |cfg.shortName| == 18 && |cfg.longName| == 64
  }

  /** The configuration after `artnet_init`: flash settings plus the default names. */
  function InitConfig(subnet: byte, universe: byte, pwmStart: byte): (cfg: NodeConfig)
    ensures ValidConfig(cfg)
    ensures cfg.subnet == subnet && cfg.universe == universe && cfg.pwmStart == pwmStart
    ensures cfg.shortName[..12] == Ascii("ESP8266 NODE") && cfg.longName[..22] == Ascii("ESP based Art-Net Node")
    ensures forall i | 12 <= i < 18 :: cfg.shortName[i] == 0
    ensures forall i | 22 <= i < 64 :: cfg.longName[i] == 0
  {
    NodeConfig(subnet, universe, pwmStart, DefaultShortName, DefaultLongName)
  }

  /** What `artnet_sendPollReply` reports for this configuration. */
  function InfoOf(cfg: NodeConfig, ip: seq<byte>, mac: seq<byte>): (info: NodeInfo)
    requires ValidConfig(cfg) && |ip| == 4 && |mac| == 6
    ensures WellFormed(info)
  {
    NodeInfo(ip, mac, ArtnetNet, cfg.subnet, cfg.universe, cfg.shortName, cfg.longName)
  }

  /** An `int` stored into a `sint16`: reduced modulo 2^16 into -32768..32767. */
  function ToInt16(v: int): (r: int)
    ensures -0x8000 <= r < 0x8000 && (r - v) % 0x1_0000 == 0
    ensures -0x8000 <= v < 0x8000 ==> r == v
  {
    (v + 0x8000) % 0x1_0000 - 0x8000
  }

  /**
   * The number of PWM channels written for a clamped channel count:
   * `availablePwmChannels = count - pwmstart + 1` as a `sint16`, capped at
   * `PWM_CHANNEL`; a negative value runs the loop zero times.
   */
  function PwmWindow(count: uint16, pwmStart: byte): (n: nat)
    ensures n <= PwmChannelCount
    ensures n > 0 ==> pwmStart - 1 + n <= count
  {
    var avail := ToInt16(count - pwmStart + 1);
    if avail > PwmChannelCount as int then PwmChannelCount
    else if avail < 0 then 0
    else avail
  }

  /** Without the `sint16` wrap, the window is `min(PWM_CHANNEL, count - pwmstart + 1)`, or 0 when negative. */
  lemma PwmWindowSize(count: uint16, pwmStart: byte)
    requires count - pwmStart + 1 < 0x8000
    ensures var w := count - pwmStart + 1;
      PwmWindow(count, pwmStart) == if w < 0 then 0 else if w < PwmChannelCount then w else PwmChannelCount
  {
  }

  /** A datagram shorter than 32785 bytes never reaches the wrap. */
  lemma PwmWindowNoWrap(d: seq<byte>, pwmStart: byte)
    requires DmxPrefixSize <= |d| < 32785
    ensures ClampCount(DeclaredLength(d), |d|) - pwmStart + 1 < 0x8000
  {
  }

  /** The channel count `artnet_recv_opoutput` works with: the declared length, clamped to what arrived. */
  function FrameCount(d: seq<byte>): (n: uint16)
    requires DmxPrefixSize <= |d| < 0x1_0000
    ensures DmxPrefixSize + n <= |d| && n <= DeclaredLength(d)
  {
    ClampCount(DeclaredLength(d), |d|)
  }

  /** Whether `artnet_recv_opoutput` accepts the frame: byte 14 against `(subnet << 4) | universe`. */
  predicate Accepts(cfg: NodeConfig, d: seq<byte>)
    requires |d| > 14
    ensures Accepts(cfg, d) ==> cfg.subnet < 16
    ensures cfg.subnet < 16 && cfg.universe < 16 ==>
      (Accepts(cfg, d) <==> d[14] / 16 == cfg.subnet && d[14] % 16 == cfg.universe)
  {
    if cfg.subnet < 16 && cfg.universe < 16 then
      AddressAcceptedIff(SubUni(d), cfg.subnet, cfg.universe);
      AddressAccepted(SubUni(d), cfg.subnet, cfg.universe)
    else
      AddressAccepted(SubUni(d), cfg.subnet, cfg.universe)
  }

  /**
   * The duties after an accepted frame: channel `i` of the window takes data
   * byte `pwmstart - 1 + i`, every other channel keeps its duty.
   */
  function ApplyFrame(duty: seq<byte>, d: seq<byte>, cfg: NodeConfig): (r: seq<byte>)
    requires |duty| == PwmChannelCount && DmxPrefixSize <= |d| < 0x1_0000 && cfg.pwmStart >= 1
    ensures |r| == PwmChannelCount
    ensures forall i | 0 <= i < PwmChannelCount && r[i] != duty[i] ::
      cfg.pwmStart - 1 + i < FrameCount(d) && r[i] == d[DmxPrefixSize + cfg.pwmStart - 1 + i]
  {
    var n := PwmWindow(FrameCount(d), cfg.pwmStart);
    seq(PwmChannelCount, i requires 0 <= i < PwmChannelCount =>
      if i < n then d[DmxPrefixSize + cfg.pwmStart - 1 + i] else duty[i])
  }

  /**
   * Every data byte the window reads lies below the clamped count, hence
   * inside the received datagram.
   */
  lemma WindowReadsInside(d: seq<byte>, cfg: NodeConfig, i: nat)
    requires DmxPrefixSize <= |d| < 0x1_0000 && cfg.pwmStart >= 1
    requires i < PwmWindow(FrameCount(d), cfg.pwmStart)
    ensures cfg.pwmStart - 1 + i < FrameCount(d)
    ensures DmxPrefixSize + cfg.pwmStart - 1 + i < |d|
  {
  }

  /**
   * Every channel of the window takes its data byte: channel `i` receives
   * data byte `pwmstart - 1 + i` whenever that byte is within the clamped
   * count (and the datagram is short enough that the `sint16` never wraps).
   */
  lemma ApplyFrameWritesWindow(duty: seq<byte>, d: seq<byte>, cfg: NodeConfig)
    requires |duty| == PwmChannelCount && DmxPrefixSize <= |d| < 32785 && cfg.pwmStart >= 1
    ensures forall i | 0 <= i < PwmChannelCount && cfg.pwmStart - 1 + i < FrameCount(d) ::
      ApplyFrame(duty, d, cfg)[i] == d[DmxPrefixSize + cfg.pwmStart - 1 + i]
  {
    PwmWindowNoWrap(d, cfg.pwmStart);
  }

  /** Applying the same frame again changes nothing. */
  lemma ApplyFrameIdempotent(duty: seq<byte>, d: seq<byte>, cfg: NodeConfig)
    requires |duty| == PwmChannelCount && DmxPrefixSize <= |d| < 0x1_0000 && cfg.pwmStart >= 1
    ensures ApplyFrame(ApplyFrame(duty, d, cfg), d, cfg) == ApplyFrame(duty, d, cfg)
  {
  }

  /** The Net byte at offset 15 is never looked at. */
  lemma NetByteIgnored(d: seq<byte>, net: byte, cfg: NodeConfig)
    requires DmxPrefixSize <= |d| < 0x1_0000
    ensures Accepts(cfg, d[15 := net]) == Accepts(cfg, d)
    ensures cfg.pwmStart >= 1 ==> forall duty | |duty| == PwmChannelCount ::
      ApplyFrame(duty, d[15 := net], cfg) == ApplyFrame(duty, d, cfg)
  {
  }

  /**
   * The PWM state after one ArtDmx: a rejected frame changes nothing; an
   * accepted one stores `ApplyFrame` and calls `pwm_start` once exactly when
   * the stored duties changed.
   */
  predicate OutputStep(d: seq<byte>, cfg: NodeConfig,
                       duty0: seq<byte>, committed0: seq<byte>, starts0: nat,
                       duty1: seq<byte>, committed1: seq<byte>, starts1: nat)
    requires |duty0| == PwmChannelCount && DmxPrefixSize <= |d| < 0x1_0000 && cfg.pwmStart >= 1
    ensures OutputStep(d, cfg, duty0, committed0, starts0, duty1, committed1, starts1) ==>
      starts0 <= starts1 <= starts0 + 1 && (starts1 == starts0 + 1 <==> duty1 != duty0)
    ensures OutputStep(d, cfg, duty0, committed0, starts0, duty1, committed1, starts1) && !Accepts(cfg, d) ==>
      duty1 == duty0 && committed1 == committed0 && starts1 == starts0
  {
    if Accepts(cfg, d) then
      && duty1 == ApplyFrame(duty0, d, cfg)
      && (if duty1 != duty0 then committed1 == duty1 && starts1 == starts0 + 1
          else committed1 == committed0 && starts1 == starts0)
    else
      duty1 == duty0 && committed1 == committed0 && starts1 == starts0
  }

  /**
   * Change detection keeps the outputs current: if the committed duties were
   * the stored ones before a frame, they still are after it.
   */
  lemma OutputStepKeepsOutputsCurrent(d: seq<byte>, cfg: NodeConfig,
                                      duty0: seq<byte>, starts0: nat,
                                      duty1: seq<byte>, committed1: seq<byte>, starts1: nat)
    requires |duty0| == PwmChannelCount && DmxPrefixSize <= |d| < 0x1_0000 && cfg.pwmStart >= 1
    requires OutputStep(d, cfg, duty0, duty0, starts0, duty1, committed1, starts1)
    ensures committed1 == duty1 && starts1 <= starts0 + 1
  {
  }

  /** `artnet_recv_opoutput(data, packetlen)`. */
  method RecvOpOutput(pwm: Pwm, cfg: NodeConfig, d: seq<byte>)
    requires pwm.Valid() && DmxPrefixSize <= |d| < 0x1_0000 && cfg.pwmStart >= 1
    modifies pwm
    ensures pwm.Valid()
    ensures OutputStep(d, cfg, old(pwm.duty), old(pwm.committed), old(pwm.starts),
                       pwm.duty, pwm.committed, pwm.starts)
  {
    if SubUni(d) == AddressValue(cfg.subnet, cfg.universe) {
      var count := DeclaredLength(d);
      var maxChannels := |d| - DmxPrefixSize;
      if count > maxChannels {
        count := maxChannels;
      }
      var available := ToInt16(count - cfg.pwmStart + 1);
      if available > PwmChannelCount as int {
        available := PwmChannelCount;
      }
      ghost var n := PwmWindow(count, cfg.pwmStart);
      assert n == if available < 0 then 0 else available;
      ghost var target := ApplyFrame(old(pwm.duty), d, cfg);
      var dataChanged := false;
      var i: nat := 0;
      while i < available
        invariant i <= n
        invariant pwm.Valid() && pwm.committed == old(pwm.committed) && pwm.starts == old(pwm.starts)
        invariant forall k | 0 <= k < PwmChannelCount :: pwm.duty[k] == if k < i then target[k] else old(pwm.duty[k])
        invariant dataChanged <==> exists k | 0 <= k < i :: target[k] != old(pwm.duty[k])
      {
        var dmxIndex := cfg.pwmStart - 1 + i;
        var changed := pwm.SetDuty(d[DmxPrefixSize + dmxIndex], i);
        if changed {
          dataChanged := true;
        }
        i := i + 1;
      }
      assert pwm.duty == target;
      assert dataChanged <==> pwm.duty != old(pwm.duty) by {
        if pwm.duty != old(pwm.duty) {
          var k :| 0 <= k < PwmChannelCount && pwm.duty[k] != old(pwm.duty[k]);
          assert k < i;
        }
      }
      if dataChanged {
        pwm.Start();
      }
    }
  }

  /**
   * A frame repeated straight after itself changes nothing: the second
   * output step stores the same duties and does not call `pwm_start`.
   */
  lemma RepeatedFrameStartsNothing(d: seq<byte>, cfg: NodeConfig,
                                   duty0: seq<byte>, committed0: seq<byte>, starts0: nat,
                                   duty1: seq<byte>, committed1: seq<byte>, starts1: nat,
                                   duty2: seq<byte>, committed2: seq<byte>, starts2: nat)
    requires |duty0| == PwmChannelCount && DmxPrefixSize <= |d| < 0x1_0000 && cfg.pwmStart >= 1
    requires OutputStep(d, cfg, duty0, committed0, starts0, duty1, committed1, starts1)
    requires OutputStep(d, cfg, duty1, committed1, starts1, duty2, committed2, starts2)
    ensures duty2 == duty1 && committed2 == committed1 && starts2 == starts1
  {
    if Accepts(cfg, d) {
      ApplyFrameIdempotent(duty0, d, cfg);
    }
  }

  /** The effect of an ArtIpProg command on the station interface. */
  datatype IpProgEffect = KeepAddress | SetStaticIp(ip: seq<byte>)

  /** Bit `k` of a byte is set: the test `(c & (1 << k)) == (1 << k)`. */
  predicate HasBit(c: byte, k: nat)
    ensures HasBit(c, k) <==> BitAnd(c, Pow2(k)) == Pow2(k)
  {
    BitAndPow2(c, k);
    Bit(c, k)
  }

  /**
   * `processIpProgPacket`: with the enable bit (0x80) and the program-IP bit
   * (0x04) of `command` (offset 14) set, the address at `progIp` (offsets
   * 16-19) is programmed and DHCP stopped; the port, sub-net and reset bits
   * have empty branches.
   */
  function ProcessIpProg(d: seq<byte>): (e: IpProgEffect)
    requires |d| >= 20
    ensures e.SetStaticIp? ==> e.ip == d[16..20]
  {
    var command := d[14];
    if HasBit(command, 7) && HasBit(command, 2) then SetStaticIp(d[16..20]) else KeepAddress
  }

  /** The address is reprogrammed exactly when bits 0x80 and 0x04 are both set. */
  lemma IpProgReprogramsIff(d: seq<byte>)
    requires |d| >= 20
    ensures ProcessIpProg(d).SetStaticIp? <==> BitAnd(d[14], 128) == 128 && BitAnd(d[14], 4) == 4
  {
    assert Pow2(7) == 128 && Pow2(2) == 4;
  }

  /** Bits 0x01, 0x02 and 0x08 have no effect: commands that agree on 0x80 and 0x04 act alike. */
  lemma IpProgOtherBitsIgnored(d: seq<byte>, command: byte)
    requires |d| >= 20
    requires HasBit(command, 7) == HasBit(d[14], 7) && HasBit(command, 2) == HasBit(d[14], 2)
    ensures ProcessIpProg(d[14 := command]) == ProcessIpProg(d)
  {
    assert d[14 := command][16..20] == d[16..20];
  }

  /**
   * `artnet_get`: the UDP receive callback. Returns the reply handed to
   * `espconn_sent`, if any.
   */
  method Get(pwm: Pwm, cfg: NodeConfig, ip: seq<byte>, mac: seq<byte>, d: seq<byte>)
    returns (reply: Option<seq<byte>>)
    requires pwm.Valid() && ValidConfig(cfg) && |ip| == 4 && |mac| == 6
    requires HeaderSize <= |d| < 0x1_0000
    requires IdMatches(d) && OpOf(d) == Output ==> DmxPrefixSize <= |d| && cfg.pwmStart >= 1
    modifies pwm
    ensures pwm.Valid()
    ensures reply.Some? <==> IdMatches(d) && OpOf(d) == Poll
    ensures reply.Some? ==> IsPollReplyFor(reply.value, InfoOf(cfg, ip, mac))
    ensures IdMatches(d) && OpOf(d) == Output ==>
      OutputStep(d, cfg, old(pwm.duty), old(pwm.committed), old(pwm.starts),
                 pwm.duty, pwm.committed, pwm.starts)
    ensures !(IdMatches(d) && OpOf(d) == Output) ==>
      pwm.duty == old(pwm.duty) && pwm.committed == old(pwm.committed) && pwm.starts == old(pwm.starts)
  {
    reply := None;
    if d[..8] != ArtNetId {
      return;
    }
    match Classify(Opcode(d))
    case Poll =>
      var r := BuildPollReply(InfoOf(cfg, ip, mac));
      reply := Some(r);
    case PollReply =>
    case Output =>
      RecvOpOutput(pwm, cfg, d);
    case Address =>
    case IpProg =>
    case Unknown(_) =>
  }
}
