/**
 * The DMX512 emitter `at_dmxTask` (Source/user/user_main.c): one frame of
 * `dmx_data` on GPIO2, as the ordered sequence of line, pin-mux, UART and
 * delay events the task performs. Delays are recorded, not elapsed.
 */
module DmxOutput {
  import opened Bytes

  /** What the task does to the hardware, in order. */
  datatype Event =
    | LineLow              // gpio_output_set(0, BIT2, BIT2, 0)
    | LineHigh             // gpio_output_set(BIT2, 0, BIT2, 0)
    | PinToGpio            // PIN_FUNC_SELECT(..., FUNC_GPIO2)
    | PinToUart            // PIN_FUNC_SELECT(..., FUNC_U1TXD_BK)
    | Send(value: byte)    // uart_tx_one_char(1, value)
    | Wait(us: nat)        // os_delay_us(us)

  const BreakUs: nat := 150
  const MarkUs: nat := 54
  const StartGapUs: nat := 54
  const SlotGapUs: nat := 50
  /** The start code and the 512 slots of `dmx_data`. */
  const FrameSlots: nat := 513

  /** Break, mark-after-break, and the start code with its gap. */
  function Preamble(startCode: byte): (t: seq<Event>)
    ensures |t| == 8
  {
    [LineLow, PinToGpio, Wait(BreakUs), LineHigh, Wait(MarkUs), Send(startCode), PinToUart, Wait(StartGapUs)]
  }

  /** Each slot sent and followed by the inter-slot delay, in order. */
  function Slots(s: seq<byte>): (t: seq<Event>)
    ensures |t| == 2 * |s|
  {
    if s == [] then [] else Slots(s[..|s| - 1]) + [Send(s[|s| - 1]), Wait(SlotGapUs)]
  }

  /** One frame of `dmx_data`: the preamble carries slot 0, the loop slots 1 to 512. */
  function Frame(d: seq<byte>): (t: seq<Event>)
    requires |d| == FrameSlots
    ensures |t| == 1032 && t[0] == LineLow && t[3] == LineHigh && t[5] == Send(d[0])
  {
    Preamble(d[0]) + Slots(d[1..])
  }

  /** The bytes the UART is given, in order. */
  function Sent(t: seq<Event>): seq<byte> {
    if t == [] then []
    else Sent(t[..|t| - 1]) + (if t[|t| - 1].Send? then [t[|t| - 1].value] else [])
  }

  /** The sum of all delays. */
  function TotalWait(t: seq<Event>): nat {
    if t == [] then 0
    else TotalWait(t[..|t| - 1]) + (if t[|t| - 1].Wait? then t[|t| - 1].us else 0)
  }

  /** The byte an event hands the UART, if any. */
  function SentBy(e: Event): seq<byte> {
    if e.Send? then [e.value] else []
  }

  /** The delay an event adds. */
  function WaitOf(e: Event): nat {
    if e.Wait? then e.us else 0
  }

  lemma SentSnoc(t: seq<Event>, e: Event)
    ensures Sent(t + [e]) == Sent(t) + SentBy(e) && TotalWait(t + [e]) == TotalWait(t) + WaitOf(e)
  {
    assert (t + [e])[..|t|] == t;
  }

  lemma {:induction false} SentConcat(a: seq<Event>, b: seq<Event>)
    ensures Sent(a + b) == Sent(a) + Sent(b) && TotalWait(a + b) == TotalWait(a) + TotalWait(b)
    decreases |b|
  {
    if b == [] {
      assert a + b == a;
    } else {
      var b' := b[..|b| - 1];
      var e := b[|b| - 1];
      assert b == b' + [e];
      assert a + b == (a + b') + [e];
      SentConcat(a, b');
      SentSnoc(a + b', e);
      SentSnoc(b', e);
      calc {
        Sent(a + b);
        Sent((a + b') + [e]);
        Sent(a + b') + SentBy(e);
        Sent(a) + Sent(b') + SentBy(e);
        Sent(a) + (Sent(b') + SentBy(e));
        Sent(a) + Sent(b' + [e]);
      }
    }
  }

  /** One turn of the slot loop sends its byte and waits the slot gap. */
  lemma SlotStep(t: seq<Event>, v: byte)
    ensures Sent(t + [Send(v), Wait(SlotGapUs)]) == Sent(t) + [v]
    ensures TotalWait(t + [Send(v), Wait(SlotGapUs)]) == TotalWait(t) + SlotGapUs
  {
    assert t + [Send(v), Wait(SlotGapUs)] == (t + [Send(v)]) + [Wait(SlotGapUs)];
    SentSnoc(t, Send(v));
    SentSnoc(t + [Send(v)], Wait(SlotGapUs));
  }

  /** The slot loop sends exactly the slots, in order. */
  lemma {:induction false} SentSlots(s: seq<byte>)
    ensures Sent(Slots(s)) == s
  {
    if s != [] {
      var p := s[..|s| - 1];
      SentSlots(p);
      SlotStep(Slots(p), s[|s| - 1]);
      assert p + [s[|s| - 1]] == s;
    }
  }

  /** The slot loop waits `SlotGapUs` per slot. */
  lemma {:induction false} WaitSlots(s: seq<byte>)
    ensures TotalWait(Slots(s)) == SlotGapUs * |s|
  {
    if s != [] {
      var p := s[..|s| - 1];
      WaitSlots(p);
      SlotStep(Slots(p), s[|s| - 1]);
    }
  }

  /** Slot `k` is the `2k`-th event of the loop, and its delay the next one. */
  lemma {:induction false} SlotsAt(s: seq<byte>, k: nat)
    requires k < |s|
    ensures Slots(s)[2 * k] == Send(s[k]) && Slots(s)[2 * k + 1] == Wait(SlotGapUs)
  {
    var p := s[..|s| - 1];
    if k < |s| - 1 {
      SlotsAt(p, k);
    }
  }

  lemma PreambleFacts(c: byte)
    ensures Sent(Preamble(c)) == [c] && TotalWait(Preamble(c)) == BreakUs + MarkUs + StartGapUs
  {
    var t := Preamble(c);
    var i := 0;
    while i < |t|
      invariant 0 <= i <= |t|
      invariant Sent(t[..i]) == (if i > 5 then [c] else [])
      invariant TotalWait(t[..i]) == (if i > 7 then 258 else if i > 4 then 204 else if i > 2 then 150 else 0)
    {
      assert t[..i + 1] == t[..i] + [t[i]];
      SentSnoc(t[..i], t[i]);
      i := i + 1;
    }
    assert t[..|t|] == t;
  }

  /**
   * A frame hands the UART the start code and then every slot, each exactly
   * once and in address order; slot `k` is event `6 + 2k` and is followed by
   * the inter-slot delay. The delays add up to 25858 µs.
   */
  lemma FrameFacts(d: seq<byte>)
    requires |d| == FrameSlots
    ensures |Frame(d)| == 1032
    ensures Sent(Frame(d)) == d
    ensures TotalWait(Frame(d)) == 25858
    ensures Frame(d)[5] == Send(d[0])
    ensures forall k | 1 <= k < FrameSlots :: Frame(d)[6 + 2 * k] == Send(d[k]) && Frame(d)[7 + 2 * k] == Wait(SlotGapUs)
  {
    PreambleFacts(d[0]);
    SentSlots(d[1..]);
    WaitSlots(d[1..]);
    SentConcat(Preamble(d[0]), Slots(d[1..]));
    assert [d[0]] + d[1..] == d;
    forall k | 1 <= k < FrameSlots
      ensures Frame(d)[6 + 2 * k] == Send(d[k]) && Frame(d)[7 + 2 * k] == Wait(SlotGapUs)
    {
      SlotsAt(d[1..], k - 1);
    }
  }

  /**
   * The delays alone allow fewer than 39 frames per second, below the 44 Hz
   * a full DMX512 universe can reach.
   */
  lemma FrameRateBound(d: seq<byte>)
    requires |d| == FrameSlots
    ensures TotalWait(Frame(d)) * 38 <= 1_000_000 < TotalWait(Frame(d)) * 39
  {
    FrameFacts(d);
  }

  /** `at_dmxTask`: one frame of the buffer, as the events it performs. */
  method DmxTask(dmx: array<byte>) returns (trace: seq<Event>)
    requires dmx.Length == FrameSlots
    ensures trace == Frame(dmx[..])
    ensures Sent(trace) == dmx[..] && TotalWait(trace) == 25858
  {
    trace := [LineLow, PinToGpio, Wait(BreakUs)];          // break
    trace := trace + [LineHigh, Wait(MarkUs)];              // mark after break
    trace := trace + [Send(dmx[0]), PinToUart, Wait(StartGapUs)];  // start code
    var i := 1;
    while i < FrameSlots
      invariant 1 <= i <= FrameSlots
      invariant trace == Preamble(dmx[0]) + Slots(dmx[1..i])
    {
      assert dmx[1..i + 1][..i - 1] == dmx[1..i];
      trace := trace + [Send(dmx[i]), Wait(SlotGapUs)];
      i := i + 1;
    }
    assert dmx[1..] == dmx[1..FrameSlots];
    FrameFacts(dmx[..]);
  }
}
