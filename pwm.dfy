/**
 * The PWM driver as the receive path sees it: `pwm_set_duty` stores a duty
 * for one channel and reports whether the stored value changed, and
 * `pwm_start` commits the stored duties to the outputs in one update.
 */
module PwmOutput {
  import opened Bytes

  /** `PWM_CHANNEL`: the three outputs given initial duties by `pwm_init`. */
  const PwmChannelCount: nat := 3

  class Pwm {
    /** The duty stored for each channel. */
    var duty: seq<byte>
    /** The duties the outputs run with, as of the last `pwm_start`. */
    var committed: seq<byte>
    /** How many times `pwm_start` has been called. */
    var starts: nat

    predicate Valid()
      reads this
    {
      |duty| == PwmChannelCount && |committed| == PwmChannelCount
    }

    /** `pwm_init(period, duty)`: the initial duties are stored and in effect. */
    constructor (initial: seq<byte>)
      requires |initial| == PwmChannelCount
      ensures Valid() && duty == initial && committed == initial && starts == 0
    {
      duty, committed, starts := initial, initial, 0;
    }

    /** `pwm_set_duty(value, channel)`: stores the duty; `true` iff the stored value changed. */
    method SetDuty(value: byte, channel: nat) returns (changed: bool)
      requires Valid() && channel < PwmChannelCount
      modifies this
      ensures Valid()
      ensures changed <==> old(duty[channel]) != value
      ensures duty == old(duty)[channel := value]
      ensures committed == old(committed) && starts == old(starts)
    {
      changed := duty[channel] != value;
      duty := duty[channel := value];
    }

    /** `pwm_start()`: the stored duties take effect together. */
    method Start()
      requires Valid()
      modifies this
      ensures Valid()
      ensures duty == old(duty) && committed == duty && starts == old(starts) + 1
    {
      committed := duty;
      starts := starts + 1;
    }
  }
}
