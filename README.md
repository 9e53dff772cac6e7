# ESP8266 Art-Net node: receive pipeline and DMX512 output

This project is a Dafny model of an ESP8266 Art-Net node firmware. It models
the two revisions of the Art-Net receive path and the DMX512 frame emitter.

- **Current revision** (`Source/artnet/artnet.c`): the UDP callback checks the
  Art-Net identifier and dispatches on the opcode.
  - ArtPoll is answered with an ArtPollReply.
  - ArtDmx (OpOutput) is accepted when its SubUni byte equals
    `(subnet << 4) | universe`. Its declared channel count is cut down to the
    bytes actually received. A window of up to `PWM_CHANNEL` channels,
    starting at `pwmstart`, is written with `pwm_set_duty`. `pwm_start` is
    called once, and only when a duty changed.
  - The ArtIpProg handler is modelled too, although the dispatcher does not
    call it.
- **Older revision** (`Source/user/artnet.c`): the node settings are globals
  set by `artnet_init`. ArtDmx channel data is copied into the 513-byte
  `dmx_data` buffer, where slot 0 is the start code. Slot 1 alone drives PWM
  channel 1. A function-static `old` decides when `pwm_start` is called.
- **DMX512 emitter** (`at_dmxTask` in `Source/user/user_main.c`): one frame of
  `dmx_data` on GPIO2, in this order:
  - a break of 150 µs with the line low;
  - a mark-after-break of 54 µs;
  - the start code, followed by 54 µs;
  - the 512 slots, each followed by 50 µs.

## Modules

- `Bytes`:
  - bytes;
  - the little-endian layout of a `uint16_t`;
  - `HTONS`;
  - the C `|`;
  - C strings copied into zeroed buffers.
- `ArtNetWire`:
  - the header;
  - the opcode table;
  - the SubUni address;
  - the ArtDmx length and its clamp;
  - a reference ArtDmx encoder.
- `PollReply`: the 240-byte ArtPollReply. The builder is written as the C
  does it: it zero-fills a buffer and then stores the fields in struct order.
  The result is proved equal to a field-by-field layout, and that layout is
  proved to fix every byte of the reply.
- `PwmOutput`: the PWM driver as the firmware uses it, as a class. It holds
  the stored duties, the duties committed by the last `pwm_start`, and a
  count of `pwm_start` calls.
- `ArtNetNode`: the current revision's receive path.
- `LegacyArtNet`: the older revision, as a class over the node's globals and
  its `dmx_data` array.
- `DmxOutput`: the emitter, as the ordered trace of hardware events it
  performs.

Inputs the firmware gets from elsewhere are parameters:
- the station IP address and MAC;
- the settings in flash (sub-net, universe, PWM start channel);
- the received datagram.

Delays are recorded as events in the trace; they do not elapse.

Assumptions about the target platform:
- The host is little-endian, so a `uint16_t` field goes out low byte first.
- `struct artnet_pollreply` has no packing attribute. Every `uint16_t` in it
  sits at an even offset. Its fields therefore occupy 239 bytes, and
  `sizeof` is 240 with one trailing padding byte, which the `memset` leaves
  zero.
- The flash settings `artnet_subnet`, `artnet_universe` and `artnet_pwmstart`
  are taken to be `uint8_t`. `config.h` is not part of this model.
- `PWM_CHANNEL` is taken to be 3. That is the number of initial duties
  passed to `pwm_init` at `Source/user/artnet.c:339-340`. `pwm.h` is not part
  of this model.

Timing notes:
- DMX512 transmitters commonly hold the break for at least 176 µs. This
  code holds the line low for 150 µs (`Source/user/user_main.c:70`), and the
  model follows the code.
- The start code is handed to the UART (`Source/user/user_main.c:77`) before GPIO2
  is switched from GPIO to the UART function (line 78); the trace keeps that
  order. Whether the start code reaches the line intact depends on the UART
  FIFO timing, which is not modelled.
- A full 512-slot universe can be refreshed at about 44 Hz. `FrameRateBound`
  shows that the delays of one frame here already add up to 25858 µs, which
  allows fewer than 39 frames per second.

## Model

| member | source | states |
|---|---|---|
| `Bytes.Htons` | Source/artnet/artnet.c:71 | the result's high byte is the argument's low byte and vice versa (the shifted halves never overlap once truncated to 16 bits) |
| `Bytes.HtonsInvolution` | Source/artnet/artnet.c:71 | swapping twice gives back the value |
| `Bytes.HtonsStoresBigEndian` | Source/artnet/artnet.c:218 | a `HTONS` value stored on the little-endian host appears on the wire high byte first |
| `Bytes.LE16` | Source/artnet/artnet.c:210-216 | a `uint16_t` field is stored low byte first, and its two bytes give back the value |
| `Bytes.ReadLE16` | Source/artnet/artnet.c:368 | reading a host-order `uint16_t` inverts its two-byte layout |
| `Bytes.ReadBE16` | Source/artnet/artnet.c:316 | the length built from `lengthHi` shifted by 8 and or-ed with `length` has `lengthHi` as its high byte and `length` as its low byte |
| `Bytes.BitOr` | Source/artnet/artnet.c:314 | the C bitwise or of two non-negative values is at least each operand and at most their sum |
| `Bytes.BitAndPow2` | Source/artnet/artnet.c:276-299 | `c & (1 << k)` is `1 << k` when bit `k` of `c` is set and 0 otherwise |
| `Bytes.CStringField` | Source/artnet/artnet.c:411-412 | `strcpy` into a zeroed buffer leaves the string's characters, then only zeros, with the buffer's full length |
| `ArtNetWire.Classify` | Source/artnet/artnet.c:368-399 | the switch selects the case whose opcode equals the received code; the code falls to no case exactly when it is none of the five known opcodes |
| `ArtNetWire.ClassifyCodeOf` | Source/artnet/artnet.c:368-399 | classification inverts the opcode table |
| `ArtNetWire.IdMismatchRejects` | Source/artnet/artnet.c:363-366 | one wrong byte among the first eight rejects the datagram |
| `ArtNetWire.IdMatches` | Source/artnet/artnet.c:363-366 | `strcmp` against "Art-Net" succeeds exactly when the first eight bytes are "Art-Net" and its NUL |
| `ArtNetWire.Opcode` | Source/artnet/artnet.c:368 | the opcode is the `uint16_t` at offsets 8-9, low byte first |
| `ArtNetWire.OpOf` | Source/artnet/artnet.c:368-399 | the case selected has the opcode whose little-endian bytes are at offsets 8-9; no case is selected exactly when that value is none of the five listed |
| `ArtNetWire.AddressValue` | Source/artnet/artnet.c:314 | the or of `subnet << 4` and `universe` lies between `subnet*16` and `subnet*16 + universe` for any byte settings |
| `ArtNetWire.AddressNibbles` | Source/artnet/artnet.c:314 | with a universe below 16 the or is the sum `subnet*16 + universe` |
| `ArtNetWire.AddressAcceptedIff` | Source/artnet/artnet.c:314 | with nibble-sized settings a frame is accepted exactly when SubUni's high nibble is the sub-net and its low nibble the universe |
| `ArtNetWire.WideSubnetAcceptsNothing` | Source/artnet/artnet.c:314 | a sub-net setting of 16 or more makes the node accept no frame |
| `ArtNetWire.WideUniverseAliases` | Source/artnet/artnet.c:314 | a universe setting of 16 aliases sub-net 1 universe 0 |
| `ArtNetWire.DeclaredLength` | Source/artnet/artnet.c:316 | the count is the big-endian pair at offsets 16-17 |
| `ArtNetWire.ClampCount` | Source/artnet/artnet.c:319-323 | the clamped count never exceeds the declared count or the bytes received, and equals one of the two |
| `ArtNetWire.DecodeEncodedDmx` | Source/artnet/artnet.c:309-323 | an encoded ArtDmx passes the header check, dispatches to OpOutput, and decodes back to its SubUni, its length and its data, and the clamp keeps an honest length |
| `ArtNetWire.OverlongDeclarationClamped` | Source/artnet/artnet.c:319-323 | 600 channels declared and 50 received gives 50 |
| `PollReply.FilledIsPollReply` | Source/artnet/artnet.c:205-237 | a buffer holding the layout's byte at every offset is an ArtPollReply for the node, field by field |
| `PollReply.PollReplyBytes` | Source/artnet/artnet.c:205-237 | conversely, the field-by-field layout fixes every byte, the untouched ones zero |
| `PollReply.PollReplyDeterministic` | Source/artnet/artnet.c:205-237 | one byte sequence is the reply for given node data |
| `PollReply.Put` | Source/artnet/artnet.c:208-237 | one field store extends the correctly filled prefix by the field's bytes |
| `PollReply.PutHeader` | Source/artnet/artnet.c:208-218 | ID, OpCode, IP, Port and VersInfo are stored at offsets 0-17 |
| `PollReply.PutSwitches` | Source/artnet/artnet.c:219-224 | NetSwitch, SubSwitch, Oem, Ubea_Version, Status1 and EstaMan are stored at offsets 18-25 |
| `PollReply.PutNames` | Source/artnet/artnet.c:226-228 | ShortName, LongName and NodeReport "OK" are stored, the rest of NodeReport up to offset 172 stays zero |
| `PollReply.PutPorts` | Source/artnet/artnet.c:230-237 | NumPorts, PortTypes[0], SwOut[0] and MAC are stored, every byte between and after stays zero |
| `PollReply.BuildPollReply` | Source/artnet/artnet.c:205-239 | the bytes sent are 240 long: ID "Art-Net\0", OpPollReply, IP, port 0x1936, version, Net, sub-net, OEM, names, "OK", one output port of type 0x80 on the node's universe, MAC, and zeros elsewhere |
| `PwmOutput.Pwm.constructor` | Source/user/artnet.c:339-340 | the initial duties are stored and in effect, with no `pwm_start` yet |
| `PwmOutput.Pwm.SetDuty` | Source/artnet/artnet.c:339 | the channel's stored duty becomes the value, the result is true exactly when it differed, and nothing else changes |
| `PwmOutput.Pwm.Start` | Source/artnet/artnet.c:346-348 | the stored duties become the committed ones |
| `ArtNetNode.InitConfig` | Source/artnet/artnet.c:405-412 | init keeps the flash sub-net, universe and PWM start; the names are "ESP8266 NODE" and "ESP based Art-Net Node" followed by zeros to 18 and 64 bytes |
| `ArtNetNode.InfoOf` | Source/artnet/artnet.c:219-220 | the reply reports Net 0, the flash sub-net and universe, the names, IP and MAC |
| `ArtNetNode.ToInt16` | Source/artnet/artnet.c:330 | storing into a `sint16` keeps the value modulo 2^16 in -32768..32767, and in-range values unchanged |
| `ArtNetNode.PwmWindow` | Source/artnet/artnet.c:330-336 | at most `PWM_CHANNEL` channels are written, and every one lies within the clamped count |
| `ArtNetNode.PwmWindowSize` | Source/artnet/artnet.c:330-333 | without wrap-around the window is `min(PWM_CHANNEL, count - pwmstart + 1)`, or none when negative |
| `ArtNetNode.PwmWindowNoWrap` | Source/artnet/artnet.c:319-330 | a datagram shorter than 32785 bytes never reaches the `sint16` wrap |
| `ArtNetNode.FrameCount` | Source/artnet/artnet.c:316-323 | the count used never exceeds the declared count or the received bytes |
| `ArtNetNode.Accepts` | Source/artnet/artnet.c:314 | a frame is accepted only with a sub-net below 16; with nibble-sized settings exactly when byte 14's high nibble is the sub-net and its low nibble the universe |
| `ArtNetNode.WindowReadsInside` | Source/artnet/artnet.c:336-339 | every data byte read lies below the clamped count, inside the datagram |
| `ArtNetNode.ApplyFrame` | Source/artnet/artnet.c:330-343 | a duty differs from before only for a channel `i` whose data byte `pwmstart - 1 + i` lies below the clamped count, and then it is that byte |
| `ArtNetNode.ApplyFrameWritesWindow` | Source/artnet/artnet.c:336-339 | every window channel `i` whose data byte `pwmstart - 1 + i` lies below the clamped count takes that byte |
| `ArtNetNode.ApplyFrameIdempotent` | Source/artnet/artnet.c:336-343 | applying the same frame twice stores the same duties as once |
| `ArtNetNode.NetByteIgnored` | Source/artnet/artnet.c:314-316 | the Net byte at offset 15 affects neither acceptance nor the duties |
| `ArtNetNode.OutputStep` | Source/artnet/artnet.c:314-348 | one output step calls `pwm_start` at most once, and exactly when a stored duty changed; a rejected frame changes nothing |
| `ArtNetNode.OutputStepKeepsOutputsCurrent` | Source/artnet/artnet.c:335-348 | if the outputs ran the stored duties before a frame they still do after it, with at most one `pwm_start` |
| `ArtNetNode.RecvOpOutput` | Source/artnet/artnet.c:309-350 | a rejected frame changes nothing; an accepted one stores the window from the data, and calls `pwm_start` once exactly when a stored duty changed |
| `ArtNetNode.RepeatedFrameStartsNothing` | Source/artnet/artnet.c:335-348 | a frame repeated straight after itself stores the same duties, commits nothing and does not call `pwm_start` |
| `ArtNetNode.ProcessIpProg` | Source/artnet/artnet.c:274-305 | the only effect is programming the station IP to the packet's `progIp` |
| `ArtNetNode.HasBit` | Source/artnet/artnet.c:276-299 | the bit test is the C test `(c & (1 << k)) == (1 << k)` |
| `ArtNetNode.IpProgReprogramsIff` | Source/artnet/artnet.c:276-296 | the address is reprogrammed exactly when `(command & 128) == 128` and `(command & 4) == 4` |
| `ArtNetNode.IpProgOtherBitsIgnored` | Source/artnet/artnet.c:276-300 | bits 0x01, 0x02 and 0x08 change nothing |
| `ArtNetNode.Get` | Source/artnet/artnet.c:354-400 | a reply is produced exactly for an ArtPoll with a valid header, and it is the node's ArtPollReply; ArtDmx with a valid header takes the output step; everything else leaves the PWM state alone |
| `LegacyArtNet.LegacyChannelCount` | Source/user/artnet.c:171-182 | the count is the big-endian value at offsets 15-16, where the older struct puts the length, capped at 512: it exceeds neither and equals one of them |
| `LegacyArtNet.LegacyCountMisreadsStandardFrame` | Source/user/artnet.c:245-246 | a standard 512-channel ArtDmx is read as declaring 2 channels |
| `LegacyArtNet.CopyCount` | Source/user/artnet.c:245-246 | the corrected count exceeds none of 512, the declared length at offsets 16-17 and the received channel bytes, and equals one of them |
| `LegacyArtNet.CopiedFrame` | Source/user/artnet.c:248-251 | the copied buffer keeps the start code and every slot after `n` |
| `LegacyArtNet.CopiedFrameSlots` | Source/user/artnet.c:248-251 | the copy leaves the start code, puts the channel values in slots 1..n in order, and leaves later slots unchanged |
| `LegacyArtNet.CopyEncodedFrame` | Source/user/artnet.c:245-251 | for a standard ArtDmx the corrected copy fills slots 1..n with exactly the encoded data |
| `LegacyArtNet.CopyChannels` | Source/user/artnet.c:248-251 | the corrected in-place loop leaves `dmx_data` equal to the copied frame |
| `LegacyArtNet.CopyChannelsAsWritten` | Source/user/artnet.c:248-251 | the loop as written stores data bytes 18..530 into slots 1..513, so it needs a 514-byte buffer and a 531-byte datagram |
| `LegacyArtNet.AsWrittenCopyOverrunsBuffer` | Source/user/artnet.c:69 | the 513-byte `dmx_data` cannot hold what the loop writes |
| `LegacyArtNet.AsWrittenCopyOverrunsFullFrame` | Source/user/artnet.c:248-250 | a complete 512-channel frame is one byte short of what the loop reads |
| `LegacyArtNet.InitialAddressAcceptsOnlyOne` | Source/user/artnet.c:242 | with the initial settings only SubUni 0x01 is accepted |
| `LegacyArtNet.LegacyPwmStep` | Source/user/artnet.c:254-263 | PWM channel 1 stores slot 1, and `pwm_start` is called at most once, exactly when slot 1 differs from `old` |
| `LegacyArtNet.InitialOldHidesFirstZero` | Source/user/artnet.c:254-263 | from the state `artnet_init` leaves (`old` 0, duties 64), a first frame with slot 1 at 0 stores duty 0 but commits nothing, so channel 1 keeps running at 64 |
| `LegacyArtNet.TrackedOldKeepsOutputsCurrent` | Source/user/artnet.c:254-263 | when `old` equals channel 1's stored duty and the outputs run the stored duties, a frame keeps both so, and calls `pwm_start` exactly when the duties changed |
| `LegacyArtNet.LegacyNode.Info` | Source/user/artnet.c:206-220 | the reply reports the globals' Net, sub-net, universe and names |
| `LegacyArtNet.LegacyNode.constructor` | Source/user/artnet.c:317-341 | Net 0, sub-net 0, universe 1, the default names, a zeroed `dmx_data`, and PWM duties 64, 64, 64 stored and in effect; `old` starts at 64, the corrected value (see Findings) |
| `LegacyArtNet.LegacyNode.RecvOpOutput` | Source/user/artnet.c:232-265 | a rejected frame changes nothing; an accepted one copies the channels and takes the `LegacyPwmStep` on slot 1, keeping `old` equal to channel 1's stored duty and the outputs on the stored duties |
| `LegacyArtNet.LegacyNode.Get` | Source/user/artnet.c:269-313 | a reply is produced exactly for an ArtPoll with a valid header, and it is the node's ArtPollReply; only a valid ArtDmx on the node's address changes `dmx_data`, `old` or the PWM, and then as `RecvOpOutput` states |
| `LegacyArtNet.LegacyNode.SameFirstSlotStartsOnce` | Source/user/artnet.c:254-263 | two frames with the same first slot call `pwm_start` at most once |
| `DmxOutput.PreambleFacts` | Source/user/user_main.c:67-79 | the preamble hands the UART only the start code and waits 258 µs |
| `DmxOutput.Preamble` | Source/user/user_main.c:67-79 | break, mark-after-break and start code take eight events |
| `DmxOutput.Slots` | Source/user/user_main.c:82-86 | two events per slot |
| `DmxOutput.Frame` | Source/user/user_main.c:63-88 | a frame is 1032 events: the line goes low first, then high, then the start code `dmx_data[0]` is handed to the UART, before GPIO2 is switched to it |
| `DmxOutput.SentSlots` | Source/user/user_main.c:82-86 | the slot loop sends exactly the slots, in order |
| `DmxOutput.WaitSlots` | Source/user/user_main.c:82-86 | the slot loop waits 50 µs per slot |
| `DmxOutput.SlotsAt` | Source/user/user_main.c:82-86 | each slot is sent and then followed by its delay |
| `DmxOutput.FrameFacts` | Source/user/user_main.c:63-88 | a frame is 1032 events that hand the UART the start code and all 512 slots once each, in address order, with 25858 µs of delays |
| `DmxOutput.FrameRateBound` | Source/user/user_main.c:63-88 | the delays alone allow fewer than 39 frames per second |
| `DmxOutput.DmxTask` | Source/user/user_main.c:63-88 | the task performs exactly one frame of the buffer |

## Left out

- Sockets: `espconn` setup, callback registration and `espconn_sent` are left out. A reply is returned rather than sent, and the connection it goes out on is not modelled.
- Wi-Fi SDK calls: `wifi_get_ip_info` and `wifi_get_macaddr` are inputs. `wifi_set_ip_info` and `wifi_station_dhcpc_stop` are the `SetStaticIp` effect.
- `ArtNetNode.ProcessIpProg`: the register image it passes to `wifi_set_ip_info` has an uninitialised netmask and gateway. The model records only the address. The handler is not reached from the dispatcher (`Source/artnet/artnet.c:396` is commented out). `artnet_sendIpProgReply` is commented out.
- Logging (`os_printf`, `PDBG`, `PWRN`) is left out, and so are the unused `SIZEOF_*` constants.
- Concurrency: the receive callback and the DMX task run in the SDK's scheduler. The model treats each call as atomic.
- Timing: `os_delay_us` is recorded as a `Wait` event, and the transmission time of each UART byte is not modelled. Nothing posts the DMX task (`Source/user/user_main.c:47` is commented out), so the model covers one run of it.
- PWM internals (period, timer, pins) are left out. `pwm_start` is modelled as committing the stored duties.
- `ArtNetNode.Get`: requires at least 10 bytes. Reading the header of a shorter datagram is undefined behaviour in C.
- `ArtNetNode.RecvOpOutput`: requires at least 18 bytes. With fewer, `packetlen - sizeof(struct artnet_dmx)` wraps to a large `uint16`, and the PWM window then reads past the datagram.
- `ArtNetNode.RecvOpOutput`: requires `pwmstart >= 1`. With 0, `dmxIndex` wraps to 65535 at `Source/artnet/artnet.c:338`.
- `ArtNetNode.Get`: requires fewer than 65536 bytes, because the callback receives the length as an `unsigned short`.
- `LegacyArtNet.LegacyNode.RecvOpOutput`: models the corrected copy (see Findings). The loop as written is `LegacyArtNet.CopyChannelsAsWritten`.
- `LegacyArtNet.LegacyNode.constructor`: starts `old` at 64, the corrected value (see Findings). The start as written is exhibited by `LegacyArtNet.InitialOldHidesFirstZero`.
- `LegacyArtNet.LegacyNode.Get`: requires at least 10 bytes in every case, and at least 18 bytes for ArtDmx.

## Findings

| source | as written | input that shows it | evidently intended | confidence | as-written member | corrected member |
|---|---|---|---|---|---|---|
| Source/user/artnet.c:248-250 | `tmp` runs from 0 to 512 and stores `dmx_data[tmp+1]`, so the last store goes to `dmx_data[513]`, one past the 513-byte array of line 69 | any ArtDmx accepted by the node | fill slots 1..512 and never write past the buffer | not executed; high | `LegacyArtNet.CopyChannelsAsWritten` (`AsWrittenCopyOverrunsBuffer`) | `LegacyArtNet.CopyChannels` |
| Source/user/artnet.c:245-250 | the copy always reads 513 bytes from offset 18 (up to `data[530]`), ignoring both `packetlen` and the channel count computed at 245-246 | a complete 512-channel ArtDmx of 530 bytes (or any shorter one) | copy no more channels than were declared and received | not executed; high | `LegacyArtNet.CopyChannelsAsWritten` (`AsWrittenCopyOverrunsFullFrame`) | `LegacyArtNet.CopyCount`, `LegacyArtNet.CopyEncodedFrame` |
| Source/user/artnet.c:171-182 | `struct artnet_dmx` has no Net byte, so `lengthHi` and `length` are read at offsets 15-16 instead of 16-17 | a standard ArtDmx with Net 0 and length 0x0200 is read as 2 channels | the standard declared length at offsets 16-17, which the current revision reads | not executed; high | `LegacyArtNet.LegacyCountMisreadsStandardFrame` | `LegacyArtNet.CopyEncodedFrame` |
| Source/user/artnet.c:257 | the static `old` starts at 0 while `pwm_init` starts every duty at 64 (lines 339-340), so `old` and channel 1's duty disagree until the first change | a first accepted frame with slot 1 = 0 stores duty 0 but calls no `pwm_start`; channel 1 keeps running at 64 | `old` starts at channel 1's initial duty, so that every changed duty is committed | not executed; high | `LegacyArtNet.InitialOldHidesFirstZero` | `LegacyArtNet.LegacyNode.constructor`, `LegacyArtNet.TrackedOldKeepsOutputsCurrent` |
