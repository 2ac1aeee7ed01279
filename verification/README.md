# Response box input pipeline — a Dafny model

This project models the input pipeline of the ezResponseBox firmware: a
Raspberry Pi Pico that reads eight push-button contacts and reports them
to a USB host as the buttons of a HID gamepad. The whole pipeline lives in
`src/main.c` and has two halves.

- **The timer tick (`timer_callback`), every 100 µs.** It reads the eight
  inputs. The inputs are pulled up, so a pressed contact reads low. Each
  inverted level goes into bit 0 of the channel's sample byte `dataIn[k]`.
  The sample is shifted into the channel's five-bit filter window
  `window[k]`. The window is classified through the constant 32-entry table
  `filtered`. The eight classifications are packed into `newEvent`, with
  bit k from channel k. When `newEvent` differs from `lastEvent`, it is
  copied there and `eventAvailable` is raised. Finally `newEvent` is
  mirrored to the output pins 8-15.
- **The report step of `main`'s loop.** A suspended bus gets a
  remote-wakeup request. Otherwise, when the HID endpoint is ready and
  `eventAvailable` is set, `lastEvent` is sent as the `buttons` field of
  the gamepad report and the flag is cleared.

Model layout, one module per component:

- `debounce.dfy` (`Debounce`): the byte type, the table `Filtered`, the
  window shift `ShiftIn`, the classification `Classify`, and what the
  table does. A window is pressed exactly when two of its four newest
  samples are active. The oldest sample never matters. Single-sample
  glitches are rejected. Two active samples press; three inactive samples
  release.
- `timer.dfy` (`Timer`): the shared globals as an immutable `State` and
  the tick as a pure function `Tick`, built stage by stage (`Sample`,
  `Windows`, `Debounced`, `Advanced`, change test, `Mirror`). Lemmas state
  what one tick does. The method `TimerCallback` runs the two C loops
  statement by statement and is proved to compute exactly `Tick`.
- `report.dfy` (`Report`): the gamepad report, the USB stack's answers
  (`Bus`) as inputs, and the loop step `LoopStep` with its effect
  (wakeup, send, nothing) as an output.
- `device.dfy` (`Device`): ticks and loop steps interleaved in any order,
  each one atomic. Lemmas follow the globals along such runs: the
  invariant every reachable state keeps, what a window remembers, press
  and release latency, what the host is sent, and the fact that a pending
  change can be overwritten before it is reported.

The model follows the code where the code differs from a richer design of
the same device.

- There is no back-pressure. `lastEvent` is overwritten on every change,
  even while a previous change is still pending (`Device.PressOverwrittenBeforeReport`).
- There is no change mask.
- Only gamepad reports exist. There is no keyboard or hex-keycode
  encoding, no debounce bypass, no output inversion, and no contact
  polarity probing: the polarity is fixed by the pull-ups (active low).
- A suspended bus gets a wakeup request on every iteration, whether or not
  a change is pending.
- The output write uses the mask `RANGE_GPIO << FIRST_GPIO_OUT` = `0xFFFF00`.
  This covers pins 8-23, so besides mirroring the debounced byte onto pins
  8-15 it also drives pins 16-23 to 0 (`Timer.Mirror`).

Bytes are Dafny `bv8`, so `uint8_t` wrap-around is exact. The output word
is a `bv32`. Bit k of a byte is `Debounce.Bit(x, k)`.

## Model

| member | source | states |
|---|---|---|
| Debounce.ShiftIn | src/main.c:298 | the new window holds the sample in bit 0, the previous samples 0-3 in bits 1-4, and nothing above bit 4, so it is below 32 |
| Debounce.TableIsBinary | src/main.c:66-100 | every table entry is 0 or 1, so adding it to a byte whose bit 0 is clear sets exactly that bit |
| Debounce.ClassifyIsTwoOfFour | src/main.c:66-100 | a window classifies as pressed if and only if at least two of its four newest samples are active |
| Debounce.OldestSampleIgnored | src/main.c:66-100 | flipping bit 4 of a window (the oldest sample) never changes its classification |
| Debounce.FourNewestDecide | src/main.c:66-100 | two windows that agree on their four newest samples classify alike |
| Debounce.SingleActiveSampleRejected | src/main.c:68-84 | a window with exactly one active sample out of five classifies as released |
| Debounce.SingleInactiveSampleRejected | src/main.c:83-99 | a window with exactly one inactive sample out of five classifies as pressed |
| Debounce.TwoActiveSamplesPress | src/main.c:291-299 | two consecutive active samples shifted into any window make it classify as pressed |
| Debounce.ThreeInactiveSamplesRelease | src/main.c:291-299 | three consecutive inactive samples shifted into any window make it classify as released |
| Debounce.OneSampleDoesNotFlip | src/main.c:66-100 | after three agreeing samples, one contrary sample leaves the classification at the agreeing value |
| Timer.PackBits | src/main.c:294-301 | bit k of the byte packed by shifting left and adding from the highest channel down is the k-th input bit, and the bits above the inputs are clear |
| Timer.PackUnpackRoundTrip | src/main.c:294-301 | packing the eight bits of a byte gives the byte back, and unpacking a packed byte gives the bits back |
| Timer.Sample | src/main.c:288 | when bit 0 of a sample byte is clear, adding the inverted input level sets bit 0 to the sample, leaves the other bits alone, and never carries |
| Timer.Advance | src/main.c:300 | the shift after the window update clears bit 0 and moves every sample bit up by one |
| Timer.Debounced | src/main.c:294-301 | bit k of the debounced byte is the classification of channel k's window |
| Timer.Mirror | src/main.c:311 | the output write drives pin 8+k to bit k of the debounced byte, drives pins 16-23 to 0, and leaves pins 0-7 and 24-31 untouched |
| Timer.TickWindow | src/main.c:298 | after a tick, channel k's window is below 32, holds the channel's new sample in bit 0 (the inverted level when bit 0 of the sample byte was clear) and its previous samples 0-3 in bits 1-4 |
| Timer.TickDebounced | src/main.c:294-301 | after a tick, bit k of `newEvent` is the classification of channel k's updated window |
| Timer.TickClearsSampleBit | src/main.c:300 | every tick leaves bit 0 of every sample byte clear, ready for the next addition |
| Timer.TickDetectsChange | src/main.c:304-308 | after a tick `lastEvent` equals `newEvent`; the flag becomes the old flag or a difference from the old `lastEvent`, so a tick never lowers it; with no difference neither field moves |
| Timer.TickMirrors | src/main.c:311 | the output write of a tick is the mirror of that tick's own `newEvent`, whatever `lastEvent` and the flag held |
| Timer.FilterStep | src/main.c:297-299 | one iteration of the filter loop turns the bits packed so far into the packing of one more channel |
| Timer.SampleInputs | src/main.c:286-289 | the in-place sampling loop produces exactly the sampled bytes of every channel |
| Timer.FilterChannels | src/main.c:294-301 | the in-place filter loop, walking channels 7 down to 0, produces exactly the updated windows, the shifted sample bytes and the packed debounced byte |
| Timer.TimerCallback | src/main.c:284-314 | running the callback's loops, change test and output write in place yields exactly the state and output write of the channel-by-channel tick |
| Report.ButtonBits | src/main.c:154 | the debounced byte lands in button bits 0-7, bit k from channel k, and button bits 8-31 are clear |
| Report.LoopStep | src/main.c:143-158 | a suspended bus gets a wakeup and nothing else; a report is sent if and only if the bus is not suspended, the endpoint is ready and the flag is set; a sent report carries `lastEvent` as its buttons and clears the flag; otherwise nothing changes; the step never changes the filter state or `lastEvent` |
| Device.PowerUpConsistent | src/main.c:59-65 | the zeroed globals and report at power-up satisfy the pipeline invariant |
| Device.StepConsistent | src/main.c:284-314 | every tick and every loop step keeps the invariant: sample bytes with bit 0 clear, windows below 32, `newEvent` the classification of the windows, `lastEvent` equal to `newEvent`, a report that differs from the zero report only in its buttons |
| Device.ReachableConsistent | src/main.c:294-308 | every state reached from a consistent one, by any interleaving of ticks and loop steps, keeps the invariant |
| Device.FlagDiscipline | src/main.c:304-308 | only a tick that changes `lastEvent` raises the flag, and only a loop step that sends a report lowers it |
| Device.ReportCarriesDebouncedState | src/main.c:152-156 | in a consistent state, a sent report is the zero report with button bit k equal to the current classification of channel k's window |
| Device.WindowHistory | src/main.c:298 | after any run, bit i of channel k's window is channel k's sample of the i-th most recent tick, or the window's own earlier bit for ticks before the run; loop steps do not move it |
| Device.LastFourSamplesDecide | src/main.c:291-301 | bit k of `lastEvent` depends only on channel k's four most recent samples: not on older samples, other channels or loop steps |
| Device.TwoActiveTicksPress | src/main.c:291-299 | two consecutive pressed samples on a channel set its bit of `lastEvent`, whatever came before |
| Device.ThreeInactiveTicksRelease | src/main.c:291-299 | three consecutive released samples on a channel clear its bit of `lastEvent`, whatever came before |
| Device.SingleGlitchIgnored | src/main.c:66-100 | after three agreeing samples, one contrary sample leaves the channel's bit of `lastEvent` at the agreeing value |
| Device.PressFromPowerUp | src/main.c:291-299 | from power-up, a channel held pressed reads released after the first tick and pressed from the second tick on |
| Device.TicksRaiseFlag | src/main.c:304-308 | ticks alone never lower the flag, and a stretch of ticks that ends with a different `lastEvent` leaves it raised |
| Device.PressRaisesFlag | src/main.c:304-308 | from `lastEvent` 0, two pressed samples on channel k set bit k of `lastEvent` and raise the flag |
| Device.ReleaseClearsChannel | src/main.c:291-301 | three or more ticks with every input released clear channel k's bit of `lastEvent`, whatever the device held before |
| Device.ReleaseClearsEvent | src/main.c:291-301 | three or more ticks with every input released bring `lastEvent` to 0 |
| Device.ReleaseOverwrites | src/main.c:304-308 | while a change is pending, three released ticks on every input bring `lastEvent` to 0 with the flag still raised, and a ready bus is sent the zero report |
| Device.PressOverwrittenBeforeReport | src/main.c:304-308 | without back-pressure, a press that raised the flag is overwritten by a release before the host is served, and the report sent carries no pressed button |

## Left out

- The USB stack (`tud_task`, `tud_suspended`, `tud_hid_ready`, `tud_remote_wakeup`, `tud_hid_report`) is foreign code. Its answers are the `Bus` inputs of `Report.LoopStep` and its calls are the `Effect` output. The report identifier `REPORT_ID_GAMEPAD` is defined in `usb_descriptors.h`, which is not part of this model, so the effect carries only the report.
- GPIO access (`gpio_get`, `gpio_put_masked`) is hardware I/O. The levels read in one tick are the `Levels` input of `Timer.Tick`, read as one snapshot although the C code reads the pins one after another. The write is the `PinWrite` output.
- Board and GPIO bring-up, `tusb_init`, and the timer registration with its failure return (lines 106-128) are start-up I/O. The model starts from the zeroed globals.
- `led_blinking_task` and the mount, unmount, suspend, resume, get-report, set-report and report-complete callbacks (lines 170-277) are wall-clock LED plumbing and USB callbacks that do not touch the pipeline.
- Interrupt preemption is not modelled. Every tick and every loop step is atomic. The tick can fire between reading `lastEvent` (line 154) and clearing the flag (line 156); that change would then never be reported, and this hazard is outside the model.
- The note "MUST BIT REVERSE newEvent" at line 310 is an unimplemented plan. The model writes `newEvent` unreversed, as the code does.
- The 100 µs tick period and the host's polling rate are timing facts. The model has no clock; it only orders events.
- Keyboard and hex-keycode reports, debounce bypass, output inversion, contact polarity probing, back-pressure and the change mask do not exist in this code, so they are not modelled.
