/** The report step of the response box's main loop (src/main.c): once per
    iteration, wake a suspended host, or send the pending debounced byte as
    the buttons of a gamepad report. The USB stack itself is not modelled:
    its answers are inputs, the wakeup request and the report are outputs. */
module Report {
  import opened Debounce
  import opened Timer

  /** A C `int8_t`. */
  type Int8 = x: int | -128 <= x < 128

  /** The gamepad report `hid_gamepad_report_t` that `main` keeps across
      loop iterations: six axes, a hat switch and 32 button bits. */
  datatype GamepadReport = GamepadReport(
    x: Int8, y: Int8, z: Int8, rz: Int8, rx: Int8, ry: Int8,
    hat: Byte,
    buttons: bv32
  )

  /** The report as `main` initialises it: every field zero. */
  const Neutral: GamepadReport := GamepadReport(0, 0, 0, 0, 0, 0, 0, 0)

  /** What the USB stack answers in one iteration: `tud_suspended()` and
      `tud_hid_ready()`. */
  datatype Bus = Bus(suspended: bool, hidReady: bool)

  /** What one iteration asks of the USB stack. */
  datatype Effect =
    | RemoteWakeup                      // tud_remote_wakeup()
    | SendGamepad(report: GamepadReport) // tud_hid_report(REPORT_ID_GAMEPAD, &report, sizeof(report))
    | NoEffect

  /** The shared globals and the report after one iteration, and the effect. */
  datatype LoopResult = LoopResult(state: State, report: GamepadReport, effect: Effect)

  /** The button field of a report carrying a debounced byte: `buttons` is
      assigned the `uint8_t`, zero-extended to 32 bits. */
  function Buttons(event: Byte): bv32
  {
    event as bv32
  }

  /** The debounced byte lands in button bits 0-7, bit k from channel k,
      and button bits 8-31 stay clear. */
  lemma ButtonBits(x: Byte)
    ensures forall k :: 0 <= k < Channels ==> (Bit32(Buttons(x), k) <==> Bit(x, k))
    ensures forall p :: Channels <= p < 32 ==> !Bit32(Buttons(x), p)
  {
    forall k | 0 <= k < 32
      ensures k < Channels ==> (Bit32(Buttons(x), k) <==> Bit(x, k))
      ensures Channels <= k ==> !Bit32(Buttons(x), k)
    {
      assert k == 0 || k == 1 || k == 2 || k == 3 || k == 4 || k == 5 || k == 6 || k == 7 || 8 <= k;
    }
  }

  /** One report step of the main loop (lines 143-158). A suspended bus gets
      a wakeup request and nothing else; otherwise, when the HID endpoint is
      ready and a change is pending, `lastEvent` goes out as the buttons of
      the report and the flag is cleared; in every other case nothing
      happens. The step never touches the filter state or `lastEvent`. */
  function LoopStep(s: State, report: GamepadReport, bus: Bus): (r: LoopResult)
    ensures r.effect.RemoteWakeup? <==> bus.suspended
    ensures r.effect.SendGamepad? <==> !bus.suspended && bus.hidReady && s.eventAvailable
    ensures r.effect.SendGamepad? ==>
      && r.effect.report == r.report
      && r.report == report.(buttons := Buttons(s.lastEvent))
      && !r.state.eventAvailable
    ensures r.state == s.(eventAvailable := r.state.eventAvailable)
    ensures !r.effect.SendGamepad? ==> r.state == s && r.report == report
  {
    if bus.suspended then
      LoopResult(s, report, RemoteWakeup)
    else if bus.hidReady && s.eventAvailable then
      var sent := report.(buttons := Buttons(s.lastEvent));
      LoopResult(s.(eventAvailable := false), sent, SendGamepad(sent))
    else
      LoopResult(s, report, NoEffect)
  }
}
