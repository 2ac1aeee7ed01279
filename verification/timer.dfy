/** The periodic hardware-timer tick of the response box (`timer_callback`
    in src/main.c): sample the eight inputs, debounce every channel, detect
    a change of the debounced byte, and mirror it to the output pins. */
module Timer {
  import opened Debounce

  /** The inputs are GPIO 0-7 and the outputs GPIO 8-15; `RANGE_GPIO`
      shifted to the first output pin is the mask of the output write. */
  const Channels: nat := 8
  const FirstGpioIn: nat := 0
  const FirstGpioOut: nat := 8
  const RangeGpio: bv32 := 0xFFFF
  const OutputMask: bv32 := RangeGpio << FirstGpioOut

  /** One byte per channel: the arrays `dataIn` and `window`. */
  type Bank = s: seq<Byte> | |s| == Channels witness [0, 0, 0, 0, 0, 0, 0, 0]

  /** The levels `gpio_get` reads on the eight inputs in one tick (true is
      high); the inputs are pulled up, so a pressed contact reads low. */
  type Levels = s: seq<bool> | |s| == Channels witness [true, true, true, true, true, true, true, true]

  /** The globals the tick and the main loop share. */
  datatype State = State(
    dataIn: Bank,          // per-channel sample stream, newest sample in bit 1 after a tick
    window: Bank,          // per-channel five-sample filter window
    newEvent: Byte,        // debounced byte of the latest tick, bit k from channel k
    lastEvent: Byte,       // last debounced byte that differed from its predecessor
    eventAvailable: bool   // a change is waiting to be reported
  )

  /** The state at power-up: every static global is zero. */
  const Start: State := State([0, 0, 0, 0, 0, 0, 0, 0], [0, 0, 0, 0, 0, 0, 0, 0], 0, 0, false)

  /** A `gpio_put_masked(mask, value)` call: the pins set in `mask` are
      driven to the matching bits of `value`, the others are left alone. */
  datatype PinWrite = PinWrite(mask: bv32, value: bv32)

  /** What one tick leaves behind: the new globals and the output write. */
  datatype TickResult = TickResult(state: State, write: PinWrite)

  /** Bit `i` of a 32-bit word is set. */
  predicate Bit32(x: bv32, i: nat)
    requires i < 32
  {
    (x >> i) & 1 == 1
  }

  /** The byte whose bit k is `bits[k]`, built as the C loop builds it: from
      the highest channel down, shifting left before adding each bit. */
  function Pack(bits: seq<bool>): Byte
    requires |bits| <= 8
  {
    if bits == [] then 0 else Push(Pack(bits[1..]), bits[0])
  }

  /** Shifts a byte left by one and puts `b` in bit 0. */
  function Push(x: Byte, b: bool): Byte
  {
    (x << 1) | BitOf(b)
  }

  /** The eight bits of a byte, bit 0 first. */
  function Unpack(x: Byte): (bits: seq<bool>)
    ensures |bits| == 8
    ensures forall i :: 0 <= i < 8 ==> bits[i] == Bit(x, i)
  {
    seq(8, i requires 0 <= i < 8 => Bit(x, i))
  }

  /** Shifting a byte left and putting `b` in bit 0 moves every bit up by one. */
  lemma ShiftedBits(x: Byte, b: bool)
    ensures Bit(Push(x, b), 0) == b
    ensures forall i :: 1 <= i < 8 ==> Bit(Push(x, b), i) == Bit(x, i - 1)
  {
  }

  /** Bit k of `Pack(bits)` is `bits[k]`, and the bits above are clear. */
  lemma {:induction false} PackBits(bits: seq<bool>)
    requires |bits| <= 8
    ensures forall i :: 0 <= i < |bits| ==> Bit(Pack(bits), i) == bits[i]
    ensures forall i :: |bits| <= i < 8 ==> !Bit(Pack(bits), i)
  {
    if bits != [] {
      PackBits(bits[1..]);
      ShiftedBits(Pack(bits[1..]), bits[0]);
      forall i | 0 <= i < 8
        ensures Bit(Pack(bits), i) == (i < |bits| && bits[i])
      {
        if i > 0 {
          assert Bit(Pack(bits), i) == Bit(Pack(bits[1..]), i - 1);
        }
      }
    }
  }

  /** Two bytes with the same eight bits are equal. */
  lemma BitsDetermineByte(x: Byte, y: Byte)
    requires forall i :: 0 <= i < 8 ==> Bit(x, i) == Bit(y, i)
    ensures x == y
  {
    assert Bit(x, 0) == Bit(y, 0) && Bit(x, 1) == Bit(y, 1);
    assert Bit(x, 2) == Bit(y, 2) && Bit(x, 3) == Bit(y, 3);
    assert Bit(x, 4) == Bit(y, 4) && Bit(x, 5) == Bit(y, 5);
    assert Bit(x, 6) == Bit(y, 6) && Bit(x, 7) == Bit(y, 7);
  }

  /** Packing the eight bits of a byte gives the byte back, and unpacking a
      packed byte gives the bits back. */
  lemma PackUnpackRoundTrip(x: Byte, bits: seq<bool>)
    requires |bits| == 8
    ensures Pack(Unpack(x)) == x
    ensures Unpack(Pack(bits)) == bits
  {
    PackBits(Unpack(x));
    BitsDetermineByte(Pack(Unpack(x)), x);
    PackBits(bits);
  }

  /** Sampling (line 288): each input is read, inverted (a low level is an
      active sample) and added into its sample byte. When bit 0 of the byte
      is clear, as the shift at the end of every tick leaves it, the
      addition never carries: it sets bit 0 to the sample and keeps the
      rest. */
  function Sample(dataIn: Bank, levels: Levels): (r: Bank)
    ensures forall k :: 0 <= k < Channels && !Bit(dataIn[k], 0) ==>
      Bit(r[k], 0) == !levels[k] && r[k] == dataIn[k] | BitOf(!levels[k])
  {
    seq(Channels, k requires 0 <= k < Channels => dataIn[k] + BitOf(!levels[k]))
  }

  /** The shift at the end of every tick (line 300) that makes room for
      the next sample: bit 0 is clear afterwards. */
  function Advance(d: Byte): (r: Byte)
    ensures !Bit(r, 0)
    ensures forall i :: 1 <= i < 8 ==> Bit(r, i) == Bit(d, i - 1)
  {
    d << 1
  }

  /** The debounced byte of a tick (lines 294-301): bit k is the
      classification of channel k's updated window. */
  function Debounced(window: Bank): (r: Byte)
    requires forall k :: 0 <= k < Channels ==> window[k] < 32
    ensures forall k :: 0 <= k < Channels ==> Bit(r, k) == Classify(window[k])
  {
    PackBits(Classified(window));
    Pack(Classified(window))
  }

  /** The classification of every window, channel 0 first. */
  function Classified(window: Bank): (bits: seq<bool>)
    requires forall k :: 0 <= k < Channels ==> window[k] < 32
    ensures |bits| == Channels
    ensures forall k :: 0 <= k < Channels ==> bits[k] == Classify(window[k])
  {
    seq(Channels, k requires 0 <= k < Channels && window[k] < 32 => Classify(window[k]))
  }

  /** The output write of a tick (line 311): the debounced byte lands on the
      output pins 8-15; the mask `0xFFFF << 8` also drives pins 16-23, to 0,
      and leaves the input pins 0-7 and pins 24-31 alone. */
  function Mirror(newEvent: Byte): (w: PinWrite)
    ensures forall p :: 0 <= p < 32 ==> (Bit32(w.mask, p) <==> FirstGpioOut <= p < 24)
    ensures forall k :: 0 <= k < Channels ==> (Bit32(w.value, FirstGpioOut + k) <==> Bit(newEvent, k))
    ensures forall p :: 16 <= p < 24 ==> !Bit32(w.value, p)
  {
    WidenedBits(newEvent);
    OutputMaskBits();
    PinWrite(OutputMask, Widen(newEvent))
  }

  /** `RANGE_GPIO << FIRST_GPIO_OUT` covers pins 8 to 23. */
  lemma OutputMaskBits()
    ensures forall p :: 0 <= p < 32 ==> (Bit32(OutputMask, p) <==> FirstGpioOut <= p < 24)
  {
    forall p | 0 <= p < 32
      ensures Bit32(OutputMask, p) <==> FirstGpioOut <= p < 24
    {
      assert p < 8 || p == 8 || p == 9 || p == 10 || p == 11 || p == 12 || p == 13 || p == 14 || p == 15
          || p == 16 || p == 17 || p == 18 || p == 19 || p == 20 || p == 21 || p == 22 || p == 23 || 24 <= p;
    }
  }

  /** The value of the output write: the byte widened and shifted to the
      first output pin. */
  function Widen(x: Byte): bv32
  {
    (x as bv32) << FirstGpioOut
  }

  /** Widening a byte to 32 bits and shifting it to the output pins moves
      bit k to bit 8 + k. */
  lemma WidenedBits(x: Byte)
    ensures forall k :: 0 <= k < Channels ==>
      (Bit32(Widen(x), FirstGpioOut + k) <==> Bit(x, k))
    ensures forall p :: 16 <= p < 24 ==> !Bit32(Widen(x), p)
  {
    forall k | 0 <= k < Channels
      ensures Bit32(Widen(x), FirstGpioOut + k) <==> Bit(x, k)
    {
      assert k == 0 || k == 1 || k == 2 || k == 3 || k == 4 || k == 5 || k == 6 || k == 7;
    }
  }

  /** Every window after shifting in the sample of its channel (line 298). */
  function Windows(window: Bank, sampled: Bank): (r: Bank)
    ensures forall k :: 0 <= k < Channels ==> r[k] < 32
  {
    seq(Channels, k requires 0 <= k < Channels => ShiftIn(window[k], sampled[k]))
  }

  /** Every sample byte shifted for the next tick (line 300). */
  function Advanced(sampled: Bank): (r: Bank)
    ensures forall k :: 0 <= k < Channels ==> !Bit(r[k], 0)
  {
    seq(Channels, k requires 0 <= k < Channels => Advance(sampled[k]))
  }

  /** One tick of `timer_callback` (lines 284-314), stage by stage. */
  function Tick(s: State, levels: Levels): TickResult
  {
    var sampled := Sample(s.dataIn, levels);
    var window := Windows(s.window, sampled);
    var newEvent := Debounced(window);
    var changed := (newEvent ^ s.lastEvent) != 0;
    var lastEvent := if changed then newEvent else s.lastEvent;
    var eventAvailable := if changed then true else s.eventAvailable;
    TickResult(State(Advanced(sampled), window, newEvent, lastEvent, eventAvailable), Mirror(newEvent))
  }

  /** Window update: channel k's window holds the channel's new sample in
      bit 0 and its four previous samples above it, and nothing from
      further back (line 298). When bit 0 of the sample byte was clear on
      entry, the new sample is exactly the inverted input level. */
  lemma TickWindow(s: State, levels: Levels, k: nat)
    requires k < Channels
    ensures Tick(s, levels).state.window[k] < 32
    ensures Bit(Tick(s, levels).state.window[k], 0) == Bit(s.dataIn[k] + BitOf(!levels[k]), 0)
    ensures !Bit(s.dataIn[k], 0) ==> (Bit(Tick(s, levels).state.window[k], 0) <==> !levels[k])
    ensures forall i :: 1 <= i < WindowWidth ==> Bit(Tick(s, levels).state.window[k], i) == Bit(s.window[k], i - 1)
    ensures forall i :: WindowWidth <= i < 8 ==> !Bit(Tick(s, levels).state.window[k], i)
  {
    assert Tick(s, levels).state.window[k] == ShiftIn(s.window[k], Sample(s.dataIn, levels)[k]);
  }

  /** Channel packing: bit k of the tick's debounced byte is the
      classification of channel k's updated window (lines 294-301). */
  lemma TickDebounced(s: State, levels: Levels, k: nat)
    requires k < Channels
    ensures Tick(s, levels).state.window[k] < 32
    ensures Bit(Tick(s, levels).state.newEvent, k) == Classify(Tick(s, levels).state.window[k])
  {
  }

  /** The sample bytes leave every tick with bit 0 clear, ready for the
      next addition (line 300). */
  lemma TickClearsSampleBit(s: State, levels: Levels, k: nat)
    requires k < Channels
    ensures !Bit(Tick(s, levels).state.dataIn[k], 0)
  {
  }

  /** Change detection (lines 304-308): afterwards `lastEvent` is the tick's
      debounced byte; the flag is raised when that byte differs from the
      previous `lastEvent` and is never lowered by a tick; with no
      difference neither field moves. */
  lemma TickDetectsChange(s: State, levels: Levels)
    ensures Tick(s, levels).state.lastEvent == Tick(s, levels).state.newEvent
    ensures Tick(s, levels).state.eventAvailable
        == (s.eventAvailable || Tick(s, levels).state.newEvent != s.lastEvent)
    ensures Tick(s, levels).state.newEvent == s.lastEvent ==>
      Tick(s, levels).state.lastEvent == s.lastEvent && Tick(s, levels).state.eventAvailable == s.eventAvailable
  {
  }

  /** Output mirror (line 311): the tick writes its own debounced byte to
      the outputs, whatever `lastEvent` and the flag held. */
  lemma TickMirrors(s: State, levels: Levels)
    ensures Tick(s, levels).write == Mirror(Tick(s, levels).state.newEvent)
    ensures Tick(s, levels).write == Tick(s.(lastEvent := 0, eventAvailable := false), levels).write
  {
  }

  /** One iteration of the filter loop on the debounced byte (lines 297,
      299): shifting the bits packed so far left and adding the table entry
      of channel k's window packs one more channel. */
  lemma FilterStep(packed: Byte, bits: seq<bool>, k: nat, w: Window)
    requires k < |bits| <= 8
    requires packed == Pack(bits[k + 1..])
    requires bits[k] == Classify(w)
    ensures (packed << 1) + Entry(w) == Pack(bits[k..])
  {
    assert bits[k..][1..] == bits[k + 1..];
    TableIsBinary(w);
  }

  /** Channels up to `k` from `a`, the channels above from `b`: the arrays
      part way through the filter loop. */
  function Merge(a: Bank, b: Bank, k: int): (r: Bank)
    ensures forall j :: 0 <= j < Channels ==> r[j] == if j <= k then a[j] else b[j]
  {
    seq(Channels, j requires 0 <= j < Channels => if j <= k then a[j] else b[j])
  }

  /** Moving channel k from the `a` side to the `b` side. */
  lemma MergeStep(a: Bank, b: Bank, k: int)
    requires 0 <= k < Channels
    ensures Merge(a, b, k)[k := b[k]] == Merge(a, b, k - 1)
    ensures Merge(a, b, Channels - 1) == a && Merge(a, b, -1) == b
  {
    assert Merge(a, b, k)[k := b[k]] == Merge(a, b, k - 1);
    assert Merge(a, b, Channels - 1) == a;
    assert Merge(a, b, -1) == b;
  }

  /** The sampling loop of `timer_callback` (lines 286-289), in place. */
  method SampleInputs(dataIn0: Bank, levels: Levels) returns (dataIn: Bank)
    ensures dataIn == Sample(dataIn0, levels)
  {
    dataIn := dataIn0;
    for k := 0 to Channels
      invariant forall j :: 0 <= j < k ==> dataIn[j] == dataIn0[j] + BitOf(!levels[j])
      invariant forall j :: k <= j < Channels ==> dataIn[j] == dataIn0[j]
    {
      dataIn := dataIn[k := dataIn[k] + BitOf(!levels[k])];
    }
  }

  /** The filter loop of `timer_callback` (lines 294-301), in place: it
      walks the channels from 7 down to 0, shifting the debounced byte left
      before adding each channel's table entry, updating the channel's
      window and shifting its sample byte. */
  method FilterChannels(sampled: Bank, window0: Bank) returns (dataIn: Bank, window: Bank, newEvent: Byte)
    ensures window == Windows(window0, sampled)
    ensures newEvent == Debounced(window)
    ensures dataIn == Advanced(sampled)
  {
    ghost var window' := Windows(window0, sampled);
    ghost var bits := Classified(window');
    ghost var advanced := Advanced(sampled);
    dataIn := sampled;
    window := window0;
    newEvent := 0;
    var k: int := Channels - 1;
    while k >= 0
      invariant -1 <= k < Channels
      invariant window == Merge(window0, window', k)
      invariant dataIn == Merge(sampled, advanced, k)
      invariant newEvent == Pack(bits[k + 1..])
    {
      ghost var packed := newEvent;
      newEvent := newEvent << 1;
      window := window[k := ((window[k] << 1) | (dataIn[k] & 1)) & WindowMask];
      FilterStep(packed, bits, k, window[k]);
      newEvent := newEvent + Entry(window[k]);
      dataIn := dataIn[k := dataIn[k] << 1];
      MergeStep(window0, window', k);
      MergeStep(sampled, advanced, k);
      k := k - 1;
    }
    assert bits[0..] == bits;
    assert dataIn == advanced;
    assert window == window';
  }

  /** `timer_callback` as the C code runs it (lines 284-314): the two loops,
      the change test and the output write. It computes exactly the
      channel-by-channel `Tick`. */
  method TimerCallback(s: State, levels: Levels) returns (r: TickResult)
    ensures r == Tick(s, levels)
  {
    var sampled := SampleInputs(s.dataIn, levels);
    var dataIn, window, newEvent := FilterChannels(sampled, s.window);
    var lastEvent := s.lastEvent;
    var eventAvailable := s.eventAvailable;
    if (newEvent ^ lastEvent) != 0 {
      lastEvent := newEvent;
      eventAvailable := true;
    }
    r := TickResult(State(dataIn, window, newEvent, lastEvent, eventAvailable), PinWrite(OutputMask, Widen(newEvent)));
  }
}
