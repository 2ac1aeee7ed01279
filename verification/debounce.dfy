/** The binary finite-impulse-response debounce filter of the response box
    (src/main.c): every channel keeps a five-sample shift window, and a
    constant 32-entry table classifies the window as released (0) or
    pressed (1). */
module Debounce {

  /** A C `uint8_t`. Dafny's bit-vector arithmetic wraps modulo 256 exactly
      as an assignment to a `uint8_t` does. */
  type Byte = bv8

  /** The window keeps the five most recent samples; the mask `0x1f` keeps them. */
  const WindowWidth: nat := 5
  const WindowMask: Byte := 0x1f

  /** A window value: bit 0 holds the newest sample, bit 4 the oldest. */
  type Window = w: Byte | w < 32

  /** The classification table `filtered`, indexed by window value. */
  const Filtered: seq<Byte> := [
    0, 0, 0, 1, 0, 1, 1, 1,
    0, 1, 1, 1, 1, 1, 1, 1,
    0, 0, 0, 1, 0, 1, 1, 1,
    0, 1, 1, 1, 1, 1, 1, 1
  ]

  /** The byte holding a single truth value in bit 0. */
  function BitOf(b: bool): (r: Byte)
    ensures r & 1 == r
    ensures (r == 1) == b
  {
    if b then 1 else 0
  }

  /** Bit `i` of a byte is set. */
  predicate Bit(x: Byte, i: nat)
    requires i < 8
  {
    (x >> i) & 1 == 1
  }

  /** 1 when bit `i` of `x` is set, else 0. */
  function Count(x: Byte, i: nat): (c: nat)
    requires i < 8
    ensures c <= 1
  {
    if Bit(x, i) then 1 else 0
  }

  /** How many of the four newest samples (bits 0-3) of a window are active. */
  function RecentActive(w: Byte): (c: nat)
    ensures c <= 4
  {
    Count(w, 0) + Count(w, 1) + Count(w, 2) + Count(w, 3)
  }

  /** How many of the five samples of a window are active. */
  function WindowActive(w: Byte): (c: nat)
    ensures c <= WindowWidth
  {
    RecentActive(w) + Count(w, 4)
  }

  /** Shifts the sample held in bit 0 of `d` into the window `w` and drops
      every sample older than the last five: `((w << 1) | (d & 1)) & 0x1f`. */
  function ShiftIn(w: Byte, d: Byte): (r: Window)
    ensures Bit(r, 0) == Bit(d, 0)
    ensures forall i :: 1 <= i < WindowWidth ==> Bit(r, i) == Bit(w, i - 1)
    ensures forall i :: WindowWidth <= i < 8 ==> !Bit(r, i)
  {
    ((w << 1) | (d & 1)) & WindowMask
  }

  /** The table entry `filtered[w]` of a window. */
  function Entry(w: Window): Byte
  {
    Filtered[w as int]
  }

  /** The classification of a window: its table entry is 1. */
  predicate Classify(w: Window)
  {
    Entry(w) == 1
  }

  /** The table holds only 0 and 1, so adding an entry to a byte whose bit 0
      is clear sets exactly that bit. */
  lemma TableIsBinary(w: Window)
    ensures Entry(w) == BitOf(Classify(w))
  {
  }

  /** The table classifies a window as pressed exactly when at least two of
      the four newest samples (bits 0-3) are active. */
  lemma ClassifyIsTwoOfFour(w: Window)
    ensures Classify(w) <==> RecentActive(w) >= 2
  {
  }

  /** The oldest sample (bit 4) never affects the classification. */
  lemma OldestSampleIgnored(w: Window)
    ensures w ^ 16 < 32
    ensures Classify(w ^ 16) == Classify(w)
  {
  }

  /** Two windows that agree on their four newest samples classify alike. */
  lemma FourNewestDecide(w1: Window, w2: Window)
    requires forall i :: 0 <= i < 4 ==> Bit(w1, i) == Bit(w2, i)
    ensures Classify(w1) == Classify(w2)
  {
    ClassifyIsTwoOfFour(w1);
    ClassifyIsTwoOfFour(w2);
    assert Bit(w1, 0) == Bit(w2, 0) && Bit(w1, 1) == Bit(w2, 1);
    assert Bit(w1, 2) == Bit(w2, 2) && Bit(w1, 3) == Bit(w2, 3);
  }

  /** Glitch rejection: a window in which exactly one of the five samples
      is active classifies as released. */
  lemma SingleActiveSampleRejected(w: Window)
    requires WindowActive(w) == 1
    ensures !Classify(w)
  {
  }

  /** Glitch rejection: a window in which exactly one of the five samples
      is inactive classifies as pressed. */
  lemma SingleInactiveSampleRejected(w: Window)
    requires WindowActive(w) == WindowWidth - 1
    ensures Classify(w)
  {
  }

  /** Latency: two consecutive active samples classify as pressed, whatever
      the window held before them. */
  lemma TwoActiveSamplesPress(w: Byte, d1: Byte, d2: Byte)
    requires Bit(d1, 0) && Bit(d2, 0)
    ensures Classify(ShiftIn(ShiftIn(w, d1), d2))
  {
    var r := ShiftIn(ShiftIn(w, d1), d2);
    assert Bit(r, 0) && Bit(r, 1);
    ClassifyIsTwoOfFour(r);
  }

  /** Latency: three consecutive inactive samples classify as released,
      whatever the window held before them. */
  lemma ThreeInactiveSamplesRelease(w: Byte, d1: Byte, d2: Byte, d3: Byte)
    requires !Bit(d1, 0) && !Bit(d2, 0) && !Bit(d3, 0)
    ensures !Classify(ShiftIn(ShiftIn(ShiftIn(w, d1), d2), d3))
  {
    var r := ShiftIn(ShiftIn(ShiftIn(w, d1), d2), d3);
    assert !Bit(r, 0) && !Bit(r, 1) && !Bit(r, 2);
    ClassifyIsTwoOfFour(r);
  }

  /** A single active sample after inactive ones does not press, and a
      single inactive sample after active ones does not release: the
      filter needs a second consistent sample before it changes its mind. */
  lemma OneSampleDoesNotFlip(w: Byte, d1: Byte, d2: Byte, d3: Byte, g: Byte)
    requires Bit(d1, 0) == Bit(d2, 0) == Bit(d3, 0)
    requires Bit(g, 0) != Bit(d1, 0)
    ensures Classify(ShiftIn(ShiftIn(ShiftIn(ShiftIn(w, d1), d2), d3), g))
         == Bit(d1, 0)
  {
    var r := ShiftIn(ShiftIn(ShiftIn(ShiftIn(w, d1), d2), d3), g);
    assert Bit(r, 1) == Bit(r, 2) == Bit(r, 3) == Bit(d1, 0);
    assert Bit(r, 0) == !Bit(d1, 0);
    ClassifyIsTwoOfFour(r);
  }
}
