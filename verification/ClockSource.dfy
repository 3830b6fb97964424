/**
 * The White Rabbit clock source (kernel/wr_clocksource/wr_clocksource.c): the
 * extension of a counter that restarts every second to 32 bits (wrcs_read), and the
 * search for a multiplier and a shift (clocks_calc_mult_shift). The C types' widths
 * are written out.
 */
module ClockSource {

  const FREQUENCY: int := 62500000
  const TWO27: int := 0x800_0000
  const TWO28: int := 0x1000_0000
  const TWO32: int := 0x1_0000_0000
  const TWO64: int := 0x1_0000_0000_0000_0000

  type U32 = x: int | 0 <= x < 0x1_0000_0000 witness 0

  function Wrap(x: int): U32 { x % TWO32 }

  // ----- wrcs_read -----

  /** The static variables of wrcs_read. */
  datatype Clock = Clock(offset: U32, last: U32, adjust: U32, wasNegative: bool)

  /** All static variables start at zero. */
  const COLD := Clock(0, 0, 0, false)

  /** Bit 27 of the counter, its sign. */
  predicate Negative(counter: U32) { counter / TWO27 % 2 == 1 }

  /** counter | 0xF0000000: the sign extended to 32 bits. */
  function Extend(counter: U32): U32 { Wrap(counter % TWO28 - TWO28) }

  function Ticks(counter: U32): U32 { if Negative(counter) then Extend(counter) else counter }

  /** The counter as wrcs_read adjusts it, one second long. */
  function Second(counter: U32, adjust: U32): U32 { Wrap(Ticks(counter) + adjust) % FREQUENCY }

  function Adjust(c: Clock, counter: U32): U32 {
    if Negative(counter) && !c.wasNegative then Wrap(c.adjust - Ticks(counter)) % FREQUENCY else c.adjust
  }

  function After(c: Clock, counter: U32): Clock {
    var adjust := Adjust(c, counter);
    var now := Second(counter, adjust);
    Clock(if now < c.last then Wrap(c.offset + FREQUENCY) else c.offset, now, adjust, Negative(counter))
  }

  function Reading(c: Clock): U32 { Wrap(c.offset + c.last) }

  class Wrcs {
    var offset: U32
    var last: U32
    var adjustOffset: U32
    var cntWasNeg: bool

    ghost function Value(): Clock reads this { Clock(offset, last, adjustOffset, cntWasNeg) }

    constructor ()
      ensures Value() == COLD
    {
      offset, last, adjustOffset, cntWasNeg := 0, 0, 0, false;
    }

    /** wrcs_read, given the counter register. */
    method Read(counter: U32) returns (cycles: U32)
      modifies this
      ensures Value() == After(old(Value()), counter) && cycles == Reading(Value())
    {
      var ticksCounter: U32 := counter;
      if Negative(counter) {
        ticksCounter := Extend(counter);
        if !cntWasNeg {
          adjustOffset := Wrap(adjustOffset - ticksCounter);
          adjustOffset := adjustOffset % FREQUENCY;
          cntWasNeg := true;
        }
      } else {
        cntWasNeg := false;
      }
      var now: U32 := Wrap(ticksCounter + adjustOffset) % FREQUENCY;
      if now < last { offset := Wrap(offset + FREQUENCY); }
      last := now;
      cycles := Wrap(offset + now);
    }

    /** Read the counter at the times given in ticks: however the clock started, the
        readings are as far apart as the times, modulo 2^32. */
    method ReadAll(ticks: seq<nat>) returns (cycles: seq<U32>)
      requires Steady(ticks) && adjustOffset < FREQUENCY
      modifies this
      ensures |cycles| == |ticks|
      ensures forall i :: 0 <= i < |ticks| ==> cycles[i] == Wrap(cycles[0] + ticks[i] - ticks[0])
    {
      cycles := [];
      ghost var k := 0;
      var i := 0;
      while i < |ticks|
        invariant i <= |ticks| && |cycles| == i && adjustOffset < FREQUENCY
        invariant i > 0 ==> Follows(Value(), ticks[i - 1], k) && k == cycles[0] - ticks[0]
        invariant forall j :: 0 <= j < i ==> cycles[j] == Wrap(ticks[j] + k)
      {
        ghost var c := Value();
        var r := Read(ticks[i] % FREQUENCY);
        if i == 0 {
          k := r - ticks[0];
          FirstFollows(c, ticks[0]);
        } else {
          NextFollows(c, ticks[i - 1], ticks[i], k);
        }
        cycles := cycles + [r];
        i := i + 1;
      }
      assert forall i :: 0 <= i < |ticks| ==> ticks[i] + k == cycles[0] + ticks[i] - ticks[0];
    }
  }

  /** The clock was last read at t, and read t + k. */
  ghost predicate Follows(c: Clock, t: nat, k: int) { Tracks(c, t) && Reading(c) == Wrap(t + k) }

  lemma FirstFollows(c: Clock, t: nat)
    requires c.adjust < FREQUENCY
    ensures var d := After(c, t % FREQUENCY); Follows(d, t, Reading(d) - t) && d.adjust < FREQUENCY
  {
    FirstRead(c, t);
    assert forall r: U32 :: Wrap(r) == r;
  }

  lemma NextFollows(c: Clock, t: nat, t': nat, k: int)
    requires Follows(c, t, k) && t <= t' < t + FREQUENCY
    ensures var d := After(c, t' % FREQUENCY); Follows(d, t', k) && d.adjust < FREQUENCY
  {
    Advance(c, t, t');
    assert (t' - t) % FREQUENCY == t' - t by { SmallMod(t' - t); }
    assert Wrap(Wrap(t + k) + (t' - t)) == Wrap(t' + k) by { WrapAdd(t + k, t' - t); }
  }

  lemma SmallMod(d: nat)
    requires d < FREQUENCY
    ensures d % FREQUENCY == d
  {
  }

  /** The counter is read again before a second has passed. */
  predicate Steady(ticks: seq<nat>) {
    forall i :: 0 < i < |ticks| ==> ticks[i - 1] <= ticks[i] < ticks[i - 1] + FREQUENCY
  }

  /** The clock was last read at the tick count t. */
  ghost predicate Tracks(c: Clock, t: nat) { c.adjust < FREQUENCY && c.last == (t + c.adjust) % FREQUENCY }

  lemma WrapAdd(a: int, b: int)
    ensures Wrap(Wrap(a) + b) == Wrap(a + b)
  {
  }

  /** A counter within its second is never negative. */
  lemma NotNegative(t: nat)
    ensures !Negative(t % FREQUENCY) && Ticks(t % FREQUENCY) == t % FREQUENCY
  {
    var r := t % FREQUENCY;
    assert r / TWO27 == 0;
  }

  lemma ModAdd(t: nat, a: nat)
    requires a < FREQUENCY
    ensures Wrap(t % FREQUENCY + a) % FREQUENCY == (t + a) % FREQUENCY
  {
    assert t == t / FREQUENCY * FREQUENCY + t % FREQUENCY;
  }

  lemma FirstRead(c: Clock, t: nat)
    requires c.adjust < FREQUENCY
    ensures Tracks(After(c, t % FREQUENCY), t)
  {
    NotNegative(t);
    ModAdd(t, c.adjust);
  }

  /** A reading at t' advances by the time since t, less the whole seconds in it. */
  lemma Advance(c: Clock, t: nat, t': nat)
    requires Tracks(c, t) && t <= t'
    ensures var d := After(c, t' % FREQUENCY);
            Tracks(d, t') && Reading(d) == Wrap(Reading(c) + (t' - t) % FREQUENCY)
  {
    FirstRead(c, t');
    var d := After(c, t' % FREQUENCY);
    assert d.offset == (if d.last < c.last then Wrap(c.offset + FREQUENCY) else c.offset) by { NotNegative(t'); }
    Turn(t + c.adjust, t' + c.adjust);
    var turn := if d.last < c.last then FREQUENCY else 0;
    assert d.offset == Wrap(c.offset + turn);
    WrapAdd(c.offset + turn, d.last);
    WrapAdd(c.offset + c.last, d.last - c.last + turn);
  }

  lemma Turn(u: nat, v: nat)
    requires u <= v
    ensures (v - u) % FREQUENCY ==
            v % FREQUENCY - u % FREQUENCY + if v % FREQUENCY < u % FREQUENCY then FREQUENCY else 0
  {
  }

  /** So a reading is exact if and only if the whole seconds since the last one amount
      to a multiple of 2^32 ticks; in particular within a second. */
  lemma ExactAdvance(c: Clock, t: nat, t': nat)
    requires Tracks(c, t) && t <= t'
    ensures Reading(After(c, t' % FREQUENCY)) == Wrap(Reading(c) + (t' - t))
            <==> Wrap((t' - t) / FREQUENCY * FREQUENCY) == 0
  {
    Advance(c, t, t');
    var w := (t' - t) / FREQUENCY * FREQUENCY;
    assert t' - t == w + (t' - t) % FREQUENCY;
    WrapDiff(Reading(c) + (t' - t) % FREQUENCY, w);
  }

  /** A clock just started and read again a second later reads 0 both times. */
  lemma MissedSecond()
    ensures Tracks(COLD, 0) && Reading(After(COLD, FREQUENCY % FREQUENCY)) == Reading(COLD) == 0
    ensures Wrap(Reading(COLD) + FREQUENCY) == FREQUENCY
  {
    Advance(COLD, 0, FREQUENCY);
  }

  lemma WrapDiff(a: int, w: int)
    ensures Wrap(a) == Wrap(a + w) <==> Wrap(w) == 0
  {
  }

  // ----- clocks_calc_mult_shift -----

  function Pow2(n: nat): (r: nat)
    ensures r > 0
  {
    if n == 0 then 1 else 2 * Pow2(n - 1)
  }

  /** The multiplier for a shift: to * 2^s / from, rounded to the nearest. */
  function Mult(from: U32, to: U32, s: nat): nat
    requires from > 0
  {
    var n: nat := to * Pow2(s) + from / 2;
    n / from
  }

  /** How many bits are left for the multiplier. */
  function Room(n: nat): int { if n == 0 then 32 else Room(n / 2) - 1 }

  lemma {:induction false} RoomIs(n: nat, b: nat)
    requires n < Pow2(b) && (b > 0 ==> Pow2(b - 1) <= n)
    ensures Room(n) == 32 - b
  {
    if n > 0 { RoomIs(n / 2, b - 1); }
  }

  lemma {:induction false} Bits(n: nat) returns (b: nat)
    ensures n < Pow2(b) && (b > 0 ==> Pow2(b - 1) <= n)
  {
    if n == 0 { b := 0; } else {
      b := Bits(n / 2);
      b := b + 1;
    }
  }

  lemma {:induction false} Pow2Mono(a: nat, b: nat)
    requires a <= b
    ensures Pow2(a) <= Pow2(b)
  {
    if a < b { Pow2Mono(a, b - 1); }
  }

  lemma Pow2At32()
    ensures Pow2(32) == TWO32
  {
    assert Pow2(8) == 256;
    Pow2Add(8, 8);
    Pow2Add(16, 16);
  }

  lemma {:induction false} Pow2Add(a: nat, b: nat)
    ensures Pow2(a + b) == Pow2(a) * Pow2(b)
  {
    if a > 0 { Pow2Add(a - 1, b); }
  }

  /** The bits left over by the range: no more, and no fewer, than the multiplier may
      have without maxsec * from * mult overflowing 64 bits. */
  lemma RoomMeans(range: nat)
    requires range < TWO64
    ensures var r := Room(range / TWO32); 0 <= r <= 32 && range < Pow2(64 - r) && (r < 32 ==> Pow2(63 - r) <= range)
  {
    var hi := range / TWO32;
    var b := Bits(hi);
    RoomIs(hi, b);
    Pow2At32();
    if b > 32 { Pow2Mono(32, b - 1); }
    Pow2Add(b, 32);
    Above(hi, range, Pow2(b));
    if b > 0 {
      Pow2Add(b - 1, 32);
      Below(hi, range, Pow2(b - 1));
    }
  }

  lemma Above(hi: nat, range: nat, p: nat)
    requires hi == range / TWO32 && hi < p
    ensures range < p * TWO32
  {
  }

  lemma Below(hi: nat, range: nat, p: nat)
    requires hi == range / TWO32 && p <= hi
    ensures p * TWO32 <= range
  {
  }

  predicate Fits(from: U32, to: U32, room: nat, s: nat)
    requires from > 0
  {
    Mult(from, to, s) / Pow2(room) == 0
  }

  // Arithmetic on products and quotients of variables.

  lemma MulMono(a: nat, b: nat, c: nat)
    requires a <= b
    ensures a * c <= b * c
  {
  }

  lemma MulLess(a: nat, p: nat, b: nat, q: nat)
    requires a < p && b < q
    ensures a * b < p * q
  {
    assert a * b <= a * q < p * q;
  }

  lemma DivMono(a: nat, b: nat, c: nat)
    requires a <= b && c > 0
    ensures a / c <= b / c
  {
    var p, q := a / c, b / c;
    assert a == p * c + a % c && b == q * c + b % c;
    assert (q + 1) * c == q * c + c;
    if p > q { MulMono(q + 1, p, c); }
  }

  lemma Nearest(x: nat, f: nat)
    requires f > 0
    ensures -(f / 2) <= (x + f / 2) / f * f - x <= f / 2
  {
    var y := x + f / 2;
    assert y == y / f * f + y % f;
  }

  lemma Scale(c: nat, d: int, e: nat)
    requires 0 - e <= d <= e
    ensures 0 - c * e <= c * d <= c * e
  {
  }

  lemma Product(a: U32, b: U32)
    ensures 0 <= a * b < TWO64 && a * b / TWO32 < TWO32
  {
    MulLess(a, TWO32, b, TWO32);
  }

  lemma {:induction false} RoomBound(n: nat)
    ensures Room(n) <= 32
  {
    if n > 0 { RoomBound(n / 2); }
  }

  /** The shift and the rounding stay within 64 bits. */
  lemma ShiftFits(to: U32, s: nat)
    requires s <= 32
    ensures 0 <= to * Pow2(s) <= (TWO32 - 1) * TWO32
  {
    Pow2Mono(s, 32);
    Pow2At32();
    MulMono(to, TWO32 - 1, Pow2(s));
    MulMono(Pow2(s), TWO32, TWO32 - 1);
  }

  lemma MultMono(from: U32, to: U32, r: nat, s: nat)
    requires from > 0 && r <= s
    ensures Mult(from, to, r) <= Mult(from, to, s)
  {
    Pow2Mono(r, s);
    MulMono(Pow2(r), Pow2(s), to);
    DivMono(Pow2(r) * to + from / 2, Pow2(s) * to + from / 2, from);
  }

  lemma FitsMono(from: U32, to: U32, room: nat, r: nat, s: nat)
    requires from > 0 && r <= s && Fits(from, to, room, s)
    ensures Fits(from, to, room, r)
  {
    MultMono(from, to, r, s);
    ZeroMono(Mult(from, to, r), Mult(from, to, s), Pow2(room));
  }

  lemma ZeroMono(a: nat, b: nat, c: nat)
    requires a <= b && c > 0 && b / c == 0
    ensures a / c == 0
  {
    DivMono(a, b, c);
  }

  lemma MultBound(from: U32, to: U32, room: nat, s: nat)
    requires from > 0 && room <= 32 && Fits(from, to, room, s)
    ensures Mult(from, to, s) < Pow2(room) <= TWO32
  {
    Pow2Mono(room, 32);
    Pow2At32();
    var m, p := Mult(from, to, s), Pow2(room);
    if m >= p { DivMono(p, m, p); }
  }

  /** The first loop: the range's high bits are shifted out one by one. */
  method RoomFor(range: nat) returns (sftacc: nat)
    requires range < TWO64
    ensures sftacc == Room(range / TWO32) <= 32
  {
    RoomMeans(range);
    var tmp: nat := range / TWO32;
    sftacc := 32;
    while tmp > 0
      invariant sftacc + Room(tmp) - 32 == Room(range / TWO32) && sftacc <= 32
    {
      RoomBound(tmp / 2);
      tmp := tmp / 2;
      sftacc := sftacc - 1;
    }
  }

  /** The body of the second loop: the multiplier for one shift, in 64 bits. */
  method MultFor(from: U32, to: U32, sft: nat) returns (tmp: nat)
    requires from > 0 && sft <= 32
    ensures tmp == Mult(from, to, sft) && to * Pow2(sft) + from / 2 < TWO64
  {
    ShiftFits(to, sft);
    tmp := to * Pow2(sft);
    tmp := tmp + from / 2;
    tmp := tmp / from;
  }

  /** What the search finds: the largest shift up to 32 whose multiplier fits; if there
      is none, shift 0 with the multiplier for shift 1 cut to 32 bits. */
  predicate Found(from: U32, to: U32, room: nat, mult: U32, shift: U32)
    requires from > 0
  {
    if Fits(from, to, room, 1) then
      && 1 <= shift <= 32 && mult == Mult(from, to, shift) && Fits(from, to, room, shift)
      && (forall s :: shift < s <= 32 ==> !Fits(from, to, room, s))
    else shift == 0 && mult == Wrap(Mult(from, to, 1))
  }

  /** clocks_calc_mult_shift */
  method CalcMultShift(from: U32, to: U32, maxsec: U32) returns (mult: U32, shift: U32)
    requires from > 0
    ensures 0 <= Room(maxsec * from / TWO32) <= 32
    ensures Found(from, to, Room(maxsec * from / TWO32), mult, shift)
  {
    Product(maxsec, from);
    var sftacc := RoomFor(maxsec * from);
    mult, shift := Search(from, to, sftacc);
  }

  /** The second loop. */
  method Search(from: U32, to: U32, sftacc: nat) returns (mult: U32, shift: U32)
    requires from > 0 && sftacc <= 32
    ensures Found(from, to, sftacc, mult, shift)
  {
    var tmp: nat := 0;
    var sft: nat := 32;
    while sft > 0
      invariant sft <= 32 && (forall s :: sft < s <= 32 ==> !Fits(from, to, sftacc, s))
      invariant sft == 0 ==> tmp == Mult(from, to, 1)
    {
      tmp := MultFor(from, to, sft);
      if tmp / Pow2(sftacc) == 0 {
        FitsMono(from, to, sftacc, 1, sft);
        MultBound(from, to, sftacc, sft);
        break;
      }
      sft := sft - 1;
    }
    mult, shift := Wrap(tmp), sft;
  }

  /** From 1 to 2^31 no shift from 1 on fits, and what the search leaves converts
      everything to 0, although the multiplier for shift 0 would have fitted. */
  lemma NoShiftFits(maxsec: U32, mult: U32, shift: U32)
    ensures var to, room := 0x8000_0000, Room(maxsec * 1 / TWO32);
            && room == 32 && Fits(1, to, room, 0)
            && (Found(1, to, room, mult, shift) ==> shift == 0 && mult == 0)
  {
    var to := 0x8000_0000;
    assert maxsec / TWO32 == 0;
    Pow2At32();
    assert Mult(1, to, 0) == to && Mult(1, to, 1) == TWO32;
  }

  /** What a fitting multiplier is good for: any number of cycles within maxsec seconds
      can be multiplied without overflow, and the quotient is as near as a whole
      multiplier allows. */
  lemma FittingConverts(from: U32, to: U32, maxsec: U32, s: nat, cycles: nat)
    requires from > 0 && cycles <= maxsec * from
    requires var room := Room(maxsec * from / TWO32); 0 <= room <= 32 && Fits(from, to, room, s)
    ensures var m := Mult(from, to, s);
            && m < TWO32 && cycles * m < TWO64
            && 0 - from / 2 <= m * from - to * Pow2(s) <= from / 2
            && 0 - cycles * (from / 2) <= cycles * (m * from - to * Pow2(s)) <= cycles * (from / 2)
  {
    var room, m := Room(maxsec * from / TWO32), Mult(from, to, s);
    Product(maxsec, from);
    MultBound(from, to, room, s);
    NoOverflow(maxsec * from, cycles, m);
    ShiftedNat(to, s);
    Nearest(to * Pow2(s), from);
    Scale(cycles, m * from - to * Pow2(s), from / 2);
  }

  lemma ShiftedNat(to: U32, s: nat)
    ensures to * Pow2(s) >= 0
  {
  }

  lemma NoOverflow(range: nat, cycles: nat, m: nat)
    requires range < TWO64 && cycles <= range
    requires var room := Room(range / TWO32); 0 <= room <= 32 ==> m < Pow2(room)
    ensures cycles * m < TWO64
  {
    var room := Room(range / TWO32);
    RoomMeans(range);
    Halves(room);
    MulLess(cycles, Pow2(64 - room), m, Pow2(room));
  }

  lemma Halves(room: nat)
    requires room <= 32
    ensures Pow2(64 - room) * Pow2(room) == TWO64 && (room < 32 ==> Pow2(63 - room) * (2 * Pow2(room)) == TWO64)
  {
    Pow2Add(64 - room, room);
    Pow2At32();
    Pow2Add(32, 32);
    if room < 32 { Pow2Add(63 - room, room + 1); }
  }

  /** The room is the most the range allows: a multiplier of one bit more overflows. */
  lemma RoomTight(range: nat, m: nat)
    requires range < TWO64
    requires var room := Room(range / TWO32); 0 <= room < 32 && m >= 2 * Pow2(room)
    ensures range * m >= TWO64
  {
    var room := Room(range / TWO32);
    RoomMeans(range);
    Halves(room);
    Bigger(Pow2(63 - room), 2 * Pow2(room), range, m);
  }

  lemma Bigger(p: nat, q: nat, a: nat, b: nat)
    requires p <= a && q <= b
    ensures p * q <= a * b
  {
    MulMono(p, a, q);
    MulMono(q, b, a);
  }
}
