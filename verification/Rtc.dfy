/** The virtual real-time clock: one interrupt source, one counter for each terminal. System calls run
    with interrupts enabled, so each assignment of `set_RTC_frequency` and `RTC_read` is a step. */
module Rtc {
  import opened Bytes
  import opened Limits

  const MAX_FREQUENCY := 32768
  const MAX_USABLE_FREQUENCY := 1024
  const MIN_FREQUENCY := 2
  const LOWEST_RATE := 6
  const HIGHEST_RATE := 15

  /** `frequency` is the global `RTC_frequency`; the rest is per terminal. */
  datatype Clock = Clock(frequency: int, max: seq<int>, counter: seq<int>, block: seq<bool>)

  ghost predicate Shape(c: Clock) {
    && |c.max| == |c.counter| == |c.block| == MAX_TERMINALS
    && forall t :: IsTerminal(t) ==> 0 <= c.counter[t] && 0 <= c.max[t]
  }

  /** The frequencies a program may ask for: the powers of two from 2 to 1024. */
  predicate IsUsable(f: int) {
    f in {2, 4, 8, 16, 32, 64, 128, 256, 512, 1024}
  }

  // ----- Steps -----

  datatype Event =
    | StoreFrequency(t: int, f: int)
    | StoreMax(t: int)
    | StoreCounter(t: int)
    | ArmCounter(t: int)
    | Block(t: int)
    | Interrupt

  predicate EventShape(e: Event) {
    match e
    case StoreFrequency(t, f) => IsTerminal(t) && IsUsable(f)
    case Interrupt => true
    case _ => IsTerminal(e.t)
  }

  predicate IsOwn(e: Event, t: int) {
    !e.Interrupt? && e.t == t
  }

  /** What one interrupt does to one terminal: at zero it releases the reader and starts over. */
  function Tick(c: Clock, t: int): (r: (int, bool))
    requires Shape(c) && IsTerminal(t)
    ensures 0 <= r.0
  {
    if c.counter[t] == 0 then (c.max[t], false) else (c.counter[t] - 1, c.block[t])
  }

  /** `RTC_handler`: a reader is released, and its counter reloaded, exactly when the counter is 0. */
  function HandleInterrupt(c: Clock): (r: Clock)
    requires Shape(c)
    ensures Shape(r) && r.frequency == c.frequency && r.max == c.max
    ensures forall t :: IsTerminal(t) ==>
      && (r.block[t] <==> c.block[t] && c.counter[t] != 0)
      && (if c.counter[t] == 0 then r.counter[t] == c.max[t] else c.counter[t] == r.counter[t] + 1)
  {
    c.(counter := seq(MAX_TERMINALS, t requires 0 <= t < MAX_TERMINALS => Tick(c, t).0),
       block := seq(MAX_TERMINALS, t requires 0 <= t < MAX_TERMINALS => Tick(c, t).1))
  }

  function Step(c: Clock, e: Event): (r: Clock)
    requires Shape(c) && EventShape(e) && (e.StoreMax? ==> 0 < c.frequency)
    ensures Shape(r)
  {
    match e
    case StoreFrequency(_, f) => c.(frequency := f)
    case StoreMax(t) => DivisionIsNat(c.frequency); c.(max := c.max[t := MAX_USABLE_FREQUENCY / c.frequency])
    case StoreCounter(t) => c.(counter := c.counter[t := c.max[t]])
    case ArmCounter(t) => c.(counter := c.counter[t := c.max[t]])
    case Block(t) => c.(block := c.block[t := true])
    case Interrupt => HandleInterrupt(c)
  }

  lemma DivisionIsNat(f: int)
    requires 0 < f
    ensures 0 <= MAX_USABLE_FREQUENCY / f
  {
  }

  ghost predicate EventsOk(es: seq<Event>) {
    forall i :: 0 <= i < |es| ==> EventShape(es[i])
  }

  /** The global is not 0: the system calls below reach a program only through an open descriptor, and
      opening one has set it. */
  function Run(c: Clock, es: seq<Event>): (r: Clock)
    requires Shape(c) && 0 < c.frequency && EventsOk(es)
    ensures Shape(r) && 0 < r.frequency
  {
    if es == [] then c
    else Step(Run(c, es[..|es| - 1]), es[|es| - 1])
  }

  function Interrupts(es: seq<Event>): nat {
    if es == [] then 0 else Interrupts(es[..|es| - 1]) + if es[|es| - 1].Interrupt? then 1 else 0
  }

  ghost predicate NoneOwn(es: seq<Event>, t: int) {
    forall i :: 0 <= i < |es| ==> !IsOwn(es[i], t)
  }

  // ----- A blocked reader is released on time -----

  /** The reader of terminal t: blocked exactly until `counter + 1` interrupts have come, whatever the
      other terminals do with their clocks; then released for good. */
  lemma {:induction false} ReleasedExactly(c: Clock, es: seq<Event>, t: int)
    requires Shape(c) && 0 < c.frequency && EventsOk(es) && IsTerminal(t) && NoneOwn(es, t) && c.block[t]
    ensures var r := Run(c, es);
      && r.max[t] == c.max[t]
      && (r.block[t] <==> Interrupts(es) <= c.counter[t])
      && (r.block[t] ==> r.counter[t] == c.counter[t] - Interrupts(es))
  {
    if es != [] {
      ReleasedExactly(c, es[..|es| - 1], t);
      assert !IsOwn(es[|es| - 1], t);
    }
  }

  /** Left alone, a full counter counts down, and starts over whenever an interrupt finds it at 0. */
  lemma {:induction false} CounterIs(c: Clock, es: seq<Event>, t: int) returns (periods: nat)
    requires Shape(c) && 0 < c.frequency && EventsOk(es) && IsTerminal(t) && NoneOwn(es, t)
    requires c.counter[t] == c.max[t]
    ensures var r := Run(c, es);
      && 0 <= r.counter[t] <= r.max[t] == c.max[t]
      && Interrupts(es) + r.counter[t] == periods * (c.max[t] + 1) + c.max[t]
      && (Interrupts(es) == 0 ==> r.counter[t] == c.max[t])
  {
    if es == [] {
      periods := 0;
    } else {
      var front, last := es[..|es| - 1], es[|es| - 1];
      periods := CounterIs(c, front, t);
      assert !IsOwn(last, t);
      if last.Interrupt? && Run(c, front).counter[t] == 0 {
        assert (periods + 1) * (c.max[t] + 1) == periods * (c.max[t] + 1) + (c.max[t] + 1);
        periods := periods + 1;
      }
    }
  }

  /** `RTC_read` arms the counter, then blocks; interrupts and other terminals may come in between. It is
      released by exactly the interrupt number `left + 1` after it has blocked, and stays released, where
      `left` is what the interrupts in between have left of the period: all of it if there were none. */
  lemma ReadIsReleased(c: Clock, t: int, between: seq<Event>, es: seq<Event>) returns (left: nat, periods: nat)
    requires Shape(c) && 0 < c.frequency && IsTerminal(t)
    requires EventsOk(between) && EventsOk(es) && NoneOwn(between, t) && NoneOwn(es, t)
    ensures left <= c.max[t] && Interrupts(between) + left == periods * (c.max[t] + 1) + c.max[t]
    ensures Interrupts(between) == 0 ==> left == c.max[t]
    ensures Run(Step(Run(Step(c, ArmCounter(t)), between), Block(t)), es).block[t] <==> Interrupts(es) <= left
  {
    var armed := Step(c, ArmCounter(t));
    periods := CounterIs(armed, between, t);
    left := Run(armed, between).counter[t];
    ReleasedExactly(Step(Run(armed, between), Block(t)), es, t);
  }

  /** With its clock set to f and nothing else going on in its terminal, a read lasts 1024 / f + 1 of the 1024
      interrupts a second: one more than the period, whichever terminals interrupt it. */
  lemma ReadAtFrequency(c: Clock, t: int, f: int, es: seq<Event>)
    requires Shape(c) && IsTerminal(t) && IsUsable(f) && EventsOk(es) && NoneOwn(es, t)
    ensures var r := Step(Step(Step(c, StoreFrequency(t, f)), StoreMax(t)), StoreCounter(t));
      Run(Step(Step(r, ArmCounter(t)), Block(t)), es).block[t] <==> Interrupts(es) < 1024 / f + 1
  {
    var r := Step(Step(Step(c, StoreFrequency(t, f)), StoreMax(t)), StoreCounter(t));
    var armed := Step(r, ArmCounter(t));
    assert r.max[t] == 1024 / f;
    assert Run(armed, []) == armed;
    var left, periods := ReadIsReleased(r, t, [], es);
  }

  // ----- Setting the frequency is a race -----

  /** The frequency that the global holds after these events. */
  function LastStored(f: int, es: seq<Event>): int {
    if es == [] then f
    else if es[|es| - 1].StoreFrequency? then es[|es| - 1].f
    else LastStored(f, es[..|es| - 1])
  }

  lemma {:induction false} GlobalIsLastStored(c: Clock, es: seq<Event>)
    requires Shape(c) && 0 < c.frequency && EventsOk(es)
    ensures Run(c, es).frequency == LastStored(c.frequency, es)
    ensures IsUsable(c.frequency) ==> IsUsable(LastStored(c.frequency, es))
  {
    if es != [] {
      GlobalIsLastStored(c, es[..|es| - 1]);
      assert EventShape(es[|es| - 1]);
    }
  }

  lemma PeriodFitsIff(f: int, g: int)
    requires IsUsable(f) && IsUsable(g)
    ensures (MAX_USABLE_FREQUENCY / g) * f == MAX_USABLE_FREQUENCY <==> f == g
  {
  }

  /** After a terminal has stored its frequency in the global and, later, computed its period from it:
      period times frequency is 1024 exactly when no other terminal's last store in between was of a
      different frequency. */
  lemma PeriodIsRightIff(c: Clock, t: int, f: int, between: seq<Event>)
    requires Shape(c) && IsTerminal(t) && IsUsable(f) && EventsOk(between)
    ensures var r := Step(Run(Step(c, StoreFrequency(t, f)), between), StoreMax(t));
      r.max[t] * f == MAX_USABLE_FREQUENCY <==> LastStored(f, between) == f
  {
    GlobalIsLastStored(Step(c, StoreFrequency(t, f)), between);
    PeriodFitsIff(f, LastStored(f, between));
  }

  /** Two terminals that set their frequencies at once: the slower one gets the period of the faster. */
  lemma RaceGivesWrongPeriod(c: Clock)
    requires Shape(c)
    ensures var r := Step(Step(Step(c, StoreFrequency(0, 2)), StoreFrequency(1, 1024)), StoreMax(0));
      r.max[0] == 1 && r.max[0] * 2 != MAX_USABLE_FREQUENCY
  {
  }

  /** Nothing but a terminal's own store changes its period. */
  lemma PeriodIsOwn(c: Clock, e: Event, t: int)
    requires Shape(c) && EventShape(e) && (e.StoreMax? ==> 0 < c.frequency) && IsTerminal(t) && !IsOwn(e, t)
    ensures Step(c, e).max[t] == c.max[t]
    ensures e.Interrupt? || (Step(c, e).counter[t] == c.counter[t] && Step(c, e).block[t] == c.block[t])
  {
  }

  // ----- The driver -----

  class Driver {
    var rtcFrequency: int
    const rtcMaxCounter: array<int>
    const rtcBlock: array<bool>
    const rtcCounter: array<int>

    ghost predicate Valid()
      reads this, rtcMaxCounter, rtcBlock, rtcCounter
    {
      Shape(View()) && rtcMaxCounter != rtcCounter
    }

    ghost function View(): Clock
      reads this, rtcMaxCounter, rtcBlock, rtcCounter
    {
      Clock(rtcFrequency, rtcMaxCounter[..], rtcCounter[..], rtcBlock[..])
    }

    /** The variables that `init_RTC` sets; the global frequency is still 0. */
    constructor ()
      ensures Valid()
      ensures View() == Clock(0, [1, 1, 1], [1, 1, 1], [false, false, false])
    {
      rtcFrequency := 0;
      rtcMaxCounter := new int[MAX_TERMINALS](_ => 1);
      rtcCounter := new int[MAX_TERMINALS](_ => 1);
      rtcBlock := new bool[MAX_TERMINALS](_ => false);
    }

    /** `set_RTC_frequency`, when nothing preempts it. */
    method SetFrequency(curr: int, freq: int)
      requires Valid() && IsTerminal(curr)
      modifies this, rtcMaxCounter, rtcCounter
      ensures Valid()
      ensures !(MIN_FREQUENCY <= freq <= MAX_USABLE_FREQUENCY) ==> View() == old(View())
      ensures MIN_FREQUENCY <= freq <= MAX_USABLE_FREQUENCY ==>
        var period := MAX_USABLE_FREQUENCY / freq;
        && View() == old(View()).(frequency := freq, max := old(View()).max[curr := period],
                                  counter := old(View()).counter[curr := period])
        && period * freq <= MAX_USABLE_FREQUENCY < (period + 1) * freq
      ensures IsUsable(freq) ==>
        && View() == Step(Step(Step(old(View()), StoreFrequency(curr, freq)), StoreMax(curr)), StoreCounter(curr))
        && rtcMaxCounter[curr] * freq == MAX_USABLE_FREQUENCY
    {
      if freq >= MIN_FREQUENCY && freq <= MAX_USABLE_FREQUENCY {
        DivisionIsNat(freq);
        rtcFrequency := freq;
        rtcMaxCounter[curr] := MAX_USABLE_FREQUENCY / rtcFrequency;
        rtcCounter[curr] := rtcMaxCounter[curr];
        if IsUsable(freq) {
          PeriodFitsIff(freq, freq);
        }
      }
    }

    /** `RTC_open`. */
    method Open(curr: int)
      requires Valid() && IsTerminal(curr)
      modifies this, rtcMaxCounter, rtcCounter
      ensures Valid() && 0 < View().frequency
      ensures View() ==
        Step(Step(Step(old(View()), StoreFrequency(curr, MIN_FREQUENCY)), StoreMax(curr)), StoreCounter(curr))
      ensures rtcMaxCounter[curr] == 512
    {
      SetFrequency(curr, MIN_FREQUENCY);
    }

    method Handler()
      requires Valid()
      modifies rtcBlock, rtcCounter
      ensures Valid() && View() == Step(old(View()), Interrupt)
    {
      ghost var c := View();
      for i := 0 to MAX_TERMINALS
        invariant rtcMaxCounter[..] == c.max && |rtcBlock[..]| == MAX_TERMINALS == |rtcCounter[..]|
        invariant forall t :: 0 <= t < MAX_TERMINALS ==>
          rtcCounter[t] == (if t < i then Tick(c, t).0 else c.counter[t])
          && rtcBlock[t] == (if t < i then Tick(c, t).1 else c.block[t])
      {
        assert rtcMaxCounter[i] == c.max[i];
        if rtcCounter[i] == 0 {
          rtcBlock[i] := false;
          rtcCounter[i] := rtcMaxCounter[i];
        } else {
          rtcCounter[i] := rtcCounter[i] - 1;
        }
      }
    }

    /** The two assignments of `RTC_read`, before it waits. */
    method StartRead(curr: int)
      requires Valid() && IsTerminal(curr)
      modifies rtcBlock, rtcCounter
      ensures Valid() && View() == Step(Step(old(View()), ArmCounter(curr)), Block(curr))
      ensures rtcBlock[curr] && rtcCounter[curr] == rtcMaxCounter[curr]
    {
      rtcCounter[curr] := rtcMaxCounter[curr];
      rtcBlock[curr] := true;
    }

    /** `RTC_write`: `buffer` holds the frequency, unless it is a null pointer. */
    method Write(curr: int, buffer: Option<nat>, nbytes: int) returns (r: int)
      requires Valid() && IsTerminal(curr)
      modifies this, rtcMaxCounter, rtcCounter
      ensures Valid()
      ensures r == 0 <==> nbytes == 4 && buffer.Some? && IsUsable(buffer.value)
      ensures r == 0 || (r == -1 && View() == old(View()))
      ensures r == 0 ==>
        && rtcMaxCounter[curr] * buffer.value == MAX_USABLE_FREQUENCY
        && View() ==
           Step(Step(Step(old(View()), StoreFrequency(curr, buffer.value)), StoreMax(curr)), StoreCounter(curr))
    {
      if nbytes != 4 {
        return -1;
      }
      if buffer.None? {
        return -1;
      }
      var freq := buffer.value;
      var i := LOWEST_RATE;
      var rate := MAX_FREQUENCY / 32;
      while i <= HIGHEST_RATE
        invariant LOWEST_RATE <= i <= HIGHEST_RATE + 1
        invariant rate == RateFrequency(i)
        invariant forall j :: LOWEST_RATE <= j < i ==> freq != RateFrequency(j)
        invariant View() == old(View())
      {
        if freq == rate {
          RatesAreUsable(i);
          SetFrequency(curr, rate);
          return 0;
        }
        i := i + 1;
        rate := rate / 2;
      }
      UsableAreRates(freq);
      return -1;
    }
  }

  /** `rtc_max_frequency >> (i - 1)`. */
  function RateFrequency(i: int): int
    requires 1 <= i <= HIGHEST_RATE + 1
  {
    if i == 1 then MAX_FREQUENCY else RateFrequency(i - 1) / 2
  }

  lemma RatesAreUsable(i: int)
    requires LOWEST_RATE <= i <= HIGHEST_RATE
    ensures IsUsable(RateFrequency(i))
  {
    AllRates();
  }

  lemma AllRates()
    ensures RateFrequency(6) == 1024 && RateFrequency(7) == 512 && RateFrequency(8) == 256
    ensures RateFrequency(9) == 128 && RateFrequency(10) == 64 && RateFrequency(11) == 32
    ensures RateFrequency(12) == 16 && RateFrequency(13) == 8 && RateFrequency(14) == 4
    ensures RateFrequency(15) == 2 && RateFrequency(16) == 1
  {
    assert RateFrequency(3) == 8192;
    assert RateFrequency(6) == 1024;
    assert RateFrequency(9) == 128;
    assert RateFrequency(12) == 16;
  }

  /** The ten rates are exactly the usable frequencies. */
  lemma UsableAreRates(f: int)
    ensures IsUsable(f) <==> exists i :: LOWEST_RATE <= i <= HIGHEST_RATE && f == RateFrequency(i)
  {
    AllRates();
  }
}
