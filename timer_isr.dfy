/*
 * The transmitter: the Timer3 overflow handler `Timer3_ISR` of lab1.c, a
 * three-state machine that drains the shared 16-bit word `sym_out` one 2-bit
 * group per LED pulse.
 *
 * `Step` is the handler as a function on the whole state (the global `sym_out`,
 * the handler's statics `t3_cnt` and `sm`, and the LED pin); `Blinker.Tick`
 * is the same handler updating that state in place. `DrainLeds` and `Drained`
 * give what the producer's spin-wait sees: the LED level after every tick until
 * `sym_out` reads zero, and the state at that point. The lemmas give those two
 * in closed form for every word the producer can load.
 */
module TimerIsr {
  import opened MorseCode

  /** Tick counts: a dot, a dash, the gap inside a letter, the gap after one. */
  const DOT_CNT: Word := 3
  const DASH_CNT: Word := 9
  const DOT_PAUSE: Word := 3
  const SPACE_PAUSE: Word := 12

  /** The two high bits of `sym_out`: "pause after the symbol". */
  const PAUSE_SYM: Word := 0xC000

  /*
   * The bit operations of the handler on a 16-bit unsigned word, each written
   * as its arithmetic equivalent.
   */

  /** `w >> 2`: drop the unit just sent. */
  function DropUnit(w: Word): (r: Word)
    ensures 4 * r + w % 4 == w
    ensures r < 0x4000
  {
    w / 4
  }

  /** `w & 0x8000`: keep only the top bit, the mark of a running pause. */
  function KeepPauseMark(w: Word): (r: Word)
    ensures r == 0 || r == 0x8000
    ensures r == 0x8000 <==> w >= 0x8000
    ensures r <= w
  {
    if w >= 0x8000 then 0x8000 else 0
  }

  /** `(w & PAUSE_SYM) != 0`: one of the two pause bits is set. */
  predicate PauseBitsSet(w: Word)
    ensures PauseBitsSet(w) <==> w / 0x4000 != 0
  {
    w >= 0x4000
  }

  /** `w & ~PAUSE_SYM`: clear both pause bits. */
  function ClearPauseBits(w: Word): (r: Word)
    ensures r < 0x4000 && r <= w
    ensures (w - r) % 0x4000 == 0
  {
    w % 0x4000
  }

  datatype SymState = SymStart | LedOn | Pause

  /**
   * The state the handler reads and writes: `sym_out`, `t3_cnt` (an
   * `unsigned short`, also 16 bits), `sm`, and the LED pin, true when lit.
   */
  datatype Regs = Regs(symOut: Word, t3Cnt: Word, sm: SymState, led: bool)

  /** Nothing to send, nothing counting, LED dark. */
  const IDLE: Regs := Regs(0, 0, SymStart, false)

  /**
   * The pulse length chosen when a unit starts. The source writes
   * `sym_out & 0x03 == 0x01`, and C's `==` binds tighter than `&`: the test is
   * `sym_out & 0`, which never holds, so every unit gets the dash length.
   */
  function UnitTicks(code: Word): (ticks: Word)
    ensures ticks == DASH_CNT
  {
    var comparison := if 0x03 == 0x01 then 1 else 0;
    var masked := code % 2 * comparison;  // code & comparison, comparison being 0 or 1
    if masked != 0 then DOT_CNT else DASH_CNT
  }

  /** The pulse length the comment of the table describes: dots short, the rest long. */
  function IntendedUnitTicks(code: Word): (ticks: Word)
    ensures ticks == DOT_CNT <==> UnitOf(code) == Dot
    ensures ticks == DASH_CNT <==> UnitOf(code) != Dot
  {
    if code % 4 == 0x01 then DOT_CNT else DASH_CNT
  }

  /** Every dot unit is sent with dash timing: three times its intended length. */
  lemma DotsSentAsDashes(code: Word)
    requires UnitOf(code) == Dot
    ensures UnitTicks(code) == 3 * IntendedUnitTicks(code)
    ensures UnitTicks(code) != IntendedUnitTicks(code)
  {
  }

  /**
   * Facts that hold between ticks: no count runs while idle, a pulse or a gap
   * is only under way while `sym_out` holds something, and the count stays
   * below the largest value ever loaded.
   */
  predicate Inv(s: Regs)
  {
    && (s.sm == SymStart ==> s.t3Cnt == 0)
    && (s.sm != SymStart ==> s.symOut != 0)
    && (s.sm == LedOn ==> s.t3Cnt < DASH_CNT)
    && (s.sm == Pause ==> s.t3Cnt < SPACE_PAUSE)
  }

  /** The LED is lit exactly in state LED_ON. */
  predicate LedFollowsState(s: Regs)
  {
    s.led <==> s.sm == LedOn
  }

  /** Writing PAUSE_SYM overrides the state: the first statement of the handler. */
  function Override(s: Regs): (r: Regs)
  {
    if s.symOut == PAUSE_SYM then Regs(KeepPauseMark(s.symOut), SPACE_PAUSE, Pause, false) else s
  }

  /** The switch on `sm`. */
  function Dispatch(s: Regs): (r: Regs)
  {
    match s.sm
    case SymStart =>
      if s.symOut != 0 then s.(t3Cnt := UnitTicks(s.symOut), sm := LedOn, led := true)
      else s
    case LedOn =>
      if s.t3Cnt == 0 then
        var shifted := DropUnit(s.symOut);
        if shifted != 0 then Regs(shifted, DOT_PAUSE, Pause, false)
        else s.(symOut := shifted, sm := SymStart, led := false)
      else s
    case Pause =>
      if s.t3Cnt == 0 then
        if PauseBitsSet(s.symOut) then s.(symOut := ClearPauseBits(s.symOut), sm := SymStart)
        else if s.symOut != 0 then s.(t3Cnt := UnitTicks(s.symOut), sm := LedOn, led := true)
        else s
      else s
  }

  /** The closing `if (t3_cnt) t3_cnt--`. */
  function CountDown(s: Regs): (r: Regs)
  {
    if s.t3Cnt != 0 then s.(t3Cnt := s.t3Cnt - 1) else s
  }

  /** One timer overflow. */
  function Step(s: Regs): (r: Regs)
  {
    CountDown(Dispatch(Override(s)))
  }

  /** A tick keeps the invariant, and keeps the LED in step with the state. */
  lemma StepKeepsInv(s: Regs)
    requires Inv(s)
    ensures Inv(Step(s))
    ensures LedFollowsState(s) ==> LedFollowsState(Step(s))
  {
  }

  /**
   * Whatever the LED showed at reset, it follows the state from the first tick
   * that finds a word to send.
   */
  lemma FirstPulseSyncsLed(s: Regs)
    requires Inv(s) && s.sm == SymStart && s.symOut != 0
    ensures LedFollowsState(Step(s))
  {
  }

  /**
   * A tick changes `sym_out` only by shifting it right two places or by masking
   * it, so it never grows.
   */
  lemma StepShrinksWord(s: Regs)
    ensures Step(s).symOut in {s.symOut, DropUnit(s.symOut), KeepPauseMark(s.symOut), ClearPauseBits(s.symOut)}
    ensures Step(s).symOut <= s.symOut
  {
  }

  /** With nothing to send and no count running, a tick changes nothing. */
  lemma QuietTick(s: Regs)
    requires s.symOut == 0 && s.sm == SymStart && s.t3Cnt == 0
    ensures Step(s) == s
  {
  }

  /**
   * Writing PAUSE_SYM overrides whatever was under way: after the next tick the
   * word is 0x8000, the LED is dark and the inter-letter gap is counting.
   */
  lemma PauseHandOff(s: Regs)
    requires s.symOut == PAUSE_SYM
    ensures Step(s) == Regs(0x8000, SPACE_PAUSE - 1, Pause, false)
  {
  }

  function Rank(st: SymState): (r: nat)
  {
    match st
    case LedOn => 0
    case Pause => 1
    case SymStart => 2
  }

  /** (sym_out, Rank(sm), t3_cnt), compared lexicographically. */
  predicate Below(a: Regs, b: Regs)
  {
    || a.symOut < b.symOut
    || (a.symOut == b.symOut && Rank(a.sm) < Rank(b.sm))
    || (a.symOut == b.symOut && a.sm == b.sm && a.t3Cnt < b.t3Cnt)
  }

  /** While `sym_out` is nonzero every tick makes progress, so the spin-waits end. */
  lemma StepDecreases(s: Regs)
    requires Inv(s) && s.symOut != 0
    ensures Below(Step(s), s)
  {
  }

  /** The LED level after each tick, until `sym_out` reads zero. */
  function DrainLeds(s: Regs): (leds: seq<bool>)
    requires Inv(s)
    ensures leds == [] <==> s.symOut == 0
    decreases s.symOut, Rank(s.sm), s.t3Cnt
  {
    if s.symOut == 0 then []
    else
      StepDecreases(s);
      [Step(s).led] + DrainLeds(Step(s))
  }

  /** The state in which the spin-wait sees `sym_out` zero: always the idle state. */
  function Drained(s: Regs): (r: Regs)
    requires Inv(s)
    ensures r.symOut == 0 && r.sm == SymStart && r.t3Cnt == 0
    ensures s.symOut == 0 ==> r == s
    ensures s.symOut != 0 && LedFollowsState(s) ==> r == IDLE
    ensures s.symOut != 0 && s.sm == SymStart ==> r == IDLE
    decreases s.symOut, Rank(s.sm), s.t3Cnt
  {
    if s.symOut == 0 then s
    else
      StepDecreases(s);
      Drained(Step(s))
  }

  /**
   * One tick of the drain: after the levels `shown` so far, the LED shows the
   * level of this tick, and the rest of the drain is that of the next state.
   */
  lemma DrainOneTick(shown: seq<bool>, s: Regs)
    requires Inv(s) && s.symOut != 0
    ensures Inv(Step(s)) && Below(Step(s), s)
    ensures shown + DrainLeds(s) == (shown + [Step(s).led]) + DrainLeds(Step(s))
    ensures Drained(s) == Drained(Step(s))
  {
    UnfoldDrain(s);
  }

  lemma UnfoldDrain(s: Regs)
    requires Inv(s) && s.symOut != 0
    ensures Inv(Step(s)) && Below(Step(s), s)
    ensures DrainLeds(s) == [Step(s).led] + DrainLeds(Step(s))
    ensures Drained(s) == Drained(Step(s))
  {
    StepDecreases(s);
  }

  /** `k` ticks of one LED level. */
  function Level(lit: bool, k: nat): (leds: seq<bool>)
    ensures |leds| == k
    ensures forall i :: 0 <= i < k ==> leds[i] == lit
  {
    if k == 0 then [] else [lit] + Level(lit, k - 1)
  }

  /**
   * `n` pulses of DASH_CNT lit ticks, DOT_PAUSE dark ticks between two of them,
   * and one dark tick at the end, on which `sym_out` reaches zero.
   */
  function PulseTrain(n: nat): (leds: seq<bool>)
    requires n >= 1
    ensures |leds| == 12 * n - 2
  {
    Level(true, DASH_CNT as nat)
      + if n == 1 then [false] else Level(false, DOT_PAUSE as nat) + PulseTrain(n - 1)
  }

  /** What the spin-wait sees after the producer loads `w` into an idle handler. */
  function WordTrace(w: Word): (leds: seq<bool>)
    ensures w == 0 <==> leds == []
    ensures w != 0 && w != PAUSE_SYM ==> |leds| == 12 * |Units(w)| - 2 && leds[0]
    ensures w == PAUSE_SYM ==> |leds| == SPACE_PAUSE as nat + 1 && forall i :: 0 <= i < |leds| ==> !leds[i]
  {
    if w == 0 then []
    else if w == PAUSE_SYM then Level(false, SPACE_PAUSE as nat + 1)
    else PulseTrain(|Units(w)|)
  }

  /** A running pulse or gap holds its LED level until its count is spent. */
  lemma {:induction false} HoldLevel(s: Regs, k: nat)
    requires Inv(s) && s.sm != SymStart && s.symOut != PAUSE_SYM && s.t3Cnt == k
    ensures DrainLeds(s) == Level(s.led, k) + DrainLeds(s.(t3Cnt := 0))
    ensures Drained(s) == Drained(s.(t3Cnt := 0))
    decreases k
  {
    if k > 0 {
      var next := s.(t3Cnt := s.t3Cnt - 1);
      assert Step(s) == next;
      HoldLevel(next, k - 1);
      assert next.(t3Cnt := 0) == s.(t3Cnt := 0);
      assert [s.led] + Level(s.led, k - 1) == Level(s.led, k);
    }
  }

  /** A code loaded while idle first lights the LED for DASH_CNT ticks. */
  lemma FirstPulse(c: Word, lit: bool)
    requires c != 0 && c != PAUSE_SYM
    ensures DrainLeds(Regs(c, 0, SymStart, lit))
      == Level(true, DASH_CNT as nat) + DrainLeds(Regs(c, 0, LedOn, true))
    ensures Drained(Regs(c, 0, SymStart, lit)) == Drained(Regs(c, 0, LedOn, true))
  {
    var loaded := Regs(c, 0, SymStart, lit);
    var on := Regs(c, DASH_CNT - 1, LedOn, true);
    assert Step(loaded) == on;
    assert DrainLeds(loaded) == [true] + DrainLeds(on);
    HoldLevel(on, DASH_CNT as nat - 1);
    assert on.(t3Cnt := 0) == Regs(c, 0, LedOn, true);
  }

  /**
   * When a pulse ends, the handler either finds the word empty and goes idle
   * with one dark tick, or holds DOT_PAUSE dark ticks and then behaves as if
   * the rest of the word had been loaded while idle.
   */
  lemma EndOfPulse(c: Word)
    requires c != 0 && c != PAUSE_SYM
    ensures c / 4 == 0 ==> DrainLeds(Regs(c, 0, LedOn, true)) == [false]
    ensures c / 4 == 0 ==> Drained(Regs(c, 0, LedOn, true)) == IDLE
    ensures c / 4 != 0 ==>
      DrainLeds(Regs(c, 0, LedOn, true)) == Level(false, DOT_PAUSE as nat) + DrainLeds(Regs(c / 4, 0, SymStart, false))
    ensures c / 4 != 0 ==> Drained(Regs(c, 0, LedOn, true)) == Drained(Regs(c / 4, 0, SymStart, false))
  {
    var last := Regs(c, 0, LedOn, true);
    var rest := c / 4;
    if rest == 0 {
      assert Step(last) == IDLE;
    } else {
      var gap := Regs(rest, DOT_PAUSE - 1, Pause, false);
      assert Step(last) == gap;
      HoldLevel(gap, DOT_PAUSE as nat - 1);
      var reload := Regs(rest, 0, Pause, false);
      assert gap.(t3Cnt := 0) == reload;
      assert Step(reload) == Step(Regs(rest, 0, SymStart, false));
      assert [false] + Level(false, DOT_PAUSE as nat - 1) == Level(false, DOT_PAUSE as nat);
    }
  }

  /**
   * A code other than 0 and PAUSE_SYM, loaded while idle, drains as one
   * DASH_CNT pulse per 2-bit group up to the highest nonzero one (blank groups
   * included), DOT_PAUSE dark ticks between pulses, and ends idle with the LED
   * dark, whatever the LED showed before.
   */
  lemma {:induction false} DrainCode(c: Word, lit: bool)
    requires c != 0 && c != PAUSE_SYM
    ensures DrainLeds(Regs(c, 0, SymStart, lit)) == PulseTrain(|Units(c)|)
    ensures Drained(Regs(c, 0, SymStart, lit)) == IDLE
    decreases c
  {
    FirstPulse(c, lit);
    EndOfPulse(c);
    var rest := c / 4;
    assert Units(c) == [UnitOf(c)] + Units(rest);
    if rest != 0 {
      DrainCode(rest, false);
    }
  }

  /**
   * PAUSE_SYM loaded while idle: SPACE_PAUSE + 1 dark ticks, after which the
   * word reads zero and the handler is idle again.
   */
  lemma DrainPause(lit: bool)
    ensures DrainLeds(Regs(PAUSE_SYM, 0, SymStart, lit)) == Level(false, SPACE_PAUSE as nat + 1)
    ensures Drained(Regs(PAUSE_SYM, 0, SymStart, lit)) == IDLE
  {
    var loaded := Regs(PAUSE_SYM, 0, SymStart, lit);
    var gap := Regs(0x8000, SPACE_PAUSE - 1, Pause, false);
    PauseHandOff(loaded);
    HoldLevel(gap, SPACE_PAUSE as nat - 1);
    var done := gap.(t3Cnt := 0);
    assert Step(done) == IDLE;
    assert DrainLeds(done) == [false];
    assert [false] + Level(false, SPACE_PAUSE as nat - 1) + [false] == Level(false, SPACE_PAUSE as nat + 1);
  }

  /** Every word the producer can load, in closed form. */
  lemma DrainWord(w: Word, lit: bool)
    ensures DrainLeds(Regs(w, 0, SymStart, lit)) == WordTrace(w)
    ensures w != 0 ==> Drained(Regs(w, 0, SymStart, lit)) == IDLE
  {
    if w == PAUSE_SYM {
      DrainPause(lit);
    } else if w != 0 {
      DrainCode(w, lit);
    }
  }

  /**
   * The LED trace of a code tells only how many 2-bit groups it has: two codes
   * show the same trace exactly when their group counts agree, so dots,
   * dashes and blank groups cannot be told apart.
   */
  lemma TraceCountsGroupsOnly(a: Word, b: Word)
    requires a != 0 && a != PAUSE_SYM && b != 0 && b != PAUSE_SYM
    ensures WordTrace(a) == WordTrace(b) <==> |Units(a)| == |Units(b)|
  {
    if WordTrace(a) == WordTrace(b) {
      assert |PulseTrain(|Units(a)|)| == |PulseTrain(|Units(b)|)|;
    }
  }

  /**
   * The LED pin, the global `sym_out`, and the two statics of the handler.
   * `ledTrace` records the LED level after every tick so far.
   */
  class Blinker {
    var symOut: Word
    var t3Cnt: Word
    var sm: SymState
    var led: bool
    ghost var ledTrace: seq<bool>

    function State(): (r: Regs)
      reads this
    {
      Regs(symOut, t3Cnt, sm, led)
    }

    /**
     * The values the C start-up code gives the global and the statics; the
     * source never writes the LED pin before the first tick, so its level at
     * reset is a parameter.
     */
    constructor(ledAtReset: bool)
      ensures State() == Regs(0, 0, SymStart, ledAtReset) && Inv(State())
      ensures ledTrace == []
    {
      symOut, t3Cnt, sm, led := 0, 0, SymStart, ledAtReset;
      ledTrace := [];
    }

    /** `Timer3_ISR`, run once per timer overflow. */
    method Tick()
      modifies this
      ensures State() == Step(old(State()))
      ensures ledTrace == old(ledTrace) + [led]
    {
      if symOut == PAUSE_SYM {
        symOut := KeepPauseMark(symOut);
        t3Cnt := SPACE_PAUSE;
        led := false;
        sm := Pause;
      }
      match sm {
        case SymStart =>
          if symOut != 0 {
            t3Cnt := UnitTicks(symOut);
            sm := LedOn;
            led := true;
          }
        case LedOn =>
          if t3Cnt == 0 {
            symOut := DropUnit(symOut);
            if symOut != 0 {
              t3Cnt := DOT_PAUSE;
              sm := Pause;
            } else {
              sm := SymStart;
            }
            led := false;
          }
        case Pause =>
          if t3Cnt == 0 {
            if PauseBitsSet(symOut) {
              symOut := ClearPauseBits(symOut);
              sm := SymStart;
            } else if symOut != 0 {
              t3Cnt := UnitTicks(symOut);
              sm := LedOn;
              led := true;
            }
          }
      }
      if t3Cnt != 0 {
        t3Cnt := t3Cnt - 1;
      }
      ledTrace := ledTrace + [led];
    }
  }
}
