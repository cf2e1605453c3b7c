/*
 * The producer: `main` of lab1.c. It walks the message one character at a
 * time, loads the character's code into `sym_out`, spins until the timer
 * handler has drained it, loads PAUSE_SYM for the gap between letters, spins
 * again, and moves on. It stops at the first character `char_to_idx` rejects
 * (at the latest the terminating NUL), or after sending a code equal to the
 * character code of '.'.
 *
 * `Transmission` states the whole run as a function of the message and the
 * handler's state; `RunMessage` is the loop itself, driving a `Blinker`, and
 * is proved to produce exactly that run.
 */
module MainLoop {
  import opened MorseCode
  import opened TimerIsr

  /** The message the firmware sends. */
  const OUT_STR: string := "Hello all."

  /** `out_str[idx]`: the characters, then the terminating NUL. */
  function CharAt(msg: string, idx: nat): (c: char)
    ensures idx < |msg| ==> c == msg[idx]
    ensures idx >= |msg| ==> c == '\0'
  {
    if idx < |msg| then msg[idx] else '\0'
  }

  /**
   * `MORZE_CODE[k]` for an index `char_to_idx` returned. Past the 28 entries
   * the read leaves the table; the words found there are `pastTable`, starting
   * with the word right after the last entry.
   */
  function CodeAt(k: int, pastTable: nat -> Word): (w: Word)
    requires 0 <= k
    ensures k < SYM_NUM ==> w == MORZE_CODE[k]
    ensures k >= SYM_NUM ==> w == pastTable(k - SYM_NUM)
    ensures k < SYM_NUM ==> w != DOT_CHAR_CODE
  {
    if k < SYM_NUM then
      TableCodesWellFormed(k);
      MORZE_CODE[k]
    else pastTable(k - SYM_NUM)
  }

  /** Why the loop ended: a rejected character, or the break on a '.' code. */
  datatype Stop = EndOfText | DotCode

  /** Where the loop ended: the index of the character it stopped at, and why. */
  datatype Run = Run(at: nat, stop: Stop)
  {
    /** How many characters were sent: the one at `at` too after a break on a '.' code. */
    function Sent(): (n: nat)
    {
      if stop == DotCode then at + 1 else at
    }
  }

  /** Every character from `from` up to `to` has a table index. */
  predicate Mapped(msg: string, from: nat, to: nat)
  {
    forall j :: from <= j < to ==> CharToIdx(CharAt(msg, j)) >= 0
  }

  /** Character `j` has a table index and its code is not the character code of '.'. */
  predicate PassesOn(msg: string, pastTable: nat -> Word, j: nat)
  {
    var k := CharToIdx(CharAt(msg, j));
    k >= 0 && CodeAt(k, pastTable) != DOT_CHAR_CODE
  }

  lemma MappedExtend(msg: string, from: nat, to: nat)
    requires from < to && CharToIdx(CharAt(msg, from)) >= 0 && Mapped(msg, from + 1, to)
    ensures Mapped(msg, from, to)
  {
  }

  lemma MappedGrow(msg: string, from: nat, to: nat)
    requires from <= to && Mapped(msg, from, to) && CharToIdx(CharAt(msg, to)) >= 0
    ensures Mapped(msg, from, to + 1)
  {
  }

  /**
   * Where the loop, started at character `idx`, stops: at the first character
   * without a table index, or at the first whose code equals '.', whichever
   * comes first; every character before it is sent and passed over. A break
   * on a '.' code can only come from a word read past the table, since no
   * entry of the table equals '.'.
   */
  function Transmission(msg: string, pastTable: nat -> Word, idx: nat): (r: Run)
    requires idx <= |msg|
    ensures idx <= r.at <= |msg|
    ensures forall j :: idx <= j < r.at ==> PassesOn(msg, pastTable, j)
    ensures r.stop == EndOfText ==> CharToIdx(CharAt(msg, r.at)) < 0
    ensures r.stop == DotCode ==>
      r.at < |msg| && CharToIdx(CharAt(msg, r.at)) >= SYM_NUM
      && CodeAt(CharToIdx(CharAt(msg, r.at)), pastTable) == DOT_CHAR_CODE
    ensures Mapped(msg, idx, r.Sent())
    decreases |msg| - idx
  {
    var k := CharToIdx(CharAt(msg, idx));
    if k < 0 then Run(idx, EndOfText)
    else if CodeAt(k, pastTable) == DOT_CHAR_CODE then Run(idx, DotCode)
    else
      var rest := Transmission(msg, pastTable, idx + 1);
      MappedExtend(msg, idx, rest.Sent());
      rest
  }

  /** The codes of the characters `from` up to `to`, each of which has a table index. */
  function Codes(msg: string, pastTable: nat -> Word, from: nat, to: nat): (codes: seq<Word>)
    requires from <= to
    requires Mapped(msg, from, to)
    ensures |codes| == to - from
    decreases (to as int) - (from as int)
  {
    if from == to then []
    else [CodeAt(CharToIdx(CharAt(msg, from)), pastTable)] + Codes(msg, pastTable, from + 1, to)
  }

  /** Codes taken one character further: the new character's code comes last. */
  lemma {:induction false} CodesSnoc(msg: string, pastTable: nat -> Word, from: nat, to: nat)
    requires from <= to && Mapped(msg, from, to + 1)
    ensures Codes(msg, pastTable, from, to + 1)
      == Codes(msg, pastTable, from, to) + [CodeAt(CharToIdx(CharAt(msg, to)), pastTable)]
    decreases (to as int) - (from as int)
  {
    if from < to {
      CodesSnoc(msg, pastTable, from + 1, to);
    }
  }

  /** One character on the LED: its code drained, then the gap PAUSE_SYM asks for. */
  function CharSignal(code: Word): (leds: seq<bool>)
    ensures code != 0 && code != PAUSE_SYM ==> |leds| == 12 * |Units(code)| - 2 + SPACE_PAUSE as nat + 1
    ensures code == 0 ==> leds == Level(false, SPACE_PAUSE as nat + 1)
    ensures |leds| >= SPACE_PAUSE as nat + 1
  {
    WordTrace(code) + WordTrace(PAUSE_SYM)
  }

  /** A sequence of codes on the LED, one after the other, with nothing in between. */
  function Signal(codes: seq<Word>): (leds: seq<bool>)
    ensures |leds| >= |codes|
    ensures codes == [] <==> leds == []
  {
    if codes == [] then [] else CharSignal(codes[0]) + Signal(codes[1..])
  }

  /** Sending one more code appends its signal. */
  lemma {:induction false} SignalSnoc(codes: seq<Word>, code: Word)
    ensures Signal(codes + [code]) == Signal(codes) + CharSignal(code)
  {
    if codes != [] {
      assert (codes + [code])[1..] == codes[1..] + [code];
      SignalSnoc(codes[1..], code);
    }
  }

  /** Sending character `to` extends the signal of the characters before it by its own. */
  lemma SignalGrows(msg: string, pastTable: nat -> Word, to: nat)
    requires Mapped(msg, 0, to) && CharToIdx(CharAt(msg, to)) >= 0
    ensures Mapped(msg, 0, to + 1)
    ensures Signal(Codes(msg, pastTable, 0, to + 1))
      == Signal(Codes(msg, pastTable, 0, to)) + CharSignal(CodeAt(CharToIdx(CharAt(msg, to)), pastTable))
  {
    MappedGrow(msg, 0, to);
    CodesSnoc(msg, pastTable, 0, to);
    SignalSnoc(Codes(msg, pastTable, 0, to), CodeAt(CharToIdx(CharAt(msg, to)), pastTable));
  }

  /** One pass of the loop: where it stops, given character `idx`. */
  lemma TransmissionStep(msg: string, pastTable: nat -> Word, idx: nat)
    requires idx <= |msg|
    ensures CharToIdx(CharAt(msg, idx)) < 0 ==> Transmission(msg, pastTable, idx) == Run(idx, EndOfText)
    ensures PassesOn(msg, pastTable, idx) ==>
      idx < |msg| && Transmission(msg, pastTable, idx + 1) == Transmission(msg, pastTable, idx)
    ensures CharToIdx(CharAt(msg, idx)) >= 0 && !PassesOn(msg, pastTable, idx) ==>
      Transmission(msg, pastTable, idx) == Run(idx, DotCode)
  {
  }

  /** Characters the table covers: 'A' to '\\' (the last two land on the '.' and space entries), '.' and space. */
  predicate InTable(c: char)
  {
    'A' <= c <= '\\' || c == '.' || c == ' '
  }

  /** The table codes of a message made of such characters. */
  function TableCodes(msg: string): (codes: seq<Word>)
    requires forall i :: 0 <= i < |msg| ==> InTable(msg[i])
    ensures |codes| == |msg|
  {
    if msg == [] then []
    else
      assert InTable(msg[0]);
      InTableIndices(msg[0]);
      [MORZE_CODE[CharToIdx(msg[0])]] + TableCodes(msg[1..])
  }

  /**
   * A message the table covers is sent whole: the loop stops at the NUL, never
   * at the '.' break, and sends the table's codes, whatever lies past the
   * table.
   */
  lemma {:induction false} TableMessageSentWhole(msg: string, pastTable: nat -> Word, idx: nat)
    requires idx <= |msg|
    requires forall i :: 0 <= i < |msg| ==> InTable(msg[i])
    ensures Transmission(msg, pastTable, idx) == Run(|msg|, EndOfText)
    ensures Codes(msg, pastTable, idx, |msg|) == TableCodes(msg[idx..])
    decreases |msg| - idx
  {
    if idx < |msg| {
      var c := msg[idx];
      InTableIndices(c);
      TableCodesWellFormed(CharToIdx(c));
      TableMessageSentWhole(msg, pastTable, idx + 1);
      assert msg[idx..][1..] == msg[idx + 1..];
    } else {
      assert CharToIdx(CharAt(msg, idx)) == -1;
    }
  }

  /**
   * The message the firmware sends starts "He": after the 'H' it looks up
   * 'e', whose index 36 lies past the 28 entries, and sends whatever word it
   * finds there. The 'H' itself shows four pulses and then the gap.
   */
  lemma HelloAllReadsPastTable(pastTable: nat -> Word)
    ensures CharToIdx(OUT_STR[0]) == 7 && CharToIdx(OUT_STR[1]) == 36
    ensures Transmission(OUT_STR, pastTable, 0).Sent() >= 2
    ensures Codes(OUT_STR, pastTable, 0, 2) == [MORZE_CODE[7], pastTable(8)]
    ensures CharSignal(MORZE_CODE[7]) == PulseTrain(4) + Level(false, SPACE_PAUSE as nat + 1)
  {
  }

  /** The table indices `char_to_idx` gives the characters of the message, and the NUL after them. */
  lemma HelloAllIndices()
    ensures forall j :: 0 <= j < 10 ==> CharToIdx(CharAt(OUT_STR, j)) == [7, 36, 43, 43, 46, 27, 32, 43, 43, 26][j]
    ensures CharToIdx(CharAt(OUT_STR, 10)) == -1
  {
  }

  /**
   * Unless one of the four words it reads past the table happens to equal '.',
   * the firmware sends all ten characters of its message and stops at the
   * NUL; only 'H', the space and the final '.' come from the table.
   */
  lemma HelloAllRun(pastTable: nat -> Word)
    requires pastTable(4) != DOT_CHAR_CODE && pastTable(8) != DOT_CHAR_CODE
    requires pastTable(15) != DOT_CHAR_CODE && pastTable(18) != DOT_CHAR_CODE
    ensures Transmission(OUT_STR, pastTable, 0) == Run(10, EndOfText)
  {
  }

  /**
   * The words the message sends, in order: 'H', then four words from past the
   * table, the space entry, three more from past the table, and the entry
   * for '.'.
   */
  lemma HelloAllCodes(pastTable: nat -> Word)
    ensures Mapped(OUT_STR, 0, 10)
    ensures Codes(OUT_STR, pastTable, 0, 10) == [
      MORZE_CODE[7], pastTable(8), pastTable(15), pastTable(15), pastTable(18),
      MORZE_CODE[SPACE_IDX], pastTable(4), pastTable(15), pastTable(15), MORZE_CODE[DOT_IDX]]
  {
  }

  /**
   * 'E' (one dot) and 'T' (one dash) show the same signal: one DASH_CNT pulse,
   * a dark tick, then the gap.
   */
  lemma LettersEAndTAlike()
    ensures CharSignal(MORZE_CODE[CharToIdx('E')]) == CharSignal(MORZE_CODE[CharToIdx('T')])
    ensures CharSignal(MORZE_CODE[CharToIdx('E')])
      == Level(true, DASH_CNT as nat) + [false] + Level(false, SPACE_PAUSE as nat + 1)
  {
    assert CharToIdx('E') == 4 && CharToIdx('T') == 19;
    assert Units(0x0001) == [Dot] && Units(0x0002) == [Dash];
  }

  /** A space does not darken the LED: its entry is one group, sent as a lit pulse. */
  lemma SpaceLightsLed()
    ensures CharSignal(MORZE_CODE[CharToIdx(' ')])
      == Level(true, DASH_CNT as nat) + [false] + Level(false, SPACE_PAUSE as nat + 1)
  {
    assert Units(0x0003) == [Long];
  }

  /**
   * The spin-wait `while (sym_out)`: each iteration is one timer overflow, and
   * the loop ends in the drained state having shown the drained trace.
   */
  method SpinWait(b: Blinker)
    requires Inv(b.State())
    modifies b
    ensures b.State() == Drained(old(b.State()))
    ensures b.ledTrace == old(b.ledTrace) + DrainLeds(old(b.State()))
  {
    ghost var start := b.State();
    while b.symOut != 0
      invariant Inv(b.State())
      invariant Drained(b.State()) == Drained(start)
      invariant b.ledTrace + DrainLeds(b.State()) == old(b.ledTrace) + DrainLeds(start)
      decreases b.symOut, Rank(b.sm), b.t3Cnt
    {
      DrainOneTick(b.ledTrace, b.State());
      b.Tick();
    }
  }

  /**
   * `sym_out = w;` followed by the spin-wait, with the handler idle before:
   * the LED shows the word's trace, and the handler is idle again.
   */
  method LoadAndWait(b: Blinker, w: Word)
    requires Inv(b.State()) && b.symOut == 0
    modifies b
    ensures w != 0 ==> b.State() == IDLE
    ensures w == 0 ==> b.State() == old(b.State())
    ensures b.ledTrace == old(b.ledTrace) + WordTrace(w)
  {
    DrainWord(w, b.led);
    b.symOut := w;
    SpinWait(b);
  }

  /**
   * The body of the loop for one character: load its code, spin until the
   * handler has drained it, load PAUSE_SYM, spin again.
   */
  method SendWord(b: Blinker, code: Word)
    requires Inv(b.State()) && b.symOut == 0
    modifies b
    ensures b.State() == IDLE
    ensures b.ledTrace == old(b.ledTrace) + CharSignal(code)
  {
    LoadAndWait(b, code);
    LoadAndWait(b, PAUSE_SYM);
  }

  /**
   * `main` after the hardware set-up: the loop over the message. It stops
   * where `Transmission` says, the LED has shown exactly the signal of the
   * characters sent, and the handler is idle again once one was sent.
   */
  method RunMessage(msg: string, pastTable: nat -> Word, ledAtReset: bool)
    returns (b: Blinker, idx: nat, stop: Stop)
    ensures var r := Transmission(msg, pastTable, 0);
      && idx == r.at && stop == r.stop
      && b.ledTrace == Signal(Codes(msg, pastTable, 0, r.Sent()))
      && b.State() == if r.Sent() == 0 then Regs(0, 0, SymStart, ledAtReset) else IDLE
  {
    ghost var whole := Transmission(msg, pastTable, 0);
    b := new Blinker(ledAtReset);
    idx := 0;
    while true
      invariant idx <= |msg| && Mapped(msg, 0, idx)
      invariant Transmission(msg, pastTable, idx) == whole
      invariant Inv(b.State()) && b.symOut == 0
      invariant b.State() == if idx == 0 then Regs(0, 0, SymStart, ledAtReset) else IDLE
      invariant b.ledTrace == Signal(Codes(msg, pastTable, 0, idx))
      decreases |msg| - idx
    {
      TransmissionStep(msg, pastTable, idx);
      var morzeIdx := CharToIdx(CharAt(msg, idx));
      if morzeIdx < 0 {
        stop := EndOfText;
        break;
      }
      SignalGrows(msg, pastTable, idx);
      SendWord(b, CodeAt(morzeIdx, pastTable));
      if CodeAt(morzeIdx, pastTable) == DOT_CHAR_CODE {
        stop := DotCode;
        break;
      }
      idx := idx + 1;
    }
  }
}
