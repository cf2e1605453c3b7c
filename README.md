# Morse blinker (lab1.c) in Dafny

The firmware is for a C8051F060 board. It blinks the message "Hello all." on an LED in
Morse code, and it has three parts:

- **Encoder** (module `MorseCode`, `morse_code.dfy`). `char_to_idx` maps a character to an
  index into `MORZE_CODE`, a table of 28 packed 16-bit codes. A code is read as 2-bit
  groups, least significant first: 01 is a dot, 10 a dash, 11 a pause. The lemmas compare
  the table with the letters of International Morse Code (Recommendation ITU-R M.1677-1,
  Part I, section 1.1.1).
- **Transmitter** (module `TimerIsr`, `timer_isr.dfy`). `Timer3_ISR` runs on every timer
  overflow. It is a three-state machine (SYM_START, LED_ON, PAUSE) that drains the shared
  word `sym_out`, one group per LED pulse. It appears twice:
  - `Step` is the handler as a function on the whole state (`Regs`);
  - `Blinker.Tick` is the same handler updating a `Blinker` object's fields in place.
  `DrainLeds` and `Drained` give what a spin-wait on `sym_out` observes: the LED level after
  each tick, and the state once `sym_out` reads zero. The lemmas give both in closed form
  for every word that can be loaded into an idle handler (`DrainWord`).
- **Producer** (module `MainLoop`, `main_loop.dfy`). `main` walks the message:
  - load a character's code into `sym_out`, and spin until it is drained;
  - load `PAUSE_SYM`, and spin again;
  - stop at the first character without an index, or after sending a code equal to '.'.

  `Transmission` says where the loop stops. `RunMessage` is the loop itself, driving a
  `Blinker`. Its contract says that it stops there, and that the LED showed exactly
  `Signal` of the codes it sent.

Words are `int`s in 0..0xFFFF (`Word`). Each bit operation the source performs is written as
its arithmetic equivalent on that range:
- `w >> 2` is `w / 4`;
- `w & 3` is `w % 4`;
- `w & 0x8000` keeps 0x8000 when `w >= 0x8000`;
- `w & 0xC000` is nonzero when `w >= 0x4000`;
- `w & ~0xC000` is `w % 0x4000`.

### Behaviour the model exposes

The model follows the code as written. The proofs show:

- **Every pulse gets the dash length.** `sym_out & 0x03 == 0x01` parses as
  `sym_out & (0x03 == 0x01)`, that is `sym_out & 0`. So every pulse lasts `DASH_CNT` ticks,
  and a code's trace depends only on how many 2-bit groups it has. 'E' and 'T' look the
  same.
- **The table differs from its own comments.**
  - A (0x0011) is dot, blank group, dot.
  - O has G's code.
  - '.' is five dots.
  - The space entry is one lit pulse, not silence.
- **The lower-case branch of `char_to_idx` is unreachable.** The first branch already takes
  every character from 'A' to 'z'. Lower-case letters get indices 32..57, past the 28
  entries, so "Hello all." reads past the table for every lower-case letter.
- **The '.' break is dead for table codes.** The test after the spin-waits compares a table
  word with the character '.', and no table entry equals it. The loop ends at the NUL
  unless a word read past the table happens to equal 0x2E.

## Model

| member | source | states |
|---|---|---|
| MorseCode.CharToIdx | lab1.c:222-243 | result is -1 exactly for characters outside 0x41..0x7A, '.' and ' '; upper-case letters map to 0..25, '.' to DOT_IDX, ' ' to SPACE_IDX; result fits in -1..57 |
| MorseCode.MORZE_CODE | lab1.c:76-107 | the 28 entries word for word: A..Z, then '.', then ' '; no contract of its own, the Table* lemmas below state what they decode to |
| MorseCode.UnitOf | lab1.c:71-75 | the lowest 2-bit group read as blank (00), dot (01), dash (10) or long (11), each exactly when `code & 3` has that value |
| MorseCode.Units | lab1.c:71-75 | the groups least-significant first: empty exactly for the zero word, starting with the lowest group otherwise |
| MorseCode.LowercaseBeyondTable | lab1.c:225-231 | a lower-case letter gets its upper-case index plus 32, which is at least SYM_NUM, and never the `c - 0x61` of the second branch |
| MorseCode.InTableIndices | lab1.c:225-240 | an index below SYM_NUM comes exactly from 'A'..'\\', '.' or ' '; '[' and '\\' collide with the '.' and ' ' entries |
| MorseCode.TableFollowsItu | lab1.c:76-107 | every letter code except A and O decodes to its International Morse letter |
| MorseCode.LettersBToI | lab1.c:80-87 | letters B to I decode to International Morse |
| MorseCode.LettersJToR | lab1.c:88-96 | letters J to R, except O, decode to International Morse |
| MorseCode.LettersSToZ | lab1.c:97-104 | letters S to Z decode to International Morse |
| MorseCode.TableLetterA | lab1.c:79 | A's entry decodes to dot, blank, dot, not dot-dash; 0x0009 would |
| MorseCode.TableLetterO | lab1.c:93 | O's entry equals G's and decodes to dash-dash-dot; 0x002A would be dash-dash-dash |
| MorseCode.TableFullStop | lab1.c:105 | the '.' entry is five dots, not the International Morse full stop |
| MorseCode.TableSpace | lab1.c:106 | the ' ' entry is one 11 group |
| MorseCode.TableCodesWellFormed | lab1.c:76-107 | every entry is nonzero, below 0x4000 (pause bits clear), and different from '.' |
| TimerIsr.UnitTicks | lab1.c:269 | the length chosen for a unit, as parsed by C, is DASH_CNT whatever the code |
| TimerIsr.IntendedUnitTicks | lab1.c:269 | DOT_CNT exactly for a dot group, DASH_CNT otherwise |
| TimerIsr.DotsSentAsDashes | lab1.c:269 | a dot is sent for three times the ticks the timing constants give it |
| TimerIsr.DropUnit | lab1.c:276 | `sym_out >>= 2`: four times the result plus the dropped group gives the word back; the result is below 0x4000 |
| TimerIsr.KeepPauseMark | lab1.c:261 | `sym_out &= 0x8000`: 0x8000 exactly when the top bit is set, 0 otherwise, never larger than the word |
| TimerIsr.PauseBitsSet | lab1.c:288 | `sym_out & PAUSE_SYM` is nonzero exactly when one of the two top bits is set |
| TimerIsr.ClearPauseBits | lab1.c:289 | `sym_out &= ~PAUSE_SYM`: below 0x4000, never larger, and differs from the word only in the top two bits |
| TimerIsr.Step | lab1.c:255-302 | `Timer3_ISR` as written, composed of `Override` (lab1.c:260-265), `Dispatch` (lab1.c:266-298) and `CountDown` (lab1.c:299); it has no contract of its own, and StepKeepsInv, StepShrinksWord, StepDecreases, PauseHandOff, QuietTick and DrainWord are the lemmas about it |
| TimerIsr.Override | lab1.c:260-265 | no contract: the PAUSE_SYM override as written, covered by PauseHandOff |
| TimerIsr.Dispatch | lab1.c:266-298 | no contract: the switch on `sm` as written, covered by the Step lemmas |
| TimerIsr.CountDown | lab1.c:299 | no contract: `if (t3_cnt) t3_cnt--`, covered by HoldLevel |
| TimerIsr.StepKeepsInv | lab1.c:255-302 | a tick keeps the handler invariant (no count when idle, a count only while `sym_out` is nonzero, counts bounded) and keeps the LED lit exactly in LED_ON |
| TimerIsr.FirstPulseSyncsLed | lab1.c:267-272 | whatever the LED was at reset, after the tick that starts a pulse it is lit exactly in LED_ON |
| TimerIsr.StepShrinksWord | lab1.c:260-299 | a tick leaves `sym_out` unchanged, shifted, or masked, and never larger |
| TimerIsr.QuietTick | lab1.c:266-299 | with nothing to send, a tick changes nothing |
| TimerIsr.PauseHandOff | lab1.c:260-299 | PAUSE_SYM turns into 0x8000 and a dark gap of SPACE_PAUSE-1 ticks after the next tick |
| TimerIsr.StepDecreases | lab1.c:255-302 | while `sym_out` is nonzero every tick decreases (sym_out, state rank, t3_cnt), so a spin-wait ends |
| TimerIsr.DrainLeds | lab1.c:135-141 | the LED level after each tick until a spin-wait sees `sym_out` zero; empty exactly when nothing was loaded |
| TimerIsr.Drained | lab1.c:135-137 | the state when a spin-wait sees zero is idle; unchanged if nothing was loaded |
| TimerIsr.DrainOneTick | lab1.c:255-302 | the drained trace is this tick's LED level followed by the next state's trace |
| TimerIsr.PulseTrain | lab1.c:274-295 | n pulses with their gaps last 12n-2 ticks |
| TimerIsr.WordTrace | lab1.c:134-141 | the closed form DrainWord proves: empty for 0, PulseTrain of the group count (starting lit) for a code, SPACE_PAUSE+1 dark ticks for PAUSE_SYM |
| TimerIsr.HoldLevel | lab1.c:274-299 | a running pulse or gap holds its LED level for exactly its remaining count |
| TimerIsr.FirstPulse | lab1.c:267-272 | a code loaded while idle first lights the LED for DASH_CNT ticks |
| TimerIsr.EndOfPulse | lab1.c:274-295 | after a pulse: one dark tick and idle if the word is spent, otherwise DOT_PAUSE dark ticks and then the next group |
| TimerIsr.DrainCode | lab1.c:266-299 | a code loaded while idle shows one DASH_CNT pulse per group, DOT_PAUSE dark ticks between pulses, ends idle and dark |
| TimerIsr.DrainPause | lab1.c:260-299 | PAUSE_SYM loaded while idle shows SPACE_PAUSE+1 dark ticks and ends idle |
| TimerIsr.DrainWord | lab1.c:255-302 | closed-form trace and final state for every word loaded while idle |
| TimerIsr.TraceCountsGroupsOnly | lab1.c:269 | two codes show the same trace if and only if they have the same number of groups |
| TimerIsr.Blinker.constructor | lab1.c:255-258 | `sym_out`, `t3_cnt` zero, state SYM_START, LED as left by reset; invariant holds |
| TimerIsr.Blinker.Tick | lab1.c:255-302 | the in-place handler takes the state to `Step` of the old state and records the LED level |
| MainLoop.CharAt | lab1.c:132 | `out_str[idx]`: the message's characters, then NUL |
| MainLoop.CodeAt | lab1.c:134 | `MORZE_CODE[k]`: the entry inside the table (never '.'), the word found past it otherwise |
| MainLoop.Transmission | lab1.c:131-144 | the loop stops at the first character with no index or whose code equals '.'; every character before it passes; a '.' stop reads past the table |
| MainLoop.TransmissionStep | lab1.c:132-143 | one pass: stop on a rejected character, stop after a '.' code, otherwise continue at idx+1 |
| MainLoop.Codes | lab1.c:132-134 | the codes the loop loads, one per character |
| MainLoop.CodesSnoc | lab1.c:143 | one more character appends its code |
| MainLoop.CharSignal | lab1.c:134-140 | one character's LED trace: its code, then the SPACE_PAUSE+1 tick gap |
| MainLoop.SignalSnoc | lab1.c:131-144 | one more code appends its signal |
| MainLoop.Signal | lab1.c:131-144 | the closed form RunMessage is stated against: the character signals back to back; empty exactly when no code was sent |
| MainLoop.SignalGrows | lab1.c:131-144 | the signal of the first to+1 characters extends that of the first `to` by the new one's |
| MainLoop.TableCodes | lab1.c:132-134 | the table codes of a message the table covers |
| MainLoop.TableMessageSentWhole | lab1.c:131-144 | a message of table characters is sent to the NUL, never stops at the '.' test, and loads the table's codes whatever lies past the table |
| MainLoop.HelloAllIndices | lab1.c:222-243 | the indices of "Hello all." are 7, 36, 43, 43, 46, 27, 32, 43, 43, 26, then -1 |
| MainLoop.HelloAllReadsPastTable | lab1.c:131-134 | the message sends 'H' (four pulses, then the gap) and then a word from past the table for 'e' |
| MainLoop.HelloAllRun | lab1.c:131-144 | unless a word read past the table equals '.', all ten characters go out and the loop stops at the NUL |
| MainLoop.HelloAllCodes | lab1.c:131-144 | the ten words sent: 'H', four past the table, space, three past the table, '.' |
| MainLoop.LettersEAndTAlike | lab1.c:269 | 'E' and 'T' show the same signal: one DASH_CNT pulse |
| MainLoop.SpaceLightsLed | lab1.c:267-272 | a space lights the LED for DASH_CNT ticks rather than staying dark |
| MainLoop.SpinWait | lab1.c:135-137 | `while (sym_out)`: ends in the drained state after showing the drained trace |
| MainLoop.LoadAndWait | lab1.c:134-140 | loading a word into the idle handler and spinning shows its closed-form trace and ends idle |
| MainLoop.SendWord | lab1.c:134-140 | one character: its code's trace then the gap, ending idle |
| MainLoop.RunMessage | lab1.c:125-144 | the loop stops where `Transmission` says; the LED has shown exactly the signal of the characters sent; the handler is idle once one was sent |

## Left out

- Hardware set-up is not modelled: `sys_init`, `PORT_Init`, `Timer3_Init`, the watchdog and oscillator (lab1.c:154-216), and the SFR declarations. The timer rate only scales ticks into time.
- The final idle loop (lab1.c:145-147) is not modelled beyond `QuietTick`: once the message ends, the handler keeps running and changes nothing.
- Interrupt preemption and `volatile` are not modelled. `main` writes `sym_out` only while the handler is idle, and a tick is atomic with respect to `main`. The spin-waits are loops whose iterations are the ticks they wait for.
- MainLoop.CodeAt: reading `MORZE_CODE` past its 28 entries is undefined in C. The words found there are a parameter (`pastTable`), not the real memory layout.
- MainLoop.CodeAt: the memory past the table is assumed not to change while the message is sent. The word loaded at lab1.c:134 and the word compared with '.' at lab1.c:142 are the same word, and repeated letters read the same word each time; in C these are separate reads of undefined memory.
- MorseCode.CharToIdx: plain `char` is taken as signed, as the Keil C51 toolchain the source is built with has it, so -1 survives the return through `char` and the cast at lab1.c:132. With an unsigned `char` it would become 255 and the break at lab1.c:133 would never fire.
- The 16-bit `int idx` of `main` is unbounded, because the message is ten characters long.
- Bit operations are written as their arithmetic equivalents on 0..0xFFFF (listed above). No separate proof ties them to bit-vector operations.
- The LED pin's level at reset is a parameter, because the source never writes it before the first pulse.
- Timing in seconds is left out; everything is counted in timer ticks.
- The model follows the code where the table comments and the code disagree:
  - '.' is five dots, and the space entry is a lit pulse;
  - every pulse lasts DASH_CNT ticks;
  - the loop ends at the NUL, since the '.' test never holds for table codes.
