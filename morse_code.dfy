/*
 * The encoder of the Morse blinker: the character-to-index mapping `char_to_idx`
 * and the constant table MORZE_CODE of packed symbol codes, as lab1.c has them.
 *
 * A symbol code is a 16-bit word read as 2-bit groups, least-significant group
 * first: 01 stands for a dot, 10 for a dash, and the comment above the table
 * reserves 11 for a pause. Words are kept as integers in 0..0xFFFF, and each
 * bit operation on them is written as its arithmetic equivalent: `w & 3` is
 * `w % 4`, `w >> 2` is `w / 4`. The letter codes are meant to spell the letters of
 * International Morse Code (Recommendation ITU-R M.1677-1, Part I, section
 * 1.1.1); the lemmas at the end of this module say where they do and where
 * they do not.
 */
module MorseCode {

  /** An `unsigned int` of the target compiler: 16 bits wide. */
  type Word = w: int | 0 <= w < 0x1_0000

  /** Number of entries in MORZE_CODE, and the indices of '.' and ' ' in it. */
  const SYM_NUM: int := 28
  const DOT_IDX: int := 26
  const SPACE_IDX: int := 27

  /** The largest value `char_to_idx` can return ('z' - 'A'). */
  const MAX_IDX: int := 0x7A - 0x41

  /** The value of the character constant '.' after integer promotion. */
  const DOT_CHAR_CODE: Word := 0x2E

  /**
   * MORZE_CODE, entry by entry: indices 0..25 for A..Z, then '.', then ' '.
   */
  const MORZE_CODE: seq<Word> := [
    0x0011, 0x0056, 0x0066, 0x0016, 0x0001, 0x0065, 0x001A, 0x0055, 0x0005,
    0x00A9, 0x0026, 0x0059, 0x000A, 0x0006, 0x001A, 0x0069, 0x009A, 0x0019,
    0x0015, 0x0002, 0x0025, 0x0095, 0x0029, 0x0096, 0x00A6, 0x005A,
    0x0155,
    0x0003
  ]

  /**
   * `char_to_idx`: the first branch takes every character from 'A' (0x41) up to
   * 'z' (0x7A), lower case included, so the lower-case branch after it never
   * runs. The result fits the C `char` it is returned in.
   */
  function CharToIdx(c: char): (r: int)
    ensures -1 <= r <= MAX_IDX
    ensures 'A' <= c <= 'Z' ==> r == c as int - 'A' as int
    ensures c == '.' ==> r == DOT_IDX
    ensures c == ' ' ==> r == SPACE_IDX
    ensures r == -1 <==> !(0x41 <= c as int <= 0x7A || c == '.' || c == ' ')
  {
    if 0x41 <= c as int <= 0x7A then
      c as int - 0x41
    else if 0x61 <= c as int <= 0x7A then
      c as int - 0x61
    else if c == '.' then
      DOT_IDX
    else if c as int == 0x20 then
      SPACE_IDX
    else
      -1
  }

  /** The meaning of one 2-bit group: 00, 01, 10, 11. */
  datatype Unit = Blank | Dot | Dash | Long

  /** The lowest group of a code, `code & 3`. */
  function UnitOf(code: Word): (u: Unit)
    ensures u == Blank <==> code % 4 == 0
    ensures u == Dot <==> code % 4 == 1
    ensures u == Dash <==> code % 4 == 2
    ensures u == Long <==> code % 4 == 3
  {
    match code % 4
    case 0 => Blank
    case 1 => Dot
    case 2 => Dash
    case _ => Long
  }

  /**
   * The groups of a code, least-significant first, up to and including the
   * highest nonzero one: the groups the transmitter turns into pulses.
   */
  function Units(code: Word): (u: seq<Unit>)
    ensures u == [] <==> code == 0
    ensures u != [] ==> u[0] == UnitOf(code)
  {
    if code == 0 then [] else [UnitOf(code)] + Units(code / 4)
  }

  /** Letters of International Morse Code, A to Z, written with '.' and '-'. */
  const ITU_LETTERS: seq<string> := [
    ".-", "-...", "-.-.", "-..", ".", "..-.", "--.", "....", "..", ".---",
    "-.-", ".-..", "--", "-.", "---", ".--.", "--.-", ".-.", "...", "-",
    "..-", "...-", ".--", "-..-", "-.--", "--.."
  ]

  /** The full stop of International Morse Code. */
  const ITU_FULL_STOP: string := ".-.-.-"

  /** A dot-and-dash string read as units. */
  function Pattern(s: string): (u: seq<Unit>)
    ensures |u| == |s|
  {
    if s == [] then [] else [if s[0] == '.' then Dot else Dash] + Pattern(s[1..])
  }

  /**
   * Every letter code except those of A and O spells its letter in
   * International Morse Code.
   */
  lemma TableFollowsItu(i: int)
    requires 0 <= i < 26 && i != 0 && i != 14
    ensures Units(MORZE_CODE[i]) == Pattern(ITU_LETTERS[i])
  {
    if i <= 8 {
      LettersBToI(i);
    } else if i <= 17 {
      LettersJToR(i);
    } else {
      LettersSToZ(i);
    }
  }

  /** B to I. */
  lemma LettersBToI(i: int)
    requires 1 <= i <= 8
    ensures Units(MORZE_CODE[i]) == Pattern(ITU_LETTERS[i])
  {
    if i == 1 {
      assert MORZE_CODE[i] == 0x0056 && ITU_LETTERS[i] == "-...";
      assert Units(0x0056) == [Dash, Dot, Dot, Dot] == Pattern("-...");
    } else if i == 2 {
      assert MORZE_CODE[i] == 0x0066 && ITU_LETTERS[i] == "-.-.";
      assert Units(0x0066) == [Dash, Dot, Dash, Dot] == Pattern("-.-.");
    } else if i == 3 {
      assert MORZE_CODE[i] == 0x0016 && ITU_LETTERS[i] == "-..";
      assert Units(0x0016) == [Dash, Dot, Dot] == Pattern("-..");
    } else if i == 4 {
      assert MORZE_CODE[i] == 0x0001 && ITU_LETTERS[i] == ".";
      assert Units(0x0001) == [Dot] == Pattern(".");
    } else if i == 5 {
      assert MORZE_CODE[i] == 0x0065 && ITU_LETTERS[i] == "..-.";
      assert Units(0x0065) == [Dot, Dot, Dash, Dot] == Pattern("..-.");
    } else if i == 6 {
      assert MORZE_CODE[i] == 0x001A && ITU_LETTERS[i] == "--.";
      assert Units(0x001A) == [Dash, Dash, Dot] == Pattern("--.");
    } else if i == 7 {
      assert MORZE_CODE[i] == 0x0055 && ITU_LETTERS[i] == "....";
      assert Units(0x0055) == [Dot, Dot, Dot, Dot] == Pattern("....");
    } else {
      assert MORZE_CODE[i] == 0x0005 && ITU_LETTERS[i] == "..";
      assert Units(0x0005) == [Dot, Dot] == Pattern("..");
    }
  }

  /** J to R, without O. */
  lemma LettersJToR(i: int)
    requires 9 <= i <= 17 && i != 14
    ensures Units(MORZE_CODE[i]) == Pattern(ITU_LETTERS[i])
  {
    if i == 9 {
      assert MORZE_CODE[i] == 0x00A9 && ITU_LETTERS[i] == ".---";
      assert Units(0x00A9) == [Dot, Dash, Dash, Dash] == Pattern(".---");
    } else if i == 10 {
      assert MORZE_CODE[i] == 0x0026 && ITU_LETTERS[i] == "-.-";
      assert Units(0x0026) == [Dash, Dot, Dash] == Pattern("-.-");
    } else if i == 11 {
      assert MORZE_CODE[i] == 0x0059 && ITU_LETTERS[i] == ".-..";
      assert Units(0x0059) == [Dot, Dash, Dot, Dot] == Pattern(".-..");
    } else if i == 12 {
      assert MORZE_CODE[i] == 0x000A && ITU_LETTERS[i] == "--";
      assert Units(0x000A) == [Dash, Dash] == Pattern("--");
    } else if i == 13 {
      assert MORZE_CODE[i] == 0x0006 && ITU_LETTERS[i] == "-.";
      assert Units(0x0006) == [Dash, Dot] == Pattern("-.");
    } else if i == 15 {
      assert MORZE_CODE[i] == 0x0069 && ITU_LETTERS[i] == ".--.";
      assert Units(0x0069) == [Dot, Dash, Dash, Dot] == Pattern(".--.");
    } else if i == 16 {
      assert MORZE_CODE[i] == 0x009A && ITU_LETTERS[i] == "--.-";
      assert Units(0x009A) == [Dash, Dash, Dot, Dash] == Pattern("--.-");
    } else {
      assert MORZE_CODE[i] == 0x0019 && ITU_LETTERS[i] == ".-.";
      assert Units(0x0019) == [Dot, Dash, Dot] == Pattern(".-.");
    }
  }

  /** S to Z. */
  lemma LettersSToZ(i: int)
    requires 18 <= i <= 25
    ensures Units(MORZE_CODE[i]) == Pattern(ITU_LETTERS[i])
  {
    if i == 18 {
      assert MORZE_CODE[i] == 0x0015 && ITU_LETTERS[i] == "...";
      assert Units(0x0015) == [Dot, Dot, Dot] == Pattern("...");
    } else if i == 19 {
      assert MORZE_CODE[i] == 0x0002 && ITU_LETTERS[i] == "-";
      assert Units(0x0002) == [Dash] == Pattern("-");
    } else if i == 20 {
      assert MORZE_CODE[i] == 0x0025 && ITU_LETTERS[i] == "..-";
      assert Units(0x0025) == [Dot, Dot, Dash] == Pattern("..-");
    } else if i == 21 {
      assert MORZE_CODE[i] == 0x0095 && ITU_LETTERS[i] == "...-";
      assert Units(0x0095) == [Dot, Dot, Dot, Dash] == Pattern("...-");
    } else if i == 22 {
      assert MORZE_CODE[i] == 0x0029 && ITU_LETTERS[i] == ".--";
      assert Units(0x0029) == [Dot, Dash, Dash] == Pattern(".--");
    } else if i == 23 {
      assert MORZE_CODE[i] == 0x0096 && ITU_LETTERS[i] == "-..-";
      assert Units(0x0096) == [Dash, Dot, Dot, Dash] == Pattern("-..-");
    } else if i == 24 {
      assert MORZE_CODE[i] == 0x00A6 && ITU_LETTERS[i] == "-.--";
      assert Units(0x00A6) == [Dash, Dot, Dash, Dash] == Pattern("-.--");
    } else {
      assert MORZE_CODE[i] == 0x005A && ITU_LETTERS[i] == "--..";
      assert Units(0x005A) == [Dash, Dash, Dot, Dot] == Pattern("--..");
    }
  }

  /** A is 0x0011: dot, blank group, dot -- not the dot-dash its comment shows (0x0009). */
  lemma TableLetterA()
    ensures Units(MORZE_CODE[0]) == [Dot, Blank, Dot]
    ensures Units(MORZE_CODE[0]) != Pattern(ITU_LETTERS[0])
    ensures Units(0x0009) == Pattern(ITU_LETTERS[0])
  {
    assert Units(0x0011) == [Dot, Blank, Dot];
    assert Units(0x0009) == [Dot, Dash];
  }

  /** O is 0x001A, the code of G, instead of dash-dash-dash (0x002A). */
  lemma TableLetterO()
    ensures MORZE_CODE[14] == MORZE_CODE[6]
    ensures Units(MORZE_CODE[14]) == [Dash, Dash, Dot]
    ensures Units(MORZE_CODE[14]) != Pattern(ITU_LETTERS[14])
    ensures Units(0x002A) == Pattern(ITU_LETTERS[14])
  {
    assert Units(0x001A) == [Dash, Dash, Dot];
    assert Units(0x002A) == [Dash, Dash, Dash];
  }

  /**
   * The '.' entry 0x0155 is five dots: neither the six dots its comment shows
   * nor the full stop of International Morse Code.
   */
  lemma TableFullStop()
    ensures Units(MORZE_CODE[DOT_IDX]) == [Dot, Dot, Dot, Dot, Dot]
    ensures Units(MORZE_CODE[DOT_IDX]) != Pattern(ITU_FULL_STOP)
  {
    assert Units(0x0155) == [Dot, Dot, Dot, Dot, Dot];
  }

  /** The ' ' entry is a single 11 group. */
  lemma TableSpace()
    ensures Units(MORZE_CODE[SPACE_IDX]) == [Long]
  {
    assert Units(0x0003) == [Long];
  }

  /**
   * Every table entry is nonzero, leaves the two pause bits 0xC000 clear (is
   * below 0x4000), and
   * differs from '.' (so the test at the end of the producer loop never holds).
   */
  lemma TableCodesWellFormed(i: int)
    requires 0 <= i < SYM_NUM
    ensures MORZE_CODE[i] != 0
    ensures MORZE_CODE[i] < 0x4000
    ensures MORZE_CODE[i] != DOT_CHAR_CODE
  {
  }

  /** Lower-case letters land 32 places past their upper-case index, beyond the table. */
  lemma LowercaseBeyondTable(c: char)
    requires 'a' <= c <= 'z'
    ensures CharToIdx(c) == CharToIdx(c - 32 as char) + 32
    ensures SYM_NUM <= CharToIdx(c)
    ensures CharToIdx(c) != c as int - 0x61
  {
  }

  /**
   * The indices below SYM_NUM come from A..Z, '.', ' ', and also from '[' and
   * '\', which share the slots of '.' and ' '.
   */
  lemma InTableIndices(c: char)
    ensures 0 <= CharToIdx(c) < SYM_NUM <==> ('A' <= c <= '\\' || c == '.' || c == ' ')
    ensures c == '[' ==> CharToIdx(c) == DOT_IDX
    ensures c == '\\' ==> CharToIdx(c) == SPACE_IDX
  {
  }
}
