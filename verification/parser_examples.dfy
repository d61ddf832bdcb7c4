/**
  The answer parser on the completions of its own test table: each
  `Extract...` lemma fixes one completion and states what `extract_answer`
  returns for it. The proofs go through the rule-priority lemmas of
  `Parser`, and the helper lemmas establish, position by position, the
  facts about the completion that those lemmas need.

  Every completion is a constant written as a sum of literals of at most
  eight characters (`RowNN`), and the marker phrases are written the same
  way (`FinalPieces`, `AnswerPieces`, each proved equal to the phrase
  `Parser` uses). A long literal becomes one long sequence term for the
  solver, and finding a phrase inside it at a given position then costs
  far more than it does on short pieces that line up with the positions
  being looked at.
 */
module ParserExamples {
  import opened Wrappers
  import opened Text
  import opened Parser

  /** The two marker phrases, written in short pieces */
  const FinalPieces: string := "the fina" + "l answer" + " is"
  const AnswerPieces: string := "the answ" + "er is"

  lemma FinalPiecesSame()
    ensures FinalPieces == FinalAnswerPhrase
  {
  }

  lemma AnswerPiecesSame()
    ensures AnswerPieces == AnswerPhrase
  {
  }

  /** The completion on line 15 of the parser's test table */
  const Row15: string := "Some rea" + "soning s" + "teps... " + "The fina" + "l answer" + " is 6."

  lemma Row15Trimmed(t: string)
    requires t == Row15
    ensures Strip(t) == t
  {
    StripTrimmed(t);
  }

  lemma Row15FinalAt(t: string)
    requires t == Row15
    ensures PhraseAt(t, 24, FinalAnswerPhrase)
  {
    assert PhraseFrom(t, 24, FinalPieces, 19);
    assert PhraseFrom(t, 24, FinalPieces, 18);
    assert PhraseFrom(t, 24, FinalPieces, 17);
    assert PhraseFrom(t, 24, FinalPieces, 16);
    assert PhraseFrom(t, 24, FinalPieces, 15);
    assert PhraseFrom(t, 24, FinalPieces, 14);
    assert PhraseFrom(t, 24, FinalPieces, 13);
    assert PhraseFrom(t, 24, FinalPieces, 12);
    assert PhraseFrom(t, 24, FinalPieces, 11);
    assert PhraseFrom(t, 24, FinalPieces, 10);
    assert PhraseFrom(t, 24, FinalPieces, 9);
    assert PhraseFrom(t, 24, FinalPieces, 8);
    assert PhraseFrom(t, 24, FinalPieces, 7);
    assert PhraseFrom(t, 24, FinalPieces, 6);
    assert PhraseFrom(t, 24, FinalPieces, 5);
    assert PhraseFrom(t, 24, FinalPieces, 4);
    assert PhraseFrom(t, 24, FinalPieces, 3);
    assert PhraseFrom(t, 24, FinalPieces, 2);
    assert PhraseFrom(t, 24, FinalPieces, 1);
    assert PhraseFrom(t, 24, FinalPieces, 0);
    FinalPiecesSame();
  }

  lemma Row15FinalAbsent0(t: string)
    requires t == Row15
    ensures forall k :: 0 <= k < 8 ==> !PhraseAt(t, k, FinalAnswerPhrase)
  {
    PhraseAbsent(t, FinalPieces, 0, 8);
    FinalPiecesSame();
  }

  lemma Row15FinalAbsent8(t: string)
    requires t == Row15
    ensures forall k :: 8 <= k < 16 ==> !PhraseAt(t, k, FinalAnswerPhrase)
  {
    PhraseAbsent(t, FinalPieces, 8, 16);
    FinalPiecesSame();
  }

  lemma Row15FinalAbsent16(t: string)
    requires t == Row15
    ensures forall k :: 16 <= k < 24 ==> !PhraseAt(t, k, FinalAnswerPhrase)
  {
    PhraseAbsent(t, FinalPieces, 16, 24);
    FinalPiecesSame();
  }

  lemma Row15Capture(t: string)
    requires t == Row15
    ensures CaptureStart(t, 43) == Some(44)
  {
    assert t[43] == ' ' && t[44] == '6';
    assert SkipWhile(t, 44, Space) == 44;
    assert SkipWhile(t, 43, Space) == 44;
    assert SkipWhile(t, 44, Colon) == 44;
    assert SkipWhile(t, 44, Space) == 44;
  }

  lemma Row15Line(t: string)
    requires t == Row15
    ensures 44 < |t| && t[44] != '\n' && LineFrom(t, 44) == "6."
  {
    assert SkipWhile(t, 46, LineChar) == 46;
    assert SkipWhile(t, 45, LineChar) == 46;
    assert SkipWhile(t, 44, LineChar) == 46;
  }

  lemma Row15Clean(t: string)
    requires t == Row15
    ensures Clean("6.") == "6"
  {
    CleanTrimmed("6.");
    assert "6."[..1] == "6";
  }

  /** The final-answer phrase after some reasoning: the rest of its line, without the closing period */
  lemma ExtractFinalAnswerMidText(t: string)
    requires t == Row15
    ensures Extract(t) == Some("6")
  {
    Row15Trimmed(t);
    Row15FinalAt(t);
    Row15FinalAbsent0(t);
    Row15FinalAbsent8(t);
    Row15FinalAbsent16(t);
    Row15Capture(t);
    Row15Line(t);
    Row15Clean(t);
    FinalAnswerIs(t, 24, 44, "6");
  }

  /** The completion on line 16 of the parser's test table */
  const Row16: string := "Let's th" + "ink. 2+2" + "=4. The " + "final an" + "swer is:" + " 4"

  lemma Row16Trimmed(t: string)
    requires t == Row16
    ensures Strip(t) == t
  {
    StripTrimmed(t);
  }

  lemma Row16FinalAt(t: string)
    requires t == Row16
    ensures PhraseAt(t, 20, FinalAnswerPhrase)
  {
    assert PhraseFrom(t, 20, FinalPieces, 19);
    assert PhraseFrom(t, 20, FinalPieces, 18);
    assert PhraseFrom(t, 20, FinalPieces, 17);
    assert PhraseFrom(t, 20, FinalPieces, 16);
    assert PhraseFrom(t, 20, FinalPieces, 15);
    assert PhraseFrom(t, 20, FinalPieces, 14);
    assert PhraseFrom(t, 20, FinalPieces, 13);
    assert PhraseFrom(t, 20, FinalPieces, 12);
    assert PhraseFrom(t, 20, FinalPieces, 11);
    assert PhraseFrom(t, 20, FinalPieces, 10);
    assert PhraseFrom(t, 20, FinalPieces, 9);
    assert PhraseFrom(t, 20, FinalPieces, 8);
    assert PhraseFrom(t, 20, FinalPieces, 7);
    assert PhraseFrom(t, 20, FinalPieces, 6);
    assert PhraseFrom(t, 20, FinalPieces, 5);
    assert PhraseFrom(t, 20, FinalPieces, 4);
    assert PhraseFrom(t, 20, FinalPieces, 3);
    assert PhraseFrom(t, 20, FinalPieces, 2);
    assert PhraseFrom(t, 20, FinalPieces, 1);
    assert PhraseFrom(t, 20, FinalPieces, 0);
    FinalPiecesSame();
  }

  lemma Row16FinalAbsent0(t: string)
    requires t == Row16
    ensures forall k :: 0 <= k < 8 ==> !PhraseAt(t, k, FinalAnswerPhrase)
  {
    PhraseAbsent(t, FinalPieces, 0, 6);
    assert !PhraseFrom(t, 6, FinalPieces, 2);
    assert !PhraseFrom(t, 6, FinalPieces, 1);
    assert !PhraseFrom(t, 6, FinalPieces, 0);
    PhraseAbsent(t, FinalPieces, 7, 8);
    FinalPiecesSame();
  }

  lemma Row16FinalAbsent8(t: string)
    requires t == Row16
    ensures forall k :: 8 <= k < 16 ==> !PhraseAt(t, k, FinalAnswerPhrase)
  {
    PhraseAbsent(t, FinalPieces, 8, 16);
    FinalPiecesSame();
  }

  lemma Row16FinalAbsent16(t: string)
    requires t == Row16
    ensures forall k :: 16 <= k < 20 ==> !PhraseAt(t, k, FinalAnswerPhrase)
  {
    PhraseAbsent(t, FinalPieces, 16, 20);
    FinalPiecesSame();
  }

  lemma Row16Capture(t: string)
    requires t == Row16
    ensures CaptureStart(t, 39) == Some(41)
  {
    assert t[39] == ':' && t[40] == ' ' && t[41] == '4';
    assert SkipWhile(t, 39, Space) == 39;
    assert SkipWhile(t, 40, Colon) == 40;
    assert SkipWhile(t, 39, Colon) == 40;
    assert SkipWhile(t, 41, Space) == 41;
    assert SkipWhile(t, 40, Space) == 41;
  }

  lemma Row16Line(t: string)
    requires t == Row16
    ensures 41 < |t| && t[41] != '\n' && LineFrom(t, 41) == "4"
  {
    assert SkipWhile(t, 42, LineChar) == 42;
    assert SkipWhile(t, 41, LineChar) == 42;
  }

  lemma Row16Clean(t: string)
    requires t == Row16
    ensures Clean("4") == "4"
  {
    CleanTrimmed("4");
  }

  /** A colon after the phrase belongs to the separator, not to the answer */
  lemma ExtractFinalAnswerAfterColon(t: string)
    requires t == Row16
    ensures Extract(t) == Some("4")
  {
    Row16Trimmed(t);
    Row16FinalAt(t);
    Row16FinalAbsent0(t);
    Row16FinalAbsent8(t);
    Row16FinalAbsent16(t);
    Row16Capture(t);
    Row16Line(t);
    Row16Clean(t);
    FinalAnswerIs(t, 20, 41, "4");
  }

  /** The completion on line 17 of the parser's test table */
  const Row17: string := "The answ" + "er is 11" + "."

  lemma Row17Trimmed(t: string)
    requires t == Row17
    ensures Strip(t) == t
  {
    StripTrimmed(t);
  }

  lemma Row17NoFinal(t: string)
    requires t == Row17
    ensures NoMatch(t, Rules[0])
  {
    assert Rules[0] == Phrase(FinalAnswerPhrase);
    assert forall k :: 0 <= k <= |t| ==> !PhraseAt(t, k, FinalAnswerPhrase);
  }

  lemma Row17AnswerAt(t: string)
    requires t == Row17
    ensures PhraseAt(t, 0, AnswerPhrase)
  {
    assert PhraseFrom(t, 0, AnswerPieces, 13);
    assert PhraseFrom(t, 0, AnswerPieces, 12);
    assert PhraseFrom(t, 0, AnswerPieces, 11);
    assert PhraseFrom(t, 0, AnswerPieces, 10);
    assert PhraseFrom(t, 0, AnswerPieces, 9);
    assert PhraseFrom(t, 0, AnswerPieces, 8);
    assert PhraseFrom(t, 0, AnswerPieces, 7);
    assert PhraseFrom(t, 0, AnswerPieces, 6);
    assert PhraseFrom(t, 0, AnswerPieces, 5);
    assert PhraseFrom(t, 0, AnswerPieces, 4);
    assert PhraseFrom(t, 0, AnswerPieces, 3);
    assert PhraseFrom(t, 0, AnswerPieces, 2);
    assert PhraseFrom(t, 0, AnswerPieces, 1);
    assert PhraseFrom(t, 0, AnswerPieces, 0);
    AnswerPiecesSame();
  }

  lemma Row17Capture(t: string)
    requires t == Row17
    ensures CaptureStart(t, 13) == Some(14)
  {
    assert t[13] == ' ' && t[14] == '1';
    assert SkipWhile(t, 14, Space) == 14;
    assert SkipWhile(t, 13, Space) == 14;
    assert SkipWhile(t, 14, Colon) == 14;
    assert SkipWhile(t, 14, Space) == 14;
  }

  lemma Row17Line(t: string)
    requires t == Row17
    ensures 14 < |t| && t[14] != '\n' && LineFrom(t, 14) == "11."
  {
    assert SkipWhile(t, 17, LineChar) == 17;
    assert SkipWhile(t, 16, LineChar) == 17;
    assert SkipWhile(t, 15, LineChar) == 17;
    assert SkipWhile(t, 14, LineChar) == 17;
  }

  lemma Row17Clean(t: string)
    requires t == Row17
    ensures Clean("11.") == "11"
  {
    CleanTrimmed("11.");
    assert "11."[..2] == "11";
  }

  /** Without the final-answer phrase the answer phrase decides */
  lemma ExtractAnswerPhrase(t: string)
    requires t == Row17
    ensures Extract(t) == Some("11")
  {
    Row17Trimmed(t);
    Row17NoFinal(t);
    Row17AnswerAt(t);
    Row17Capture(t);
    Row17Line(t);
    Row17Clean(t);
    AnswerIs(t, 0, 14, "11");
  }

  /** The completion on line 18 of the parser's test table */
  const Row18: string := "The resu" + "lt is 42"

  lemma Row18Trimmed(t: string)
    requires t == Row18
    ensures Strip(t) == t
  {
    StripTrimmed(t);
  }

  lemma Row18NoFinal(t: string)
    requires t == Row18
    ensures NoMatch(t, Rules[0])
  {
    assert Rules[0] == Phrase(FinalAnswerPhrase);
    assert forall k :: 0 <= k <= |t| ==> !PhraseAt(t, k, FinalAnswerPhrase);
  }

  lemma Row18AnswerAbsent0(t: string)
    requires t == Row18
    ensures forall k :: 0 <= k < 4 ==> !PhraseAt(t, k, AnswerPhrase)
  {
    assert !PhraseFrom(t, 0, AnswerPieces, 4);
    assert !PhraseFrom(t, 0, AnswerPieces, 3);
    assert !PhraseFrom(t, 0, AnswerPieces, 2);
    assert !PhraseFrom(t, 0, AnswerPieces, 1);
    assert !PhraseFrom(t, 0, AnswerPieces, 0);
    PhraseAbsent(t, AnswerPieces, 1, 4);
    AnswerPiecesSame();
  }

  lemma Row18NoAnswer(t: string)
    requires t == Row18
    ensures NoMatch(t, Rules[1])
  {
    assert Rules[1] == Phrase(AnswerPhrase);
    Row18AnswerAbsent0(t);
    assert forall k :: 4 <= k <= |t| ==> !PhraseAt(t, k, AnswerPhrase);
  }

  lemma Row18NoNumberBefore14(t: string)
    requires t == Row18
    ensures forall k :: 0 <= k < 14 ==> NumberEnd(t, k).None?
  {
    assert forall k :: 0 <= k < 14 ==> !IsDigit(t[k]);
  }

  lemma Row18Number(t: string)
    requires t == Row18
    ensures NumberEnd(t, 14) == Some(16)
    ensures t[14..16] == "42"
  {
    assert t[13] == ' ' && t[14] == '4';
    assert SkipWhile(t, 16, Digit) == 16;
    assert SkipWhile(t, 15, Digit) == 16;
    assert SkipWhile(t, 14, Digit) == 16;
    assert SkipWhile(t, 16, Space) == 16;
    assert SkipWhile(t, 16, Word) == 16;
    assert SkipWhile(t, 16, Space) == 16;
    assert TailAtEnd(t, 16);
  }

  /** With neither phrase present, a number that ends the text is the answer */
  lemma ExtractTrailingNumber(t: string)
    requires t == Row18
    ensures Extract(t) == Some("42")
  {
    Row18Trimmed(t);
    Row18NoFinal(t);
    Row18NoAnswer(t);
    Row18NoNumberBefore14(t);
    Row18Number(t);
    NumberAnswer(t, 14, 16);
  }

  /** The completion on line 19 of the parser's test table */
  const Row19: string := "Some tex" + "t that e" + "nds with" + " a numbe" + "r 3.14"

  lemma Row19Trimmed(t: string)
    requires t == Row19
    ensures Strip(t) == t
  {
    StripTrimmed(t);
  }

  lemma Row19FinalAbsent0(t: string)
    requires t == Row19
    ensures forall k :: 0 <= k < 8 ==> !PhraseAt(t, k, FinalAnswerPhrase)
  {
    PhraseAbsent(t, FinalPieces, 0, 8);
    FinalPiecesSame();
  }

  lemma Row19FinalAbsent8(t: string)
    requires t == Row19
    ensures forall k :: 8 <= k < 16 ==> !PhraseAt(t, k, FinalAnswerPhrase)
  {
    PhraseAbsent(t, FinalPieces, 8, 10);
    assert !PhraseFrom(t, 10, FinalPieces, 2);
    assert !PhraseFrom(t, 10, FinalPieces, 1);
    assert !PhraseFrom(t, 10, FinalPieces, 0);
    PhraseAbsent(t, FinalPieces, 11, 16);
    FinalPiecesSame();
  }

  lemma Row19FinalAbsent16(t: string)
    requires t == Row19
    ensures forall k :: 16 <= k < 20 ==> !PhraseAt(t, k, FinalAnswerPhrase)
  {
    PhraseAbsent(t, FinalPieces, 16, 20);
    FinalPiecesSame();
  }

  lemma Row19NoFinal(t: string)
    requires t == Row19
    ensures NoMatch(t, Rules[0])
  {
    assert Rules[0] == Phrase(FinalAnswerPhrase);
    Row19FinalAbsent0(t);
    Row19FinalAbsent8(t);
    Row19FinalAbsent16(t);
    assert forall k :: 20 <= k <= |t| ==> !PhraseAt(t, k, FinalAnswerPhrase);
  }

  lemma Row19AnswerAbsent0(t: string)
    requires t == Row19
    ensures forall k :: 0 <= k < 8 ==> !PhraseAt(t, k, AnswerPhrase)
  {
    PhraseAbsent(t, AnswerPieces, 0, 8);
    AnswerPiecesSame();
  }

  lemma Row19AnswerAbsent8(t: string)
    requires t == Row19
    ensures forall k :: 8 <= k < 16 ==> !PhraseAt(t, k, AnswerPhrase)
  {
    PhraseAbsent(t, AnswerPieces, 8, 10);
    assert !PhraseFrom(t, 10, AnswerPieces, 2);
    assert !PhraseFrom(t, 10, AnswerPieces, 1);
    assert !PhraseFrom(t, 10, AnswerPieces, 0);
    PhraseAbsent(t, AnswerPieces, 11, 16);
    AnswerPiecesSame();
  }

  lemma Row19AnswerAbsent16(t: string)
    requires t == Row19
    ensures forall k :: 16 <= k < 24 ==> !PhraseAt(t, k, AnswerPhrase)
  {
    PhraseAbsent(t, AnswerPieces, 16, 22);
    assert !PhraseFrom(t, 22, AnswerPieces, 2);
    assert !PhraseFrom(t, 22, AnswerPieces, 1);
    assert !PhraseFrom(t, 22, AnswerPieces, 0);
    PhraseAbsent(t, AnswerPieces, 23, 24);
    AnswerPiecesSame();
  }

  lemma Row19AnswerAbsent24(t: string)
    requires t == Row19
    ensures forall k :: 24 <= k < 26 ==> !PhraseAt(t, k, AnswerPhrase)
  {
    PhraseAbsent(t, AnswerPieces, 24, 26);
    AnswerPiecesSame();
  }

  lemma Row19NoAnswer(t: string)
    requires t == Row19
    ensures NoMatch(t, Rules[1])
  {
    assert Rules[1] == Phrase(AnswerPhrase);
    Row19AnswerAbsent0(t);
    Row19AnswerAbsent8(t);
    Row19AnswerAbsent16(t);
    Row19AnswerAbsent24(t);
    assert forall k :: 26 <= k <= |t| ==> !PhraseAt(t, k, AnswerPhrase);
  }

  lemma Row19NoNumberBefore34(t: string)
    requires t == Row19
    ensures forall k :: 0 <= k < 34 ==> NumberEnd(t, k).None?
  {
    assert forall k :: 0 <= k < 34 ==> !IsDigit(t[k]);
  }

  lemma Row19Number(t: string)
    requires t == Row19
    ensures NumberEnd(t, 34) == Some(38)
    ensures t[34..38] == "3.14"
  {
    assert t[33] == ' ' && t[34] == '3' && t[35] == '.' && t[36] == '1';
    assert SkipWhile(t, 35, Digit) == 35;
    assert SkipWhile(t, 34, Digit) == 35;
    assert SkipWhile(t, 38, Digit) == 38;
    assert SkipWhile(t, 37, Digit) == 38;
    assert SkipWhile(t, 36, Digit) == 38;
    assert SkipWhile(t, 38, Space) == 38;
    assert SkipWhile(t, 38, Word) == 38;
    assert SkipWhile(t, 38, Space) == 38;
    assert TailAtEnd(t, 38);
  }

  /** A decimal number at the end of the text is returned as written */
  lemma ExtractTrailingDecimal(t: string)
    requires t == Row19
    ensures Extract(t) == Some("3.14")
  {
    Row19Trimmed(t);
    Row19NoFinal(t);
    Row19NoAnswer(t);
    Row19NoNumberBefore34(t);
    Row19Number(t);
    NumberAnswer(t, 34, 38);
  }

  /** The completion on line 21 of the parser's test table */
  const Row21: string := "After al" + "l that, " + "the answ" + "er is: s" + "ix."

  lemma Row21Trimmed(t: string)
    requires t == Row21
    ensures Strip(t) == t
  {
    StripTrimmed(t);
  }

  lemma Row21FinalAbsent0(t: string)
    requires t == Row21
    ensures forall k :: 0 <= k < 8 ==> !PhraseAt(t, k, FinalAnswerPhrase)
  {
    PhraseAbsent(t, FinalPieces, 0, 8);
    FinalPiecesSame();
  }

  lemma Row21FinalAbsent8(t: string)
    requires t == Row21
    ensures forall k :: 8 <= k < 16 ==> !PhraseAt(t, k, FinalAnswerPhrase)
  {
    PhraseAbsent(t, FinalPieces, 8, 10);
    assert !PhraseFrom(t, 10, FinalPieces, 2);
    assert !PhraseFrom(t, 10, FinalPieces, 1);
    assert !PhraseFrom(t, 10, FinalPieces, 0);
    PhraseAbsent(t, FinalPieces, 11, 16);
    FinalPiecesSame();
  }

  lemma Row21FinalAbsent16(t: string)
    requires t == Row21
    ensures forall k :: 16 <= k < 17 ==> !PhraseAt(t, k, FinalAnswerPhrase)
  {
    assert !PhraseFrom(t, 16, FinalPieces, 4);
    assert !PhraseFrom(t, 16, FinalPieces, 3);
    assert !PhraseFrom(t, 16, FinalPieces, 2);
    assert !PhraseFrom(t, 16, FinalPieces, 1);
    assert !PhraseFrom(t, 16, FinalPieces, 0);
    FinalPiecesSame();
  }

  lemma Row21NoFinal(t: string)
    requires t == Row21
    ensures NoMatch(t, Rules[0])
  {
    assert Rules[0] == Phrase(FinalAnswerPhrase);
    Row21FinalAbsent0(t);
    Row21FinalAbsent8(t);
    Row21FinalAbsent16(t);
    assert forall k :: 17 <= k <= |t| ==> !PhraseAt(t, k, FinalAnswerPhrase);
  }

  lemma Row21AnswerAt(t: string)
    requires t == Row21
    ensures PhraseAt(t, 16, AnswerPhrase)
  {
    assert PhraseFrom(t, 16, AnswerPieces, 13);
    assert PhraseFrom(t, 16, AnswerPieces, 12);
    assert PhraseFrom(t, 16, AnswerPieces, 11);
    assert PhraseFrom(t, 16, AnswerPieces, 10);
    assert PhraseFrom(t, 16, AnswerPieces, 9);
    assert PhraseFrom(t, 16, AnswerPieces, 8);
    assert PhraseFrom(t, 16, AnswerPieces, 7);
    assert PhraseFrom(t, 16, AnswerPieces, 6);
    assert PhraseFrom(t, 16, AnswerPieces, 5);
    assert PhraseFrom(t, 16, AnswerPieces, 4);
    assert PhraseFrom(t, 16, AnswerPieces, 3);
    assert PhraseFrom(t, 16, AnswerPieces, 2);
    assert PhraseFrom(t, 16, AnswerPieces, 1);
    assert PhraseFrom(t, 16, AnswerPieces, 0);
    AnswerPiecesSame();
  }

  lemma Row21AnswerAbsent0(t: string)
    requires t == Row21
    ensures forall k :: 0 <= k < 8 ==> !PhraseAt(t, k, AnswerPhrase)
  {
    PhraseAbsent(t, AnswerPieces, 0, 8);
    AnswerPiecesSame();
  }

  lemma Row21AnswerAbsent8(t: string)
    requires t == Row21
    ensures forall k :: 8 <= k < 16 ==> !PhraseAt(t, k, AnswerPhrase)
  {
    PhraseAbsent(t, AnswerPieces, 8, 10);
    assert !PhraseFrom(t, 10, AnswerPieces, 2);
    assert !PhraseFrom(t, 10, AnswerPieces, 1);
    assert !PhraseFrom(t, 10, AnswerPieces, 0);
    PhraseAbsent(t, AnswerPieces, 11, 16);
    AnswerPiecesSame();
  }

  lemma Row21Capture(t: string)
    requires t == Row21
    ensures CaptureStart(t, 29) == Some(31)
  {
    assert t[29] == ':' && t[30] == ' ' && t[31] == 's';
    assert SkipWhile(t, 29, Space) == 29;
    assert SkipWhile(t, 30, Colon) == 30;
    assert SkipWhile(t, 29, Colon) == 30;
    assert SkipWhile(t, 31, Space) == 31;
    assert SkipWhile(t, 30, Space) == 31;
  }

  lemma Row21Line(t: string)
    requires t == Row21
    ensures 31 < |t| && t[31] != '\n' && LineFrom(t, 31) == "six."
  {
    assert SkipWhile(t, 35, LineChar) == 35;
    assert SkipWhile(t, 34, LineChar) == 35;
    assert SkipWhile(t, 33, LineChar) == 35;
    assert SkipWhile(t, 32, LineChar) == 35;
    assert SkipWhile(t, 31, LineChar) == 35;
  }

  lemma Row21Clean(t: string)
    requires t == Row21
    ensures Clean("six.") == "six"
  {
    CleanTrimmed("six.");
    assert "six."[..3] == "six";
  }

  /** The phrases match in any case */
  lemma ExtractAnswerPhraseLowerCase(t: string)
    requires t == Row21
    ensures Extract(t) == Some("six")
  {
    Row21Trimmed(t);
    Row21NoFinal(t);
    Row21AnswerAt(t);
    Row21AnswerAbsent0(t);
    Row21AnswerAbsent8(t);
    Row21Capture(t);
    Row21Line(t);
    Row21Clean(t);
    AnswerIs(t, 16, 31, "six");
  }

  /** The completion on line 22 of the parser's test table */
  const Row22: string := "He has 5" + " + 6 = 1" + "1 balls."

  lemma Row22Trimmed(t: string)
    requires t == Row22
    ensures Strip(t) == t
  {
    StripTrimmed(t);
  }

  lemma Row22FinalAbsent0(t: string)
    requires t == Row22
    ensures forall k :: 0 <= k < 6 ==> !PhraseAt(t, k, FinalAnswerPhrase)
  {
    PhraseAbsent(t, FinalPieces, 0, 6);
    FinalPiecesSame();
  }

  lemma Row22NoFinal(t: string)
    requires t == Row22
    ensures NoMatch(t, Rules[0])
  {
    assert Rules[0] == Phrase(FinalAnswerPhrase);
    Row22FinalAbsent0(t);
    assert forall k :: 6 <= k <= |t| ==> !PhraseAt(t, k, FinalAnswerPhrase);
  }

  lemma Row22AnswerAbsent0(t: string)
    requires t == Row22
    ensures forall k :: 0 <= k < 8 ==> !PhraseAt(t, k, AnswerPhrase)
  {
    PhraseAbsent(t, AnswerPieces, 0, 8);
    AnswerPiecesSame();
  }

  lemma Row22AnswerAbsent8(t: string)
    requires t == Row22
    ensures forall k :: 8 <= k < 12 ==> !PhraseAt(t, k, AnswerPhrase)
  {
    PhraseAbsent(t, AnswerPieces, 8, 12);
    AnswerPiecesSame();
  }

  lemma Row22NoAnswer(t: string)
    requires t == Row22
    ensures NoMatch(t, Rules[1])
  {
    assert Rules[1] == Phrase(AnswerPhrase);
    Row22AnswerAbsent0(t);
    Row22AnswerAbsent8(t);
    assert forall k :: 12 <= k <= |t| ==> !PhraseAt(t, k, AnswerPhrase);
  }

  lemma Row22Reject7(t: string)
    requires t == Row22
    ensures NumberEnd(t, 7).None?
  {
    assert t[6] == ' ' && t[7] == '5' && t[8] == ' ';
    assert SkipWhile(t, 8, Digit) == 8;
    assert SkipWhile(t, 7, Digit) == 8;
    assert SkipWhile(t, 9, Space) == 9;
    assert SkipWhile(t, 8, Space) == 9;
    assert SkipWhile(t, 9, Word) == 9;
    assert t[9] == '+';
    assert SkipWhile(t, 9, Space) == 9;
    assert !TailAtEnd(t, 8);
  }

  lemma Row22Reject11(t: string)
    requires t == Row22
    ensures NumberEnd(t, 11).None?
  {
    assert t[10] == ' ' && t[11] == '6' && t[12] == ' ';
    assert SkipWhile(t, 12, Digit) == 12;
    assert SkipWhile(t, 11, Digit) == 12;
    assert SkipWhile(t, 13, Space) == 13;
    assert SkipWhile(t, 12, Space) == 13;
    assert SkipWhile(t, 13, Word) == 13;
    assert t[13] == '=';
    assert SkipWhile(t, 13, Space) == 13;
    assert !TailAtEnd(t, 12);
  }

  lemma Row22NoNumberBefore15(t: string)
    requires t == Row22
    ensures forall k :: 0 <= k < 15 ==> NumberEnd(t, k).None?
  {
    assert forall k :: 0 <= k < 15 && k != 7 && k != 11 ==> !IsDigit(t[k]);
    Row22Reject7(t);
    Row22Reject11(t);
  }

  lemma Row22Number(t: string)
    requires t == Row22
    ensures NumberEnd(t, 15) == Some(17)
    ensures t[15..17] == "11"
  {
    assert t[14] == ' ' && t[15] == '1' && t[17] == ' ';
    assert SkipWhile(t, 17, Digit) == 17;
    assert SkipWhile(t, 16, Digit) == 17;
    assert SkipWhile(t, 15, Digit) == 17;
    assert SkipWhile(t, 18, Space) == 18;
    assert SkipWhile(t, 17, Space) == 18;
    assert SkipWhile(t, 23, Word) == 23;
    assert SkipWhile(t, 22, Word) == 23;
    assert SkipWhile(t, 21, Word) == 23;
    assert SkipWhile(t, 20, Word) == 23;
    assert SkipWhile(t, 19, Word) == 23;
    assert SkipWhile(t, 18, Word) == 23;
    assert t[23] == '.';
    assert SkipWhile(t, 24, Space) == 24;
    assert TailAtEnd(t, 17);
  }

  /** Numbers that more than a word and a period follow are passed over; one followed by a single word and a period is the answer */
  lemma ExtractNumberBeforeWord(t: string)
    requires t == Row22
    ensures Extract(t) == Some("11")
  {
    Row22Trimmed(t);
    Row22NoFinal(t);
    Row22NoAnswer(t);
    Row22Reject7(t);
    Row22Reject11(t);
    Row22NoNumberBefore15(t);
    Row22Number(t);
    NumberAnswer(t, 15, 17);
  }

  /** The completion on line 23 of the parser's test table */
  const Row23: string := "The fina" + "l answer" + " is LE."

  lemma Row23Trimmed(t: string)
    requires t == Row23
    ensures Strip(t) == t
  {
    StripTrimmed(t);
  }

  lemma Row23FinalAt(t: string)
    requires t == Row23
    ensures PhraseAt(t, 0, FinalAnswerPhrase)
  {
    assert PhraseFrom(t, 0, FinalPieces, 19);
    assert PhraseFrom(t, 0, FinalPieces, 18);
    assert PhraseFrom(t, 0, FinalPieces, 17);
    assert PhraseFrom(t, 0, FinalPieces, 16);
    assert PhraseFrom(t, 0, FinalPieces, 15);
    assert PhraseFrom(t, 0, FinalPieces, 14);
    assert PhraseFrom(t, 0, FinalPieces, 13);
    assert PhraseFrom(t, 0, FinalPieces, 12);
    assert PhraseFrom(t, 0, FinalPieces, 11);
    assert PhraseFrom(t, 0, FinalPieces, 10);
    assert PhraseFrom(t, 0, FinalPieces, 9);
    assert PhraseFrom(t, 0, FinalPieces, 8);
    assert PhraseFrom(t, 0, FinalPieces, 7);
    assert PhraseFrom(t, 0, FinalPieces, 6);
    assert PhraseFrom(t, 0, FinalPieces, 5);
    assert PhraseFrom(t, 0, FinalPieces, 4);
    assert PhraseFrom(t, 0, FinalPieces, 3);
    assert PhraseFrom(t, 0, FinalPieces, 2);
    assert PhraseFrom(t, 0, FinalPieces, 1);
    assert PhraseFrom(t, 0, FinalPieces, 0);
    FinalPiecesSame();
  }

  lemma Row23Capture(t: string)
    requires t == Row23
    ensures CaptureStart(t, 19) == Some(20)
  {
    assert t[19] == ' ' && t[20] == 'L';
    assert SkipWhile(t, 20, Space) == 20;
    assert SkipWhile(t, 19, Space) == 20;
    assert SkipWhile(t, 20, Colon) == 20;
    assert SkipWhile(t, 20, Space) == 20;
  }

  lemma Row23Line(t: string)
    requires t == Row23
    ensures 20 < |t| && t[20] != '\n' && LineFrom(t, 20) == "LE."
  {
    assert SkipWhile(t, 23, LineChar) == 23;
    assert SkipWhile(t, 22, LineChar) == 23;
    assert SkipWhile(t, 21, LineChar) == 23;
    assert SkipWhile(t, 20, LineChar) == 23;
  }

  lemma Row23Clean(t: string)
    requires t == Row23
    ensures Clean("LE.") == "LE"
  {
    CleanTrimmed("LE.");
    assert "LE."[..2] == "LE";
  }

  /** The answer keeps its case: only the phrase is matched without regard to case */
  lemma ExtractFinalAnswerWord(t: string)
    requires t == Row23
    ensures Extract(t) == Some("LE")
  {
    Row23Trimmed(t);
    Row23FinalAt(t);
    Row23Capture(t);
    Row23Line(t);
    Row23Clean(t);
    FinalAnswerIs(t, 0, 20, "LE");
  }

  /** The completion on line 32 of the parser's test table */
  const Row32: string := "There is" + " no answ" + "er here."

  lemma Row32Trimmed(t: string)
    requires t == Row32
    ensures Strip(t) == t
  {
    StripTrimmed(t);
  }

  lemma Row32FinalAbsent0(t: string)
    requires t == Row32
    ensures forall k :: 0 <= k < 6 ==> !PhraseAt(t, k, FinalAnswerPhrase)
  {
    assert !PhraseFrom(t, 0, FinalPieces, 3);
    assert !PhraseFrom(t, 0, FinalPieces, 2);
    assert !PhraseFrom(t, 0, FinalPieces, 1);
    assert !PhraseFrom(t, 0, FinalPieces, 0);
    PhraseAbsent(t, FinalPieces, 1, 6);
    FinalPiecesSame();
  }

  lemma Row32NoFinal(t: string)
    requires t == Row32
    ensures NoMatch(t, Rules[0])
  {
    assert Rules[0] == Phrase(FinalAnswerPhrase);
    Row32FinalAbsent0(t);
    assert forall k :: 6 <= k <= |t| ==> !PhraseAt(t, k, FinalAnswerPhrase);
  }

  lemma Row32AnswerAbsent0(t: string)
    requires t == Row32
    ensures forall k :: 0 <= k < 8 ==> !PhraseAt(t, k, AnswerPhrase)
  {
    assert !PhraseFrom(t, 0, AnswerPieces, 3);
    assert !PhraseFrom(t, 0, AnswerPieces, 2);
    assert !PhraseFrom(t, 0, AnswerPieces, 1);
    assert !PhraseFrom(t, 0, AnswerPieces, 0);
    PhraseAbsent(t, AnswerPieces, 1, 8);
    AnswerPiecesSame();
  }

  lemma Row32AnswerAbsent8(t: string)
    requires t == Row32
    ensures forall k :: 8 <= k < 12 ==> !PhraseAt(t, k, AnswerPhrase)
  {
    PhraseAbsent(t, AnswerPieces, 8, 12);
    AnswerPiecesSame();
  }

  lemma Row32NoAnswer(t: string)
    requires t == Row32
    ensures NoMatch(t, Rules[1])
  {
    assert Rules[1] == Phrase(AnswerPhrase);
    Row32AnswerAbsent0(t);
    Row32AnswerAbsent8(t);
    assert forall k :: 12 <= k <= |t| ==> !PhraseAt(t, k, AnswerPhrase);
  }

  lemma Row32NoNumberBefore25(t: string)
    requires t == Row32
    ensures forall k :: 0 <= k < 25 ==> NumberEnd(t, k).None?
  {
    assert forall k :: 0 <= k < 24 ==> !IsDigit(t[k]);
  }

  /** No phrase and no number: nothing is extracted */
  lemma ExtractNothingWithoutMarkers(t: string)
    requires t == Row32
    ensures Extract(t) == None
  {
    Row32Trimmed(t);
    Row32NoFinal(t);
    Row32NoAnswer(t);
    Row32NoNumberBefore25(t);
    NoAnswer(t);
  }

  /** The completion on line 33 of the parser's test table */
  const Row33: string := "The numb" + "er 6 is " + "in the m" + "iddle of" + " this se" + "ntence."

  lemma Row33Trimmed(t: string)
    requires t == Row33
    ensures Strip(t) == t
  {
    StripTrimmed(t);
  }

  lemma Row33FinalAbsent0(t: string)
    requires t == Row33
    ensures forall k :: 0 <= k < 8 ==> !PhraseAt(t, k, FinalAnswerPhrase)
  {
    assert !PhraseFrom(t, 0, FinalPieces, 4);
    assert !PhraseFrom(t, 0, FinalPieces, 3);
    assert !PhraseFrom(t, 0, FinalPieces, 2);
    assert !PhraseFrom(t, 0, FinalPieces, 1);
    assert !PhraseFrom(t, 0, FinalPieces, 0);
    PhraseAbsent(t, FinalPieces, 1, 8);
    FinalPiecesSame();
  }

  lemma Row33FinalAbsent8(t: string)
    requires t == Row33
    ensures forall k :: 8 <= k < 16 ==> !PhraseAt(t, k, FinalAnswerPhrase)
  {
    PhraseAbsent(t, FinalPieces, 8, 16);
    FinalPiecesSame();
  }

  lemma Row33FinalAbsent16(t: string)
    requires t == Row33
    ensures forall k :: 16 <= k < 24 ==> !PhraseAt(t, k, FinalAnswerPhrase)
  {
    PhraseAbsent(t, FinalPieces, 16, 19);
    assert !PhraseFrom(t, 19, FinalPieces, 4);
    assert !PhraseFrom(t, 19, FinalPieces, 3);
    assert !PhraseFrom(t, 19, FinalPieces, 2);
    assert !PhraseFrom(t, 19, FinalPieces, 1);
    assert !PhraseFrom(t, 19, FinalPieces, 0);
    PhraseAbsent(t, FinalPieces, 20, 24);
    FinalPiecesSame();
  }

  lemma Row33FinalAbsent24(t: string)
    requires t == Row33
    ensures forall k :: 24 <= k < 29 ==> !PhraseAt(t, k, FinalAnswerPhrase)
  {
    PhraseAbsent(t, FinalPieces, 24, 29);
    FinalPiecesSame();
  }

  lemma Row33NoFinal(t: string)
    requires t == Row33
    ensures NoMatch(t, Rules[0])
  {
    assert Rules[0] == Phrase(FinalAnswerPhrase);
    Row33FinalAbsent0(t);
    Row33FinalAbsent8(t);
    Row33FinalAbsent16(t);
    Row33FinalAbsent24(t);
    assert forall k :: 29 <= k <= |t| ==> !PhraseAt(t, k, FinalAnswerPhrase);
  }

  lemma Row33AnswerAbsent0(t: string)
    requires t == Row33
    ensures forall k :: 0 <= k < 8 ==> !PhraseAt(t, k, AnswerPhrase)
  {
    assert !PhraseFrom(t, 0, AnswerPieces, 4);
    assert !PhraseFrom(t, 0, AnswerPieces, 3);
    assert !PhraseFrom(t, 0, AnswerPieces, 2);
    assert !PhraseFrom(t, 0, AnswerPieces, 1);
    assert !PhraseFrom(t, 0, AnswerPieces, 0);
    PhraseAbsent(t, AnswerPieces, 1, 8);
    AnswerPiecesSame();
  }

  lemma Row33AnswerAbsent8(t: string)
    requires t == Row33
    ensures forall k :: 8 <= k < 16 ==> !PhraseAt(t, k, AnswerPhrase)
  {
    PhraseAbsent(t, AnswerPieces, 8, 16);
    AnswerPiecesSame();
  }

  lemma Row33AnswerAbsent16(t: string)
    requires t == Row33
    ensures forall k :: 16 <= k < 24 ==> !PhraseAt(t, k, AnswerPhrase)
  {
    PhraseAbsent(t, AnswerPieces, 16, 19);
    assert !PhraseFrom(t, 19, AnswerPieces, 4);
    assert !PhraseFrom(t, 19, AnswerPieces, 3);
    assert !PhraseFrom(t, 19, AnswerPieces, 2);
    assert !PhraseFrom(t, 19, AnswerPieces, 1);
    assert !PhraseFrom(t, 19, AnswerPieces, 0);
    PhraseAbsent(t, AnswerPieces, 20, 24);
    AnswerPiecesSame();
  }

  lemma Row33AnswerAbsent24(t: string)
    requires t == Row33
    ensures forall k :: 24 <= k < 32 ==> !PhraseAt(t, k, AnswerPhrase)
  {
    PhraseAbsent(t, AnswerPieces, 24, 32);
    AnswerPiecesSame();
  }

  lemma Row33AnswerAbsent32(t: string)
    requires t == Row33
    ensures forall k :: 32 <= k < 35 ==> !PhraseAt(t, k, AnswerPhrase)
  {
    PhraseAbsent(t, AnswerPieces, 32, 33);
    assert !PhraseFrom(t, 33, AnswerPieces, 2);
    assert !PhraseFrom(t, 33, AnswerPieces, 1);
    assert !PhraseFrom(t, 33, AnswerPieces, 0);
    PhraseAbsent(t, AnswerPieces, 34, 35);
    AnswerPiecesSame();
  }

  lemma Row33NoAnswer(t: string)
    requires t == Row33
    ensures NoMatch(t, Rules[1])
  {
    assert Rules[1] == Phrase(AnswerPhrase);
    Row33AnswerAbsent0(t);
    Row33AnswerAbsent8(t);
    Row33AnswerAbsent16(t);
    Row33AnswerAbsent24(t);
    Row33AnswerAbsent32(t);
    assert forall k :: 35 <= k <= |t| ==> !PhraseAt(t, k, AnswerPhrase);
  }

  lemma Row33Reject11(t: string)
    requires t == Row33
    ensures NumberEnd(t, 11).None?
  {
    assert t[10] == ' ' && t[11] == '6' && t[12] == ' ';
    assert SkipWhile(t, 12, Digit) == 12;
    assert SkipWhile(t, 11, Digit) == 12;
    assert SkipWhile(t, 13, Space) == 13;
    assert SkipWhile(t, 12, Space) == 13;
    assert SkipWhile(t, 15, Word) == 15;
    assert SkipWhile(t, 14, Word) == 15;
    assert SkipWhile(t, 13, Word) == 15;
    assert t[15] == ' ';
    assert SkipWhile(t, 16, Space) == 16;
    assert SkipWhile(t, 15, Space) == 16;
    assert !TailAtEnd(t, 12);
  }

  lemma Row33NoNumberBefore48(t: string)
    requires t == Row33
    ensures forall k :: 0 <= k < 48 ==> NumberEnd(t, k).None?
  {
    assert forall k :: 0 <= k < 47 && k != 11 ==> !IsDigit(t[k]);
    Row33Reject11(t);
  }

  /** A number in the middle of a sentence is not an answer */
  lemma ExtractNothingMidSentence(t: string)
    requires t == Row33
    ensures Extract(t) == None
  {
    Row33Trimmed(t);
    Row33NoFinal(t);
    Row33NoAnswer(t);
    Row33Reject11(t);
    Row33NoNumberBefore48(t);
    NoAnswer(t);
  }

  /** The completion on line 34 of the parser's test table */
  const Row34: string := "A final " + "note on " + "the answ" + "er."

  lemma Row34Trimmed(t: string)
    requires t == Row34
    ensures Strip(t) == t
  {
    StripTrimmed(t);
  }

  lemma Row34FinalAbsent0(t: string)
    requires t == Row34
    ensures forall k :: 0 <= k < 8 ==> !PhraseAt(t, k, FinalAnswerPhrase)
  {
    PhraseAbsent(t, FinalPieces, 0, 8);
    FinalPiecesSame();
  }

  lemma Row34FinalAbsent8(t: string)
    requires t == Row34
    ensures forall k :: 8 <= k < 9 ==> !PhraseAt(t, k, FinalAnswerPhrase)
  {
    PhraseAbsent(t, FinalPieces, 8, 9);
    FinalPiecesSame();
  }

  lemma Row34NoFinal(t: string)
    requires t == Row34
    ensures NoMatch(t, Rules[0])
  {
    assert Rules[0] == Phrase(FinalAnswerPhrase);
    Row34FinalAbsent0(t);
    Row34FinalAbsent8(t);
    assert forall k :: 9 <= k <= |t| ==> !PhraseAt(t, k, FinalAnswerPhrase);
  }

  lemma Row34AnswerAbsent0(t: string)
    requires t == Row34
    ensures forall k :: 0 <= k < 8 ==> !PhraseAt(t, k, AnswerPhrase)
  {
    PhraseAbsent(t, AnswerPieces, 0, 8);
    AnswerPiecesSame();
  }

  lemma Row34AnswerAbsent8(t: string)
    requires t == Row34
    ensures forall k :: 8 <= k < 15 ==> !PhraseAt(t, k, AnswerPhrase)
  {
    PhraseAbsent(t, AnswerPieces, 8, 15);
    AnswerPiecesSame();
  }

  lemma Row34NoAnswer(t: string)
    requires t == Row34
    ensures NoMatch(t, Rules[1])
  {
    assert Rules[1] == Phrase(AnswerPhrase);
    Row34AnswerAbsent0(t);
    Row34AnswerAbsent8(t);
    assert forall k :: 15 <= k <= |t| ==> !PhraseAt(t, k, AnswerPhrase);
  }

  lemma Row34NoNumberBefore28(t: string)
    requires t == Row34
    ensures forall k :: 0 <= k < 28 ==> NumberEnd(t, k).None?
  {
    assert forall k :: 0 <= k < 27 ==> !IsDigit(t[k]);
  }

  /** The phrases need their closing word: the words alone give no answer */
  lemma ExtractNothingWithoutIs(t: string)
    requires t == Row34
    ensures Extract(t) == None
  {
    Row34Trimmed(t);
    Row34NoFinal(t);
    Row34NoAnswer(t);
    Row34NoNumberBefore28(t);
    NoAnswer(t);
  }

  /** The completion on line 35 of the parser's test table */
  const Row35: string := "A respon" + "se with " + "no numbe" + "rs."

  lemma Row35Trimmed(t: string)
    requires t == Row35
    ensures Strip(t) == t
  {
    StripTrimmed(t);
  }

  lemma Row35FinalAbsent0(t: string)
    requires t == Row35
    ensures forall k :: 0 <= k < 8 ==> !PhraseAt(t, k, FinalAnswerPhrase)
  {
    PhraseAbsent(t, FinalPieces, 0, 8);
    FinalPiecesSame();
  }

  lemma Row35FinalAbsent8(t: string)
    requires t == Row35
    ensures forall k :: 8 <= k < 9 ==> !PhraseAt(t, k, FinalAnswerPhrase)
  {
    PhraseAbsent(t, FinalPieces, 8, 9);
    FinalPiecesSame();
  }

  lemma Row35NoFinal(t: string)
    requires t == Row35
    ensures NoMatch(t, Rules[0])
  {
    assert Rules[0] == Phrase(FinalAnswerPhrase);
    Row35FinalAbsent0(t);
    Row35FinalAbsent8(t);
    assert forall k :: 9 <= k <= |t| ==> !PhraseAt(t, k, FinalAnswerPhrase);
  }

  lemma Row35AnswerAbsent0(t: string)
    requires t == Row35
    ensures forall k :: 0 <= k < 8 ==> !PhraseAt(t, k, AnswerPhrase)
  {
    PhraseAbsent(t, AnswerPieces, 0, 8);
    AnswerPiecesSame();
  }

  lemma Row35AnswerAbsent8(t: string)
    requires t == Row35
    ensures forall k :: 8 <= k < 15 ==> !PhraseAt(t, k, AnswerPhrase)
  {
    PhraseAbsent(t, AnswerPieces, 8, 13);
    assert !PhraseFrom(t, 13, AnswerPieces, 2);
    assert !PhraseFrom(t, 13, AnswerPieces, 1);
    assert !PhraseFrom(t, 13, AnswerPieces, 0);
    PhraseAbsent(t, AnswerPieces, 14, 15);
    AnswerPiecesSame();
  }

  lemma Row35NoAnswer(t: string)
    requires t == Row35
    ensures NoMatch(t, Rules[1])
  {
    assert Rules[1] == Phrase(AnswerPhrase);
    Row35AnswerAbsent0(t);
    Row35AnswerAbsent8(t);
    assert forall k :: 15 <= k <= |t| ==> !PhraseAt(t, k, AnswerPhrase);
  }

  lemma Row35NoNumberBefore28(t: string)
    requires t == Row35
    ensures forall k :: 0 <= k < 28 ==> NumberEnd(t, k).None?
  {
    assert forall k :: 0 <= k < 27 ==> !IsDigit(t[k]);
  }

  /** Without a phrase or a number nothing is extracted */
  lemma ExtractNothingWithoutNumbers(t: string)
    requires t == Row35
    ensures Extract(t) == None
  {
    Row35Trimmed(t);
    Row35NoFinal(t);
    Row35NoAnswer(t);
    Row35NoNumberBefore28(t);
    NoAnswer(t);
  }

  /** A completion whose answer line holds only a period */
  const BarePeriod: string := "The answ" + "er is ."

  lemma BarePeriodTrimmed(t: string)
    requires t == BarePeriod
    ensures Strip(t) == t
  {
    StripTrimmed(t);
  }

  lemma BarePeriodNoFinal(t: string)
    requires t == BarePeriod
    ensures NoMatch(t, Rules[0])
  {
    assert Rules[0] == Phrase(FinalAnswerPhrase);
    assert forall k :: 0 <= k <= |t| ==> !PhraseAt(t, k, FinalAnswerPhrase);
  }

  lemma BarePeriodAnswerAt(t: string)
    requires t == BarePeriod
    ensures PhraseAt(t, 0, AnswerPhrase)
  {
    assert PhraseFrom(t, 0, AnswerPieces, 13);
    assert PhraseFrom(t, 0, AnswerPieces, 12);
    assert PhraseFrom(t, 0, AnswerPieces, 11);
    assert PhraseFrom(t, 0, AnswerPieces, 10);
    assert PhraseFrom(t, 0, AnswerPieces, 9);
    assert PhraseFrom(t, 0, AnswerPieces, 8);
    assert PhraseFrom(t, 0, AnswerPieces, 7);
    assert PhraseFrom(t, 0, AnswerPieces, 6);
    assert PhraseFrom(t, 0, AnswerPieces, 5);
    assert PhraseFrom(t, 0, AnswerPieces, 4);
    assert PhraseFrom(t, 0, AnswerPieces, 3);
    assert PhraseFrom(t, 0, AnswerPieces, 2);
    assert PhraseFrom(t, 0, AnswerPieces, 1);
    assert PhraseFrom(t, 0, AnswerPieces, 0);
    AnswerPiecesSame();
  }

  lemma BarePeriodCapture(t: string)
    requires t == BarePeriod
    ensures CaptureStart(t, 13) == Some(14)
  {
    assert t[13] == ' ' && t[14] == '.';
    assert SkipWhile(t, 14, Space) == 14;
    assert SkipWhile(t, 13, Space) == 14;
    assert SkipWhile(t, 14, Colon) == 14;
    assert SkipWhile(t, 14, Space) == 14;
  }

  lemma BarePeriodLine(t: string)
    requires t == BarePeriod
    ensures 14 < |t| && t[14] != '\n' && LineFrom(t, 14) == "."
  {
    assert SkipWhile(t, 15, LineChar) == 15;
    assert SkipWhile(t, 14, LineChar) == 15;
  }

  lemma BarePeriodClean(t: string)
    requires t == BarePeriod
    ensures Clean(".") == ""
  {
    CleanTrimmed(".");
    assert "."[..0] == "";
  }

  /** A lone period after the phrase is captured and then cleaned away: the answer is the empty string, not nothing */
  lemma ExtractBarePeriod(t: string)
    requires t == BarePeriod
    ensures Extract(t) == Some("")
  {
    BarePeriodTrimmed(t);
    BarePeriodNoFinal(t);
    BarePeriodAnswerAt(t);
    BarePeriodCapture(t);
    BarePeriodLine(t);
    BarePeriodClean(t);
    AnswerIs(t, 0, 14, "");
  }

  /** A completion whose answer follows the phrase and a colon two lines further down */
  const NextLine: string := "The fina" + "l answer" + " is:\n\n42" + "."

  lemma NextLineTrimmed(t: string)
    requires t == NextLine
    ensures Strip(t) == t
  {
    StripTrimmed(t);
  }

  lemma NextLineFinalAt(t: string)
    requires t == NextLine
    ensures PhraseAt(t, 0, FinalAnswerPhrase)
  {
    assert PhraseFrom(t, 0, FinalPieces, 19);
    assert PhraseFrom(t, 0, FinalPieces, 18);
    assert PhraseFrom(t, 0, FinalPieces, 17);
    assert PhraseFrom(t, 0, FinalPieces, 16);
    assert PhraseFrom(t, 0, FinalPieces, 15);
    assert PhraseFrom(t, 0, FinalPieces, 14);
    assert PhraseFrom(t, 0, FinalPieces, 13);
    assert PhraseFrom(t, 0, FinalPieces, 12);
    assert PhraseFrom(t, 0, FinalPieces, 11);
    assert PhraseFrom(t, 0, FinalPieces, 10);
    assert PhraseFrom(t, 0, FinalPieces, 9);
    assert PhraseFrom(t, 0, FinalPieces, 8);
    assert PhraseFrom(t, 0, FinalPieces, 7);
    assert PhraseFrom(t, 0, FinalPieces, 6);
    assert PhraseFrom(t, 0, FinalPieces, 5);
    assert PhraseFrom(t, 0, FinalPieces, 4);
    assert PhraseFrom(t, 0, FinalPieces, 3);
    assert PhraseFrom(t, 0, FinalPieces, 2);
    assert PhraseFrom(t, 0, FinalPieces, 1);
    assert PhraseFrom(t, 0, FinalPieces, 0);
    FinalPiecesSame();
  }

  lemma NextLineCapture(t: string)
    requires t == NextLine
    ensures CaptureStart(t, 19) == Some(22)
  {
    assert t[19] == ':' && t[20] == '\n' && t[21] == '\n' && t[22] == '4';
    assert SkipWhile(t, 19, Space) == 19;
    assert SkipWhile(t, 20, Colon) == 20;
    assert SkipWhile(t, 19, Colon) == 20;
    assert SkipWhile(t, 22, Space) == 22;
    assert SkipWhile(t, 21, Space) == 22;
    assert SkipWhile(t, 20, Space) == 22;
  }

  lemma NextLineLine(t: string)
    requires t == NextLine
    ensures 22 < |t| && t[22] != '\n' && LineFrom(t, 22) == "42."
  {
    assert SkipWhile(t, 25, LineChar) == 25;
    assert SkipWhile(t, 24, LineChar) == 25;
    assert SkipWhile(t, 23, LineChar) == 25;
    assert SkipWhile(t, 22, LineChar) == 25;
  }

  lemma NextLineClean(t: string)
    requires t == NextLine
    ensures Clean("42.") == "42"
  {
    CleanTrimmed("42.");
    assert "42."[..2] == "42";
  }

  /** The separator after the phrase takes line breaks too, so the answer may sit on a later line */
  lemma ExtractAnswerOnNextLine(t: string)
    requires t == NextLine
    ensures Extract(t) == Some("42")
  {
    NextLineTrimmed(t);
    NextLineFinalAt(t);
    NextLineCapture(t);
    NextLineLine(t);
    NextLineClean(t);
    FinalAnswerIs(t, 0, 22, "42");
  }
}
