/** The other lines that the server scans: the command word itself, TYPE and REST. */
module FtpCommands {
  import opened ScanText
  import opened Runs
  import opened ScanSpec
  import opened ScanProps
  import opened ScanFormats
  import opened FtpFile
  import Sscanf

  /** A specification without width and length modifier, parsed where it stands. */
  lemma PlainSpec(fmt: string, f: nat, suppressed: bool, c: char)
    requires c in LETTERS && Comes(fmt, f, "%" + Star(suppressed) + [c])
    ensures ParseSpec(fmt, f) == Spec(Meaning(suppressed, None, NoLength, c), f + 2 + |Star(suppressed)|)
  {
    hide ParseSpec, Meaning, LETTERS;
    assert SpecText(suppressed, None, NoLength, c) == "%" + Star(suppressed) + [c];
    SpecReadsBack(fmt, f, suppressed, None, NoLength, c);
  }

  lemma Letters()
    ensures 's' in LETTERS && 'c' in LETTERS && 'd' in LETTERS
    ensures forall suppressed :: Meaning(suppressed, None, NoLength, 's') == Word(suppressed, UINT_MAX)
    ensures forall suppressed :: Meaning(suppressed, None, NoLength, 'c') == Character(suppressed, 1)
    ensures forall suppressed :: Meaning(suppressed, None, NoLength, 'd') == Integer(suppressed, UINT_MAX, 10, 32)
  {
    assert LETTERS[15] == 's' && LETTERS[14] == 'c' && LETTERS[0] == 'd';
  }

  // ---------------------------------------------------------------------------
  // The command word
  // ---------------------------------------------------------------------------

  const WORD_FORMAT: string := "%s"

  lemma WordFormat()
    ensures ParseSpec(WORD_FORMAT, 0) == Spec(Word(false, UINT_MAX), 2) && WellFormed(WORD_FORMAT, 0)
  {
    Letters();
    hide ParseSpec, LETTERS;
    assert WORD_FORMAT[0..2] == "%" + Star(false) + ['s'];
    PlainSpec(WORD_FORMAT, 0, false, 's');
    assert WellFormed(WORD_FORMAT, 2);
  }

  /** The first word of a line: its longest prefix without white space. */
  ghost predicate FirstWord(line: string, word: string) {
    && word <= line && (forall c | c in word :: !IsSpace(c))
    && (|word| == |line| || IsSpace(line[|word|]))
  }

  lemma FirstWordIsRun(line: string, word: string)
    requires FirstWord(line, word) && |line| <= UINT_MAX
    ensures LongestRun(line, 0, |word|, UINT_MAX, NonSpace) && line[0..|word|] == word
  {
    assert forall i | 0 <= i < |word| :: line[i] == word[i] && word[i] in word;
  }

  /** The scan of a line for its command stores exactly the first word and returns 1; a line that
      starts with white space, or has nothing in it, stores nothing. */
  lemma {:induction false} WordScan(line: string, word: string)
    requires FirstWord(line, word) && |line| <= UINT_MAX
    ensures WellFormed(WORD_FORMAT, 0)
    ensures var r := ScanSpec.Sscanf(line, WORD_FORMAT);
            if word != "" then r == Progress(|word|, 1, [ScanSpec.Value.Text(word)])
            else r.out == [] && r.n == if line == "" || line[0] == '\n' then -1 else 0
  {
    hide Convert, ParseSpec, WellFormed, Element, Run, LongestRun;
    WordFormat();
    var start := Progress(0, 0, []);
    ConversionElement(line, WORD_FORMAT, 0, start, Spec(Word(false, UINT_MAX), 2));
    FirstWordIsRun(line, word);
    WordMeaning(line, start, false, UINT_MAX, |word|);
    if word != "" {
      var end := Progress(|word|, 1, [ScanSpec.Value.Text(word)]);
      RunOnce(line, WORD_FORMAT, 0, start, 2, end);
      RunEnd(line, WORD_FORMAT, 2, end);
    } else {
      RunDone(line, WORD_FORMAT, 0, start);
    }
  }

  /** Line 921. The result is not looked at, so a line without a first word leaves the command of
      the line before. */
  method ReadCommand(line: string, cmd: string, ghost word: string) returns (now: string)
    requires '\0' !in line && |line| <= UINT_MAX && FirstWord(line, word)
    ensures now == if word == "" then cmd else word
  {
    hide ScanSpec.Sscanf, WellFormed;
    WordScan(line, word);
    var n, out := Sscanf.Vsscanf(line, WORD_FORMAT);
    now := if |out| > 0 then out[0].text else cmd;
  }

  // ---------------------------------------------------------------------------
  // TYPE
  // ---------------------------------------------------------------------------

  const TYPE_FORMAT: string := "%*s %c %s"

  lemma TypeFormat()
    ensures var f := TYPE_FORMAT;
            && |f| == 9 && f[0] == '%' && f[3] == ' ' && f[4] == '%' && f[6] == ' ' && f[7] == '%'
            && ParseSpec(f, 0) == Spec(Word(true, UINT_MAX), 3)
            && ParseSpec(f, 4) == Spec(Character(false, 1), 6)
            && ParseSpec(f, 7) == Spec(Word(false, UINT_MAX), 9)
            && WellFormed(f, 0) && WellFormed(f, 3) && WellFormed(f, 4) && WellFormed(f, 6) && WellFormed(f, 7)
  {
    Letters();
    hide ParseSpec, LETTERS;
    var f := TYPE_FORMAT;
    assert f[0..3] == "%" + Star(true) + ['s'] && f[4..6] == "%" + Star(false) + ['c'];
    assert f[7..9] == "%" + Star(false) + ['s'];
    PlainSpec(f, 0, true, 's');
    PlainSpec(f, 4, false, 'c');
    PlainSpec(f, 7, false, 's');
    assert WellFormed(f, 9);
    assert WellFormed(f, 7);
    assert WellFormed(f, 6);
    assert WellFormed(f, 4);
    assert WellFormed(f, 3);
  }

  /** The parts of a TYPE line: its first word, the white space behind that, what is left, which
      starts with the type character, and the word after that character. */
  ghost predicate TypeLine(line: string, word: string, gap: string, rest: string, form: string) {
    && FirstWord(line, word) && word != "" && line == word + gap + rest
    && (forall c | c in gap :: IsSpace(c)) && (rest == "" || !IsSpace(rest[0]))
    && (rest == "" ==> form == "")
    && (rest != "" ==> FormWord(rest, form))
  }

  lemma WordOf(line: string) returns (word: string)
    ensures FirstWord(line, word)
  {
    var e := Span(line, 0, |line|, NonSpace);
    word := line[..e];
    assert forall i | 0 <= i < e :: word[i] == line[i] && In(line[i], NonSpace);
  }

  /** Every line with a first word has such parts. */
  lemma TypeLineOf(line: string, word: string) returns (gap: string, rest: string, form: string)
    requires FirstWord(line, word) && word != ""
    ensures TypeLine(line, word, gap, rest, form)
  {
    var p := SkipSpace(line, |word|);
    gap, rest, form := line[|word|..p], line[p..], "";
    assert forall i | 0 <= i < |gap| :: gap[i] == line[|word| + i] && In(line[|word| + i], Space);
    assert line == word + gap + rest;
    if rest != "" { form := WordOf(rest[SkipSpace(rest, 1)..]); }
  }

  /** form is the next word after the first character. */
  ghost predicate FormWord(rest: string, form: string)
    requires rest != ""
  {
    FirstWord(rest[SkipSpace(rest, 1)..], form)
  }

  lemma TypeParts(line: string, word: string, gap: string, rest: string, form: string)
    requires TypeLine(line, word, gap, rest, form) && |line| <= UINT_MAX
    ensures |word| + |gap| <= |line| && SkipSpace(line, |word|) == |word| + |gap|
    ensures rest == "" <==> |word| + |gap| == |line|
    ensures rest != "" ==>
      var p := |word| + |gap|;
      var q := SkipSpace(line, p + 1);
      line[p] == rest[0] && q + |form| <= |line| && line[q..q + |form|] == form &&
      LongestRun(line, q, q + |form|, UINT_MAX, NonSpace)
  {
    hide IsSpace, Span, FirstWord;
    var p := |word| + |gap|;
    assert line == word + gap + rest;
    SpanOfPart(line, word, gap, rest, Space);
    if rest != "" {
      assert line[p..] == rest && line[p] == rest[0];
      SpaceBehind(line, p);
      var q := SkipSpace(line, p + 1);
      assert line[q..] == rest[q - p..];
      FirstWordIsRun(line[q..], form);
      RunBehind(line, q, |form|);
    }
  }

  lemma SpaceBehind(line: string, p: nat)
    requires p < |line|
    ensures SkipSpace(line, p + 1) == p + SkipSpace(line[p..], 1)
  {
    var t := line[p..];
    var e := SkipSpace(t, 1);
    assert forall i | 0 <= i < |t| :: t[i] == line[p + i];
    assert forall i | p + 1 <= i < p + e :: In(line[i], Space) by {
      forall i | p + 1 <= i < p + e ensures In(line[i], Space) { assert t[i - p] == line[i]; }
    }
    SpanUnique(line, p + 1, |line|, Space, p + e);
  }

  lemma RunBehind(line: string, q: nat, n: nat)
    requires q <= |line| <= UINT_MAX && LongestRun(line[q..], 0, n, UINT_MAX, NonSpace)
    ensures LongestRun(line, q, q + n, UINT_MAX, NonSpace) && line[q..q + n] == line[q..][0..n]
  {
    hide IsSpace;
    var t := line[q..];
    assert forall i | 0 <= i < |t| :: t[i] == line[q + i];
    assert forall i | q <= i < q + n :: In(line[i], NonSpace) by {
      forall i | q <= i < q + n ensures In(line[i], NonSpace) { assert t[i - q] == line[i]; }
    }
  }

  /** TYPE stores the type character if there is one, and then the format word if there is one. The
      word of the command itself is counted, so that the scan returns at least 1. */
  lemma {:induction false} TypeScan(line: string, word: string, gap: string, rest: string, form: string)
    requires TypeLine(line, word, gap, rest, form) && |line| <= UINT_MAX
    ensures WellFormed(TYPE_FORMAT, 0)
    ensures var r := ScanSpec.Sscanf(line, TYPE_FORMAT);
            && r.n == (if rest == "" then 1 else if form == "" then 2 else 3)
            && r.out == (if rest == "" then [] else [Chars([rest[0]])]) +
                        (if form == "" then [] else [ScanSpec.Value.Text(form)])
  {
    hide Convert, ParseSpec, WellFormed, Element, Run, LongestRun, SkipSpace, TypeLine, TYPE_FORMAT;
    TypeFormat();
    TypeParts(line, word, gap, rest, form);
    var f := TYPE_FORMAT;
    var start := Progress(0, 0, []);
    FirstOfType(line, word, gap, rest, form);
    ConversionElement(line, f, 0, start, Spec(Word(true, UINT_MAX), 3));
    WordMeaning(line, start, true, UINT_MAX, |word|);
    var first := Progress(|word|, 1, []);
    RunOnce(line, f, 0, start, 3, first);
    SpaceElement(line, f, 3, first);
    var at := first.(pos := |word| + |gap|);
    RunOnce(line, f, 3, first, 4, at);
    ConversionElement(line, f, 4, at, Spec(Character(false, 1), 6));
    CharacterMeaning(line, at, false, 1);
    if rest == "" {
      RunDone(line, f, 4, at);
    } else {
      assert line[at.pos..at.pos + 1] == [rest[0]];
      TypeRest(line, Progress(at.pos + 1, 2, [Chars([rest[0]])]), form);
      RunOnce(line, f, 4, at, 6, Progress(at.pos + 1, 2, [Chars([rest[0]])]));
    }
  }

  /** A line without a first word gives nothing. */
  lemma {:induction false} NoTypeScan(line: string)
    requires FirstWord(line, "") && |line| <= UINT_MAX
    ensures WellFormed(TYPE_FORMAT, 0)
    ensures var r := ScanSpec.Sscanf(line, TYPE_FORMAT);
            r.out == [] && r.n == if line == "" || line[0] == '\n' then -1 else 0
  {
    hide Convert, ParseSpec, WellFormed, Element, Run, LongestRun;
    TypeFormat();
    var start := Progress(0, 0, []);
    FirstWordIsRun(line, "");
    ConversionElement(line, TYPE_FORMAT, 0, start, Spec(Word(true, UINT_MAX), 3));
    WordMeaning(line, start, true, UINT_MAX, 0);
    RunDone(line, TYPE_FORMAT, 0, start);
  }

  lemma FirstOfType(line: string, word: string, gap: string, rest: string, form: string)
    requires TypeLine(line, word, gap, rest, form) && |line| <= UINT_MAX
    ensures LongestRun(line, 0, |word|, UINT_MAX, NonSpace) && word != ""
    ensures rest == "" ==> form == ""
  {
    FirstWordIsRun(line, word);
  }

  lemma TypeTail()
    ensures var f := TYPE_FORMAT;
            && |f| == 9 && IsSpace(f[6]) && f[7] == '%' && WellFormed(f, 6) && WellFormed(f, 7)
            && ParseSpec(f, 7) == Spec(Word(false, UINT_MAX), 9)
  {
    hide ParseSpec, WellFormed;
    TypeFormat();
  }

  lemma TypeRest(line: string, at: Progress, form: string)
    requires at.pos <= |line| <= UINT_MAX && at.n == 2
    requires var q := SkipSpace(line, at.pos);
             q + |form| <= |line| && line[q..q + |form|] == form &&
             LongestRun(line, q, q + |form|, UINT_MAX, NonSpace)
    ensures WellFormed(TYPE_FORMAT, 6)
    ensures var r := Run(line, TYPE_FORMAT, 6, at);
            && r.n == (if form == "" then 2 else 3)
            && r.out == at.out + if form == "" then [] else [ScanSpec.Value.Text(form)]
  {
    hide Convert, ParseSpec, WellFormed, Element, Run, LongestRun, SkipSpace, TYPE_FORMAT;
    TypeTail();
    var f := TYPE_FORMAT;
    SpaceElement(line, f, 6, at);
    var q := at.(pos := SkipSpace(line, at.pos));
    RunOnce(line, f, 6, at, 7, q);
    ConversionElement(line, f, 7, q, Spec(Word(false, UINT_MAX), 9));
    WordMeaning(line, q, false, UINT_MAX, q.pos + |form|);
    if form == "" {
      RunDone(line, f, 7, q);
    } else {
      var end := Progress(q.pos + |form|, 3, q.out + [ScanSpec.Value.Text(form)]);
      RunOnce(line, f, 7, q, 9, end);
      RunEnd(line, f, 9, end);
    }
  }

  datatype TypeReply = Okay200 | BadParameters504

  /** The reply: by the type character, by what was in data_type before when the line has none, and
      504 without a first word. */
  ghost predicate Replies(line: string, stale: char, reply: TypeReply) {
    && (FirstWord(line, "") ==> reply == BadParameters504)
    && (forall word, gap, rest, form | TypeLine(line, word, gap, rest, form) ::
          reply == if (if rest == "" then stale else rest[0]) in {'A', 'I'} then Okay200 else BadParameters504)
  }

  /** cmd_TYPE_func. stale is what the uninitialised data_type holds. */
  method CmdType(line: string, stale: char) returns (reply: TypeReply)
    requires '\0' !in line && |line| <= UINT_MAX
    ensures Replies(line, stale, reply)
  {
    hide *;
    TypeUsable();
    RightReply(line, stale);
    var n, out := Sscanf.Vsscanf(line, TYPE_FORMAT);
    var dataType := if |out| > 0 then out[0].chars[0] else stale;
    if n > 0 {
      reply := match dataType
        case 'A' => Okay200
        case 'I' => Okay200
        case _ => BadParameters504;
    } else {
      reply := BadParameters504;
    }
  }

  lemma TypeUsable()
    ensures WellFormed(TYPE_FORMAT, 0) && '\0' !in TYPE_FORMAT
  {
    hide WellFormed;
    TypeFormat();
  }

  lemma RightReply(line: string, stale: char)
    requires |line| <= UINT_MAX
    ensures WellFormed(TYPE_FORMAT, 0)
    ensures var r := ScanSpec.Sscanf(line, TYPE_FORMAT);
            && (|r.out| > 0 ==> r.out[0].Chars? && |r.out[0].chars| > 0)
            && var c := if |r.out| > 0 then r.out[0].chars[0] else stale;
            Replies(line, stale, if r.n > 0 && (c == 'A' || c == 'I') then Okay200 else BadParameters504)
  {
    hide ScanSpec.Sscanf, WellFormed, TypeLine, FirstWord, TYPE_FORMAT;
    TypeStored(line);
  }

  lemma TypeStored(line: string)
    requires |line| <= UINT_MAX
    ensures WellFormed(TYPE_FORMAT, 0)
    ensures var r := ScanSpec.Sscanf(line, TYPE_FORMAT);
            && (|r.out| > 0 ==> r.out[0].Chars? && |r.out[0].chars| > 0)
            && (FirstWord(line, "") ==> r.n <= 0)
            && forall word, gap, rest, form | TypeLine(line, word, gap, rest, form) ::
                 r.n > 0 && if rest == "" then r.out == [] else |r.out| > 0 && r.out[0] == Chars([rest[0]])
  {
    hide ScanSpec.Sscanf, WellFormed, TypeLine, FirstWord;
    TypeFormat();
    var w := WordOf(line);
    if w == "" { NoTypeScan(line); } else {
      var g, r, f := TypeLineOf(line, w);
      FirstOfType(line, w, g, r, f);
      TypeScan(line, w, g, r, f);
    }
    if FirstWord(line, "") { NoTypeScan(line); }
    forall word, gap, rest, form | TypeLine(line, word, gap, rest, form)
      ensures var r := ScanSpec.Sscanf(line, TYPE_FORMAT);
              r.n > 0 && if rest == "" then r.out == [] else |r.out| > 0 && r.out[0] == Chars([rest[0]])
    {
      FirstOfType(line, word, gap, rest, form);
      TypeScan(line, word, gap, rest, form);
    }
  }

  // ---------------------------------------------------------------------------
  // REST
  // ---------------------------------------------------------------------------

  const REST_FORMAT: string := "%*[^ ] %d"

  lemma RestFormat()
    ensures var f := REST_FORMAT;
            && |f| == 9 && f[0] == '%' && f[6] == ' ' && f[7] == '%'
            && ParseSpec(f, 0) == Spec(Set(true, UINT_MAX, true, " "), 6)
            && ParseSpec(f, 7) == Spec(Integer(false, UINT_MAX, 10, 32), 9)
            && WellFormed(f, 0) && WellFormed(f, 6) && WellFormed(f, 7)
  {
    hide ParseSpec;
    var f := REST_FORMAT;
    assert f[0..6] == Excluding(true, " ");
    ParseExcluding(f, 0, true, " ");
    ParseNumber(f, 7);
    assert WellFormed(f, 9);
    assert WellFormed(f, 7);
    assert WellFormed(f, 6);
  }

  /** Where a REST line's number is looked for: behind the characters up to a blank and the white
      space after them. */
  function NumberStart(line: string): (p: nat)
    ensures p <= |line|
  {
    SkipSpace(line, Span(line, 0, |line|, WORD))
  }

  /** The number of a REST line. */
  ghost predicate RestNumber(line: string, f: Found) {
    && line != "" && line[0] != ' '
    && IsIntegerItem(line, NumberStart(line), UINT_MAX, 10, f, NumberStart(line))
  }

  /** REST stores the number that stands there, as an int, and nothing if there is none. */
  lemma {:induction false} RestScan(line: string)
    requires |line| <= UINT_MAX
    ensures WellFormed(REST_FORMAT, 0)
    ensures var r := ScanSpec.Sscanf(line, REST_FORMAT);
            && ((forall f :: !RestNumber(line, f)) ==> r.out == [])
            && forall f | RestNumber(line, f) ::
                 f.Digits? && f.from <= f.end <= |line| &&
                 |r.out| == 1 && StoredModulo(r.out[0], 32, Signed(line, f))
  {
    hide Convert, ParseSpec, WellFormed, Element, Run, IsIntegerItem, StoredModulo, Signed, SkipSpace;
    RestFormat();
    var f := REST_FORMAT;
    var start := Progress(0, 0, []);
    ConversionElement(line, f, 0, start, Spec(Set(true, UINT_MAX, true, " "), 6));
    WordSkipped(line);
    if line == "" || line[0] == ' ' {
      RunDone(line, f, 0, start);
    } else {
      var word := Progress(Span(line, 0, |line|, WORD), 1, []);
      RunOnce(line, f, 0, start, 6, word);
      SpaceElement(line, f, 6, word);
      var at := word.(pos := NumberStart(line));
      RunOnce(line, f, 6, word, 7, at);
      SkippedTwice(line, word.pos);
      NumberLast(line, at);
      assert forall n :: RestNumber(line, n) <==> IsIntegerItem(line, at.pos, UINT_MAX, 10, n, at.pos);
    }
  }

  lemma SkippedTwice(line: string, p: nat)
    requires p <= |line|
    ensures SkipSpace(line, SkipSpace(line, p)) == SkipSpace(line, p)
  {}

  lemma NumberLast(line: string, at: Progress)
    requires at.pos <= |line| && at.out == [] && SkipSpace(line, at.pos) == at.pos
    ensures WellFormed(REST_FORMAT, 7)
    ensures var r := Run(line, REST_FORMAT, 7, at);
            && ((forall f :: !IsIntegerItem(line, at.pos, UINT_MAX, 10, f, at.pos)) ==> r.out == [])
            && forall f | IsIntegerItem(line, at.pos, UINT_MAX, 10, f, at.pos) ::
                 f.Digits? && f.from <= f.end <= |line| &&
                 |r.out| == 1 && StoredModulo(r.out[0], 32, Signed(line, f))
  {
    hide Convert, ParseSpec, WellFormed, Element, Run, IsIntegerItem, StoredModulo, Signed, SkipSpace;
    RestFormat();
    var c := Integer(false, UINT_MAX, 10, 32);
    ConversionElement(line, REST_FORMAT, 7, at, Spec(c, 9));
    IntegerConversion(line, at, false, UINT_MAX, 10, 32);
    var o := Convert(c, line, at);
    if o.Next? {
      RunOnce(line, REST_FORMAT, 7, at, 9, o.at);
      RunEnd(line, REST_FORMAT, 9, o.at);
    } else {
      FailedStoresNothing(c, line, at);
      RunDone(line, REST_FORMAT, 7, at);
    }
  }

  lemma FailedStoresNothing(c: Conv, line: string, at: Progress)
    requires at.pos <= |line| && c.Integer? && SpecOk(c)
    ensures Convert(c, line, at).Stop? ==> Convert(c, line, at).at.out == at.out
  {
    hide FindInteger, DigitsValue;
  }
}
