/** What the parts of a format mean: a printed conversion specification is parsed as what was
    printed, each conversion takes the longest run there is, and other text stands for itself. */
module ScanFormats {
  import opened ScanText
  import opened Scanset
  import opened Runs
  import opened ScanSpec
  import opened ScanProps

  // ---------------------------------------------------------------------------
  // Printed specifications
  // ---------------------------------------------------------------------------

  function LengthText(l: Length): string {
    match l
    case NoLength => ""
    case Hh => "hh"
    case H => "h"
    case L => "l"
    case Ll => "ll"
    case J => "j"
    case Z => "z"
    case T => "t"
    case LongDouble => "L"
  }

  function WidthText(w: Option<nat>): string {
    match w
    case None => ""
    case Some(n) => DecimalNat(n)
  }

  /** The width that strtol makes of it. */
  function WidthOf(w: Option<nat>): nat {
    match w
    case None => UINT_MAX
    case Some(n) => if n <= 0x7fff_ffff then n else 0x7fff_ffff
  }

  function SpecText(suppressed: bool, w: Option<nat>, l: Length, c: char): string {
    "%" + (Star(suppressed) + (WidthText(w) + (LengthText(l) + [c])))
  }

  /** The size of the integer type that the modifier names, on 32-bit ARM. */
  function SizeOf(l: Length): nat {
    match l
    case Hh => 8
    case H => 16
    case Ll => 64
    case J => 64
    case _ => 32
  }

  /** t comes next in the format. */
  ghost predicate Comes(fmt: string, p: nat, t: string) {
    p + |t| <= |fmt| && fmt[p..p + |t|] == t
  }

  lemma ComesParts(fmt: string, p: nat, t: string, u: string)
    requires Comes(fmt, p, t + u)
    ensures Comes(fmt, p, t) && Comes(fmt, p + |t|, u)
    ensures forall i | 0 <= i < |t| :: fmt[p + i] == t[i]
  {
    var s := fmt[p..p + |t + u|];
    assert fmt[p..p + |t|] == s[..|t|];
    assert fmt[p + |t|..p + |t| + |u|] == s[|t|..];
    assert forall i | 0 <= i < |t| :: s[i] == fmt[p + i];
  }

  lemma WidthReads(fmt: string, p: nat, w: Option<nat>, rest: string)
    requires Comes(fmt, p, WidthText(w) + rest) && rest != ""
    requires !IsDigit(rest[0], 10) && !IsSpace(rest[0]) && rest[0] != '-' && rest[0] != '+'
    ensures Width(fmt, p) == (WidthOf(w), p + |WidthText(w)|)
  {
    hide IsSpace, DecimalNat, DigitsValue;
    var t := WidthText(w);
    ComesParts(fmt, p, t, rest);
    var e := p + |t|;
    assert fmt[e] == rest[0] by { assert fmt[e..e + |rest|][0] == rest[0]; }
    if w.Some? {
      DecimalNatValue(w.value);
      assert fmt[p] == t[0];
      DigitNoSpace(t[0]);
      assert forall i | p <= i < e :: In(fmt[i], DecimalDigit) by {
        forall i | p <= i < e ensures In(fmt[i], DecimalDigit) { assert fmt[p + (i - p)] == t[i - p]; }
      }
    }
    SpanUnique(fmt, p, |fmt|, Space, p);
    SpanUnique(fmt, p, |fmt|, DecimalDigit, e);
    assert fmt[p..e] == t;
  }

  lemma DigitNoSpace(c: char)
    requires IsDigit(c, 10)
    ensures !IsSpace(c) && c != '-' && c != '+' && c != '%' && c != '*'
  {}

  /** The letters of the conversions that take no scanlist. */
  const LETTERS: string := "diouxpfFeEgGaAcsn"

  lemma NoModifier(c: char)
    requires c in LETTERS
    ensures c != 'h' && c != 'l' && c != 'j' && c != 'z' && c != 't' && c != 'L'
  {}

  lemma LengthReads(fmt: string, p: nat, l: Length, c: char)
    requires Comes(fmt, p, LengthText(l) + [c]) && c in LETTERS
    ensures LengthAt(fmt, p) == (l, p + |LengthText(l)|)
    ensures p + |LengthText(l)| < |fmt| && fmt[p + |LengthText(l)|] == c
  {
    hide LETTERS;
    NoModifier(c);
    ComesParts(fmt, p, LengthText(l), [c]);
    var q := p + |LengthText(l)|;
    assert fmt[q] == fmt[q..q + 1][0] == c;
    assert l != NoLength ==> fmt[p + 0] == LengthText(l)[0];
    assert l == Hh || l == Ll ==> fmt[p + 1] == LengthText(l)[1];
  }

  /** What a printed specification means. */
  function Meaning(suppressed: bool, w: Option<nat>, l: Length, c: char): Conv
    requires c in LETTERS
  {
    var width := WidthOf(w);
    if c in "di" then Integer(suppressed, width, if c == 'd' then 10 else 0, SizeOf(l))
    else if c in "oux" then
      Integer(suppressed, width, if c == 'o' then 8 else if c == 'u' then 10 else 16,
              if l in {Z, T} then 0 else SizeOf(l))
    else if c == 'p' then Integer(suppressed, width, 16, if l in {NoLength, L, LongDouble} then 32 else 0)
    else if c == 's' then Word(suppressed, width)
    else if c == 'c' then Character(suppressed, if width == UINT_MAX then 1 else width)
    else if c == 'n' then Count
    else Float
  }

  lemma SpecifierReads(fmt: string, f: nat, p: nat, suppressed: bool, w: Option<nat>, l: Length, c: char)
    requires f < p < |fmt| && fmt[p] == c && c in LETTERS
    ensures SpecifierAt(fmt, f, p, suppressed, WidthOf(w), l) == Spec(Meaning(suppressed, w, l, c), p + 1)
  {}

  lemma ParseInParts(fmt: string, f: nat, suppressed: bool, width: nat, b: nat, l: Length, p: nat)
    requires f + 1 < |fmt| && fmt[f + 1] != '%' && (fmt[f + 1] == '*' <==> suppressed)
    requires var a := if suppressed then f + 2 else f + 1; a <= b <= |fmt| && Width(fmt, a) == (width, b)
    requires f < b <= p <= |fmt| && LengthAt(fmt, b) == (l, p)
    ensures ParseSpec(fmt, f) == SpecifierAt(fmt, f, p, suppressed, width, l)
  {
    hide Width, LengthAt, SpecifierAt;
  }

  function Star(suppressed: bool): string {
    if suppressed then "*" else ""
  }

  /** Where the width of a printed specification starts. */
  lemma SpecStarts(fmt: string, f: nat, suppressed: bool, w: Option<nat>, l: Length, c: char)
    requires Comes(fmt, f, SpecText(suppressed, w, l, c)) && c in LETTERS
    ensures var a := f + 1 + |Star(suppressed)|;
            && Comes(fmt, a, WidthText(w) + (LengthText(l) + [c]))
            && f + 1 < |fmt| && fmt[f + 1] != '%' && (fmt[f + 1] == '*' <==> suppressed)
  {
    hide WidthText, LengthText, LETTERS;
    var star, rest := Star(suppressed), LengthText(l) + [c];
    ComesParts(fmt, f, "%", star + (WidthText(w) + rest));
    ComesParts(fmt, f + 1, star, WidthText(w) + rest);
    AfterWidth(l, c);
    FirstOfRest(fmt, f + 1 + |star|, w, rest);
    assert suppressed ==> fmt[f + 1 + 0] == star[0];
  }

  /** A printed specification is parsed as what was printed, wherever it stands in a format. */
  lemma {:induction false} SpecReadsBack(
      fmt: string, f: nat, suppressed: bool, w: Option<nat>, l: Length, c: char)
    requires Comes(fmt, f, SpecText(suppressed, w, l, c)) && c in LETTERS
    ensures ParseSpec(fmt, f) == Spec(Meaning(suppressed, w, l, c), f + |SpecText(suppressed, w, l, c)|)
  {
    hide Width, WidthOf, WidthText, LengthAt, LengthText, SpecifierAt, ParseSpec, Meaning, IsSpace, Comes, LETTERS;
    var rest := LengthText(l) + [c];
    var a := f + 1 + |Star(suppressed)|;
    SpecStarts(fmt, f, suppressed, w, l, c);
    AfterWidth(l, c);
    WidthReads(fmt, a, w, rest);
    ComesParts(fmt, a, WidthText(w), rest);
    var b := a + |WidthText(w)|;
    LengthReads(fmt, b, l, c);
    ParseInParts(fmt, f, suppressed, WidthOf(w), b, l, b + |LengthText(l)|);
    SpecifierReads(fmt, f, b + |LengthText(l)|, suppressed, w, l, c);
  }

  lemma AfterWidth(l: Length, c: char)
    requires c in LETTERS
    ensures var rest := LengthText(l) + [c];
            rest != "" && !IsDigit(rest[0], 10) && !IsSpace(rest[0]) && rest[0] !in "-+%*"
  {}

  /** What follows the '*' or the '%' is neither. */
  lemma FirstOfRest(fmt: string, a: nat, w: Option<nat>, rest: string)
    requires Comes(fmt, a, WidthText(w) + rest) && rest != "" && rest[0] !in "-+%*"
    ensures a < |fmt| && fmt[a] != '%' && fmt[a] != '*'
  {
    ComesParts(fmt, a, WidthText(w), rest);
    assert fmt[a + |WidthText(w)|..a + |WidthText(w)| + |rest|][0] == rest[0];
    if w.Some? {
      DecimalNatValue(w.value);
      DigitNoSpace(WidthText(w)[0]);
      assert fmt[a] == WidthText(w)[0];
    }
  }

  // ---------------------------------------------------------------------------
  // Conversions of text
  // ---------------------------------------------------------------------------

  /** s[p..e] is the longest run of the class that the width admits. */
  ghost predicate LongestRun(s: string, p: nat, e: nat, width: nat, k: Class) {
    AllIn(s, p, e, k) && e - p <= width && (e - p == width || e == |s| || !In(s[e], k))
  }

  /** The conversion is counted and stores v, unless it is suppressed. */
  predicate Takes(o: Outcome, at: Progress, e: nat, suppressed: bool, v: Value) {
    && o.Next? && o.at.pos == e && o.at.n == at.n + 1
    && (if suppressed then o.at.out == at.out else o.at.out == at.out + [v])
  }

  /** The scan stops where it is, with that count. */
  predicate Fails(o: Outcome, at: Progress, n: int) {
    o == Stop(Progress(at.pos, n, at.out))
  }

  /** %s takes the longest run without white space, and fails if there is none: an input error when
      there was nothing to read. */
  lemma {:induction false} WordMeaning(s: string, at: Progress, suppressed: bool, width: nat, e: nat)
    requires at.pos <= |s| && LongestRun(s, at.pos, e, width, NonSpace)
    ensures var o := Convert(Word(suppressed, width), s, at);
            if e > at.pos then Takes(o, at, e, suppressed, Text(s[at.pos..e]))
            else Fails(o, at, if (at.pos == |s| || width == 0) && at.n == 0 then -1 else at.n)
  {
    SpanUnique(s, at.pos, width, NonSpace, e);
  }

  /** %[ takes the longest run of characters in the list, or with ^ outside it; with nothing to read
      it gives EOF whatever was counted before. */
  lemma {:induction false} SetMeaning(
      s: string, at: Progress, suppressed: bool, width: nat, negated: bool, list: string, e: nat)
    requires at.pos <= e <= |s| && e - at.pos <= width
    requires forall i | at.pos <= i < e :: InSet(list, s[i]) != negated
    requires e - at.pos == width || e == |s| || InSet(list, s[e]) == negated
    ensures var o := Convert(Set(suppressed, width, negated, list), s, at);
            if e > at.pos then Takes(o, at, e, suppressed, Text(s[at.pos..e]))
            else Fails(o, at, if at.pos == |s| || width == 0 then -1 else at.n)
  {
    hide InSet;
    SpanUnique(s, at.pos, width, Scanlist(list, negated), e);
  }

  /** %c takes as many characters as its width says, or what there is, whatever they are, and stores
      them without a terminator. */
  lemma {:induction false} CharacterMeaning(s: string, at: Progress, suppressed: bool, width: nat)
    requires at.pos <= |s|
    ensures var o := Convert(Character(suppressed, width), s, at);
            var e := if at.pos + width <= |s| then at.pos + width else |s|;
            if e > at.pos then Takes(o, at, e, suppressed, Chars(s[at.pos..e]))
            else Fails(o, at, if at.n == 0 then -1 else at.n)
  {
    SpanUnique(s, at.pos, width, AnyChar, if at.pos + width <= |s| then at.pos + width else |s|);
  }

  /** Where an integer conversion that finds no number stops: behind the white space, the sign and a
      0x without digits, as far as the width lets it read. */
  function StopsAt(s: string, p: nat, width: nat, base: nat): (r: (nat, bool))
    requires p <= |s|
  {
    var a := SkipSpace(s, p);
    if width == 0 then (p, true)
    else if a == |s| then (a, true)
    else
      var signed := s[a] == '-' || s[a] == '+';
      var b, limit := if signed then a + 1 else a, if signed then width - 1 else width;
      var e := if limit == 0 then b else PrefixAt(s, b, limit, base).end;
      (e, e == |s| && e - b < limit)
  }

  /** An integer conversion that fails stores nothing. Without a number it is an input error if the
      input ran out; with one that has no target it stops behind the number. */
  lemma {:induction false} IntegerFails(
      s: string, at: Progress, suppressed: bool, width: nat, base: nat, bits: nat)
    requires at.pos <= |s| && SpecOk(Integer(suppressed, width, base, bits))
    ensures var o := Convert(Integer(suppressed, width, base, bits), s, at);
            var a := SkipSpace(s, at.pos);
            && ((forall f :: !IsIntegerItem(s, at.pos, width, base, f, a)) ==>
                  var (e, exhausted) := StopsAt(s, at.pos, width, base);
                  e <= |s| && o == Stop(Progress(e, if exhausted && at.n == 0 then -1 else at.n, at.out)))
            && (forall f | IsIntegerItem(s, at.pos, width, base, f, a) && !suppressed && bits == 0 ::
                  f.Digits? && f.end <= |s| && o == Stop(at.(pos := f.end)))
  {
    hide FindInteger, IsIntegerItem, StopsAt, Residue, DigitsValue, Span;
    var found := FindInteger(s, at.pos, width, base);
    forall f | IsIntegerItem(s, at.pos, width, base, f, SkipSpace(s, at.pos))
      ensures found == f && f.Digits? && f.from <= f.end <= |s|
    {
      ItemHasDigits(s, at.pos, width, base, f, SkipSpace(s, at.pos));
      IntegerItemIff(s, at.pos, width, base, f);
    }
    if found.Digits? {
      IntegerItem(s, at.pos, width, base);
    } else {
      StopsThere(s, at.pos, width, base);
    }
  }

  lemma StopsThere(s: string, p: nat, width: nat, base: nat)
    requires p <= |s| && FindInteger(s, p, width, base).NoDigits?
    ensures StopsAt(s, p, width, base) ==
            (FindInteger(s, p, width, base).end, FindInteger(s, p, width, base).exhausted)
  {
    hide Span, FindPrefixed, PrefixAt;
    var a := SkipSpace(s, p);
    if width > 0 && a < |s| {
      if s[a] == '-' || s[a] == '+' {
        PrefixedStops(s, a + 1, width - 1, base, s[a] == '-');
      } else {
        PrefixedStops(s, a, width, base, false);
      }
    }
  }

  lemma PrefixedStops(s: string, b: nat, limit: nat, base: nat, negative: bool)
    requires b <= |s|
    ensures var r := FindPrefixed(s, b, limit, base, negative);
            r.NoDigits? ==>
              var e := if limit == 0 then b else PrefixAt(s, b, limit, base).end;
              r.end == e && r.exhausted == (e == |s| && e - b < limit)
  {
    hide Span;
  }

  // ---------------------------------------------------------------------------
  // Other text
  // ---------------------------------------------------------------------------

  /** Text as it is written in a format. */
  function Escaped(t: string): string {
    if t == "" then "" else (if t[0] == '%' then "%%" else [t[0]]) + Escaped(t[1..])
  }

  /** How many characters of t stand at p. */
  function Common(s: string, p: nat, t: string): (k: nat)
    requires p <= |s|
    ensures k <= |t| && p + k <= |s| && forall i | 0 <= i < k :: s[p + i] == t[i]
    ensures k == |t| || p + k == |s| || s[p + k] != t[k]
    decreases |t|
  {
    if t == "" || p == |s| || s[p] != t[0] then 0 else 1 + Common(s, p + 1, t[1..])
  }

  lemma OneLiteral(s: string, fmt: string, f: nat, at: Progress, c: char, after: string)
    requires f <= |fmt| && fmt[f..] == Escaped([c]) + after && WellFormed(fmt, f) && at.pos <= |s| && !IsSpace(c)
    ensures var g := f + |Escaped([c])|;
            && g <= |fmt| && fmt[g..] == after && WellFormed(fmt, g) && f < |fmt|
            && Element(s, fmt, f, at) ==
                 if at.pos < |s| && s[at.pos] == c then Go(g, at.(pos := at.pos + 1))
                 else Done(at.(n := if at.pos == |s| && at.n == 0 then -1 else at.n))
  {
    var t := fmt[f..];
    assert t[0] == fmt[f];
    var g := f + |Escaped([c])|;
    assert fmt[g..] == t[|Escaped([c])|..];
    if c == '%' {
      assert t[1] == fmt[f + 1];
      hide Convert, AfterStop, Width, LengthAt, SpecifierAt;
      assert ParseSpec(fmt, f) == Spec(Percent, f + 2);
    } else {
      hide Convert, AfterStop, ParseSpec;
    }
  }

  /** Text in a format is matched character by character: the scan goes on behind it if all of it
      stands in the input, and otherwise stops at the first character that does not. */
  lemma {:induction false} TextMatches(s: string, fmt: string, f: nat, at: Progress, t: string, after: string)
    requires f <= |fmt| && fmt[f..] == Escaped(t) + after && WellFormed(fmt, f) && at.pos <= |s|
    requires forall c | c in t :: !IsSpace(c)
    ensures var k, g := Common(s, at.pos, t), f + |Escaped(t)|;
            && g <= |fmt| && WellFormed(fmt, g) && fmt[g..] == after
            && Run(s, fmt, f, at) ==
                 if k == |t| then Run(s, fmt, g, at.(pos := at.pos + k))
                 else at.(pos := at.pos + k, n := if at.pos + k == |s| && at.n == 0 then -1 else at.n)
    decreases |t|
  {
    hide WellFormed, Element, IsSpace;
    if t != "" {
      var c := t[0];
      EscapedSplit(t, after);
      assert c in t && forall d | d in t[1..] :: d in t;
      OneLiteral(s, fmt, f, at, c, Escaped(t[1..]) + after);
      var g := f + |Escaped([c])|;
      if at.pos < |s| && s[at.pos] == c {
        RunOnce(s, fmt, f, at, g, at.(pos := at.pos + 1));
        TextMatches(s, fmt, g, at.(pos := at.pos + 1), t[1..], after);
      } else {
        RunDone(s, fmt, f, at);
        TextWellFormed(fmt, g, t[1..], after);
      }
    }
  }

  lemma EscapedSplit(t: string, after: string)
    requires t != ""
    ensures Escaped(t) + after == Escaped([t[0]]) + (Escaped(t[1..]) + after)
    ensures |Escaped(t)| == |Escaped([t[0]])| + |Escaped(t[1..])|
  {
    hide Escaped;
    EscapedFirst(t);
    Grouped(Escaped([t[0]]), Escaped(t[1..]), after);
  }

  lemma EscapedFirst(t: string)
    requires t != ""
    ensures Escaped([t[0]]) == if t[0] == '%' then "%%" else [t[0]]
    ensures Escaped(t) == Escaped([t[0]]) + Escaped(t[1..])
  {
    assert [t[0]][1..] == "" && Escaped("") == "";
  }

  lemma Grouped(a: string, b: string, c: string)
    ensures (a + b) + c == a + (b + c)
  {}

  lemma {:induction false} TextWellFormed(fmt: string, f: nat, t: string, after: string)
    requires f <= |fmt| && fmt[f..] == Escaped(t) + after && WellFormed(fmt, f)
    requires forall c | c in t :: !IsSpace(c)
    ensures var g := f + |Escaped(t)|; g <= |fmt| && WellFormed(fmt, g) && fmt[g..] == after
    decreases |t|
  {
    hide WellFormed, IsSpace, Element;
    if t != "" {
      EscapedSplit(t, after);
      assert t[0] in t && forall d | d in t[1..] :: d in t;
      OneLiteral("", fmt, f, Progress(0, 0, []), t[0], Escaped(t[1..]) + after);
      TextWellFormed(fmt, f + |Escaped([t[0]])|, t[1..], after);
    }
  }

  lemma {:induction false} EscapedWellFormed(fmt: string, f: nat, t: string, after: string)
    requires f <= |fmt| && fmt[f..] == Escaped(t) + after
    requires f + |Escaped(t)| <= |fmt| ==> WellFormed(fmt, f + |Escaped(t)|)
    ensures WellFormed(fmt, f)
    decreases |t|
  {
    hide Width, LengthAt, SpecifierAt;
    if t != "" {
      EscapedSplit(t, after);
      var g := f + |Escaped([t[0]])|;
      var rest := fmt[f..];
      assert rest[0] == fmt[f] && fmt[g..] == rest[|Escaped([t[0]])|..] == Escaped(t[1..]) + after;
      EscapedWellFormed(fmt, g, t[1..], after);
      if t[0] == '%' {
        assert rest[1] == fmt[f + 1];
        assert ParseSpec(fmt, f) == Spec(Percent, f + 2);
      }
    }
  }

  lemma CountText()
    ensures 'n' in LETTERS && SpecText(false, None, NoLength, 'n') == "%n"
    ensures Meaning(false, None, NoLength, 'n') == Count
  {
    assert LETTERS[16] == 'n';
  }

  lemma CountSpec(fmt: string, f: nat)
    requires f <= |fmt| && fmt[f..] == "%n"
    ensures f + 2 == |fmt| && fmt[f] == '%' && ParseSpec(fmt, f) == Spec(Count, f + 2) && WellFormed(fmt, f)
  {
    hide ParseSpec, LETTERS, SpecText, Meaning;
    CountText();
    assert fmt[f..f + 2] == fmt[f..];
    SpecReadsBack(fmt, f, false, None, NoLength, 'n');
    assert WellFormed(fmt, f + 2);
    assert fmt[f] == fmt[f..][0];
  }

  /** %n stores how many characters were read, and does not count as a conversion. */
  lemma {:induction false} CountsText(t: string, rest: string)
    requires forall c | c in t :: !IsSpace(c)
    ensures WellFormed(Escaped(t) + "%n", 0)
    ensures Sscanf(t + rest, Escaped(t) + "%n") == Progress(|t|, 0, [Number(|t| % 0x1_0000_0000, 32)])
  {
    hide WellFormed, IsSpace, ParseSpec, Element, Run, Escaped;
    var s, fmt := t + rest, Escaped(t) + "%n";
    var g, at := |Escaped(t)|, Progress(|t|, 0, []);
    assert fmt[0..] == fmt && fmt[g..] == "%n";
    CountSpec(fmt, g);
    EscapedWellFormed(fmt, 0, t, "%n");
    TextMatches(s, fmt, 0, Progress(0, 0, []), t, "%n");
    CommonAll(t, rest);
    ConversionElement(s, fmt, g, at, Spec(Count, g + 2));
    var end := Progress(|t|, 0, [Number(|t| % 0x1_0000_0000, 32)]);
    RunOnce(s, fmt, g, at, g + 2, end);
    RunEnd(s, fmt, g + 2, end);
  }

  lemma CommonAll(t: string, rest: string)
    ensures Common(t + rest, 0, t) == |t|
  {
    assert forall i | 0 <= i < |t| :: (t + rest)[i] == t[i];
  }

  // ---------------------------------------------------------------------------
  // Digits
  // ---------------------------------------------------------------------------

  const DIGITS: string := "0123456789abcdefghijklmnopqrstuvwxyz"

  function ToLower(c: char): char {
    if 'A' <= c <= 'Z' then (c as int + 32) as char else c
  }

  /** A digit's value is where tolower() of it stands in the table of digits; the x of a prefix may be
      of either case. */
  lemma {:induction false} DigitsByTable(c: char)
    ensures if DigitValue(c) < 36 then DIGITS[DigitValue(c)] == ToLower(c) else ToLower(c) !in DIGITS
    ensures IsX(c) <==> ToLower(c) == 'x'
  {
    TableHolds(ToLower(c));
    TableInOrder(DigitValue(c));
  }

  lemma TableInOrder(k: nat)
    ensures k < 10 ==> DIGITS[k] as int == '0' as int + k
    ensures 10 <= k < 36 ==> DIGITS[k] as int == 'a' as int + k - 10
  {}

  lemma TableHolds(d: char)
    ensures d in DIGITS ==> DigitValue(d) < 36
  {
    if d in DIGITS {
      var k :| 0 <= k < 36 && DIGITS[k] == d;
      hide DIGITS;
      TableInOrder(k);
    }
  }

  function DigitAt(k: nat): char
    requires k < 36
  {
    DIGITS[k]
  }

  /** The bases that conversions resolve to. */
  type Base = b: nat | b == 8 || b == 10 || b == 16 witness 10

  function Quotient(n: nat, base: Base): (q: nat)
    ensures n >= base ==> q < n
    ensures q * base + Remainder(n, base) == n
  {
    if base == 8 then n / 8 else if base == 10 then n / 10 else n / 16
  }

  function Remainder(n: nat, base: Base): (r: nat)
    ensures r < base && (n < base ==> r == n)
  {
    if base == 8 then n % 8 else if base == 10 then n % 10 else n % 16
  }

  /** n in that base, without leading zeros. */
  function InBase(n: nat, base: Base): (t: string)
    ensures |t| > 0
  {
    if n < base then [DigitAt(n)] else InBase(Quotient(n, base), base) + [DigitAt(Remainder(n, base))]
  }

  lemma DigitOfTable(k: nat)
    requires k < 36
    ensures DigitValue(DigitAt(k)) == k
  {}

  lemma OneMoreDigit(t: string, c: char, base: nat)
    ensures DigitsValue(t + [c], base) == DigitsValue(t, base) * base + DigitValue(c)
  {
    hide DigitValue;
    assert (t + [c])[..|t|] == t;
  }

  /** A number printed in its base has that value, and its digits are digits. */
  lemma {:induction false} InBaseValue(n: nat, base: Base)
    ensures DigitsValue(InBase(n, base), base) == n
    ensures forall c | c in InBase(n, base) :: IsDigit(c, base)
  {
    hide DigitValue, DigitsValue, DigitAt, Quotient, Remainder;
    var r := Remainder(n, base);
    DigitOfTable(r);
    if n < base {
      assert "" + [DigitAt(n)] == [DigitAt(n)];
      OneMoreDigit("", DigitAt(n), base);
      NoDigitsValue(base);
    } else {
      InBaseValue(Quotient(n, base), base);
      OneMoreDigit(InBase(Quotient(n, base), base), DigitAt(r), base);
    }
  }

  lemma NoDigitsValue(base: nat)
    ensures DigitsValue("", base) == 0
  {}

  // ---------------------------------------------------------------------------
  // Scanlists
  // ---------------------------------------------------------------------------

  /** What a scanlist is written from. */
  datatype Item = One(c: char) | Range(lo: char, hi: char)

  predicate Plain(i: Item) {
    match i
    case One(c) => c != '-'
    case Range(lo, hi) => lo != '-' && hi != '-'
  }

  function ItemText(i: Item): string {
    match i
    case One(c) => [c]
    case Range(lo, hi) => [lo, '-', hi]
  }

  function ListText(items: seq<Item>): string {
    if items == [] then "" else ItemText(items[0]) + ListText(items[1..])
  }

  /** The ends of a range belong to it even when they are the wrong way round. */
  predicate ItemAdmits(i: Item, c: char) {
    match i
    case One(d) => c == d
    case Range(lo, hi) => lo <= c <= hi || c == lo || c == hi
  }

  lemma {:induction false} RangeInFront(a: string, b: string, i: nat)
    requires i < |a|
    ensures IsRange(a + b, i) == IsRange(a, i)
  {
    if i > 0 { RangeInFront(a, b, i - 1); }
  }

  lemma {:induction false} RangeBehind(a: string, b: string, j: nat)
    requires j < |b| && b[0] != '-'
    ensures IsRange(a + b, |a| + j) == IsRange(b, j)
  {
    if j > 0 { RangeBehind(a, b, j - 1); }
  }

  /** Lists that do not meet in a '-' admit what either admits. */
  lemma {:induction false} SetOfBoth(a: string, b: string, c: char)
    requires (a == "" || a[|a| - 1] != '-') && (b == "" || b[0] != '-')
    ensures InSet(a + b, c) <==> InSet(a, c) || InSet(b, c)
  {
    hide IsRange;
    forall i | 0 <= i < |a| ensures Admits(a + b, i, c) == Admits(a, i, c) {
      RangeInFront(a, b, i);
      if i == |a| - 1 { NoOperator(a, i); }
    }
    forall j | 0 <= j < |b| ensures Admits(a + b, |a| + j, c) == Admits(b, j, c) {
      RangeBehind(a, b, j);
      if j == 0 { NoOperator(b, j); }
    }
    if InSet(a + b, c) {
      var i :| 0 <= i < |a + b| && Admits(a + b, i, c);
      assert i >= |a| ==> Admits(b, i - |a|, c);
    }
    if InSet(b, c) {
      var j :| 0 <= j < |b| && Admits(b, j, c);
      assert Admits(a + b, |a| + j, c);
    }
    if InSet(a, c) {
      var i :| 0 <= i < |a| && Admits(a, i, c);
      assert Admits(a + b, i, c);
    }
  }

  lemma NoOperator(list: string, i: nat)
    requires i < |list| && list[i] != '-'
    ensures !IsRange(list, i)
  {}

  lemma SetOfItem(i: Item, c: char)
    requires Plain(i)
    ensures InSet(ItemText(i), c) <==> ItemAdmits(i, c)
  {
    var t := ItemText(i);
    match i
    case One(d) => assert Admits(t, 0, c) <==> c == d;
    case Range(lo, hi) =>
      assert !IsRange(t, 0) && IsRange(t, 1) && !IsRange(t, 2);
      assert Admits(t, 0, c) <==> c == lo;
      assert Admits(t, 1, c) <==> lo <= c <= hi;
      assert Admits(t, 2, c) <==> c == hi;
  }

  lemma {:induction false} ListEnds(items: seq<Item>)
    requires forall i | i in items :: Plain(i)
    ensures ListText(items) != "" ==> ListText(items)[0] != '-'
    ensures items != [] ==> ItemText(items[0])[|ItemText(items[0])| - 1] != '-'
  {
    if items != [] { assert items[0] in items; }
  }

  /** A scanlist written from characters and ranges admits what they admit, and nothing else. */
  lemma {:induction false} SetOfItems(items: seq<Item>, c: char)
    requires forall i | i in items :: Plain(i)
    ensures InSet(ListText(items), c) <==> exists i :: i in items && ItemAdmits(i, c)
    decreases |items|
  {
    hide InSet, ItemAdmits, ItemText, Plain;
    if items == [] {
      NothingAdmitted(c);
    } else {
      assert items[0] in items && forall i | i in items[1..] :: i in items;
      ListEnds(items);
      ListEnds(items[1..]);
      SetOfItem(items[0], c);
      SetOfItems(items[1..], c);
      SetOfBoth(ItemText(items[0]), ListText(items[1..]), c);
      assert forall i | i in items :: i == items[0] || i in items[1..];
    }
  }

  lemma NothingAdmitted(c: char)
    ensures !InSet("", c)
  {}

  /** A '-' at the end of the list stands for itself. */
  lemma {:induction false} DashAtEnd(a: string, c: char)
    requires a != "" && a[|a| - 1] != '-'
    ensures InSet(a + "-", c) <==> InSet(a, c) || c == '-'
  {
    hide IsRange;
    var list := a + "-";
    NoOperator(a, |a| - 1);
    RangeInFront(a, "-", |a| - 1);
    LastIsOperator(list);
    forall i | 0 <= i < |a| ensures Admits(list, i, c) == Admits(a, i, c) {
      RangeInFront(a, "-", i);
    }
    assert Admits(list, |a|, c) <==> c == '-';
    if InSet(a, c) {
      var i :| 0 <= i < |a| && Admits(a, i, c);
      assert Admits(list, i, c);
    }
  }

  lemma LastIsOperator(list: string)
    requires |list| > 1 && list[|list| - 1] == '-' && !IsRange(list, |list| - 2)
    ensures IsRange(list, |list| - 1)
  {}
}
