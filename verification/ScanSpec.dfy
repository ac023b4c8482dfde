/** Characters, digits and longest runs, as sscanf.c sees them. */
module ScanText {
  const EOF: int := -1

  /** isspace(): space, \t, \n, \v, \f, \r */
  predicate IsSpace(c: char) {
    c == ' ' || 9 <= c as int <= 13
  }

  /** The index of tolower(c) in "0123456789abc...z", or 36 when it is not there. */
  function DigitValue(c: char): nat {
    if '0' <= c <= '9' then c as int - '0' as int
    else if 'a' <= c <= 'z' then c as int - 'a' as int + 10
    else if 'A' <= c <= 'Z' then c as int - 'A' as int + 10
    else 36
  }

  predicate IsDigit(c: char, base: nat) {
    DigitValue(c) < base
  }

  /** The number a digit string denotes, without any bound. */
  function DigitsValue(t: string, base: nat): nat {
    if |t| == 0 then 0
    else DigitsValue(t[..|t| - 1], base) * base + DigitValue(t[|t| - 1])
  }
}

/** The reading of a scanlist, the part of %[...] between the brackets. */
module Scanset {
  /** '-' at i asks for a range unless it comes first or right after another operator. */
  predicate IsRange(list: string, i: int)
    requires i <= |list|
    decreases i
  {
    0 < i < |list| && list[i] == '-' && !IsRange(list, i - 1)
  }

  /** Position i of the list admits c: a literal admits itself, a range operator what lies
      between its neighbours, and an operator with nothing after it '-'. */
  predicate Admits(list: string, i: nat, c: char)
    requires i < |list|
  {
    if !IsRange(list, i) then c == list[i]
    else if i + 1 < |list| then list[i - 1] <= c <= list[i + 1]
    else c == '-'
  }

  predicate InSet(list: string, c: char) {
    exists i :: 0 <= i < |list| && Admits(list, i, c)
  }

  /** IN_SCANSET. previous is -1 when no range may start here. */
  method InScanset(list: string, rc: char) returns (found: bool)
    ensures found <==> InSet(list, rc)
  {
    var previous := -1;
    var i := 0;
    while i != |list|
      invariant 0 <= i <= |list|
      invariant forall j | 0 <= j < i :: !Admits(list, j, rc)
      invariant previous == -1 <==> i == 0 || IsRange(list, i - 1)
      invariant previous != -1 ==> previous == list[i - 1] as int
      decreases |list| - i
    {
      if list[i] == '-' && previous != -1 {
        assert IsRange(list, i);
        i := i + 1;
        if i == |list| {
          if rc == '-' { assert Admits(list, i - 1, rc); }
          return rc == '-';
        }
        ghost var from := previous;
        previous := previous + 1;
        while previous <= list[i] as int
          invariant from < previous
          invariant !(from < rc as int < previous)
          decreases list[i] as int - previous
        {
          if previous == rc as int {
            assert Admits(list, i - 1, rc);
            return true;
          }
          previous := previous + 1;
        }
        assert !Admits(list, i - 2, rc);
        previous := -1;
      } else {
        if rc == list[i] {
          assert Admits(list, i, rc);
          return true;
        }
        previous := list[i] as int;
        i := i + 1;
      }
    }
    return false;
  }
}

/** Classes of characters and the longest runs of them. */
module Runs {
  import opened ScanText
  import opened Scanset

  /** The sets of characters a conversion reads runs of. */
  datatype Class =
    | AnyChar | Space | NonSpace | DecimalDigit | NotBracket
    | DigitOf(base: nat)
    | Scanlist(list: string, negated: bool)

  predicate In(c: char, k: Class) {
    match k
    case AnyChar => true
    case Space => IsSpace(c)
    case NonSpace => !IsSpace(c)
    case DecimalDigit => '0' <= c <= '9'
    case NotBracket => c != ']'
    case DigitOf(base) => IsDigit(c, base)
    case Scanlist(list, negated) => InSet(list, c) != negated
  }

  /** Every character of s[p..e] is in k. */
  ghost predicate AllIn(s: string, p: nat, e: nat, k: Class) {
    p <= e <= |s| && forall i | p <= i < e :: In(s[i], k)
  }

  /** The end of the longest run from p of at most limit characters in k. */
  function Span(s: string, p: nat, limit: nat, k: Class): (e: nat)
    requires p <= |s|
    ensures AllIn(s, p, e, k) && e - p <= limit
    ensures e - p == limit || e == |s| || !In(s[e], k)
    decreases |s| - p
  {
    if limit == 0 || p == |s| || !In(s[p], k) then p else Span(s, p + 1, limit - 1, k)
  }

  lemma {:induction false} SpanUnique(s: string, p: nat, limit: nat, k: Class, e: nat)
    requires p <= |s| && AllIn(s, p, e, k) && e - p <= limit
    requires e - p == limit || e == |s| || !In(s[e], k)
    ensures Span(s, p, limit, k) == e
    decreases |s| - p
  {
    if p < e {
      SpanUnique(s, p + 1, limit - 1, k, e);
    }
  }
}

/** What one conversion and a whole format do to the cursor, the count and the arguments. */
module ScanSpec {
  import opened ScanText
  import opened Runs

  const UINT_MAX: nat := 0xffff_ffff

  /** What is stored through one pointer argument: the low `bits` bits of a number, a
      string with its terminator, or bare characters. */
  datatype Value = Number(residue: nat, bits: nat) | Text(text: string) | Chars(chars: string)

  /** The length modifiers. */
  datatype Length = NoLength | Hh | H | L | Ll | J | Z | T | LongDouble

  /** A parsed conversion specification. */
  datatype Conv =
    | Percent                                              // %%
    | Integer(suppressed: bool, width: nat, base: nat, bits: nat)  // bits == 0: nothing stores it
    | Character(suppressed: bool, width: nat)
    | Word(suppressed: bool, width: nat)
    | Set(suppressed: bool, width: nat, negated: bool, list: string)
    | Count
    | Float
    | Unclosed                                             // %[ without ]
    | Bad

  /** The conversion and the index of the format character after it. */
  datatype Spec = Spec(conv: Conv, next: nat)

  /** The format character at p; the terminator past the end. */
  function At(t: string, p: nat): char {
    if p < |t| then t[p] else '\0'
  }

  // ---------------------------------------------------------------------------
  // Parsing a specification: lines 128-231, 338-353
  // ---------------------------------------------------------------------------

  function DecimalEnd(fmt: string, p: nat): (e: nat)
    requires p <= |fmt|
    ensures p <= e <= |fmt|
  {
    Span(fmt, p, |fmt|, DecimalDigit)
  }

  /** The field width is what strtol() makes of the text, a 32-bit long that sticks at its limits,
      as an unsigned int; without digits there is no width. Returns the width and the index after
      it. */
  function Width(fmt: string, p: nat): (r: (nat, nat))
    requires p <= |fmt|
    ensures p <= r.1 <= |fmt|
  {
    var a := Span(fmt, p, |fmt|, Space);
    var b := if At(fmt, a) == '-' || At(fmt, a) == '+' then a + 1 else a;
    var e := DecimalEnd(fmt, b);
    if e == b then (UINT_MAX, p)
    else
      var v := DigitsValue(fmt[b..e], 10);
      if At(fmt, a) == '-' then ((-(if v > 0x8000_0000 then 0x8000_0000 else v)) % 0x1_0000_0000, e)
      else (if v > 0x7fff_ffff then 0x7fff_ffff else v, e)
  }

  /** The length modifier at p and the index after it. */
  function LengthAt(fmt: string, p: nat): (r: (Length, nat))
    requires p <= |fmt|
    ensures p <= r.1 <= |fmt|
  {
    match At(fmt, p)
    case 'h' => if At(fmt, p + 1) == 'h' then (Hh, p + 2) else (H, p + 1)
    case 'l' => if At(fmt, p + 1) == 'l' then (Ll, p + 2) else (L, p + 1)
    case 'j' => (J, p + 1)
    case 'z' => (Z, p + 1)
    case 't' => (T, p + 1)
    case 'L' => (LongDouble, p + 1)
    case _ => (NoLength, p)
  }

  /** The width in bits of the target of a signed or unsigned conversion (32-bit ARM), or 0
      for a combination that line 561 rejects: the flags of an unsigned z or t match no case. */
  function TargetBits(length: Length, unsigned: bool): (bits: nat)
    ensures IsTarget(bits)
  {
    match length
    case Hh => 8
    case H => 16
    case NoLength => 32
    case L => 32
    case Ll => 64
    case J => 64
    case Z => if unsigned then 0 else 32
    case T => if unsigned then 0 else 32
    case LongDouble => 32
  }

  /** %p adds the flag of l: only no modifier and l itself stay on a case that stores. */
  function PointerBits(length: Length): (bits: nat)
    ensures IsTarget(bits)
  {
    match length
    case NoLength => 32
    case L => 32
    case LongDouble => 32
    case _ => 0
  }

  /** The target sizes there are; 0 when no case of the switch stores. */
  predicate IsTarget(bits: nat) {
    bits == 0 || bits == 8 || bits == 16 || bits == 32 || bits == 64
  }

  predicate SpecOk(c: Conv) {
    c.Integer? ==> c.base <= 16 && IsTarget(c.bits)
  }

  /** The conversion specifier at c, after the length modifier. p is the '%'. */
  function SpecifierAt(fmt: string, p: nat, c: nat, suppressed: bool, width: nat, length: Length): (r: Spec)
    requires p < c <= |fmt|
    ensures SpecOk(r.conv)
    ensures !r.conv.Bad? ==> p + 1 <= r.next <= |fmt| && (!r.conv.Unclosed? ==> p + 1 < r.next)
  {
    match At(fmt, c)
    case 'd' => Spec(Integer(suppressed, width, 10, TargetBits(length, false)), c + 1)
    case 'i' => Spec(Integer(suppressed, width, 0, TargetBits(length, false)), c + 1)
    case 'o' => Spec(Integer(suppressed, width, 8, TargetBits(length, true)), c + 1)
    case 'u' => Spec(Integer(suppressed, width, 10, TargetBits(length, true)), c + 1)
    case 'x' => Spec(Integer(suppressed, width, 16, TargetBits(length, true)), c + 1)
    case 'p' => Spec(Integer(suppressed, width, 16, PointerBits(length)), c + 1)
    case 'f' => Spec(Float, c + 1)
    case 'F' => Spec(Float, c + 1)
    case 'e' => Spec(Float, c + 1)
    case 'E' => Spec(Float, c + 1)
    case 'g' => Spec(Float, c + 1)
    case 'G' => Spec(Float, c + 1)
    case 'a' => Spec(Float, c + 1)
    case 'A' => Spec(Float, c + 1)
    case 'c' => Spec(Character(suppressed, if width == UINT_MAX then 1 else width), c + 1)
    case 's' => Spec(Word(suppressed, width), c + 1)
    case 'n' => Spec(Count, c + 1)
    case '[' =>
      var negated := At(fmt, c + 1) == '^';
      var from := if negated then c + 2 else c + 1;
      if from >= |fmt| then Spec(Unclosed, |fmt|)
      else
        var close := Span(fmt, from + 1, |fmt|, NotBracket);
        if close == |fmt| then Spec(Unclosed, |fmt|)
        else Spec(Set(suppressed, width, negated, fmt[from..close]), close + 1)
    case _ => Spec(Bad, p)
  }

  /** Parses the specification whose '%' is at p. */
  function ParseSpec(fmt: string, p: nat): (r: Spec)
    requires p < |fmt|
    ensures SpecOk(r.conv)
    ensures !r.conv.Bad? ==> p + 1 <= r.next <= |fmt| && (!r.conv.Unclosed? ==> p + 1 < r.next)
  {
    if At(fmt, p + 1) == '%' then Spec(Percent, p + 2)
    else
      var suppressed := At(fmt, p + 1) == '*';
      var a := if suppressed then p + 2 else p + 1;
      var (width, b) := Width(fmt, a);
      var (length, c) := LengthAt(fmt, b);
      SpecifierAt(fmt, p, c, suppressed, width, length)
  }

  /** No specification met on the way through the format runs past its end. */
  predicate WellFormed(fmt: string, f: nat)
    requires f <= |fmt|
    decreases |fmt| - f
  {
    f == |fmt| ||
    if fmt[f] == '%' && !ParseSpec(fmt, f).conv.Bad? then
      !ParseSpec(fmt, f).conv.Unclosed? && WellFormed(fmt, ParseSpec(fmt, f).next)
    else WellFormed(fmt, f + 1)
  }

  // ---------------------------------------------------------------------------
  // Conversions
  // ---------------------------------------------------------------------------

  /** The integer found in the input: digits s[from..end] of a base, negated or not. When
      there is none, where the cursor stops and whether input ran out. */
  datatype Found =
    | Digits(negative: bool, base: nat, from: nat, end: nat)
    | NoDigits(end: nat, exhausted: bool)

  predicate IsX(c: char) {
    c == 'x' || c == 'X'
  }

  /** The digits from q on; `given` when the prefix already supplied one. */
  function FindDigits(s: string, q: nat, limit: nat, base: nat, negative: bool, given: bool): (r: Found)
    requires q <= |s|
    ensures q <= r.end <= |s| && (r.Digits? ==> q <= r.from <= r.end)
  {
    var e := Span(s, q, limit, DigitOf(base));
    if given || e > q then Digits(negative, base, q, e)
    else NoDigits(q, limit > 0 && q == |s|)
  }

  /** After the sign: the base prefix, then the digits. limit characters remain. */
  function FindPrefixed(s: string, p: nat, limit: nat, base: nat, negative: bool): (r: Found)
    requires p <= |s|
    ensures p <= r.end <= |s| && (r.Digits? ==> p <= r.from <= r.end)
  {
    if limit == 0 || p == |s| then NoDigits(p, limit > 0)
    else if IsSpace(s[p]) then NoDigits(p, false)
    else if s[p] != '0' then FindDigits(s, p, limit, if base == 0 then 10 else base, negative, false)
    else if limit == 1 || p + 1 == |s| then Digits(negative, base, p + 1, p + 1)
    else if IsX(s[p + 1]) then
      if base == 0 || base == 16 then FindDigits(s, p + 2, limit - 2, 16, negative, false)
      else FindDigits(s, p + 1, limit - 1, base, negative, true)
    else FindDigits(s, p + 1, limit - 1, if base == 0 then 8 else base, negative, true)
  }

  function SkipSpace(s: string, p: nat): (e: nat)
    requires p <= |s|
    ensures p <= e <= |s|
  {
    Span(s, p, |s|, Space)
  }

  /** Leading white space, which the width does not count, an optional sign, the rest. */
  function FindInteger(s: string, p: nat, width: nat, base: nat): (r: Found)
    requires p <= |s|
    ensures p <= r.end <= |s| && (r.Digits? ==> p <= r.from <= r.end)
  {
    if width == 0 then NoDigits(p, true)
    else
      var a := SkipSpace(s, p);
      if a == |s| then NoDigits(a, true)
      else if s[a] == '-' then FindPrefixed(s, a + 1, width - 1, base, true)
      else if s[a] == '+' then FindPrefixed(s, a + 1, width - 1, base, false)
      else FindPrefixed(s, a, width, base, false)
  }

  /** The low bits of the number, as the cast to the target type keeps them. */
  function Residue(negative: bool, value: nat, bits: nat): nat
    requires IsTarget(bits) && bits != 0
  {
    var m := Modulus(bits);
    var v: int := if negative then -(value as int) else value;
    v % m
  }

  function Modulus(bits: nat): (m: nat)
    requires IsTarget(bits) && bits != 0
    ensures m > 0 && 0x1_0000_0000_0000_0000 % m == 0
  {
    if bits == 8 then 0x100 else if bits == 16 then 0x1_0000
    else if bits == 32 then 0x1_0000_0000 else 0x1_0000_0000_0000_0000
  }

  /** The cursor, the number of conversions (-1 after an input error), what was stored. */
  datatype Progress = Progress(pos: nat, n: int, out: seq<Value>)

  /** One conversion: the format goes on, or scanning stops. */
  datatype Outcome = Next(at: Progress) | Stop(at: Progress)

  /** An input error counts as EOF only before the first conversion. */
  function InputError(n: int): int {
    if n == 0 then EOF else n
  }

  function Stored(out: seq<Value>, suppressed: bool, v: Value): seq<Value> {
    if suppressed then out else out + [v]
  }

  function Convert(c: Conv, s: string, at: Progress): (r: Outcome)
    requires at.pos <= |s| && SpecOk(c) && !c.Percent? && !c.Bad? && !c.Unclosed?
    ensures at.pos <= r.at.pos <= |s|
  {
    var p := at.pos;
    match c
    case Character(suppressed, width) =>
      var e := Span(s, p, width, AnyChar);
      if e > p then Next(Progress(e, at.n + 1, Stored(at.out, suppressed, Chars(s[p..e]))))
      else Stop(at.(n := InputError(at.n)))
    case Word(suppressed, width) =>
      var e := Span(s, p, width, NonSpace);
      if e > p then Next(Progress(e, at.n + 1, Stored(at.out, suppressed, Text(s[p..e]))))
      else if width > 0 && p < |s| then Stop(at)
      else Stop(at.(n := InputError(at.n)))
    case Set(suppressed, width, negated, list) =>
      var e := Span(s, p, width, Scanlist(list, negated));
      if e > p then Next(Progress(e, at.n + 1, Stored(at.out, suppressed, Text(s[p..e]))))
      else if width > 0 && p < |s| then Stop(at)
      else Stop(at.(n := EOF))
    case Integer(suppressed, width, base, bits) =>
      (match FindInteger(s, p, width, base)
       case NoDigits(e, exhausted) =>
         Stop(Progress(e, if exhausted then InputError(at.n) else at.n, at.out))
       case Digits(negative, b, q, e) =>
         if suppressed then Next(at.(pos := e))
         else if bits == 0 then Stop(at.(pos := e))
         else Next(Progress(e, at.n + 1, at.out + [Number(Residue(negative, DigitsValue(s[q..e], b), bits), bits)])))
    case Count => Next(at.(out := at.out + [Number(p % 0x1_0000_0000, 32)]))
    case Float => Stop(at)
  }

  // ---------------------------------------------------------------------------
  // The format
  // ---------------------------------------------------------------------------

  /** A character of the format that must appear in the input. */
  function Literal(c: char, s: string, at: Progress): (r: Outcome)
    requires at.pos <= |s|
    ensures at.pos <= r.at.pos <= |s|
  {
    if at.pos < |s| && s[at.pos] == c then Next(at.(pos := at.pos + 1))
    else if at.pos == |s| then Stop(at.(n := InputError(at.n)))
    else Stop(at)
  }

  /** Lines 619-621: no conversion and a line feed ahead also count as end of input. */
  function AfterStop(s: string, at: Progress): Progress {
    if At(s, at.pos) == '\n' && at.n == 0 then at.(n := EOF) else at
  }

  /** After one element of the format: where to go on, or the end. */
  datatype Step = Go(f: nat, at: Progress) | Done(at: Progress)

  function GoOrAfter(o: Outcome, f: nat, s: string): Step {
    match o
    case Next(to) => Go(f, to)
    case Stop(to) => Done(AfterStop(s, to))
  }

  function GoOrDone(o: Outcome, f: nat): Step {
    match o
    case Next(to) => Go(f, to)
    case Stop(to) => Done(to)
  }

  /** At a specification. */
  function SpecStep(spec: Spec, s: string, at: Progress): (r: Step)
    requires at.pos <= |s| && SpecOk(spec.conv) && !spec.conv.Bad? && !spec.conv.Unclosed?
    ensures at.pos <= r.at.pos <= |s| && (r.Go? ==> r.f == spec.next)
  {
    if spec.conv.Percent? then GoOrDone(Literal('%', s, at), spec.next)
    else GoOrAfter(Convert(spec.conv, s, at), spec.next, s)
  }

  /** At another character, c at f of the format. */
  function PlainStep(c: char, f: nat, s: string, at: Progress): (r: Step)
    requires at.pos <= |s|
    ensures at.pos <= r.at.pos <= |s| && (r.Go? ==> r.f == f + 1)
  {
    if IsSpace(c) then Go(f + 1, at.(pos := SkipSpace(s, at.pos)))
    else GoOrDone(Literal(c, s, at), f + 1)
  }

  /** One turn of the loop at line 589. */
  function Element(s: string, fmt: string, f: nat, at: Progress): (r: Step)
    requires f < |fmt| && at.pos <= |s| && WellFormed(fmt, f)
    ensures at.pos <= r.at.pos <= |s|
    ensures r.Go? ==> f < r.f <= |fmt| && WellFormed(fmt, r.f)
  {
    if fmt[f] == '%' && !ParseSpec(fmt, f).conv.Bad? then SpecStep(ParseSpec(fmt, f), s, at)
    else PlainStep(fmt[f], f, s, at)
  }

  /** vsscanf from position f of the format. */
  function Run(s: string, fmt: string, f: nat, at: Progress): (r: Progress)
    requires f <= |fmt| && at.pos <= |s| && WellFormed(fmt, f)
    ensures at.pos <= r.pos <= |s|
    decreases |fmt| - f
  {
    if f == |fmt| then at
    else
      match Element(s, fmt, f, at)
      case Go(f', to) => Run(s, fmt, f', to)
      case Done(to) => to
  }

  /** The value sscanf returns and what it stores. */
  function Sscanf(s: string, fmt: string): Progress
    requires WellFormed(fmt, 0)
  {
    Run(s, fmt, 0, Progress(0, 0, []))
  }
}
