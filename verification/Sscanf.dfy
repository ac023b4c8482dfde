/** sscanf.c: the format interpreter over a cursor with push-back, proved against the
    longest-run reading of ScanSpec. */
module Sscanf {
  import opened ScanText
  import opened Scanset
  import opened Runs
  import opened ScanSpec

  /** status_t. The input is s; the cursor is kept as an index into it. */
  class Status {
    const s: string
    var pos: nat       // status->s - start of the input
    var i: nat         // characters read in all
    var current: nat   // characters read in the current conversion
    var width: nat
    var base: nat
    var n: int         // matched conversions, EOF after an input error
    var out: seq<Value>

    /** The cursor is always start + i and never passes the terminator. */
    ghost predicate Valid()
      reads this
    {
      i == pos <= |s|
    }

    ghost function Now(): Progress
      reads this
    {
      Progress(pos, n, out)
    }

    constructor (input: string)
      ensures Valid() && s == input && Now() == Progress(0, 0, [])
    {
      s := input;
      pos, i, current, width, base := 0, 0, 0, 0, 0;
      n := 0;
      out := [];
    }

    /** GET: the next character, or EOF at the terminator, which stays unread. */
    method Get() returns (rc: int)
      requires Valid()
      modifies this`pos, this`i, this`current
      ensures Valid()
      ensures old(pos) == |s| ==> rc == EOF && pos == old(pos) && current == old(current)
      ensures old(pos) < |s| ==> rc == s[old(pos)] as int && pos == old(pos) + 1 && current == old(current) + 1
    {
      if pos == |s| {
        rc := EOF;
      } else {
        rc := s[pos] as int;
        pos := pos + 1;
        i := i + 1;
        current := current + 1;
      }
    }

    /** UNGET: exactly what a successful GET did, undone. */
    method Unget()
      requires Valid() && pos > 0 && current > 0
      modifies this`pos, this`i, this`current
      ensures Valid()
      ensures pos == old(pos) - 1 && current == old(current) - 1
    {
      pos := pos - 1;
      i := i - 1;
      current := current - 1;
    }

    /** Lines 442-478: the character just read is the first after the sign. Settles the
        base, and says whether a digit was read and whether input or width ran out. */
    method ReadPrefix(negative: bool, ghost found: Found) returns (parsed: bool, stop: bool)
      requires Valid() && 0 < pos && 0 < current <= width && base <= 16 && !IsSpace(s[pos - 1])
      requires found == FindPrefixed(s, pos - 1, width - current + 1, base, negative)
      modifies this`pos, this`i, this`current, this`base
      ensures Valid() && base <= 16 && current <= width && pos >= old(pos) - 1
      ensures stop ==> parsed && base == old(base) && found == Digits(negative, base, pos, pos)
      ensures !stop ==> found == FindDigits(s, pos, width - current, base, negative, parsed)
    {
      hide FindDigits;
      parsed, stop := false, false;
      if s[pos - 1] != '0' {
        if base == 0 { base := 10; }
        Unget();
      } else if current < width {
        var next := Get();
        if next == EOF {
          parsed, stop := true, true;
        } else if IsX(s[pos - 1]) {
          if base == 0 || base == 16 {
            base := 16;
          } else {
            Unget();
            parsed := true;
          }
        } else {
          Unget();
          if base == 0 { base := 8; }
          parsed := true;
        }
      } else {
        parsed, stop := true, true;
      }
    }

    /** Lines 410-491: the integer state machine. Returns whether a value was parsed, its
        absolute value in 64-bit arithmetic, its sign and the last character seen. */
    method ReadInteger() returns (parsed: bool, value: nat, sign: int, rc: int)
      requires Valid() && current == 0 && base <= 16
      modifies this`pos, this`i, this`current, this`base
      ensures Valid()
      ensures Agrees(FindInteger(s, old(pos), width, old(base)), s, pos, parsed, value, sign, rc)
    {
      hide FindInteger, FindDigits, FindPrefixed, DigitPhase, DigitsValue;
      parsed, value, sign, rc := false, 0, 0, EOF;
      var prefixed := false;
      ghost var found := FindInteger(s, pos, width, base);
      // where the digits start, how many may follow, and whether the prefix gave one
      ghost var settled := false;  // the loop was left by a break
      ghost var q: nat, limit: nat, given: bool := pos, 0, false;
      while current < width
        invariant Valid()
        invariant sign == -1 || sign == 0 || sign == 1
        invariant !prefixed ==> !parsed && value == 0
        invariant sign == 0 ==> !prefixed && current == 0 && found == FindInteger(s, pos, width, base)
        invariant width == 0 ==> sign == 0 && rc == EOF
        invariant sign != 0 ==> rc != EOF && current <= width
        invariant sign != 0 && !prefixed ==>
          found == FindPrefixed(s, pos, width - current, base, sign == -1)
        invariant base <= 16 && !settled
        invariant prefixed ==>
          sign != 0 && DigitPhase(found, s, q, limit, base, sign == -1, given, pos, width - current, parsed, value)
        decreases if sign == 0 then 2 else if !prefixed then 1 else 0, |s| - pos
      {
        rc := Get();
        if rc == EOF {
          if prefixed {
            EndOfDigits(found, s, q, limit, base, sign == -1, given, pos, width - current, parsed, value);
          } else if sign != 0 {
            NothingAfterSign(s, pos, width - current, base, sign == -1);
          } else {
            NothingAtAll(s, pos, width, base);
          }
          settled := true;
          break;
        }
        var c := s[pos - 1];
        if IsSpace(c) {
          if sign != 0 {
            Unget();
            if prefixed {
              NoSpaceDigit(c, base);
              EndOfDigits(found, s, q, limit, base, sign == -1, given, pos, width - current, parsed, value);
            } else {
              NothingAfterSign(s, pos, width - current, base, sign == -1);
            }
            settled := true;
            break;
          }
          SpaceSkipped(s, pos - 1, width, base);
          current := current - 1;
        } else if sign == 0 {
          SignAhead(s, pos - 1, width, base);
          if c == '-' {
            sign := -1;
          } else if c == '+' {
            sign := 1;
          } else {
            sign := 1;
            Unget();
          }
        } else if !prefixed {
          var stop;
          parsed, stop := ReadPrefix(sign == -1, found);
          if stop {
            EmptyValue(s, pos, base);
            settled := true;
            break;
          }
          prefixed := true;
          q, limit, given := pos, width - current, parsed;
          StartOfDigits(found, s, q, limit, base, sign == -1, given);
        } else {
          if !IsDigit(c, base) {
            Unget();
            EndOfDigits(found, s, q, limit, base, sign == -1, given, pos, width - current, parsed, value);
            settled := true;
            break;
          }
          OneMoreDigit(found, s, q, limit, base, sign == -1, given, pos - 1, width - current + 1, parsed, value);
          value := (value * base % WRAP + DigitValue(c)) % WRAP;
          parsed := true;
        }
      }
      if !settled {
        if prefixed {
          EndOfDigits(found, s, q, limit, base, sign == -1, given, pos, 0, parsed, value);
        } else if sign == 0 {
          NothingAtAll(s, pos, width, base);
        } else {
          NothingAfterSign(s, pos, 0, base, sign == -1);
        }
      }
    }

    /** The loops of %c and %s: reads while width and input last and the
        character is in k, pushing back the one that is not. rc is the last one seen. */
    method ReadRun(k: Class) returns (text: string, rc: int)
      requires Valid() && current == 0
      modifies this`pos, this`i, this`current
      ensures Valid()
      ensures pos == Span(s, old(pos), width, k) && text == s[old(pos)..pos]
      ensures text == "" ==> (rc == EOF <==> width == 0 || old(pos) == |s|)
    {
      text, rc := "", EOF;
      ghost var start := pos;
      while current < width
        invariant Valid()
        invariant AllIn(s, start, pos, k) && current == pos - start <= width
        invariant text == s[start..pos]
        invariant width == 0 ==> rc == EOF
        decreases |s| - pos
      {
        rc := Get();
        if rc == EOF { break; }
        var c := s[pos - 1];
        if !In(c, k) {
          Unget();
          break;
        }
        text := text + [c];
      }
      SpanUnique(s, start, width, k, pos);
    }

    /** The loop of %[, line 359. */
    method ReadSet(list: string, negated: bool) returns (text: string, rc: int)
      requires Valid() && current == 0
      modifies this`pos, this`i, this`current
      ensures Valid()
      ensures pos == Span(s, old(pos), width, Scanlist(list, negated)) && text == s[old(pos)..pos]
      ensures text == "" ==> (rc == EOF <==> width == 0 || old(pos) == |s|)
    {
      text, rc := "", EOF;
      ghost var k := Scanlist(list, negated);
      ghost var start := pos;
      while current < width
        invariant Valid()
        invariant AllIn(s, start, pos, k) && current == pos - start <= width
        invariant text == s[start..pos]
        invariant width == 0 ==> rc == EOF
        decreases |s| - pos
      {
        rc := Get();
        if rc == EOF { break; }
        var c := s[pos - 1];
        var found := InScanset(list, c);
        if found == negated {
          Unget();
          break;
        }
        text := text + [c];
      }
      SpanUnique(s, start, width, k, pos);
    }

    /** Lines 597-600. */
    method SkipSpaces()
      requires Valid()
      modifies this`pos, this`i
      ensures Valid() && pos == SkipSpace(s, old(pos))
    {
      ghost var start := pos;
      while pos < |s| && IsSpace(s[pos])
        invariant Valid() && AllIn(s, start, pos, Space)
      {
        pos := pos + 1;
        i := i + 1;
      }
      SpanUnique(s, start, |s|, Space, pos);
    }

    /** Lines 594-613: white space in the format skips white space, another character c has to stand in
        the input; ret is what is returned when it does not. */
    method Verbatim(c: char, ghost f: nat) returns (matched: bool, ret: int)
      requires Valid()
      modifies this`pos, this`i
      ensures Valid() && (!matched ==> Now() == old(Now()))
      ensures PlainStep(c, f, s, old(Now())) == if matched then Go(f + 1, Now()) else Done(Now().(n := ret))
    {
      matched, ret := true, n;
      if IsSpace(c) {
        SkipSpaces();
      } else if pos == |s| || s[pos] != c {
        matched := false;
        if pos == |s| && n == 0 { ret := EOF; }
      } else {
        pos := pos + 1;
        i := i + 1;
      }
    }

    /** `if (status->n == 0) status->n = -1` */
    method NoInput()
      modifies this`n
      ensures n == InputError(old(n))
    {
      if n == 0 { n := EOF; }
    }

    method Store(suppressed: bool, v: Value)
      modifies this`out
      ensures out == Stored(old(out), suppressed, v)
    {
      if !suppressed { out := out + [v]; }
    }

    /** Lines 265-292. */
    method PerformCharacter(suppressed: bool, w: nat) returns (ok: bool)
      requires Valid()
      modifies this
      ensures Valid()
      ensures (if ok then Next(Now()) else Stop(Now())) == Convert(Character(suppressed, w), s, old(Now()))
    {
      current, width := 0, w;
      var text, rc := ReadRun(AnyChar);
      ok := text != "";
      if ok {
        Store(suppressed, Chars(text));
        n := n + 1;
      } else {
        NoInput();
      }
    }

    /** Lines 293-337. */
    method PerformWord(suppressed: bool, w: nat) returns (ok: bool)
      requires Valid()
      modifies this
      ensures Valid()
      ensures (if ok then Next(Now()) else Stop(Now())) == Convert(Word(suppressed, w), s, old(Now()))
    {
      current, width := 0, w;
      var text, rc := ReadRun(NonSpace);
      ok := text != "";
      if ok {
        Store(suppressed, Text(text));
        n := n + 1;
      } else if rc == EOF {
        NoInput();
      }
    }

    /** Lines 338-390, with IN_SCANSET deciding each character. */
    method PerformSet(suppressed: bool, w: nat, negated: bool, list: string) returns (ok: bool)
      requires Valid()
      modifies this
      ensures Valid()
      ensures (if ok then Next(Now()) else Stop(Now())) == Convert(Set(suppressed, w, negated, list), s, old(Now()))
    {
      current, width := 0, w;
      var text, rc := ReadSet(list, negated);
      ok := text != "";
      if ok {
        Store(suppressed, Text(text));
        n := n + 1;
      } else if rc == EOF {
        n := EOF;
      }
    }

    /** The switch at line 231, for a specification already parsed. Returns whether the
        format goes on. */
    method Perform(c: Conv) returns (ok: bool)
      requires Valid() && SpecOk(c) && !c.Percent? && !c.Bad? && !c.Unclosed?
      modifies this
      ensures Valid()
      ensures (if ok then Next(Now()) else Stop(Now())) == Convert(c, s, old(Now()))
    {
      match c
      case Character(suppressed, w) =>
        hide Convert;
        ok := PerformCharacter(suppressed, w);
      case Word(suppressed, w) =>
        hide Convert;
        ok := PerformWord(suppressed, w);
      case Set(suppressed, w, negated, list) =>
        hide Convert;
        ok := PerformSet(suppressed, w, negated, list);
      case Integer(suppressed, w, b, bits) =>
        hide Convert;
        current, width, base := 0, w, b;
        ok := PerformInteger(suppressed, bits);
      case Count =>
        Store(false, Number(i % 0x1_0000_0000, 32));
        ok := true;
      case Float =>
        ok := false;
    }

    /** Lines 410-568. */
    method PerformInteger(suppressed: bool, bits: nat) returns (ok: bool)
      requires Valid() && current == 0 && base <= 16 && IsTarget(bits)
      modifies this
      ensures Valid()
      ensures (if ok then Next(Now()) else Stop(Now())) ==
              Convert(Integer(suppressed, old(width), old(base), bits), s, old(Now()))
    {
      hide FindInteger, DigitsValue;
      var parsed, value, sign, rc := ReadInteger();
      if !parsed {
        if rc == EOF { NoInput(); }
        return false;
      }
      if suppressed { return true; }
      if bits == 0 { return false; }
      var m := Modulus(bits);
      // value * sign in uintmax_t, cast to the target type
      var stored := (value * (if sign == -1 then WRAP - 1 else 1)) % WRAP % m;
      ghost var f := FindInteger(s, old(pos), width, old(base));
      CastKeepsResidue(DigitsValue(s[f.from..f.end], f.base), value, f.negative, bits);
      out := out + [Number(stored, bits)];
      n := n + 1;
      ok := true;
    }

    /** scan(): the specification whose '%' is at p. Returns the index after it, p itself
        for what is no specification, or -1 when scanning stops. */
    method Scan(fmt: string, p: nat) returns (r: int)
      requires Valid() && p < |fmt| && fmt[p] == '%' && !ParseSpec(fmt, p).conv.Unclosed?
      modifies this
      ensures Valid()
      ensures ScanResult(ParseSpec(fmt, p), s, p, r, old(Now()), Now())
    {
      var spec := Parse(fmt, p);
      if spec.conv.Percent? {
        var c := Get();
        if c == EOF {
          NoInput();
          r := -1;
        } else if c == '%' as int {
          r := spec.next;
        } else {
          Unget();
          r := p;
        }
      } else if spec.conv.Bad? {
        r := p;
      } else {
        hide Convert, ParseSpec;
        var ok := Perform(spec.conv);
        r := if ok then spec.next else -1;
      }
    }
  }

  /** The steps of the `spec` pointer in scan(), with strtol() as Width. */
  method Parse(fmt: string, p: nat) returns (r: Spec)
    requires p < |fmt| && fmt[p] == '%' && !ParseSpec(fmt, p).conv.Unclosed?
    ensures r == ParseSpec(fmt, p)
  {
    var spec := p + 1;
    if At(fmt, spec) == '%' { return Spec(Percent, spec + 1); }
    var suppressed := false;
    if At(fmt, spec) == '*' {
      suppressed := true;
      spec := spec + 1;
    }
    var (width, afterWidth) := Width(fmt, spec);
    spec := afterWidth;
    var length;
    length, spec := ParseLength(fmt, spec);
    hide LengthAt, Width, SpecifierAt;
    r := ParseSpecifier(fmt, p, spec, suppressed, width, length);
  }

  /** The switch at line 231 as far as it reads the format. */
  method ParseSpecifier(fmt: string, p: nat, spec: nat, suppressed: bool, width: nat, length: Length) returns (r: Spec)
    requires p < spec <= |fmt| && !SpecifierAt(fmt, p, spec, suppressed, width, length).conv.Unclosed?
    ensures r == SpecifierAt(fmt, p, spec, suppressed, width, length)
  {
    match At(fmt, spec) {
      case 'd' => r := Spec(Integer(suppressed, width, 10, TargetBits(length, false)), spec + 1);
      case 'i' => r := Spec(Integer(suppressed, width, 0, TargetBits(length, false)), spec + 1);
      case 'o' => r := Spec(Integer(suppressed, width, 8, TargetBits(length, true)), spec + 1);
      case 'u' => r := Spec(Integer(suppressed, width, 10, TargetBits(length, true)), spec + 1);
      case 'x' => r := Spec(Integer(suppressed, width, 16, TargetBits(length, true)), spec + 1);
      case 'p' => r := Spec(Integer(suppressed, width, 16, PointerBits(length)), spec + 1);
      case 'f' => r := Spec(Float, spec + 1);
      case 'F' => r := Spec(Float, spec + 1);
      case 'e' => r := Spec(Float, spec + 1);
      case 'E' => r := Spec(Float, spec + 1);
      case 'g' => r := Spec(Float, spec + 1);
      case 'G' => r := Spec(Float, spec + 1);
      case 'a' => r := Spec(Float, spec + 1);
      case 'A' => r := Spec(Float, spec + 1);
      case 'c' =>
        r := Spec(Character(suppressed, if width == UINT_MAX then 1 else width), spec + 1);
      case 's' => r := Spec(Word(suppressed, width), spec + 1);
      case 'n' => r := Spec(Count, spec + 1);
      case '[' =>
        var negated := At(fmt, spec + 1) == '^';
        var list, next := ParseList(fmt, if negated then spec + 2 else spec + 1);
        r := Spec(Set(suppressed, width, negated, list), next);
      case _ => r := Spec(Bad, p);
    }
  }

  /** Lines 177-223. */
  method ParseLength(fmt: string, p: nat) returns (length: Length, spec: nat)
    requires p <= |fmt|
    ensures (length, spec) == LengthAt(fmt, p)
  {
    length, spec := NoLength, p + 1;
    match At(fmt, p) {
      case 'h' =>
        if At(fmt, spec) == 'h' { length, spec := Hh, spec + 1; } else { length := H; }
      case 'l' =>
        if At(fmt, spec) == 'l' { length, spec := Ll, spec + 1; } else { length := L; }
      case 'j' => length := J;
      case 'z' => length := Z;
      case 't' => length := T;
      case 'L' => length := LongDouble;
      case _ => spec := spec - 1;
    }
  }

  /** Lines 347-352: the scanlist that starts at `from`, and the index after its ']'. The
      first character belongs to the list whatever it is. */
  method ParseList(fmt: string, from: nat) returns (list: string, next: nat)
    requires from < |fmt| && Span(fmt, from + 1, |fmt|, NotBracket) < |fmt|
    ensures var close := Span(fmt, from + 1, |fmt|, NotBracket);
            list == fmt[from..close] && next == close + 1
  {
    var end := from + 1;
    ghost var close := Span(fmt, from + 1, |fmt|, NotBracket);
    while At(fmt, end) != ']'
      invariant from < end <= close
      decreases close - end
    {
      end := end + 1;
    }
    list, next := fmt[from..end], end + 1;
  }

  /** What scan() returns and leaves behind, by specification. */
  ghost predicate ScanResult(spec: Spec, s: string, p: nat, r: int, was: Progress, now: Progress)
    requires was.pos <= |s| && SpecOk(spec.conv)
  {
    match spec.conv
    case Unclosed => true
    case Bad => r == p && now == was
    case Percent =>
      if was.pos == |s| then r == -1 && now == was.(n := InputError(was.n))
      else if s[was.pos] == '%' then r == spec.next && now == was.(pos := was.pos + 1)
      else r == p && now == was
    case _ =>
      match Convert(spec.conv, s, was)
      case Next(to) => r == spec.next && now == to
      case Stop(to) => r == -1 && now == to
  }

  lemma PercentStep(s: string, f: nat, at: Progress)
    requires at.pos <= |s|
    ensures PlainStep('%', f, s, at) == GoOrDone(Literal('%', s, at), f + 1)
  {}

  /** vsscanf() */
  method Vsscanf(s: string, fmt: string) returns (n: int, out: seq<Value>)
    requires '\0' !in s && '\0' !in fmt && WellFormed(fmt, 0)
    ensures n == Sscanf(s, fmt).n && out == Sscanf(s, fmt).out
  {
    hide Convert, ParseSpec, PlainStep;
    var status := new Status(s);
    var f := 0;
    while f < |fmt|
      invariant f <= |fmt| && WellFormed(fmt, f) && status.Valid() && status.s == s && fresh(status)
      invariant Run(s, fmt, f, status.Now()) == Sscanf(s, fmt)
    {
      var rc := f;
      if fmt[f] == '%' {
        rc := status.Scan(fmt, f);
      }
      if fmt[f] != '%' || rc == f {
        PercentStep(s, f, status.Now());
        var matched, ret := status.Verbatim(fmt[f], f);
        if !matched { return ret, status.out; }
        f := f + 1;
      } else if rc == -1 {
        if status.pos < |s| && s[status.pos] == '\n' && status.n == 0 {
          status.n := EOF;
        }
        return status.n, status.out;
      } else {
        f := rc;
      }
    }
    n, out := status.n, status.out;
  }

  /** Computing modulo 2^64 and casting gives the number's own low bits. */
  lemma CastKeepsResidue(number: nat, value: nat, negative: bool, bits: nat)
    requires IsTarget(bits) && bits != 0 && value == number % WRAP
    ensures (value * (if negative then WRAP - 1 else 1)) % WRAP % Modulus(bits) == Residue(negative, number, bits)
  {
    var k := number / WRAP;
    assert number == k * WRAP + value;
    if negative {
      var x := value * (WRAP - 1);
      var minus: int := -(number as int);
      assert x == minus + (k + value) * WRAP;
      DropWraps(minus, k + value, bits);
    } else {
      DropWraps(number, 0, bits);
    }
  }

  lemma DropWraps(x: int, k: int, bits: nat)
    requires IsTarget(bits) && bits != 0
    ensures (x + k * WRAP) % WRAP % Modulus(bits) == x % Modulus(bits)
  {
    assert (x + k * WRAP) % WRAP == x % WRAP;
    Truncated8(x);
    Truncated16(x);
    Truncated32(x);
  }

  lemma Truncated8(x: int)
    ensures x % WRAP % 0x100 == x % 0x100
  {}

  lemma Truncated16(x: int)
    ensures x % WRAP % 0x1_0000 == x % 0x1_0000
  {}

  lemma Truncated32(x: int)
    ensures x % WRAP % 0x1_0000_0000 == x % 0x1_0000_0000
  {}

  /** uintmax_t arithmetic wraps here. */
  const WRAP: nat := 0x1_0000_0000_0000_0000

  /** The variables of the integer state machine after its loop say what was found. */
  ghost predicate Agrees(f: Found, s: string, pos: nat, parsed: bool, value: nat, sign: int, rc: int) {
    match f
    case Digits(negative, base, q, e) =>
      q <= e <= |s| && pos == e && parsed && sign == (if negative then -1 else 1) &&
      value == DigitsValue(s[q..e], base) % WRAP
    case NoDigits(e, exhausted) => pos == e && !parsed && (rc == EOF <==> exhausted)
  }

  /** The loop is among the digits: those of s[q..pos] are read, `left` more may be. */
  ghost predicate DigitPhase(f: Found, s: string, q: nat, limit: nat, base: nat, negative: bool, given: bool,
                             pos: nat, left: int, parsed: bool, value: nat)
  {
    && q <= |s| && base <= 16
    && f == FindDigits(s, q, limit, base, negative, given)
    && AllIn(s, q, pos, DigitOf(base))
    && left == limit - (pos - q) >= 0
    && parsed == (given || pos > q)
    && value == DigitsValue(s[q..pos], base) % WRAP
  }

  lemma StartOfDigits(f: Found, s: string, q: nat, limit: nat, base: nat, negative: bool, given: bool)
    requires q <= |s| && base <= 16 && f == FindDigits(s, q, limit, base, negative, given)
    ensures DigitPhase(f, s, q, limit, base, negative, given, q, limit, given, 0)
  {}

  lemma EmptyValue(s: string, p: nat, base: nat)
    requires p <= |s|
    ensures DigitsValue(s[p..p], base) == 0
  {}

  lemma NothingAfterSign(s: string, p: nat, limit: nat, base: nat, negative: bool)
    requires p <= |s| && (limit == 0 || p == |s| || IsSpace(s[p]))
    ensures FindPrefixed(s, p, limit, base, negative) == NoDigits(p, limit > 0 && p == |s|)
  {}

  lemma NoSpaceDigit(c: char, base: nat)
    requires IsSpace(c) && base <= 16
    ensures !IsDigit(c, base)
  {}

  lemma OneMoreDigit(f: Found, s: string, q: nat, limit: nat, base: nat, negative: bool, given: bool,
                     pos: nat, left: int, parsed: bool, value: nat)
    requires DigitPhase(f, s, q, limit, base, negative, given, pos, left, parsed, value)
    requires pos < |s| && left > 0 && IsDigit(s[pos], base)
    ensures DigitPhase(f, s, q, limit, base, negative, given, pos + 1, left - 1, true,
                       (value * base % WRAP + DigitValue(s[pos])) % WRAP)
  {
    var t := s[q..pos + 1];
    assert t[..|t| - 1] == s[q..pos];
    WrapStep(DigitsValue(s[q..pos], base), base, DigitValue(s[pos]));
  }

  lemma WrapStep(v: nat, base: nat, d: nat)
    ensures ((v % WRAP) * base % WRAP + d) % WRAP == (v * base + d) % WRAP
  {
    var k, r := v / WRAP, v % WRAP;
    assert v * base == r * base + (k * base) * WRAP;
  }

  lemma EndOfDigits(f: Found, s: string, q: nat, limit: nat, base: nat, negative: bool, given: bool,
                    pos: nat, left: int, parsed: bool, value: nat)
    requires DigitPhase(f, s, q, limit, base, negative, given, pos, left, parsed, value)
    requires left == 0 || pos == |s| || !IsDigit(s[pos], base)
    ensures f == (if parsed then Digits(negative, base, q, pos) else NoDigits(pos, left > 0 && pos == |s|))
    ensures q <= pos <= |s| && (parsed ==> value == DigitsValue(s[q..pos], base) % WRAP)
  {
    SpanUnique(s, q, limit, DigitOf(base), pos);
  }

  lemma SpaceSkipped(s: string, p: nat, width: nat, base: nat)
    requires p < |s| && IsSpace(s[p])
    ensures width > 0 ==> FindInteger(s, p, width, base) == FindInteger(s, p + 1, width, base)
  {
    SpanUnique(s, p, |s|, Space, SkipSpace(s, p + 1));
  }

  lemma SignAhead(s: string, p: nat, width: nat, base: nat)
    requires p < |s| && !IsSpace(s[p]) && width > 0
    ensures FindInteger(s, p, width, base) ==
            if s[p] == '-' then FindPrefixed(s, p + 1, width - 1, base, true)
            else if s[p] == '+' then FindPrefixed(s, p + 1, width - 1, base, false)
            else FindPrefixed(s, p, width, base, false)
  {}

  lemma NothingAtAll(s: string, p: nat, width: nat, base: nat)
    requires p <= |s| && (width == 0 || p == |s|)
    ensures FindInteger(s, p, width, base) == NoDigits(p, true)
  {}
}
