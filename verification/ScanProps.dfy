/** What callers of sscanf rely on: decimal numbers read back, and the argument of a
    command line is found exactly when there is one. */
module ScanProps {
  import opened ScanText
  import opened Scanset
  import opened Runs
  import opened ScanSpec

  // ---------------------------------------------------------------------------
  // The shape of what an integer conversion accepts
  // ---------------------------------------------------------------------------

  /** A base prefix: where the digits start, their base, and whether it is a digit itself. */
  datatype Prefix = Prefix(end: nat, base: nat, digit: bool)

  /** The prefix at b when the width leaves `limit` characters. 0x is one when the conversion
      is %i or hexadecimal and both characters may be read. Any other leading 0 is a digit; it
      makes %i octal if another character may be read. */
  function PrefixAt(s: string, b: nat, limit: nat, base: nat): (r: Prefix)
    ensures b <= r.end
  {
    var two := limit >= 2 && b + 1 < |s|;
    if b >= |s| || s[b] != '0' then Prefix(b, if base == 0 then 10 else base, false)
    else if two && IsX(s[b + 1]) && (base == 0 || base == 16) then Prefix(b + 2, 16, false)
    else Prefix(b + 1, if two && base == 0 then 8 else base, true)
  }

  /** From b on, with `limit` characters left: the prefix and then every digit of its base that
      may be read, at least one digit in all. */
  ghost predicate IsPrefixedItem(s: string, b: nat, limit: nat, base: nat, f: Found) {
    && f.Digits? && b <= f.from <= f.end <= |s| && f.end - b <= limit
    && var prefix := PrefixAt(s, b, limit, base);
    && f.from == prefix.end && f.base == prefix.base
    && AllIn(s, f.from, f.end, DigitOf(f.base))
    && (f.end - b == limit || f.end == |s| || !IsDigit(s[f.end], f.base))
    && (prefix.digit || f.end > f.from)
  }

  /** What an integer conversion accepts: white space s[p..a], a sign if s[a] is one, and a
      prefixed item within what the sign leaves of the width. */
  ghost predicate IsIntegerItem(s: string, p: nat, width: nat, base: nat, f: Found, a: nat) {
    && f.Digits? && a < |s| && AllIn(s, p, a, Space) && !IsSpace(s[a]) && width > 0
    && (f.negative <==> s[a] == '-')
    && if s[a] == '-' || s[a] == '+' then IsPrefixedItem(s, a + 1, width - 1, base, f)
       else IsPrefixedItem(s, a, width, base, f)
  }

  lemma DigitsIff(s: string, b: nat, limit: nat, base: nat, negative: bool, f: Found)
    requires b <= |s| && limit > 0 && b < |s| && !IsSpace(s[b])
    requires PrefixAt(s, b, limit, base).end <= |s| && PrefixAt(s, b, limit, base).end - b <= limit
    ensures var prefix := PrefixAt(s, b, limit, base);
            var found := FindDigits(s, prefix.end, limit - (prefix.end - b), prefix.base, negative, prefix.digit);
            f.Digits? && f.negative == negative ==> (IsPrefixedItem(s, b, limit, base, f) <==> found == f)
  {
    hide PrefixAt, Span;
    var prefix := PrefixAt(s, b, limit, base);
    if IsPrefixedItem(s, b, limit, base, f) {
      SpanUnique(s, f.from, limit - (prefix.end - b), DigitOf(f.base), f.end);
    }
  }

  /** The search after the sign finds the item if there is one, and nothing else. */
  lemma PrefixedIff(s: string, b: nat, limit: nat, base: nat, negative: bool, f: Found)
    requires b <= |s| && base <= 16 && f.Digits? && f.negative == negative
    ensures IsPrefixedItem(s, b, limit, base, f) <==> FindPrefixed(s, b, limit, base, negative) == f
  {
    hide FindDigits, IsPrefixedItem;
    if limit == 0 || b == |s| || IsSpace(s[b]) {
      NoItem(s, b, limit, base, f);
    } else {
      DigitsIff(s, b, limit, base, negative, f);
      if s[b] == '0' && (limit == 1 || b + 1 == |s|) { NothingFollows(s, b, limit, base, negative, f); }
    }
  }

  lemma NoItem(s: string, b: nat, limit: nat, base: nat, f: Found)
    requires b <= |s| && base <= 16 && (limit == 0 || b == |s| || IsSpace(s[b]))
    ensures !IsPrefixedItem(s, b, limit, base, f)
  {
    assert b < |s| && IsSpace(s[b]) ==> !In(s[b], DigitOf(10)) && !In(s[b], DigitOf(base));
  }

  /** A lone 0 is found without looking for more digits. */
  lemma NothingFollows(s: string, b: nat, limit: nat, base: nat, negative: bool, f: Found)
    requires b < |s| && limit > 0 && (limit == 1 || b + 1 == |s|) && s[b] == '0'
    ensures var prefix := PrefixAt(s, b, limit, base);
            FindDigits(s, prefix.end, limit - (prefix.end - b), prefix.base, negative, prefix.digit) ==
            Digits(negative, base, b + 1, b + 1)
  {}

  /** The conversion finds the integer that stands in the input if one does, and only that: so
      there is at most one. */
  lemma {:induction false} IntegerItemIff(s: string, p: nat, width: nat, base: nat, f: Found)
    requires p <= |s| && base <= 16 && f.Digits?
    ensures FindInteger(s, p, width, base) == f <==> IsIntegerItem(s, p, width, base, f, SkipSpace(s, p))
    ensures forall a: nat | IsIntegerItem(s, p, width, base, f, a) :: a == SkipSpace(s, p)
  {
    hide FindPrefixed, IsPrefixedItem, Span;
    var a := SkipSpace(s, p);
    forall c: nat | IsIntegerItem(s, p, width, base, f, c) ensures c == a { SpanUnique(s, p, |s|, Space, c); }
    if width > 0 && a < |s| {
      if s[a] == '-' || s[a] == '+' {
        PrefixedIff(s, a + 1, width - 1, base, s[a] == '-', f.(negative := s[a] == '-'));
        SignOnly(s, a + 1, width - 1, base, s[a] == '-', f);
      } else {
        PrefixedIff(s, a, width, base, false, f.(negative := false));
        SignOnly(s, a, width, base, false, f);
      }
    }
  }

  lemma SignOnly(s: string, b: nat, limit: nat, base: nat, negative: bool, f: Found)
    requires b <= |s| && f.Digits?
    ensures IsPrefixedItem(s, b, limit, base, f) == IsPrefixedItem(s, b, limit, base, f.(negative := negative))
    ensures var r := FindPrefixed(s, b, limit, base, negative); r.Digits? ==> r.negative == negative
  {}

  /** Two readings of one place are the same: value and cursor are fixed. */
  lemma {:induction false} IntegerItemUnique(
      s: string, p: nat, width: nat, base: nat, f: Found, a: nat, g: Found, b: nat)
    requires p <= |s| && base <= 16
    requires IsIntegerItem(s, p, width, base, f, a) && IsIntegerItem(s, p, width, base, g, b)
    ensures f == g && a == b
  {
    hide IsIntegerItem, FindInteger, Span;
    assert f.Digits? && g.Digits? by { ItemHasDigits(s, p, width, base, f, a); ItemHasDigits(s, p, width, base, g, b); }
    IntegerItemIff(s, p, width, base, f);
    IntegerItemIff(s, p, width, base, g);
  }

  lemma ItemHasDigits(s: string, p: nat, width: nat, base: nat, f: Found, a: nat)
    requires IsIntegerItem(s, p, width, base, f, a)
    ensures f.Digits? && f.from <= f.end <= |s|
  {}

  /** What a conversion finds is the item at the first character that is no white space. */
  lemma {:induction false} IntegerItem(s: string, p: nat, width: nat, base: nat)
    requires p <= |s| && base <= 16 && FindInteger(s, p, width, base).Digits?
    ensures IsIntegerItem(s, p, width, base, FindInteger(s, p, width, base), SkipSpace(s, p))
  {
    hide FindInteger, IsIntegerItem, Span;
    IntegerItemIff(s, p, width, base, FindInteger(s, p, width, base));
  }

  /** The number that is read: the digits' value with the sign in front. */
  function Signed(s: string, f: Found): int
    requires f.Digits? && f.from <= f.end <= |s|
  {
    var v: int := DigitsValue(s[f.from..f.end], f.base);
    if f.negative then -v else v
  }

  /** The value stored is v modulo the size of the target. */
  predicate StoredModulo(v: Value, bits: nat, number: int) {
    v.Number? && v.bits == bits && IsTarget(bits) && bits != 0 &&
    v.residue < Modulus(bits) && (number - v.residue) % Modulus(bits) == 0
  }

  /** An integer conversion succeeds if and only if an integer stands in the input and, unless it
      is suppressed, there is a target for it. It stores the number modulo the size of the
      target and leaves the cursor just past it. */
  lemma {:induction false} IntegerConversion(
      s: string, at: Progress, suppressed: bool, width: nat, base: nat, bits: nat)
    requires at.pos <= |s| && SpecOk(Integer(suppressed, width, base, bits))
    ensures var a := SkipSpace(s, at.pos);
            var o := Convert(Integer(suppressed, width, base, bits), s, at);
            && (o.Next? <==> (suppressed || bits != 0) && exists f :: IsIntegerItem(s, at.pos, width, base, f, a))
            && forall f | o.Next? && IsIntegerItem(s, at.pos, width, base, f, a) ::
                 && f.Digits? && f.from <= f.end <= |s|
                 && o.at.pos == f.end
                 && (suppressed ==> o.at == at.(pos := f.end))
                 && (!suppressed ==>
                       o.at.n == at.n + 1 && |o.at.out| == |at.out| + 1 && o.at.out[..|at.out|] == at.out &&
                       StoredModulo(o.at.out[|at.out|], bits, Signed(s, f)))
  {
    hide FindInteger, IsIntegerItem, StoredModulo, Signed, Residue, DigitsValue, Span;
    var found := FindInteger(s, at.pos, width, base);
    forall f | IsIntegerItem(s, at.pos, width, base, f, SkipSpace(s, at.pos))
      ensures found == f && f.Digits? && f.from <= f.end <= |s|
    {
      ItemHasDigits(s, at.pos, width, base, f, SkipSpace(s, at.pos));
      IntegerItemIff(s, at.pos, width, base, f);
    }
    if found.Digits? {
      IntegerItem(s, at.pos, width, base);
      if bits != 0 { ResidueStored(s, found, bits); }
    }
  }

  lemma ResidueStored(s: string, f: Found, bits: nat)
    requires f.Digits? && f.from <= f.end <= |s| && IsTarget(bits) && bits != 0
    ensures var digits := DigitsValue(s[f.from..f.end], f.base);
            StoredModulo(Number(Residue(f.negative, digits, bits), bits), bits, Signed(s, f))
  {
    hide DigitsValue;
    WholeMultiple(Signed(s, f), bits);
  }

  lemma WholeMultiple(v: int, bits: nat)
    requires IsTarget(bits) && bits != 0
    ensures (v - v % Modulus(bits)) % Modulus(bits) == 0
  {}

  // ---------------------------------------------------------------------------
  // Decimal numbers
  // ---------------------------------------------------------------------------

  function DigitChar(d: nat): char
    requires d < 10
  {
    '0' + d as char
  }

  /** %u of printf. */
  function DecimalNat(n: nat): (t: string)
    ensures |t| > 0
  {
    if n < 10 then [DigitChar(n)] else DecimalNat(n / 10) + [DigitChar(n % 10)]
  }

  /** %d of printf. */
  function Decimal(v: int): (t: string)
    ensures |t| > 0
  {
    if v < 0 then "-" + DecimalNat(-v) else DecimalNat(v)
  }

  lemma {:induction false} DecimalNatValue(n: nat)
    ensures DigitsValue(DecimalNat(n), 10) == n
    ensures forall k | 0 <= k < |DecimalNat(n)| :: IsDigit(DecimalNat(n)[k], 10)
    ensures DecimalNat(n)[0] == '0' <==> n == 0
    ensures n == 0 ==> DecimalNat(n) == "0"
  {
    if n < 10 {
      assert DecimalNat(n)[..0] == "";
    } else {
      DecimalNatValue(n / 10);
      var t := DecimalNat(n);
      assert t[..|t| - 1] == DecimalNat(n / 10);
    }
  }

  /** t stands at p, the width admits it, and no digit that could be read follows it. */
  ghost predicate Stands(s: string, p: nat, width: nat, t: string) {
    && p + |t| <= |s| && s[p..p + |t|] == t && |t| <= width
    && (p + |t| == |s| || !IsDigit(s[p + |t|], 10) || |t| == width)
  }

  /** f is the number n, negated or not, ending at e. */
  ghost predicate Reads(f: Found, s: string, e: nat, negative: bool, n: nat) {
    f.Digits? && f.from <= f.end == e <= |s| && f.negative == negative && DigitsValue(s[f.from..e], f.base) == n
  }

  /** A number printed with %d and read with %d comes back, wherever it stands in the input,
      if no digit follows it and the width admits it. */
  lemma {:induction false} DecimalReadsBack(s: string, p: nat, width: nat, v: int)
    requires Stands(s, p, width, Decimal(v))
    ensures Reads(FindInteger(s, p, width, 10), s, p + |Decimal(v)|, v < 0, if v < 0 then -v else v)
  {
    hide FindPrefixed, FindInteger, DecimalNat, Stands, Reads;
    if v < 0 {
      StandsAfterSign(s, p, width, DecimalNat(-v));
      AtNumber(s, p, width);
      NaturalReadsBack(s, p + 1, width - 1, -v, true);
    } else {
      DecimalNatValue(v);
      StandsAt(s, p, width, DecimalNat(v));
      AtNumber(s, p, width);
      NaturalReadsBack(s, p, width, v, false);
    }
  }

  lemma StandsAt(s: string, p: nat, width: nat, t: string)
    requires Stands(s, p, width, t) && |t| > 0
    ensures p < |s| && s[p] == t[0] && width > 0
  {
    assert s[p..p + |t|][0] == s[p];
  }

  lemma StandsAfterSign(s: string, p: nat, width: nat, t: string)
    requires Stands(s, p, width, "-" + t)
    ensures p < |s| && s[p] == '-' && width > 0 && Stands(s, p + 1, width - 1, t)
  {
    StandsAt(s, p, width, "-" + t);
    var text := s[p..p + 1 + |t|];
    assert text[1..] == s[p + 1..p + 1 + |t|];
  }

  /** Scanning starts at the sign or the first digit. */
  lemma AtNumber(s: string, p: nat, width: nat)
    requires p < |s| && (IsDigit(s[p], 10) || s[p] == '-') && width > 0
    ensures FindInteger(s, p, width, 10) ==
            if s[p] == '-' then FindPrefixed(s, p + 1, width - 1, 10, true)
            else FindPrefixed(s, p, width, 10, false)
  {
    assert SkipSpace(s, p) == p;
    hide FindPrefixed;
  }

  lemma NaturalReadsBack(s: string, b: nat, limit: nat, n: nat, negative: bool)
    requires b <= |s| && Stands(s, b, limit, DecimalNat(n))
    ensures Reads(FindPrefixed(s, b, limit, 10, negative), s, b + |DecimalNat(n)|, negative, n)
  {
    var t := DecimalNat(n);
    var e := b + |t|;
    DecimalNatValue(n);
    assert s[b] == t[0];
    if n == 0 {
      if !(limit == 1 || b + 1 == |s|) {
        SpanUnique(s, e, limit - 1, DigitOf(10), e);
      }
      assert s[e..e] == "";
    } else {
      assert forall k | b <= k < e :: IsDigit(s[k], 10) by {
        assert forall k | b <= k < e :: s[k] == t[k - b];
      }
      SpanUnique(s, b, limit, DigitOf(10), e);
    }
  }

  // ---------------------------------------------------------------------------
  // Steps of the formats in use
  // ---------------------------------------------------------------------------

  lemma ParseNumber(fmt: string, f: nat)
    requires f + 1 < |fmt| && fmt[f] == '%' && fmt[f + 1] == 'd'
    ensures ParseSpec(fmt, f) == Spec(Integer(false, UINT_MAX, 10, 32), f + 2)
  {
    assert Span(fmt, f + 1, |fmt|, Space) == f + 1;
    assert DecimalEnd(fmt, f + 1) == f + 1;
  }

  lemma ParseSkippedWord(fmt: string, f: nat)
    requires f + 2 < |fmt| && fmt[f] == '%' && fmt[f + 1] == '*' && fmt[f + 2] == 's'
    ensures ParseSpec(fmt, f) == Spec(Word(true, UINT_MAX), f + 3)
  {
    assert Span(fmt, f + 2, |fmt|, Space) == f + 2;
    assert DecimalEnd(fmt, f + 2) == f + 2;
  }

  lemma NoWidthNoLength(fmt: string, c: nat)
    requires c < |fmt| && fmt[c] == '['
    ensures Width(fmt, c) == (UINT_MAX, c) && LengthAt(fmt, c) == (NoLength, c)
  {
    assert Span(fmt, c, |fmt|, Space) == c;
    assert DecimalEnd(fmt, c) == c;
  }

  lemma ExcludingAt(fmt: string, p: nat, c: nat, suppressed: bool, list: string)
    requires p < c && c + 3 + |list| <= |fmt| && |list| > 0 && ']' !in list
    requires fmt[c] == '[' && fmt[c + 1] == '^' && fmt[c + 2..c + 2 + |list|] == list && fmt[c + 2 + |list|] == ']'
    ensures SpecifierAt(fmt, p, c, suppressed, UINT_MAX, NoLength) ==
            Spec(Set(suppressed, UINT_MAX, true, list), c + 3 + |list|)
  {
    var close := c + 2 + |list|;
    assert forall k | c + 2 <= k < close :: fmt[k] == list[k - c - 2];
    SpanUnique(fmt, c + 3, |fmt|, NotBracket, close);
  }

  /** %[^list] at f, or %*[^list]. */
  lemma ParseExcluding(fmt: string, f: nat, suppressed: bool, list: string)
    requires |list| > 0 && ']' !in list
    requires var spec := Excluding(suppressed, list); f + |spec| <= |fmt| && fmt[f..f + |spec|] == spec
    ensures ParseSpec(fmt, f) == Spec(Set(suppressed, UINT_MAX, true, list), f + |Excluding(suppressed, list)|)
  {
    hide Span, Width, LengthAt, SpecifierAt;
    var spec := Excluding(suppressed, list);
    var c := if suppressed then f + 2 else f + 1;
    assert forall k | 0 <= k < |spec| :: fmt[f + k] == spec[k];
    assert fmt[f + 1] == spec[1] && fmt[c] == spec[c - f] && fmt[c + 1] == spec[c + 1 - f];
    assert fmt[c + 2 + |list|] == spec[|spec| - 1];
    assert forall k | 0 <= k < |list| :: fmt[c + 2 + k] == spec[c + 2 - f + k] == list[k];
    assert fmt[c + 2..c + 2 + |list|] == list;
    NoWidthNoLength(fmt, c);
    ExcludingAt(fmt, f, c, suppressed, list);
  }

  function Excluding(suppressed: bool, list: string): string {
    if suppressed then "%*[^" + list + "]" else "%[^" + list + "]"
  }

  lemma NumberResidue(v: int)
    ensures Residue(v < 0, if v < 0 then -v else v, 32) == v % 0x1_0000_0000
  {}

  lemma ConvertNumber(s: string, at: Progress, v: int)
    requires at.pos <= |s| && Stands(s, at.pos, UINT_MAX, Decimal(v))
    ensures at.pos + |Decimal(v)| <= |s|
    ensures Convert(Integer(false, UINT_MAX, 10, 32), s, at) ==
            Next(Progress(at.pos + |Decimal(v)|, at.n + 1, at.out + [Number(v % 0x1_0000_0000, 32)]))
  {
    hide FindInteger, Decimal, DigitsValue, Span, Residue;
    DecimalReadsBack(s, at.pos, UINT_MAX, v);
    NumberResidue(v);
  }

  lemma NumberElement(s: string, fmt: string, f: nat, at: Progress, v: int)
    requires f + 1 < |fmt| && fmt[f] == '%' && fmt[f + 1] == 'd' && WellFormed(fmt, f)
    requires at.pos <= |s| && Stands(s, at.pos, UINT_MAX, Decimal(v))
    ensures Element(s, fmt, f, at) ==
            Go(f + 2, Progress(at.pos + |Decimal(v)|, at.n + 1, at.out + [Number(v % 0x1_0000_0000, 32)]))
  {
    hide Convert, ParseSpec, Decimal, Stands, AfterStop, Literal;
    ParseNumber(fmt, f);
    ConvertNumber(s, at, v);
  }

  lemma LiteralElement(s: string, fmt: string, f: nat, at: Progress)
    requires f < |fmt| && fmt[f] != '%' && !IsSpace(fmt[f]) && WellFormed(fmt, f)
    requires at.pos < |s| && s[at.pos] == fmt[f]
    ensures Element(s, fmt, f, at) == Go(f + 1, at.(pos := at.pos + 1))
  {
    hide Convert, ParseSpec, AfterStop;
  }

  lemma SpaceElement(s: string, fmt: string, f: nat, at: Progress)
    requires f < |fmt| && IsSpace(fmt[f]) && WellFormed(fmt, f) && at.pos <= |s|
    ensures Element(s, fmt, f, at) == Go(f + 1, at.(pos := SkipSpace(s, at.pos)))
  {
    hide Convert, ParseSpec, AfterStop;
  }

  lemma ConversionElement(s: string, fmt: string, f: nat, at: Progress, spec: Spec)
    requires f < |fmt| && fmt[f] == '%' && ParseSpec(fmt, f) == spec && WellFormed(fmt, f) && at.pos <= |s|
    requires !spec.conv.Bad? && !spec.conv.Percent? && !spec.conv.Unclosed?
    ensures Element(s, fmt, f, at) == GoOrAfter(Convert(spec.conv, s, at), spec.next, s)
  {
    hide Convert, ParseSpec, AfterStop;
  }

  lemma RunEnd(s: string, fmt: string, f: nat, at: Progress)
    requires f == |fmt| && at.pos <= |s|
    ensures WellFormed(fmt, f) && Run(s, fmt, f, at) == at
  {}

  lemma RunOnce(s: string, fmt: string, f: nat, at: Progress, f1: nat, at1: Progress)
    requires f < |fmt| && at.pos <= |s| && WellFormed(fmt, f)
    requires Element(s, fmt, f, at) == Go(f1, at1)
    ensures f < f1 <= |fmt| && at1.pos <= |s| && WellFormed(fmt, f1)
    ensures Run(s, fmt, f, at) == Run(s, fmt, f1, at1)
  {
    hide Element, WellFormed;
  }

  // ---------------------------------------------------------------------------
  // Comma-separated numbers
  // ---------------------------------------------------------------------------

  function NumbersText(vs: seq<int>): string
    requires |vs| > 0
  {
    if |vs| == 1 then Decimal(vs[0]) else Decimal(vs[0]) + "," + NumbersText(vs[1..])
  }

  function NumbersFormat(k: nat): string
    requires k > 0
  {
    if k == 1 then "%d" else "%d," + NumbersFormat(k - 1)
  }

  function StoredNumbers(vs: seq<int>): (out: seq<Value>)
    ensures |out| == |vs| && forall i | 0 <= i < |vs| :: out[i] == Number(vs[i] % 0x1_0000_0000, 32)
  {
    seq(|vs|, i requires 0 <= i < |vs| => Number(vs[i] % 0x1_0000_0000, 32))
  }

  /** What is left of the input is the numbers and then tail, which starts with no digit. */
  ghost predicate TextAhead(s: string, p: nat, vs: seq<int>, tail: string)
    requires |vs| > 0
  {
    && p <= |s| <= UINT_MAX && s[p..] == NumbersText(vs) + tail
    && (tail == "" || !IsDigit(tail[0], 10))
  }

  /** What is left of the format reads k numbers. */
  ghost predicate FormatLeft(fmt: string, f: nat, k: nat)
    requires k > 0
  {
    f <= |fmt| && fmt[f..] == NumbersFormat(k) && WellFormed(fmt, f)
  }

  /** A list printed with %d and commas is read back by the format of the same shape. */
  lemma {:induction false} RunNumbers(s: string, fmt: string, f: nat, at: Progress, vs: seq<int>, tail: string)
    requires |vs| > 0 && TextAhead(s, at.pos, vs, tail) && FormatLeft(fmt, f, |vs|)
    ensures Run(s, fmt, f, at) == Progress(|s| - |tail|, at.n + |vs|, at.out + StoredNumbers(vs))
    decreases |vs|
  {
    hide *;
    FormatAhead(fmt, f, |vs|);
    NumberAhead(s, at.pos, vs, tail);
    StoredSplit(at.out, vs);
    var next := Progress(at.pos + |Decimal(vs[0])|, at.n + 1, at.out + [Number(vs[0] % 0x1_0000_0000, 32)]);
    NumberElement(s, fmt, f, at, vs[0]);
    RunOnce(s, fmt, f, at, f + 2, next);
    if |vs| == 1 {
      RunEnd(s, fmt, f + 2, next);
    } else {
      var beyond := next.(pos := next.pos + 1);
      FormatOnward(fmt, f, |vs|);
      LiteralElement(s, fmt, f + 2, next);
      RunOnce(s, fmt, f + 2, next, f + 3, beyond);
      RunNumbers(s, fmt, f + 3, beyond, vs[1..], tail);
    }
  }

  lemma FormatOnward(fmt: string, f: nat, k: nat)
    requires k > 1 && FormatLeft(fmt, f, k)
    ensures FormatLeft(fmt, f + 3, k - 1)
  {
    FormatAhead(fmt, f, k);
    ParseNumber(fmt, f);
    assert fmt[f + 3..] == fmt[f..][3..];
  }

  lemma StoredSplit(out: seq<Value>, vs: seq<int>)
    requires |vs| > 0
    ensures out + StoredNumbers(vs) == out + [Number(vs[0] % 0x1_0000_0000, 32)] + StoredNumbers(vs[1..])
    ensures |vs| == 1 ==> StoredNumbers(vs) == [Number(vs[0] % 0x1_0000_0000, 32)]
  {
    assert StoredNumbers(vs) == [Number(vs[0] % 0x1_0000_0000, 32)] + StoredNumbers(vs[1..]);
  }

  lemma FormatAhead(fmt: string, f: nat, k: nat)
    requires k > 0 && FormatLeft(fmt, f, k)
    ensures f + 1 < |fmt| && WellFormed(fmt, f) && fmt[f] == '%' && fmt[f + 1] == 'd'
    ensures if k == 1 then f + 2 == |fmt| else f + 3 <= |fmt| && fmt[f + 2] == ',' && !IsSpace(fmt[f + 2])
  {
    var form := fmt[f..];
    assert form[0] == fmt[f] && form[1] == fmt[f + 1];
    if k > 1 {
      assert form[2] == fmt[f + 2];
    }
  }

  /** If t comes next and then `after`, that is what the slices say. */
  lemma Ahead(s: string, p: nat, t: string, after: string)
    requires p <= |s| && s[p..] == t + after
    ensures p + |t| <= |s| && s[p..p + |t|] == t && s[p + |t|..] == after
    ensures |s| == p + |t| + |after|
    ensures |after| > 0 ==> s[p + |t|] == after[0]
  {
    var r := s[p..];
    assert s[p..p + |t|] == r[..|t|];
    assert s[p + |t|..] == r[|t|..];
    assert |after| > 0 ==> s[p + |t|] == r[|t|];
  }

  lemma NumberAhead(s: string, p: nat, vs: seq<int>, tail: string)
    requires |vs| > 0 && TextAhead(s, p, vs, tail)
    ensures p + |Decimal(vs[0])| <= |s| && Stands(s, p, UINT_MAX, Decimal(vs[0]))
    ensures var e := p + |Decimal(vs[0])|;
            if |vs| == 1 then |s| == e + |tail|
            else e < |s| && s[e] == ',' && TextAhead(s, e + 1, vs[1..], tail)
  {
    var t := Decimal(vs[0]);
    if |vs| == 1 {
      hide Decimal;
      Ahead(s, p, t, tail);
    } else {
      var rest := NumbersText(vs[1..]) + tail;
      TextSplit(vs, tail);
      hide Decimal, NumbersText;
      Ahead(s, p, t, "," + rest);
      assert s[p + |t| + 1..] == s[p + |t|..][1..] == rest;
    }
  }

  lemma Regroup(d: string, c: string, n: string, t: string)
    ensures (d + c + n) + t == d + (c + (n + t))
  {}

  lemma TextSplit(vs: seq<int>, tail: string)
    requires |vs| > 1
    ensures NumbersText(vs) + tail == Decimal(vs[0]) + ("," + (NumbersText(vs[1..]) + tail))
  {
    hide Decimal;
    Regroup(Decimal(vs[0]), ",", NumbersText(vs[1..]), tail);
  }

  // ---------------------------------------------------------------------------
  // The argument of a command line
  // ---------------------------------------------------------------------------

  const LINE_ENDS: string := "\r\n\t"
  const ARGUMENT_FORMAT: string := "%*s " + ("%[^" + LINE_ENDS + "]")

  datatype Option<T> = None | Some(value: T)

  predicate EndsArgument(c: char) {
    c == '\r' || c == '\n' || c == '\t'
  }

  /** The text after the first word and the white space behind it, up to a CR, LF or TAB;
      none when the line starts with white space or has nothing but white space there. */
  function Argument(line: string): (r: Option<string>)
    ensures r.Some? ==> 0 < |r.value| <= |line| && !IsSpace(r.value[0])
    ensures r.Some? ==> forall c | c in r.value :: c in line
  {
    if line == "" || IsSpace(line[0]) then None
    else
      var a := SkipSpace(line, Span(line, 0, |line|, NonSpace));
      if a == |line| then None
      else
        LineEndSet(line[a]);
        Some(line[a..Span(line, a, |line|, Scanlist(LINE_ENDS, true))])
  }

  lemma LineEndSet(c: char)
    ensures In(c, Scanlist(LINE_ENDS, true)) <==> !EndsArgument(c)
  {
    assert Admits(LINE_ENDS, 0, c) <==> c == '\r';
    assert Admits(LINE_ENDS, 1, c) <==> c == '\n';
    assert Admits(LINE_ENDS, 2, c) <==> c == '\t';
  }

  /** A part of s that is all in the class, with nothing of the class behind it, is a run. */
  lemma SpanOfPart(s: string, pre: string, mid: string, rest: string, k: Class)
    requires s == pre + mid + rest && (rest == "" || !In(rest[0], k))
    requires forall c | c in mid :: In(c, k)
    ensures Span(s, |pre|, |s|, k) == |pre| + |mid|
  {
    hide In;
    var e := |pre| + |mid|;
    assert forall i | |pre| <= i < e :: s[i] == mid[i - |pre|] && mid[i - |pre|] in mid;
    assert rest != "" ==> s[e] == rest[0];
    SpanUnique(s, |pre|, |s|, k, e);
  }

  lemma SpanLimit(s: string, p: nat, limit: nat, k: Class)
    requires p <= |s| <= limit
    ensures Span(s, p, limit, k) == Span(s, p, |s|, k)
  {
    SpanUnique(s, p, limit, k, Span(s, p, |s|, k));
  }

  lemma ArgumentFormat()
    ensures var f := ARGUMENT_FORMAT;
            && |f| == 11 && f[0] == '%' && f[3] == ' ' && f[4] == '%'
            && ParseSpec(f, 0) == Spec(Word(true, UINT_MAX), 3)
            && ParseSpec(f, 4) == Spec(Set(false, UINT_MAX, true, LINE_ENDS), 11)
            && WellFormed(f, 0) && WellFormed(f, 3) && WellFormed(f, 4)
  {
    var f := ARGUMENT_FORMAT;
    ParseSkippedWord(f, 0);
    assert f[4..11] == Excluding(false, LINE_ENDS);
    ParseExcluding(f, 4, false, LINE_ENDS);
    assert WellFormed(f, 11);
    assert WellFormed(f, 4);
    assert WellFormed(f, 3);
  }

  lemma {:induction false} WordConversion(s: string, at: Progress)
    requires at.pos < |s| <= UINT_MAX && !IsSpace(s[at.pos])
    ensures Convert(Word(true, UINT_MAX), s, at) ==
            Next(Progress(Span(s, at.pos, |s|, NonSpace), at.n + 1, at.out))
  {
    SpanLimit(s, at.pos, UINT_MAX, NonSpace);
  }

  lemma {:induction false} NoWordConversion(s: string)
    requires s == "" || IsSpace(s[0])
    ensures var o := Convert(Word(true, UINT_MAX), s, Progress(0, 0, []));
            o == Stop(Progress(0, if s == "" then -1 else 0, []))
  {}

  lemma ArgumentConversion(s: string, at: Progress)
    requires at.pos <= |s| <= UINT_MAX && (at.pos < |s| ==> !EndsArgument(s[at.pos]))
    ensures Convert(Set(false, UINT_MAX, true, LINE_ENDS), s, at) ==
            if at.pos == |s| then Stop(at.(n := EOF))
            else var e := Span(s, at.pos, |s|, Scanlist(LINE_ENDS, true));
                 Next(Progress(e, at.n + 1, at.out + [Text(s[at.pos..e])]))
  {
    SpanLimit(s, at.pos, UINT_MAX, Scanlist(LINE_ENDS, true));
    if at.pos < |s| { LineEndSet(s[at.pos]); }
  }

  /** CWD and LIST: the scan counts two conversions and stores the argument exactly when
      there is one. Otherwise it stores nothing and returns -1, or 0 for a line that starts
      with white space other than a line feed. */
  lemma {:induction false} ArgumentScan(line: string)
    requires |line| <= UINT_MAX
    ensures WellFormed(ARGUMENT_FORMAT, 0)
    ensures var r := Sscanf(line, ARGUMENT_FORMAT);
            match Argument(line)
            case Some(text) => r.n == 2 && r.out == [Text(text)]
            case None =>
              r.out == [] && r.n == if line != "" && IsSpace(line[0]) && line[0] != '\n' then 0 else -1
  {
    hide Convert, ParseSpec, WellFormed, Element, Run;
    ArgumentFormat();
    var f := ARGUMENT_FORMAT;
    var start := Progress(0, 0, []);
    ConversionElement(line, f, 0, start, Spec(Word(true, UINT_MAX), 3));
    if line == "" || IsSpace(line[0]) {
      NoWordConversion(line);
      RunDone(line, f, 0, start);
    } else {
      WordConversion(line, start);
      var word := Progress(Span(line, 0, |line|, NonSpace), 1, []);
      RunOnce(line, f, 0, start, 3, word);
      SpaceElement(line, f, 3, word);
      var arg := word.(pos := SkipSpace(line, word.pos));
      RunOnce(line, f, 3, word, 4, arg);
      ConversionElement(line, f, 4, arg, Spec(Set(false, UINT_MAX, true, LINE_ENDS), 11));
      ArgumentConversion(line, arg);
      if arg.pos == |line| {
        RunDone(line, f, 4, arg);
      } else {
        var e := Span(line, arg.pos, |line|, Scanlist(LINE_ENDS, true));
        var end := Progress(e, 2, [Text(line[arg.pos..e])]);
        RunOnce(line, f, 4, arg, 11, end);
        RunEnd(line, f, 11, end);
      }
    }
  }

  lemma RunDone(s: string, fmt: string, f: nat, at: Progress)
    requires f < |fmt| && at.pos <= |s| && WellFormed(fmt, f)
    requires Element(s, fmt, f, at).Done?
    ensures Run(s, fmt, f, at) == Element(s, fmt, f, at).at
  {
    hide Element, WellFormed;
  }
}
