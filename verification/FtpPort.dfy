/** PASV and PORT: an IPv4 endpoint printed as six numbers and read back with sscanf. */
module FtpPort {
  import opened ScanText
  import opened Runs
  import opened ScanSpec
  import opened ScanProps
  import Sscanf

  /** An address and a port as they stand in memory, in network byte order. */
  datatype Endpoint = Endpoint(addr: nat, sinPort: nat)

  predicate IsEndpoint(e: Endpoint) {
    e.addr < 0x1_0000_0000 && e.sinPort < 0x1_0000
  }

  /** The six numbers of the 227 reply, lowest byte in memory first. */
  function PasvNumbers(e: Endpoint): (vs: seq<int>)
    ensures |vs| == 6
  {
    [e.addr % 0x100, e.addr / 0x100 % 0x100, e.addr / 0x1_0000 % 0x100, e.addr / 0x100_0000 % 0x100,
     e.sinPort % 0x100, e.sinPort / 0x100 % 0x100]
  }

  /** What cmd_PASV_func sends. */
  function PasvReply(e: Endpoint): string {
    "227 Entering Passive Mode (" + NumbersText(PasvNumbers(e)) + ")\r\n"
  }

  const PORT_FORMAT: string := "%*s " + NumbersFormat(6)

  /** sceNetHtons */
  function Htons(port: nat): nat
    requires port < 0x1_0000
  {
    port % 0x100 * 0x100 + port / 0x100
  }

  /** What an argument of %d holds, taken as an unsigned int. */
  function Unsigned(v: Value): nat {
    match v
    case Number(residue, _) => residue
    case _ => 0
  }

  /** The six variables of cmd_PORT_func after the scan: those it reached have what it stored, the
      others what the stack held. */
  function Variables(out: seq<Value>, stack: seq<nat>): (vars: seq<nat>)
    requires |stack| == 6
    ensures |vars| == 6
    ensures forall i | 0 <= i < 6 :: vars[i] == if i < |out| then Unsigned(out[i]) else stack[i]
  {
    seq(6, i requires 0 <= i < 6 => if i < |out| then Unsigned(out[i]) else stack[i])
  }

  /** An unsigned int printed with %d. */
  function PrintedInt(v: nat): string {
    Decimal(if v % 0x1_0000_0000 >= 0x8000_0000 then v % 0x1_0000_0000 - 0x1_0000_0000 else v % 0x1_0000_0000)
  }

  /** snprintf(ip_str, 16, "%d.%d.%d.%d", ...): at most fifteen characters. */
  function IpText(a: nat, b: nat, c: nat, d: nat): string {
    var t := PrintedInt(a) + "." + PrintedInt(b) + "." + PrintedInt(c) + "." + PrintedInt(d);
    if |t| <= 15 then t else t[..15]
  }

  type Int32 = v: int | -0x8000_0000 <= v < 0x8000_0000

  /** The dotted quad of four bytes. */
  function DottedQuad(a: nat, b: nat, c: nat, d: nat): string {
    DecimalNat(a) + "." + DecimalNat(b) + "." + DecimalNat(c) + "." + DecimalNat(d)
  }

  /** inet_pton reads the dotted quad of the address, its bytes in memory order, as the address. */
  predicate ReadsQuad(pton: string -> Option<nat>, addr: nat) {
    pton(DottedQuad(addr % 0x100, addr / 0x100 % 0x100, addr / 0x1_0000 % 0x100, addr / 0x100_0000 % 0x100)) ==
    Some(addr)
  }

  lemma {:induction false} ByteLength(n: nat)
    requires n < 0x100
    ensures |DecimalNat(n)| <= 3
  {
    if n >= 10 {
      assert |DecimalNat(n / 10)| <= 2 by { if n >= 100 { assert |DecimalNat(n / 10 / 10)| == 1; } }
    }
  }

  /** PORT prints four bytes as their dotted quad, which is not cut. */
  lemma {:induction false} PrintsQuad(a: nat, b: nat, c: nat, d: nat)
    requires a < 0x100 && b < 0x100 && c < 0x100 && d < 0x100
    ensures IpText(a, b, c, d) == DottedQuad(a, b, c, d)
  {
    hide DecimalNat;
    ByteLength(a);
    ByteLength(b);
    ByteLength(c);
    ByteLength(d);
  }

  /** Whatever the four numbers, PORT prints them as signed ints with dots between, up to fifteen
      characters. */
  lemma {:induction false} PrintsNumbers(a: Int32, b: Int32, c: Int32, d: Int32)
    ensures var t := Decimal(a) + "." + Decimal(b) + "." + Decimal(c) + "." + Decimal(d);
            var u := IpText(a % 0x1_0000_0000, b % 0x1_0000_0000, c % 0x1_0000_0000, d % 0x1_0000_0000);
            u <= t && |u| == if |t| <= 15 then |t| else 15
  {
    hide Decimal;
    PrintsInt(a);
    PrintsInt(b);
    PrintsInt(c);
    PrintsInt(d);
  }

  lemma PrintsInt(v: Int32)
    ensures PrintedInt(v % 0x1_0000_0000) == Decimal(v)
  {
    hide Decimal;
  }

  /** The endpoint PORT connects to. An address that inet_pton refuses leaves the old one. */
  function PortEndpoint(vars: seq<nat>, addr: nat, pton: string -> Option<nat>): Endpoint
    requires |vars| == 6
  {
    var read := pton(IpText(vars[0], vars[1], vars[2], vars[3]));
    Endpoint(if read.Some? then read.value else addr, Htons((vars[5] + vars[4] * 256) % 0x1_0000))
  }

  /** r has the port of e, and its address if inet_pton reads that. */
  predicate Recovered(r: Endpoint, e: Endpoint, pton: string -> Option<nat>) {
    r.sinPort == e.sinPort && (ReadsQuad(pton, e.addr) ==> r.addr == e.addr)
  }

  lemma PortWellFormed()
    ensures '\0' !in PORT_FORMAT && WellFormed(PORT_FORMAT, 0)
  {
    hide WellFormed, PORT_FORMAT;
    PortFormat();
  }

  /** The scanning part of cmd_PORT_func, on any line. stack and addr are what its uninitialised
      variables hold, pton is inet_pton. */
  method CmdPort(line: string, stack: seq<nat>, addr: nat, pton: string -> Option<nat>) returns (e: Endpoint)
    requires '\0' !in line && |stack| == 6
    ensures WellFormed(PORT_FORMAT, 0)
    ensures e == PortEndpoint(Variables(ScanSpec.Sscanf(line, PORT_FORMAT).out, stack), addr, pton)
  {
    hide ScanSpec.Sscanf, WellFormed, PORT_FORMAT, IpText, Htons, Variables, Unsigned;
    PortWellFormed();
    var n, out := Sscanf.Vsscanf(line, PORT_FORMAT);
    assert out == ScanSpec.Sscanf(line, PORT_FORMAT).out;
    var vars := Variables(out, stack);
    var portHigh, portLow := vars[4], vars[5];
    var dataPort := (portLow + portHigh * 256) % 0x1_0000;
    var ipStr := IpText(vars[0], vars[1], vars[2], vars[3]);
    var dataAddr := addr;
    var read := pton(ipStr);
    if read.Some? { dataAddr := read.value; }
    e := Endpoint(dataAddr, Htons(dataPort));
  }

  lemma {:induction false} NumbersFormatWellFormed(fmt: string, f: nat, k: nat)
    requires k > 0 && f <= |fmt| && fmt[f..] == NumbersFormat(k)
    ensures WellFormed(fmt, f)
    decreases k
  {
    var form := fmt[f..];
    assert form[0] == fmt[f] && form[1] == fmt[f + 1];
    ParseNumber(fmt, f);
    if k > 1 {
      assert form[2] == fmt[f + 2];
      assert fmt[f + 3..] == form[3..];
      NumbersFormatWellFormed(fmt, f + 3, k - 1);
    }
  }

  lemma PortFormat()
    ensures var f := PORT_FORMAT;
            && |f| > 4 && f[0] == '%' && f[3] == ' ' && '\0' !in f
            && ParseSpec(f, 0) == Spec(Word(true, UINT_MAX), 3)
            && FormatLeft(f, 4, 6) && WellFormed(f, 0) && WellFormed(f, 3)
  {
    hide WellFormed, FormatLeft, ParseSpec;
    var f := PORT_FORMAT;
    FormatChars();
    ParseSkippedWord(f, 0);
    NumbersFormatWellFormed(f, 4, 6);
    LeftToRead(f, 4, 6);
    WellFormedPlain(f, 3);
    WellFormedSpec(f, 0);
  }

  lemma FormatChars()
    ensures |PORT_FORMAT| > 4 && PORT_FORMAT[0] == '%' && PORT_FORMAT[1] == '*' && PORT_FORMAT[2] == 's'
    ensures PORT_FORMAT[3] == ' ' && PORT_FORMAT[4..] == NumbersFormat(6) && '\0' !in PORT_FORMAT
  {
    assert NumbersFormat(2) == "%d,%d";
    assert NumbersFormat(3) == "%d,%d,%d";
    assert NumbersFormat(4) == "%d,%d,%d,%d";
    assert NumbersFormat(5) == "%d,%d,%d,%d,%d";
    assert PORT_FORMAT == "%*s %d,%d,%d,%d,%d,%d";
  }

  lemma LeftToRead(fmt: string, f: nat, k: nat)
    requires k > 0 && f <= |fmt| && fmt[f..] == NumbersFormat(k) && WellFormed(fmt, f)
    ensures FormatLeft(fmt, f, k)
  {}

  lemma WellFormedPlain(fmt: string, f: nat)
    requires f < |fmt| && fmt[f] != '%' && WellFormed(fmt, f + 1)
    ensures WellFormed(fmt, f)
  {
    hide ParseSpec;
  }

  lemma WellFormedSpec(fmt: string, f: nat)
    requires f < |fmt| && fmt[f] == '%' && !ParseSpec(fmt, f).conv.Bad? && !ParseSpec(fmt, f).conv.Unclosed?
    requires WellFormed(fmt, ParseSpec(fmt, f).next)
    ensures WellFormed(fmt, f)
  {
    hide ParseSpec;
  }

  /** The numbers of a PASV reply sent after any command word, with white space between,
      are taken apart by PORT into the same address and the same port. */
  lemma {:induction false} PortRecoversPasv(
      word: string, gap: string, e: Endpoint, tail: string, stack: seq<nat>, addr: nat, pton: string -> Option<nat>)
    requires |stack| == 6 && IsEndpoint(e) && word != "" && gap != ""
    requires forall c | c in word :: !IsSpace(c)
    requires forall c | c in gap :: IsSpace(c)
    requires tail == "" || !IsDigit(tail[0], 10)
    requires |word + gap + NumbersText(PasvNumbers(e)) + tail| <= UINT_MAX
    ensures WellFormed(PORT_FORMAT, 0)
    ensures var line := word + gap + NumbersText(PasvNumbers(e)) + tail;
            Recovered(PortEndpoint(Variables(ScanSpec.Sscanf(line, PORT_FORMAT).out, stack), addr, pton), e, pton)
  {
    hide *;
    PortFormat();
    ScanNumbers(word, gap, PasvNumbers(e), tail);
    Repacked(e, stack, addr, pton);
  }

  /** What stands between the brackets of a 227 reply, sent back in a PORT line, gives the
      endpoint the reply was made from. */
  lemma {:induction false} ReplyComesBack(
      word: string, gap: string, e: Endpoint, stack: seq<nat>, addr: nat, pton: string -> Option<nat>)
    requires |stack| == 6 && IsEndpoint(e) && word != "" && gap != ""
    requires forall c | c in word :: !IsSpace(c)
    requires forall c | c in gap :: IsSpace(c)
    requires |word| + |gap| + |PasvReply(e)| <= UINT_MAX
    ensures WellFormed(PORT_FORMAT, 0) && |PasvReply(e)| > 30
    ensures var reply := PasvReply(e);
            var line := word + gap + reply[27..|reply| - 3] + "\r\n";
            Recovered(PortEndpoint(Variables(ScanSpec.Sscanf(line, PORT_FORMAT).out, stack), addr, pton), e, pton)
  {
    hide WellFormed, NumbersText, PortEndpoint, Run, PORT_FORMAT, PasvNumbers, Recovered;
    var text := NumbersText(PasvNumbers(e));
    NumbersStart(PasvNumbers(e));
    BracketText(text);
    assert word + gap + PasvReply(e)[27..|PasvReply(e)| - 3] + "\r\n" == word + gap + text + "\r\n";
    PortRecoversPasv(word, gap, e, "\r\n", stack, addr, pton);
  }

  lemma BracketText(text: string)
    ensures var reply := "227 Entering Passive Mode (" + text + ")\r\n";
            |reply| == |text| + 30 && reply[27..|reply| - 3] == text
  {}

  lemma HtonsBytes(high: nat, low: nat)
    requires high < 0x100 && low < 0x100
    ensures high + low * 256 < 0x1_0000 && Htons((high + low * 256) % 0x1_0000) == high * 256 + low
  {}

  lemma TwoBytes(p: nat)
    requires p < 0x1_0000
    ensures Htons((p / 0x100 % 0x100 + p % 0x100 * 256) % 0x1_0000) == p
  {
    hide Htons;
    assert p / 0x100 % 0x100 == p / 0x100;
    HtonsBytes(p / 0x100, p % 0x100);
  }

  /** Six bytes pass through the 32-bit arguments unchanged. */
  lemma BytesStored(vs: seq<int>)
    requires |vs| == 6 && forall i | 0 <= i < 6 :: 0 <= vs[i] < 0x100
    ensures forall i | 0 <= i < 6 :: Unsigned(StoredNumbers(vs)[i]) == vs[i]
  {}

  lemma Repacked(e: Endpoint, stack: seq<nat>, addr: nat, pton: string -> Option<nat>)
    requires |stack| == 6 && IsEndpoint(e)
    ensures Recovered(PortEndpoint(Variables(StoredNumbers(PasvNumbers(e)), stack), addr, pton), e, pton)
  {
    hide Htons, StoredNumbers, Unsigned, IpText, DottedQuad;
    BytesStored(PasvNumbers(e));
    TwoBytes(e.sinPort);
    var vars := Variables(StoredNumbers(PasvNumbers(e)), stack);
    PrintsQuad(vars[0], vars[1], vars[2], vars[3]);
    assert ReadsQuad(pton, e.addr) ==> pton(IpText(vars[0], vars[1], vars[2], vars[3])) == Some(e.addr);
  }

  /** %*s and the space skip the word and the gap; the numbers follow. */
  lemma ScanNumbers(word: string, gap: string, vs: seq<int>, tail: string)
    requires |vs| == 6 && word != "" && gap != ""
    requires forall c | c in word :: !IsSpace(c)
    requires forall c | c in gap :: IsSpace(c)
    requires tail == "" || !IsDigit(tail[0], 10)
    requires |word + gap + NumbersText(vs) + tail| <= UINT_MAX
    ensures WellFormed(PORT_FORMAT, 0)
    ensures var line := word + gap + NumbersText(vs) + tail;
            ScanSpec.Sscanf(line, PORT_FORMAT) == Progress(|line| - |tail|, 7, StoredNumbers(vs))
  {
    hide Convert, ParseSpec, WellFormed, Element, Run, NumbersText, FormatLeft, StoredNumbers;
    PortFormat();
    var f := PORT_FORMAT;
    var line := word + gap + NumbersText(vs) + tail;
    var start := Progress(0, 0, []);
    LineParts(word, gap, vs, tail);
    ConversionElement(line, f, 0, start, Spec(Word(true, UINT_MAX), 3));
    WordConversion(line, start);
    var afterWord := Progress(|word|, 1, []);
    RunOnce(line, f, 0, start, 3, afterWord);
    SpaceElement(line, f, 3, afterWord);
    var numbers := afterWord.(pos := |word| + |gap|);
    RunOnce(line, f, 3, afterWord, 4, numbers);
    RunNumbers(line, f, 4, numbers, vs, tail);
  }

  lemma LineParts(word: string, gap: string, vs: seq<int>, tail: string)
    requires |vs| > 0 && word != "" && gap != ""
    requires forall c | c in word :: !IsSpace(c)
    requires forall c | c in gap :: IsSpace(c)
    requires tail == "" || !IsDigit(tail[0], 10)
    requires |word + gap + NumbersText(vs) + tail| <= UINT_MAX
    ensures var line := word + gap + NumbersText(vs) + tail;
            && line != "" && !IsSpace(line[0])
            && Span(line, 0, |line|, NonSpace) == |word|
            && SkipSpace(line, |word|) == |word| + |gap|
            && TextAhead(line, |word| + |gap|, vs, tail)
  {
    hide IsSpace, NumbersText, Span, IsDigit;
    var text := NumbersText(vs);
    var line := word + gap + text + tail;
    NumbersStart(vs);
    assert word[0] in word && gap[0] in gap && line[0] == word[0];
    PartsRegrouped(word, gap, text, tail);
    SpanOfPart(line, "", word, gap + (text + tail), NonSpace);
    SpanOfPart(line, word, gap, text + tail, Space);
  }

  lemma PartsRegrouped(word: string, gap: string, text: string, tail: string)
    ensures var line := word + gap + text + tail;
            && line == "" + word + (gap + (text + tail))
            && line == word + gap + (text + tail)
            && line[|word| + |gap|..] == text + tail
            && (gap != "" ==> (gap + (text + tail))[0] == gap[0])
            && (text != "" ==> (text + tail)[0] == text[0])
  {}

  lemma NumbersStart(vs: seq<int>)
    requires |vs| > 0
    ensures |NumbersText(vs)| > 0 && !IsSpace(NumbersText(vs)[0])
  {
    DecimalNatValue(if vs[0] < 0 then -vs[0] else vs[0]);
    assert NumbersText(vs)[0] == Decimal(vs[0])[0];
  }
}
