/** gen_filepath: the file name in a RETR, STOR, DELE or similar line. */
module FtpFile {
  import opened ScanText
  import opened Scanset
  import opened Runs
  import opened ScanSpec
  import opened ScanProps
  import opened FtpPath
  import opened FtpStack
  import Sscanf

  const FILE_FORMAT: string := "%*[^ ] %[^\r\n\t]"

  /** The command word as this scan reads it: up to a blank, whatever else is in it. */
  const WORD: Class := Scanlist(" ", true)

  /** The name after the word and the white space behind it, up to a CR, LF or TAB; none when
      the line starts with a blank or has nothing but white space after the word. */
  function FileArgument(line: string): (r: Option<string>)
    ensures r.Some? ==> 0 < |r.value| && !IsSpace(r.value[0])
  {
    if line == "" || line[0] == ' ' then None
    else
      var a := SkipSpace(line, Span(line, 0, |line|, WORD));
      if a == |line| then None
      else
        LineEndSet(line[a]);
        Some(line[a..Span(line, a, |line|, Scanlist(LINE_ENDS, true))])
  }

  lemma BlankSet(c: char)
    ensures In(c, WORD) <==> c != ' '
  {
    assert Admits(" ", 0, c) <==> c == ' ';
  }

  lemma FileFormat()
    ensures var f := FILE_FORMAT;
            && |f| == 14 && f[0] == '%' && f[6] == ' ' && f[7] == '%' && '\0' !in f
            && ParseSpec(f, 0) == Spec(Set(true, UINT_MAX, true, " "), 6)
            && ParseSpec(f, 7) == Spec(Set(false, UINT_MAX, true, LINE_ENDS), 14)
            && WellFormed(f, 0) && WellFormed(f, 6) && WellFormed(f, 7)
  {
    hide ParseSpec;
    var f := FILE_FORMAT;
    assert f[0..6] == Excluding(true, " ");
    ParseExcluding(f, 0, true, " ");
    assert f[7..14] == Excluding(false, LINE_ENDS);
    ParseExcluding(f, 7, false, LINE_ENDS);
    assert WellFormed(f, 14);
    assert WellFormed(f, 7);
    assert WellFormed(f, 6);
  }

  lemma WordSkipped(line: string)
    requires |line| <= UINT_MAX
    ensures var e := Span(line, 0, |line|, WORD);
            Convert(Set(true, UINT_MAX, true, " "), line, Progress(0, 0, [])) ==
            if e > 0 then Next(Progress(e, 1, []))
            else Stop(Progress(0, if line == "" then EOF else 0, []))
    ensures line != "" && line[0] != ' ' <==> Span(line, 0, |line|, WORD) > 0
  {
    SpanLimit(line, 0, UINT_MAX, WORD);
    if line != "" { BlankSet(line[0]); }
  }

  /** The scan counts two conversions and stores the name exactly when there is one. Otherwise it
      stores nothing and returns -1, or 0 for a line that starts with a blank. */
  lemma {:induction false} FileArgumentScan(line: string)
    requires |line| <= UINT_MAX
    ensures WellFormed(FILE_FORMAT, 0)
    ensures var r := ScanSpec.Sscanf(line, FILE_FORMAT);
            match FileArgument(line)
            case Some(text) => r.n == 2 && r.out == [ScanSpec.Value.Text(text)]
            case None => r.out == [] && r.n == if line != "" && line[0] == ' ' then 0 else -1
  {
    hide Convert, ParseSpec, WellFormed, Element, Run;
    FileFormat();
    var f := FILE_FORMAT;
    var start := Progress(0, 0, []);
    ConversionElement(line, f, 0, start, Spec(Set(true, UINT_MAX, true, " "), 6));
    WordSkipped(line);
    if line == "" || line[0] == ' ' {
      RunDone(line, f, 0, start);
    } else {
      var word := Progress(Span(line, 0, |line|, WORD), 1, []);
      RunOnce(line, f, 0, start, 6, word);
      SpaceElement(line, f, 6, word);
      var arg := word.(pos := SkipSpace(line, word.pos));
      RunOnce(line, f, 6, word, 7, arg);
      ConversionElement(line, f, 7, arg, Spec(Set(false, UINT_MAX, true, LINE_ENDS), 14));
      ArgumentConversion(line, arg);
      if arg.pos == |line| {
        RunDone(line, f, 7, arg);
      } else {
        var e := Span(line, arg.pos, |line|, Scanlist(LINE_ENDS, true));
        var end := Progress(e, 2, [ScanSpec.Value.Text(line[arg.pos..e])]);
        RunOnce(line, f, 7, arg, 14, end);
        RunEnd(line, f, 14, end);
      }
    }
  }

  /** The name that gen_filepath uses: what cmd_path held before if the scan finds none. */
  function FileName(line: string, stale: string): string {
    match FileArgument(line)
    case Some(name) => name
    case None => stale
  }

  /** gen_filepath. stale is what the uninitialised cmd_path holds, size is PATH_MAX. */
  method GenFilepath(cur: string, line: string, stale: string, size: nat) returns (dest: string)
    requires '\0' !in line && |line| <= UINT_MAX && |FileName(line, stale)| < size
    ensures dest == Cut(FilePath(cur, FileName(line, stale)), size)
  {
    hide ScanSpec.Sscanf, FileArgument, WellFormed;
    FileFormat();
    FileArgumentScan(line);
    var n, out := Sscanf.Vsscanf(line, FILE_FORMAT);
    var cmdPath := stale;
    if |out| > 0 { cmdPath := out[0].text; }
    if cmdPath != "" && cmdPath[0] == '/' {
      dest := cmdPath;
    } else {
      dest := cur + "/" + cmdPath;
      if |dest| >= size { dest := dest[..size - 1]; }
    }
  }

  lemma NameOfLine(word: string, gap: string, name: string, tail: string)
    requires word != "" && ' ' !in word && gap != "" && gap[0] == ' ' && forall c | c in gap :: IsSpace(c)
    requires name != "" && !IsSpace(name[0]) && forall c | c in name :: !EndsArgument(c)
    requires tail == "" || EndsArgument(tail[0])
    ensures FileArgument(word + gap + name + tail) == Some(name)
  {
    hide IsSpace, Span, EndsArgument;
    var line := word + gap + name + tail;
    assert word[0] in word && line[0] == word[0];
    assert line == "" + word + (gap + name + tail) == word + gap + (name + tail) == (word + gap) + name + tail;
    forall c | c in word ensures In(c, WORD) { BlankSet(c); }
    BlankSet(gap[0]);
    SpanOfPart(line, "", word, gap + name + tail, WORD);
    SpanOfPart(line, word, gap, name + tail, Space);
    forall c | c in name ensures In(c, Scanlist(LINE_ENDS, true)) { LineEndSet(c); }
    if tail != "" { LineEndSet(tail[0]); }
    SpanOfPart(line, word + gap, name, tail, Scanlist(LINE_ENDS, true));
    assert line[|word + gap|..|word + gap| + |name|] == name;
  }

  /** A command line with a clean relative name names a file below the working directory, if the
      whole path fits. */
  lemma {:induction false} NamedBelow(st: Stack, word: string, cs: Stack, tail: string, stale: string, size: nat)
    requires Clean(st) && |cs| > 0 && Clean(cs)
    requires word != "" && ' ' !in word && (tail == "" || EndsArgument(tail[0]))
    requires Join(cs) != "" && !IsSpace(Join(cs)[0]) && forall c | c in Join(cs) :: !EndsArgument(c)
    requires |Render(st)| + |Join(cs)| + 1 < size
    ensures var name := FileName(word + " " + Join(cs) + tail, stale);
            Components(Cut(FilePath(Render(st), name), size)) == st + cs
  {
    hide FileArgument, Components, Render, Join, Clean;
    NameOfLine(word, " ", Join(cs), tail);
    FilePathBelow(st, cs);
  }

  /** A line with an absolute name names that file, whatever the working directory. */
  lemma {:induction false} AbsoluteNamed(
      cur: string, word: string, gap: string, name: string, tail: string, stale: string, size: nat)
    requires word != "" && ' ' !in word && gap != "" && gap[0] == ' ' && forall c | c in gap :: IsSpace(c)
    requires name != "" && name[0] == '/' && forall c | c in name :: !EndsArgument(c)
    requires (tail == "" || EndsArgument(tail[0])) && |name| < size
    ensures Cut(FilePath(cur, FileName(word + gap + name + tail, stale)), size) == name
  {
    hide FileArgument, IsSpace, EndsArgument;
    SlashNoSpace();
    NameOfLine(word, gap, name, tail);
  }

  lemma SlashNoSpace()
    ensures !IsSpace('/')
  {}

  /** So a clean absolute name leads to its own components. */
  lemma {:induction false} NamedFromRoot(
      cur: string, word: string, cs: Stack, tail: string, stale: string, size: nat)
    requires |cs| > 0 && Clean(cs) && word != "" && ' ' !in word && (tail == "" || EndsArgument(tail[0]))
    requires (forall c | c in Join(cs) :: !EndsArgument(c)) && |Join(cs)| + 1 < size
    ensures Components(Cut(FilePath(cur, FileName(word + " " + ("/" + Join(cs)) + tail, stale)), size)) == cs
  {
    hide FileName, Components, FilePath, Join, Clean, Cut;
    assert !EndsArgument('/');
    AbsoluteNamed(cur, word, " ", "/" + Join(cs), tail, stale, size);
    ComponentsOfJoin(cs);
    SlashesAdd(Join(cs));
  }
}
