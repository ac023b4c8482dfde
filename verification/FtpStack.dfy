/** CWD and CDUP as pushes and pops of path components (section 4.1.1 of RFC 959). */
module FtpStack {
  import opened ScanText
  import opened Runs
  import opened ScanSpec
  import opened ScanProps
  import opened FtpPath

  /** The device first, then the directories. */
  type Stack = seq<string>

  predicate Clean(cs: Stack) {
    forall c | c in cs :: c != "" && '/' !in c
  }

  function Join(cs: Stack): string
    requires |cs| > 0
  {
    if |cs| == 1 then cs[0] else Join(cs[..|cs| - 1]) + "/" + cs[|cs| - 1]
  }

  /** The path of a stack: "/", "/dev/", "/dev/a/b". */
  function Render(st: Stack): string {
    if |st| == 0 then "/" else WithSlash("/" + Join(st))
  }

  lemma {:induction false} JoinConcat(a: Stack, b: Stack)
    requires |a| > 0 && |b| > 0
    ensures Join(a + b) == Join(a) + "/" + Join(b)
    decreases |b|
  {
    var ab := a + b;
    if |b| == 1 {
      assert ab[..|ab| - 1] == a;
    } else {
      var t := b[..|b| - 1];
      assert ab[..|ab| - 1] == a + t;
      JoinConcat(a, t);
    }
  }

  /** The last slash of "/" + Join(cs) stands before the last component. */
  lemma {:induction false} JoinLastSlash(cs: Stack)
    requires |cs| > 0 && Clean(cs)
    ensures LastSlash("/" + Join(cs)) == |Join(cs)| - |cs[|cs| - 1]| < |Join(cs)|
    ensures ("/" + Join(cs))[..LastSlash("/" + Join(cs))] ==
            if |cs| == 1 then "" else "/" + Join(cs[..|cs| - 1])
    ensures |Join(cs)| > 0 && Join(cs)[0] != '/'
    ensures LastSlash("/" + Join(cs)) == 0 <==> |cs| == 1
    decreases |cs|
  {
    hide LastSlash;
    var last := cs[|cs| - 1];
    assert last in cs;
    assert LastSlash(last) == -1 by { NoSlash(last); }
    if |cs| == 1 {
      SlashOfConcat("", last);
      assert "/" + Join(cs) == "" + "/" + last;
    } else {
      var init := cs[..|cs| - 1];
      assert Clean(init) by {
        forall c | c in init ensures c in cs {}
      }
      JoinLastSlash(init);
      SlashOfConcat("/" + Join(init), last);
      OneMore(Join(init), last);
    }
  }

  lemma OneMore(j: string, last: string)
    ensures "/" + (j + "/" + last) == ("/" + j) + "/" + last
    ensures ("/" + (j + "/" + last))[..|j| + 1] == "/" + j
  {}

  lemma NoSlash(c: string)
    requires '/' !in c
    ensures LastSlash(c) == -1
  {}

  lemma SlashOfConcat(a: string, b: string)
    ensures LastSlash(a + "/" + b) == |a| + 1 + LastSlash(b)
  {
    var p := a + "/" + b;
    assert forall k | 0 <= k < |b| :: p[|a| + 1 + k] == b[k];
    var i := |a| + 1 + LastSlash(b);
    assert p[|a|] == '/';
    forall k | i < k < |p| ensures p[k] != '/' {
      assert p[k] == b[k - |a| - 1];
    }
    LastSlashIs(p, i);
  }

  lemma RenderForm(st: Stack)
    requires Clean(st)
    ensures Render(st) ==
            if |st| == 0 then "/" else if |st| == 1 then "/" + st[0] + "/" else "/" + Join(st)
  {
    if |st| > 0 { JoinLastSlash(st); }
  }

  /** A session's paths end in a slash exactly at the device roots. */
  lemma RenderAtRoot(st: Stack)
    requires Clean(st)
    ensures AtRoot(Render(st)) <==> |st| <= 1
    ensures '/' in Render(st) && Render(st)[0] == '/' && (|Render(st)| == 1 <==> |st| == 0)
  {
    RenderForm(st);
    if |st| == 0 {
      LastSlashIs("/", 0);
    } else {
      JoinLastSlash(st);
      if |st| == 1 { LastSlashIs(Render(st), |Render(st)| - 1); }
    }
  }

  function Popped(st: Stack): Stack {
    if |st| == 0 then [] else st[..|st| - 1]
  }

  lemma CleanParts(st: Stack)
    requires Clean(st)
    ensures Clean(Popped(st))
  {
    forall c | c in Popped(st) ensures c in st {}
  }

  /** dir_up pops. */
  lemma {:induction false} ParentPops(st: Stack)
    requires Clean(st)
    ensures '/' in Render(st) && Parent(Render(st)) == Render(Popped(st))
  {
    RenderAtRoot(st);
    CleanParts(st);
    if |st| > 1 {
      JoinLastSlash(st);
      RenderForm(st);
    }
  }

  /** What CWD puts before a relative argument. */
  function Prefix(cur: string): string {
    if AtRoot(cur) then cur else cur + "/"
  }

  lemma PrefixJoins(st: Stack, cs: Stack)
    requires Clean(st) && |cs| > 0
    ensures Prefix(Render(st)) + Join(cs) == "/" + Join(st + cs)
  {
    hide AtRoot, Render, Join;
    RenderAtRoot(st);
    RenderForm(st);
    var j := Join(cs);
    if |st| == 0 {
      assert st + cs == cs;
    } else {
      JoinConcat(st, cs);
      if |st| == 1 {
        JoinOne(st);
        assert "/" + st[0] + "/" + j == "/" + (st[0] + "/" + j);
      } else {
        assert "/" + Join(st) + "/" + j == "/" + (Join(st) + "/" + j);
      }
    }
  }

  lemma JoinOne(st: Stack)
    requires |st| == 1
    ensures Join(st) == st[0]
  {}

  /** A relative argument pushes its components. */
  lemma {:induction false} TargetPushes(st: Stack, cs: Stack, size: nat)
    requires Clean(st) && |cs| > 0 && Clean(cs) && |Render(st + cs)| < size
    ensures Target(Render(st), Join(cs), size) == Render(st + cs)
  {
    hide AtRoot, Join, LastSlash;
    PrefixJoins(st, cs);
    JoinLastSlash(cs);
  }

  // ---------------------------------------------------------------------------
  // Runs of commands
  // ---------------------------------------------------------------------------

  datatype Command = CwdRoot | CwdUp | CwdInto(cs: Stack) | CwdAbsolute(cs: Stack) | Cdup

  /** The argument that CWD is given. */
  function Text(c: Command): string
    requires !c.Cdup? && (c.CwdInto? || c.CwdAbsolute? ==> |c.cs| > 0)
  {
    match c
    case CwdRoot => "/"
    case CwdUp => ".."
    case CwdInto(cs) => Join(cs)
    case CwdAbsolute(cs) => "/" + Join(cs)
  }

  /** Components are nonempty and free of slashes, and a relative path is not "..". */
  predicate CleanCommand(c: Command) {
    match c
    case CwdInto(cs) => |cs| > 0 && Clean(cs) && Join(cs) != ".."
    case CwdAbsolute(cs) => |cs| > 0 && Clean(cs)
    case _ => true
  }

  /** The path after a command, as the string code computes it. */
  function PathStep(p: string, c: Command, isDir: string -> bool, size: nat): string
    requires '/' in p && CleanCommand(c) && size > 1
  {
    if c.Cdup? then Parent(p)
    else
      match Changed(p, Text(c), isDir, size)
      case None => p
      case Some(q) => q
  }

  /** Going to a stack succeeds if the directory it names exists. */
  function Entered(st: Stack, target: Stack, isDir: string -> bool): Stack {
    if isDir(Render(target)[1..]) then target else st
  }

  function StackStep(st: Stack, c: Command, isDir: string -> bool): Stack {
    match c
    case CwdRoot => []
    case CwdUp => Popped(st)
    case Cdup => Popped(st)
    case CwdInto(cs) => Entered(st, st + cs, isDir)
    case CwdAbsolute(cs) => Entered(st, cs, isDir)
  }

  /** The path of the directory that a relative argument names is not cut. */
  predicate Fits(st: Stack, c: Command, size: nat) {
    c.CwdInto? ==> |Render(st + c.cs)| < size
  }

  /** A path that fits moves as the stack moves. */
  lemma {:induction false} StepRefines(st: Stack, c: Command, isDir: string -> bool, size: nat)
    requires Clean(st) && CleanCommand(c) && Fits(st, c, size) && size > 1
    ensures '/' in Render(st) && Clean(StackStep(st, c, isDir))
    ensures PathStep(Render(st), c, isDir, size) == Render(StackStep(st, c, isDir))
  {
    hide Render, Join, Parent, Target, LastSlash;
    RenderAtRoot(st);
    ParentPops(st);
    CleanParts(st);
    RenderEmpty();
    match c
    case CwdRoot =>
    case CwdUp =>
    case Cdup =>
    case CwdInto(cs) =>
      TargetPushes(st, cs, size);
      JoinLastSlash(cs);
      assert Join(cs)[0] != '/' && "/"[0] == '/';
      NotRoot(st + cs);
    case CwdAbsolute(cs) =>
      JoinLastSlash(cs);
      assert ("/" + Join(cs))[0] == '/' && ".."[0] == '.';
      assert |"/" + Join(cs)| > 1;
      AbsoluteTarget(Render(st), cs, size);
      NotRoot(cs);
  }

  lemma RenderEmpty()
    ensures Render([]) == "/"
  {}

  lemma NotRoot(st: Stack)
    requires |st| > 0 && Clean(st)
    ensures Render(st) != "/"
  {
    RenderAtRoot(st);
  }

  lemma AbsoluteTarget(cur: string, cs: Stack, size: nat)
    requires |cs| > 0 && size > 0
    ensures Target(cur, "/" + Join(cs), size) == Render(cs)
  {
    hide Join, LastSlash, AtRoot;
  }

  lemma RenderWellShaped(st: Stack)
    requires Clean(st)
    ensures WellShaped(Render(st))
  {
    RenderForm(st);
    if |st| == 0 {
    } else {
      JoinLastSlash(st);
      if |st| == 1 { LastSlashIs(Render(st), |Render(st)| - 1); }
    }
  }

  /** The path that CWD builds for a relative argument, cut or not. */
  function Built(st: Stack, cs: Stack, size: nat): string
    requires |cs| > 0 && size > 0
  {
    Target(Render(st), Join(cs), size)
  }

  predicate Opens(isDir: string -> bool, p: string) {
    p != "" && isDir(p[1..])
  }

  /** The path follows the stack if and only if the named path fits; or the directory is missing and
      so is the one that the cut path names, or that is the working directory. In all other cases
      the session ends up in a directory that was not named. */
  lemma {:induction false} StepRefinesIff(st: Stack, c: Command, isDir: string -> bool, size: nat)
    requires Clean(st) && CleanCommand(c) && |Render(st)| < size && (!c.Cdup? ==> |Text(c)| + 2 < size)
    ensures '/' in Render(st)
    ensures PathStep(Render(st), c, isDir, size) == Render(StackStep(st, c, isDir)) <==>
            || Fits(st, c, size)
            || (!Opens(isDir, Render(st + c.cs)) &&
                (!Opens(isDir, Built(st, c.cs, size)) || Built(st, c.cs, size) == Render(st)))
  {
    hide Render, Join, Parent, Target, LastSlash;
    RenderAtRoot(st);
    if Fits(st, c, size) {
      StepRefines(st, c, isDir, size);
    } else {
      RenderWellShaped(st);
      JoinLastSlash(c.cs);
      TargetFits(Render(st), Text(c), size);
      CutIsLong(st, c.cs, size);
      assert Join(c.cs)[0] != '/' && "/"[0] == '/';
    }
  }

  lemma CutIsLong(st: Stack, cs: Stack, size: nat)
    requires Clean(st) && |cs| > 0 && Clean(cs) && |Render(st + cs)| >= size && |Join(cs)| + 2 < size
    ensures 1 < |Built(st, cs, size)|
  {
    hide Join, LastSlash, AtRoot;
    PrefixJoins(st, cs);
    JoinLastSlash(cs);
  }

  /** A command together with the answers of the file system at its time. */
  datatype Event = Event(command: Command, isDir: string -> bool)

  function RunStack(st: Stack, run: seq<Event>): Stack
    decreases |run|
  {
    if run == [] then st else RunStack(StackStep(st, run[0].command, run[0].isDir), run[1..])
  }

  /** Every path that the run builds fits. */
  ghost predicate RunFits(st: Stack, run: seq<Event>, size: nat)
    decreases |run|
  {
    run != [] ==>
      Fits(st, run[0].command, size) && RunFits(StackStep(st, run[0].command, run[0].isDir), run[1..], size)
  }

  /** p is where the string code ends up, from q, after the run. */
  ghost predicate Reaches(q: string, run: seq<Event>, p: string, size: nat)
    requires size > 1
    decreases |run|
  {
    if run == [] then p == q
    else '/' in q && CleanCommand(run[0].command) &&
         Reaches(PathStep(q, run[0].command, run[0].isDir, size), run[1..], p, size)
  }

  /** Over any run of clean commands, with any directories missing at any time, the path
      string is the rendering of the stack. */
  lemma {:induction false} RunRefines(st: Stack, run: seq<Event>, size: nat)
    requires Clean(st) && (forall e | e in run :: CleanCommand(e.command)) && RunFits(st, run, size) && size > 1
    ensures Clean(RunStack(st, run)) && Reaches(Render(st), run, Render(RunStack(st, run)), size)
    decreases |run|
  {
    if run != [] {
      assert run[0] in run;
      StepRefines(st, run[0].command, run[0].isDir, size);
      assert forall e | e in run[1..] :: e in run;
      RunRefines(StackStep(st, run[0].command, run[0].isDir), run[1..], size);
    }
  }

  /** The last component, read off the path. */
  function Top(p: string): string
    requires '/' in p && |p| > 1
  {
    if AtRoot(p) then p[1..|p| - 1] else p[LastSlash(p) + 1..]
  }

  lemma JoinEnds(cs: Stack)
    requires |cs| > 0
    ensures var last := cs[|cs| - 1]; |last| <= |Join(cs)| && Join(cs)[|Join(cs)| - |last|..] == last
  {}

  lemma TopIsLast(st: Stack)
    requires |st| > 0 && Clean(st)
    ensures '/' in Render(st) && |Render(st)| > 1 && Top(Render(st)) == st[|st| - 1]
  {
    hide Join, Render, LastSlash, AtRoot;
    RenderAtRoot(st);
    RenderForm(st);
    JoinLastSlash(st);
    if |st| > 1 {
      JoinEnds(st);
      TailOfSlashed(Join(st), |Join(st)| - |st[|st| - 1]|);
    } else {
      JoinOne(st);
      Between(st[0]);
    }
  }

  lemma TailOfSlashed(j: string, k: int)
    requires 0 <= k <= |j|
    ensures ("/" + j)[k + 1..] == j[k..]
  {}

  lemma Between(c: string)
    ensures ("/" + c + "/")[1..|c| + 1] == c
  {}

  /** No two stacks have one rendering, so the path says where the session is. */
  lemma {:induction false} RenderInjective(a: Stack, b: Stack)
    requires Clean(a) && Clean(b) && Render(a) == Render(b)
    ensures a == b
    decreases |a|
  {
    hide Render, Parent, Top, Clean, AtRoot;
    RenderAtRoot(a);
    RenderAtRoot(b);
    if |a| > 0 {
      CleanParts(a);
      CleanParts(b);
      ParentPops(a);
      ParentPops(b);
      RenderInjective(Popped(a), Popped(b));
      TopIsLast(a);
      TopIsLast(b);
      assert a == Popped(a) + [a[|a| - 1]] && b == Popped(b) + [b[|b| - 1]];
    }
  }

  /** CWD into one component and CDUP cancel out. */
  lemma {:induction false} CwdThenCdup(st: Stack, c: string, isDir: string -> bool, size: nat)
    requires Clean(st) && Clean([c]) && c != ".." && isDir(Render(st + [c])[1..]) && |Render(st + [c])| < size
    ensures '/' in Render(st)
    ensures var p := PathStep(Render(st), CwdInto([c]), isDir, size);
            p != Render(st) && '/' in p && PathStep(p, Cdup, isDir, size) == Render(st)
  {
    StepRefines(st, CwdInto([c]), isDir, size);
    StepRefines(st + [c], Cdup, isDir, size);
    assert Popped(st + [c]) == st;
    if Render(st) == Render(st + [c]) { RenderInjective(st, st + [c]); }
  }

  // ---------------------------------------------------------------------------
  // From the received line
  // ---------------------------------------------------------------------------

  /** The argument of a line is the text between the gap after the word and the line end. */
  lemma ArgumentOfLine(word: string, gap: string, arg: string, tail: string)
    requires word != "" && gap != "" && arg != "" && !IsSpace(arg[0])
    requires forall c | c in word :: !IsSpace(c)
    requires forall c | c in gap :: IsSpace(c)
    requires forall c | c in arg :: !EndsArgument(c)
    requires tail == "" || EndsArgument(tail[0])
    ensures Argument(word + gap + arg + tail) == Some(arg)
  {
    hide IsSpace, Span, EndsArgument;
    var line := word + gap + arg + tail;
    assert word[0] in word && gap[0] in gap && line[0] == word[0];
    assert line == "" + word + (gap + arg + tail) == word + gap + (arg + tail) == (word + gap) + arg + tail;
    SpanOfPart(line, "", word, gap + arg + tail, NonSpace);
    SpanOfPart(line, word, gap, arg + tail, Space);
    forall c | c in arg ensures In(c, Scanlist(LINE_ENDS, true)) { LineEndSet(c); }
    if tail != "" { LineEndSet(tail[0]); }
    SpanOfPart(line, word + gap, arg, tail, Scanlist(LINE_ENDS, true));
    assert line[|word + gap|..|word + gap| + |arg|] == arg;
  }

  /** A clean CWD command sent as a line moves the path as the stack moves. */
  lemma {:induction false} LineRefines(st: Stack, c: Command, isDir: string -> bool, size: nat)
    requires Clean(st) && CleanCommand(c) && !c.Cdup? && Fits(st, c, size) && size > 1
    requires Text(c) != "" && !IsSpace(Text(c)[0]) && forall x | x in Text(c) :: !EndsArgument(x)
    ensures var line := "CWD " + Text(c) + "\r\n";
            && Argument(line).Some? && '/' in Render(st)
            && (match Changed(Render(st), Argument(line).value, isDir, size)
                case None => Render(st)
                case Some(p) => p) == Render(StackStep(st, c, isDir))
  {
    hide Changed, Argument, Render;
    ArgumentOfLine("CWD", " ", Text(c), "\r\n");
    assert "CWD" + " " + Text(c) + "\r\n" == "CWD " + Text(c) + "\r\n";
    StepRefines(st, c, isDir, size);
  }

  // ---------------------------------------------------------------------------
  // Files named relative to the working directory
  // ---------------------------------------------------------------------------

  /** gen_filepath on its argument; a doubled slash is left in at the roots. */
  function FilePath(cur: string, arg: string): string {
    if arg != "" && arg[0] == '/' then arg else cur + "/" + arg
  }

  /** What a file system makes of a path: its nonempty parts between slashes. */
  function Components(p: string): Stack
    decreases |p|
  {
    if p == "" then []
    else
      var i := LastSlash(p);
      var front := if i < 0 then [] else Components(p[..i]);
      if i == |p| - 1 then front else front + [p[i + 1..]]
  }

  /** The components before the last slash, and the one after it. */
  function Front(p: string): Stack {
    var i := LastSlash(p);
    if i < 0 then [] else Components(p[..i])
  }

  function Last(p: string): Stack {
    var i := LastSlash(p);
    if i == |p| - 1 then [] else [p[i + 1..]]
  }

  lemma ComponentsAre(p: string)
    ensures p != "" ==> Components(p) == Front(p) + Last(p)
    ensures p == "" ==> Components(p) == []
  {
    hide LastSlash;
  }

  lemma SplitPath(a: string, b: string, i: int)
    requires -1 <= i < |b|
    ensures var p := a + "/" + b;
            && |p| == |a| + 1 + |b| && p[..|a|] == a
            && p[|a| + 2 + i..] == b[i + 1..]
            && (i >= 0 ==> p[..|a| + 1 + i] == a + "/" + b[..i])
  {}

  lemma SameLast(p: string, b: string, i: int, j: int)
    requires LastSlash(b) == i && LastSlash(p) == j && (i == |b| - 1 <==> j == |p| - 1)
    requires p[j + 1..] == b[i + 1..]
    ensures Last(p) == Last(b)
  {
    hide LastSlash;
  }

  lemma FrontIs(p: string, j: nat)
    requires LastSlash(p) == j
    ensures Front(p) == Components(p[..j])
  {
    hide LastSlash, Components;
  }

  lemma PartsOfConcat(a: string, b: string)
    requires b != ""
    ensures Last(a + "/" + b) == Last(b)
    ensures Front(a + "/" + b) == if LastSlash(b) < 0 then Components(a) else Components(a + "/" + b[..LastSlash(b)])
  {
    hide Components, LastSlash, Last, Front;
    SlashOfConcat(a, b);
    SplitPath(a, b, LastSlash(b));
    SameLast(a + "/" + b, b, LastSlash(b), |a| + 1 + LastSlash(b));
    FrontIs(a + "/" + b, |a| + 1 + LastSlash(b));
  }

  lemma {:induction false} ComponentsConcat(a: string, b: string)
    ensures Components(a + "/" + b) == Components(a) + Components(b)
    decreases |b|
  {
    hide Components, LastSlash, Last;
    Associative(Components(a), Front(b), Last(b));
    ComponentsAre(b);
    ComponentsAre(a + "/" + b);
    if b == "" {
      TrailingSlash(a);
    } else {
      PartsOfConcat(a, b);
      if LastSlash(b) >= 0 { ComponentsConcat(a, b[..LastSlash(b)]); }
    }
  }

  lemma TrailingSlash(a: string)
    ensures Components(a + "/" + "") == Components(a)
  {
    hide LastSlash;
    SlashOfConcat(a, "");
    ComponentsEmpty();
    assert (a + "/" + "")[..|a|] == a;
  }

  lemma Associative(x: Stack, y: Stack, z: Stack)
    ensures (x + y) + z == x + (y + z) && x + [] == x
  {}

  lemma ComponentsEmpty()
    ensures Components("") == [] && LastSlash("") == -1
  {}

  lemma ComponentsOfOne(c: string)
    requires c != "" && '/' !in c
    ensures Components(c) == [c]
  {
    LastSlashIs(c, -1);
    ComponentsAre(c);
  }

  lemma {:induction false} ComponentsOfJoin(cs: Stack)
    requires |cs| > 0 && Clean(cs)
    ensures Components(Join(cs)) == cs
    decreases |cs|
  {
    hide Components;
    var last := cs[|cs| - 1];
    assert last in cs;
    ComponentsOfOne(last);
    if |cs| > 1 {
      CleanParts(cs);
      ComponentsOfJoin(cs[..|cs| - 1]);
      ComponentsConcat(Join(cs[..|cs| - 1]), last);
      assert cs == cs[..|cs| - 1] + [last];
    } else {
      assert cs == [last];
    }
  }

  /** Slashes in front and behind add no component. */
  lemma SlashesAdd(p: string)
    ensures Components("/" + p) == Components(p) && Components("/" + p + "/") == Components(p)
  {
    hide Components;
    ComponentsEmpty();
    ComponentsConcat("", p);
    ComponentsConcat("/" + p, "");
    Associative([], Components(p), []);
    assert "" + "/" + p == "/" + p && "/" + p + "/" + "" == "/" + p + "/";
  }

  lemma ComponentsOfRender(st: Stack)
    requires Clean(st)
    ensures Components(Render(st)) == st
  {
    hide Components, Render, Join;
    RenderForm(st);
    if |st| == 0 {
      ComponentsEmpty();
      SlashesAdd("");
      assert "/" + "" == "/" && st == [];
    } else {
      ComponentsOfJoin(st);
      SlashesAdd(Join(st));
      if |st| == 1 { JoinOne(st); }
    }
  }

  /** A relative name given to RETR, STOR and the like lies below the working directory. */
  lemma {:induction false} FilePathBelow(st: Stack, cs: Stack)
    requires Clean(st) && |cs| > 0 && Clean(cs)
    ensures Components(FilePath(Render(st), Join(cs))) == st + cs
  {
    JoinLastSlash(cs);
    ComponentsOfRender(st);
    ComponentsOfJoin(cs);
    ComponentsConcat(Render(st), Join(cs));
  }
}
