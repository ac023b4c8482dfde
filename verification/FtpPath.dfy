/** The working directory of an FTP session: string surgery in a fixed buffer that behaves
    as a stack of path components. */
module FtpPath {
  import opened ScanText
  import opened Runs
  import opened ScanSpec
  import opened ScanProps
  import Sscanf

  // ---------------------------------------------------------------------------
  // The path as a string
  // ---------------------------------------------------------------------------

  /** strrchr(p, '/'), or -1. */
  function LastSlash(p: string): (i: int)
    ensures -1 <= i < |p|
    ensures i >= 0 ==> p[i] == '/'
    ensures forall k | i < k < |p| :: p[k] != '/'
  {
    if p == "" then -1
    else if p[|p| - 1] == '/' then |p| - 1
    else LastSlash(p[..|p| - 1])
  }

  lemma LastSlashIs(p: string, i: int)
    requires -1 <= i < |p| && (i >= 0 ==> p[i] == '/')
    requires forall k | i < k < |p| :: p[k] != '/'
    ensures LastSlash(p) == i
  {}

  /** path_is_at_root */
  predicate AtRoot(p: string) {
    p != "" && LastSlash(p) == |p| - 1
  }

  /** If the only slash is the first character, one is added at the end. */
  function WithSlash(p: string): string {
    if LastSlash(p) == 0 then p + "/" else p
  }

  /** dir_up */
  function Parent(p: string): string
    requires '/' in p
  {
    if |p| == 1 || AtRoot(p) then "/" else WithSlash(p[..LastSlash(p)])
  }

  /** snprintf into a buffer of that size: what does not fit is cut off. */
  function Cut(t: string, size: nat): (r: string)
    requires size > 0
    ensures |r| < size && r <= t && (|t| < size ==> r == t)
  {
    if |t| < size then t else t[..size - 1]
  }

  /** The path that CWD builds for an argument other than "/" and ".."; size is PATH_MAX. */
  function Target(cur: string, arg: string, size: nat): string
    requires size > 0
  {
    WithSlash(
      if arg != "" && arg[0] == '/' then arg
      else Cut(if AtRoot(cur) then cur + arg else cur + "/" + arg, size))
  }

  /** cmd_CWD_func on its argument: the new path, if any. isDir answers sceIoDopen. */
  function Changed(cur: string, arg: string, isDir: string -> bool, size: nat): (r: Option<string>)
    requires '/' in cur && size > 1
  {
    if arg == "/" then Some("/")
    else if arg == ".." then Some(Parent(cur))
    else
      var t := Target(cur, arg, size);
      if t != "/" && !isDir(t[1..]) then None else Some(t)
  }

  // ---------------------------------------------------------------------------
  // The path in its buffer
  // ---------------------------------------------------------------------------

  const NUL: char := '\0'

  /** A terminated string in a. */
  ghost predicate Holds(a: array<char>, t: string)
    reads a
  {
    |t| < a.Length && a[..|t|] == t && a[|t|] == NUL && NUL !in t
  }

  /** strncpy(a, t, size of a): copies and fills up with NUL. */
  method StrCopy(a: array<char>, t: string)
    requires |t| < a.Length && NUL !in t
    modifies a
    ensures Holds(a, t) && forall k | |t| <= k < a.Length :: a[k] == NUL
  {
    var k := 0;
    while k < a.Length
      invariant k <= a.Length
      invariant forall i | 0 <= i < k :: a[i] == (if i < |t| then t[i] else NUL)
    {
      a[k] := if k < |t| then t[k] else NUL;
      k := k + 1;
    }
  }

  /** strrchr(a, '/') - a, or -1, for a string of length n. */
  method FindLastSlash(a: array<char>, n: nat) returns (i: int)
    requires n <= a.Length
    ensures i == LastSlash(a[..n])
  {
    i := n - 1;
    while i >= 0 && a[i] != '/'
      invariant -1 <= i < n
      invariant forall k | i < k < n :: a[k] != '/'
    {
      i := i - 1;
    }
    LastSlashIs(a[..n], i);
  }

  method StrLen(a: array<char>, ghost t: string) returns (n: nat)
    requires Holds(a, t)
    ensures n == |t|
  {
    assert forall k | 0 <= k < |t| :: a[k] == a[..|t|][k] && a[k] in t;
    n := 0;
    while a[n] != NUL
      invariant n <= |t|
      decreases |t| - n
    {
      n := n + 1;
    }
  }

  /** dir_up, in place. */
  method DirUp(path: array<char>, ghost was: string)
    requires Holds(path, was) && '/' in was && path.Length > 1
    modifies path
    ensures Holds(path, Parent(was))
  {
    var len := StrLen(path, was);
    var last := FindLastSlash(path, len);
    if len == 1 {
      StrCopy(path, "/");
    } else if last == len - 1 {
      StrCopy(path, "/");
    } else {
      // memset from the last slash to the end of the string
      var k := last;
      while k < len
        invariant last <= k <= len
        invariant path[..last] == was[..last] && path[len] == NUL
        invariant forall i | last <= i < k :: path[i] == NUL
        invariant forall i | k <= i < len :: path[i] == was[i]
      {
        path[k] := NUL;
        k := k + 1;
      }
      assert Holds(path, was[..last]);
      var first := FindLastSlash(path, last);
      if first == 0 {
        // strncat(path, "/")
        path[last] := '/';
        path[last + 1] := NUL;
        assert path[..last + 1] == was[..last] + "/";
      }
    }
  }

  // ---------------------------------------------------------------------------
  // Every path a session can have
  // ---------------------------------------------------------------------------

  /** "/" or an absolute path with a second slash, as /foo0:/ and /foo0:/a/b have. */
  predicate WellShaped(p: string) {
    p != "" && p[0] == '/' && (p == "/" || LastSlash(p) > 0)
  }

  lemma {:induction false} ParentWellShaped(p: string)
    requires WellShaped(p)
    ensures WellShaped(Parent(p))
  {
    if p != "/" && !AtRoot(p) {
      var t := p[..LastSlash(p)];
      if LastSlash(t) == 0 { LastSlashIs(t + "/", |t|); }
    }
  }

  /** Whatever the argument, cut or not, CWD leaves a path of this shape. */
  lemma {:induction false} ChangedWellShaped(cur: string, arg: string, isDir: string -> bool, size: nat)
    requires WellShaped(cur) && size > 1
    ensures Changed(cur, arg, isDir, size).Some? ==> WellShaped(Changed(cur, arg, isDir, size).value)
  {
    if arg == "/" {
    } else if arg == ".." {
      ParentWellShaped(cur);
    } else {
      var whole := if AtRoot(cur) then cur + arg else cur + "/" + arg;
      assert whole[0] == '/' && Cut(whole, size)[0] == '/';
      var t := if arg != "" && arg[0] == '/' then arg else Cut(whole, size);
      if LastSlash(t) == 0 { LastSlashIs(t + "/", |t|); }
    }
  }

  /** The path that CWD builds fits the buffer, the slash that strncat adds included. */
  lemma {:induction false} TargetFits(cur: string, arg: string, size: nat)
    requires WellShaped(cur) && |cur| < size && |arg| + 2 < size
    ensures |Target(cur, arg, size)| < size
  {
    if cur != "/" {
      var whole := if AtRoot(cur) then cur + arg else cur + "/" + arg;
      assert Cut(whole, size)[LastSlash(cur)] == '/';
    }
  }

  /** dir_up shortens every path but "/". */
  lemma {:induction false} ParentShorter(p: string)
    requires WellShaped(p)
    ensures if p == "/" then Parent(p) == "/" else |Parent(p)| < |p|
  {}

  function Ancestor(p: string, k: nat): (r: string)
    requires WellShaped(p)
    ensures WellShaped(r)
    decreases k
  {
    if k == 0 then p else
      ParentWellShaped(p);
      Ancestor(Parent(p), k - 1)
  }

  /** So enough CDUPs lead to "/". */
  lemma {:induction false} CdupReachesRoot(p: string, k: nat)
    requires WellShaped(p) && k >= |p| - 1
    ensures Ancestor(p, k) == "/"
    decreases k
  {
    ParentShorter(p);
    ParentWellShaped(p);
    if k > 0 { CdupReachesRoot(Parent(p), k - 1); }
  }

  // ---------------------------------------------------------------------------
  // The session
  // ---------------------------------------------------------------------------

  datatype Reply = SyntaxError500 | InvalidDirectory550 | Completed250

  class Session {
    const curPath: array<char>  // cur_path[PATH_MAX]
    ghost var path: string

    ghost predicate Valid()
      reads this, curPath
    {
      curPath.Length > 2 && Holds(curPath, path) && WellShaped(path)
    }

    /** server_thread gives a new client the path "/". */
    constructor (pathMax: nat)
      requires pathMax > 2
      ensures Valid() && path == "/" && curPath.Length == pathMax && fresh(curPath)
    {
      curPath := new char[pathMax](_ => NUL);
      path := "/";
      new;
      curPath[0] := '/';
    }

    method Cdup()
      requires Valid()
      modifies this`path, curPath
      ensures Valid() && '/' in old(path) && path == Parent(old(path))
    {
      ParentWellShaped(path);
      DirUp(curPath, path);
      path := Parent(path);
    }

    /** tmp_path of cmd_CWD_func, lines 455-468. */
    method Build(arg: string) returns (tmp: string)
      requires Valid() && arg != "" && NUL !in arg && |arg| + 2 < curPath.Length
      ensures tmp == Target(path, arg, curPath.Length)
      ensures NUL !in tmp && 0 < |tmp| < curPath.Length
    {
      hide LastSlash;
      TargetFits(path, arg, curPath.Length);
      var len := StrLen(curPath, path);
      tmp := arg;
      if arg[0] != '/' {
        var last := FindLastSlash(curPath, len);
        tmp := if last == len - 1 then curPath[..len] + arg else curPath[..len] + "/" + arg;
        if |tmp| >= curPath.Length { tmp := tmp[..curPath.Length - 1]; }
      }
      if LastSlash(tmp) == 0 { tmp := tmp + "/"; }
    }

    /** The path part of cmd_CWD_func, lines 450-481. */
    method ChangeTo(arg: string, isDir: string -> bool) returns (reply: Reply)
      requires Valid() && arg != "" && NUL !in arg && |arg| + 2 < curPath.Length
      modifies this`path, curPath
      ensures Valid() && '/' in old(path)
      ensures match Changed(old(path), arg, isDir, curPath.Length)
              case None => reply == InvalidDirectory550 && path == old(path)
              case Some(p) => reply == Completed250 && path == p
    {
      hide LastSlash, Target;
      ChangedWellShaped(path, arg, isDir, curPath.Length);
      if arg == "/" {
        StrCopy(curPath, arg);
        path := arg;
      } else if arg == ".." {
        Cdup();
      } else {
        var tmp := Build(arg);
        if tmp != "/" && !isDir(tmp[1..]) { return InvalidDirectory550; }
        StrCopy(curPath, tmp);
        path := tmp;
      }
      return Completed250;
    }

    /** cmd_CWD_func on the received line. Its buffers hold PATH_MAX characters: the argument has to
        leave room for the slash. */
    method Cwd(line: string, isDir: string -> bool) returns (reply: Reply)
      requires Valid() && NUL !in line && |line| <= UINT_MAX
      requires Argument(line).Some? ==> |Argument(line).value| + 2 < curPath.Length
      modifies this`path, curPath
      ensures Valid() && '/' in old(path)
      ensures match Argument(line)
              case None => reply == SyntaxError500 && path == old(path)
              case Some(arg) =>
                match Changed(old(path), arg, isDir, curPath.Length)
                case None => reply == InvalidDirectory550 && path == old(path)
                case Some(p) => reply == Completed250 && path == p
    {
      hide ScanSpec.Sscanf, Argument, Changed, WellFormed, LastSlash;
      ArgumentScan(line);
      var n, out := Sscanf.Vsscanf(line, ARGUMENT_FORMAT);
      if n < 1 {
        reply := SyntaxError500;
      } else {
        reply := ChangeTo(out[0].text, isDir);
      }
    }
  }
}
