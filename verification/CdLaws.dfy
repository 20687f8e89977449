/** How `cd` moves a command line (devrepro/agents/manifest.py): directories stay canonical and
    inside the repository, and moving by `a` and then `b` is moving by `a/b`. */
module CdLaws {
  import opened Strings
  import opened AgentManifest

  /** A real path segment. */
  predicate IsSegment(s: string) {
    s != "" && s != "." && s != ".." && '/' !in s
  }

  predicate AreSegments(stack: seq<string>) {
    forall i | 0 <= i < |stack| :: IsSegment(stack[i])
  }

  /** "." for the root, else real segments: nothing is left to resolve and nothing leads above it. */
  predicate Canonical(cwd: string) {
    cwd == "." || AreSegments(SplitOn(cwd, "/"))
  }

  lemma {:induction false} JoinNonempty(stack: seq<string>)
    requires stack != [] && AreSegments(stack)
    ensures Join("/", stack) != "" && Join("/", stack) != "."
  {
    assert IsSegment(stack[0]);
    if |stack| > 1 {
      assert |stack[0] + "/"| >= 2;
    }
  }

  /** A stack and the directory it prints as determine each other. */
  lemma StackRoundTrip(stack: seq<string>)
    requires AreSegments(stack)
    ensures StackOf(DirectoryOf(stack)) == stack && Canonical(DirectoryOf(stack))
  {
    if stack != [] {
      JoinNonempty(stack);
      assert forall p | p in stack :: '/' !in p by {
        forall p | p in stack ensures '/' !in p {
          var i :| 0 <= i < |stack| && stack[i] == p;
          assert IsSegment(stack[i]);
        }
      }
      SplitOnJoin(stack, '/');
    }
  }

  /** Walking keeps real segments and never climbs above an empty stack. */
  lemma {:induction false} WalkSegments(stack: seq<string>, segments: seq<string>)
    requires AreSegments(stack)
    requires forall i | 0 <= i < |segments| :: '/' !in segments[i]
    ensures AreSegments(Walk(stack, segments))
    decreases |segments|
  {
    if segments != [] {
      assert '/' !in segments[0];
      assert AreSegments(Enter(stack, segments[0]));
      WalkSegments(Enter(stack, segments[0]), segments[1..]);
    }
  }

  lemma {:induction false} WalkConcat(stack: seq<string>, a: seq<string>, b: seq<string>)
    ensures Walk(stack, a + b) == Walk(Walk(stack, a), b)
    decreases |a|
  {
    if a == [] {
      assert a + b == b;
    } else {
      assert (a + b)[1..] == a[1..] + b;
      WalkConcat(Enter(stack, a[0]), a[1..], b);
    }
  }

  lemma WalkTarget(cwd: string, target: string)
    requires Canonical(cwd)
    ensures AreSegments(Walk(StackOf(cwd), SplitOn(ForwardSlashes(target), "/")))
  {
    var segments := SplitOn(ForwardSlashes(target), "/");
    forall i | 0 <= i < |segments| ensures '/' !in segments[i] {
      SplitOnParts(ForwardSlashes(target), '/', i);
    }
    WalkSegments(StackOf(cwd), segments);
  }

  /** Wherever a `cd` is run, the directory it leaves is canonical. */
  lemma ChangeDirectoryCanonical(cwd: string, target: string)
    requires Canonical(cwd)
    ensures Canonical(ChangeDirectory(cwd, target))
  {
    if !LeavesRepository(target) {
      WalkTarget(cwd, target);
      StackRoundTrip(Walk(StackOf(cwd), SplitOn(ForwardSlashes(target), "/")));
    }
  }

  lemma ApplyCdCanonical(cwd: string, command: string)
    requires Canonical(cwd)
    ensures Canonical(ApplyCd(cwd, command))
  {
    var tokens := Words(command);
    if |tokens| >= 2 { ChangeDirectoryCanonical(cwd, StripBy(tokens[1], IsQuote)); }
  }

  /** Moving by `a` and then by `b` is moving by `a/b`, for targets inside the repository. */
  lemma ChangeDirectoryComposes(cwd: string, a: string, b: string)
    requires Canonical(cwd) && a != ""
    requires !LeavesRepository(a) && !LeavesRepository(b)
    ensures ChangeDirectory(ChangeDirectory(cwd, a), b) == ChangeDirectory(cwd, a + "/" + b)
  {
    hide Walk, SplitOn, DirectoryOf, StackOf, Canonical;
    var ab := a + "/" + b;
    StillInside(a, b);
    var first := SplitOn(ForwardSlashes(a), "/");
    var second := SplitOn(ForwardSlashes(b), "/");
    assert ForwardSlashes(ab) == ForwardSlashes(a) + ['/'] + ForwardSlashes(b);
    SplitOnConcat(ForwardSlashes(a), '/', ForwardSlashes(b));
    WalkConcat(StackOf(cwd), first, second);
    WalkTarget(cwd, a);
    StackRoundTrip(Walk(StackOf(cwd), first));
  }

  lemma StillInside(a: string, b: string)
    requires a != "" && !LeavesRepository(a)
    ensures !LeavesRepository(a + "/" + b)
  {
    var ab := a + "/" + b;
    assert ab[0..1] == a[0..1];
    assert |a| > 1 ==> ab[1] == a[1];
    assert |a| == 1 ==> ab[1] == '/';
  }

  /** The same at the level of commands. */
  lemma CdComposes(cwd: string, a: string, b: string)
    requires Canonical(cwd) && IsTarget(a) && IsTarget(b)
    ensures ApplyCd(ApplyCd(cwd, "cd " + a), "cd " + b) == ApplyCd(cwd, "cd " + (a + "/" + b))
  {
    hide Words, StripBy, ChangeDirectory, Canonical, LeavesRepository;
    CdTarget(a);
    CdTarget(b);
    TargetsJoin(a, b);
    CdTarget(a + "/" + b);
    ChangeDirectoryComposes(cwd, a, b);
  }

  /** A relative target written without whitespace or surrounding quotes. */
  predicate IsTarget(a: string) {
    && a != "" && NoSpaces(a) && !LeavesRepository(a)
    && !IsQuote(a[0]) && !IsQuote(a[|a| - 1])
  }

  lemma TargetsJoin(a: string, b: string)
    requires IsTarget(a) && IsTarget(b)
    ensures IsTarget(a + "/" + b)
  {
    hide LeavesRepository;
    StillInside(a, b);
  }

  lemma CdTarget(a: string)
    requires a != "" && NoSpaces(a) && !IsQuote(a[0]) && !IsQuote(a[|a| - 1])
    ensures |Words("cd " + a)| == 2 && StripBy(Words("cd " + a)[1], IsQuote) == a
  {
    hide Words, StripBy, NoSpaces;
    assert NoSpaces("cd") by { CdIsWord(); }
    assert "cd " == "cd" + " ";
    WordsCons("cd", a);
    WordsOne(a);
  }

  lemma CdIsWord()
    ensures NoSpaces("cd")
  {
  }

  // ---------------------------------------------------------------- along a line

  /** The directory after a list of commands, each `cd` taken in turn. */
  function DirectoryAfter(u: Alphabet, cwd: string, commands: seq<DeclaredCommand>): string
    decreases |commands|
  {
    if commands == [] then cwd
    else
      DirectoryAfter(u, if commands[0].program == "cd" then ApplyCd(cwd, commands[0].raw) else cwd,
        commands[1..])
  }

  /** The directory of each command on a line is that of all the `cd`s before it, and canonical. */
  lemma {:induction false} CwdIsFold(u: Alphabet, parts: seq<string>, cwd: string, manifest: string, n: nat, k: nat)
    requires Canonical(cwd)
    requires k < |DeclareParts(u, parts, cwd, manifest, n)|
    ensures var declared := DeclareParts(u, parts, cwd, manifest, n);
      && declared[k].cwd == DirectoryAfter(u, cwd, declared[..k])
      && Canonical(declared[k].cwd)
    decreases |parts|
  {
    hide ApplyCd, ProgramOf, Canonical;
    var program := ProgramOf(u, parts[0]);
    if program == "" {
      CwdIsFold(u, parts[1..], cwd, manifest, n, k);
    } else {
      var next := if program == "cd" then ApplyCd(cwd, parts[0]) else cwd;
      ApplyCdCanonical(cwd, parts[0]);
      var declared := DeclareParts(u, parts, cwd, manifest, n);
      var rest := DeclareParts(u, parts[1..], next, manifest, n);
      assert declared == [declared[0]] + rest;
      if k > 0 {
        CwdIsFold(u, parts[1..], next, manifest, n, k - 1);
        TakeCons(declared[0], rest, k);
      }
    }
  }

  lemma TakeCons(first: DeclaredCommand, rest: seq<DeclaredCommand>, k: nat)
    requires 0 < k <= |rest|
    ensures ([first] + rest)[..k] == [first] + rest[..k - 1]
    ensures ([first] + rest)[..k][1..] == rest[..k - 1]
  {
  }

  // ---------------------------------------------------------------- where a `cd` leads

  /** Into a segment: it is added to the directory. */
  lemma EnterSegment(cwd: string, s: string)
    requires Canonical(cwd) && IsSegment(s) && !LeavesRepository(s) && '\\' !in s
    ensures ChangeDirectory(cwd, s) == if cwd == "." then s else cwd + "/" + s
    ensures Canonical(ChangeDirectory(cwd, s))
  {
    hide SplitOn, Join;
    assert ForwardSlashes(s) == s;
    SplitOnNone(s, '/');
    var stack := StackOf(cwd);
    assert [s][1..] == [] && Walk(stack, [s]) == Walk(stack + [s], []) == stack + [s];
    StackSegments(cwd);
    StackRoundTrip(stack + [s]);
    if cwd == "." {
      assert [] + [s] == [s];
      JoinOneSegment(s);
    } else {
      JoinSplit(cwd, '/');
      JoinLastSegment(stack, s);
    }
  }

  lemma StackSegments(cwd: string)
    requires Canonical(cwd)
    ensures AreSegments(StackOf(cwd))
  {
    hide SplitOn;
  }

  lemma JoinOneSegment(s: string)
    ensures Join("/", [s]) == s
  {
  }

  lemma {:induction false} JoinLastSegment(stack: seq<string>, s: string)
    requires stack != []
    ensures Join("/", stack + [s]) == Join("/", stack) + "/" + s
  {
    if |stack| == 1 {
      assert (stack + [s])[1..] == [s];
    } else {
      assert (stack + [s])[1..] == stack[1..] + [s];
      JoinLastSegment(stack[1..], s);
    }
  }

  /** Back out of it: the directory is as it was. */
  lemma EnterAndLeave(cwd: string, s: string)
    requires Canonical(cwd) && IsSegment(s) && !LeavesRepository(s) && '\\' !in s
    ensures ChangeDirectory(ChangeDirectory(cwd, s), "..") == cwd
  {
    hide SplitOn, Join;
    var inside := ChangeDirectory(cwd, s);
    EnterSegment(cwd, s);
    StackSegments(cwd);
    var stack := StackOf(cwd);
    assert StackOf(inside) == stack + [s] by { EnteredStack(cwd, s); }
    UpFrom(inside, stack, s);
    CanonicalPrints(cwd);
  }

  lemma EnteredStack(cwd: string, s: string)
    requires Canonical(cwd) && IsSegment(s) && !LeavesRepository(s) && '\\' !in s
    ensures StackOf(ChangeDirectory(cwd, s)) == StackOf(cwd) + [s]
  {
    hide SplitOn, Join;
    assert ForwardSlashes(s) == s;
    SplitOnNone(s, '/');
    var stack := StackOf(cwd);
    assert [s][1..] == [] && Walk(stack, [s]) == Walk(stack + [s], []) == stack + [s];
    StackSegments(cwd);
    StackRoundTrip(stack + [s]);
  }

  lemma UpFrom(inside: string, stack: seq<string>, s: string)
    requires StackOf(inside) == stack + [s]
    ensures ChangeDirectory(inside, "..") == DirectoryOf(stack)
  {
    hide Join;
    TwoDots();
    assert [".."][1..] == [];
    assert (stack + [s])[..|stack|] == stack;
    assert Walk(stack + [s], [".."]) == Walk(stack, []) == stack;
  }

  lemma TwoDots()
    ensures SplitOn(ForwardSlashes(".."), "/") == [".."] && !LeavesRepository("..")
  {
    assert ForwardSlashes("..") == "..";
    SplitOnNone("..", '/');
  }

  lemma CanonicalPrints(cwd: string)
    requires Canonical(cwd)
    ensures DirectoryOf(StackOf(cwd)) == cwd
  {
    hide SplitOn, Join;
    if cwd == "." {
      assert Join("/", []) == "" by { JoinNothing(); }
    } else {
      JoinSplit(cwd, '/');
      JoinNonempty(StackOf(cwd));
    }
  }

  lemma JoinNothing()
    ensures Join("/", []) == ""
  {
  }

  /** Up from the root leads nowhere else, and neither do `.` and repeated slashes from anywhere. */
  lemma StaysPut(cwd: string)
    requires Canonical(cwd)
    ensures ChangeDirectory(".", "..") == "."
    ensures ChangeDirectory(cwd, ".") == cwd
  {
    hide SplitOn, Join;
    TwoDots();
    OneDot();
    JoinNothing();
    assert [".."][1..] == [] && Walk([], [".."]) == Walk([], []) == [];
    assert ["."][1..] == [] && Walk(StackOf(cwd), ["."]) == Walk(StackOf(cwd), []) == StackOf(cwd);
    CanonicalPrints(cwd);
  }

  lemma OneDot()
    ensures SplitOn(ForwardSlashes("."), "/") == ["."] && !LeavesRepository(".")
  {
    assert ForwardSlashes(".") == ".";
    SplitOnNone(".", '/');
  }

  /** A bare `cd` and one to an absolute path, a home directory or a drive leave the repository, which is
      treated as its root; quotes around the target make no difference. */
  lemma LeavingIsRoot(cwd: string, command: string)
    requires |Words(command)| < 2 || (var t := StripBy(Words(command)[1], IsQuote);
      t != "" && (t[0] == '/' || t[0] == '~' || (|t| > 1 && t[1] == ':')))
    ensures ApplyCd(cwd, command) == "."
  {
    hide Words, StripBy;
    if |Words(command)| >= 2 {
      var t := StripBy(Words(command)[1], IsQuote);
      assert t[0..1] == [t[0]];
    }
  }

  lemma QuotedTarget(cwd: string, command: string, q: char, t: string)
    requires |Words(command)| >= 2 && Words(command)[1] == [q] + t + [q] && IsQuote(q)
    requires t != "" && !IsQuote(t[0]) && !IsQuote(t[|t| - 1])
    ensures ApplyCd(cwd, command) == ChangeDirectory(cwd, t)
  {
    hide Words, ChangeDirectory;
    var token := [q] + t + [q];
    assert token[1..] == t + [q] && TrimLeft(token, IsQuote) == TrimLeft(t + [q], IsQuote);
    assert (t + [q])[0] == t[0] && TrimLeft(t + [q], IsQuote) == t + [q];
    assert (t + [q])[..|t|] == t && TrimRight(t + [q], IsQuote) == TrimRight(t, IsQuote) == t;
  }
}
