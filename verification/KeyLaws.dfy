/** What a command key tells apart and what it does not (devrepro/agents/manifest.py), and so which CI
    commands are drift: stated of the words of a command, not of how the key is computed. */
module KeyLaws {
  import opened Strings
  import opened AgentManifest
  import opened CommandLaws
  import opened RoundTrip
  import opened DriftFree

  // ---------------------------------------------------------------- program and first argument

  /** Nothing at either end that the key strips. */
  predicate HasPlainEnds(w: string) {
    w != "" && !IsQuote(w[0]) && !IsPunctuation(w[0]) && !IsQuote(w[|w| - 1]) && !IsPunctuation(w[|w| - 1])
  }

  /** A word that names a command a manifest could declare; with a substitution on the line it has to start
      with a letter or digit. */
  predicate IsProgramWord(u: Alphabet, w: string, substitutes: bool) {
    && HasPlainEnds(w) && '=' !in w
    && (u.alnum(w[0]) || (!substitutes && (w[0] == '.' || w[0] == '/' || w[0] == '_')))
    && w !in SHELL_BUILTINS && w !in SHELL_KEYWORDS && w !in PLUMBING
  }

  predicate IsFlag(w: string) { w != "" && w[0] == '-' }

  /** `python -m module ...` */
  predicate RunsModule(ws: seq<string>) {
    |ws| >= 3 && (PathStem(ws[0]) == "python" || PathStem(ws[0]) == "python3" || PathStem(ws[0]) == "py") && ws[1] == "-m"
  }

  function Program(c: string): string { if Words(c) == [] then "" else Words(c)[0] }

  /** The first argument; "" for none. */
  function Argument(c: string): string { if |Words(c)| < 2 then "" else Words(c)[1] }

  /** A command written as a program and its arguments, the first of them no flag. */
  predicate IsPlainCommand(u: Alphabet, c: string) {
    && Words(c) != [] && IsProgramWord(u, Words(c)[0], Contains(c, "$("))
    && !IsFlag(Argument(c))
  }

  lemma DashIsNoProgram(u: Alphabet, w: string, substitutes: bool)
    requires u.Sane() && IsProgramWord(u, w, substitutes)
    ensures !IsFlag(w) && KeyProgram(w) == w && NamesCommand(u, w, substitutes)
  {
    hide SHELL_BUILTINS, SHELL_KEYWORDS, PLUMBING, StripBy;
    assert StripBy(w, IsQuote) == w && StripBy(w, IsPunctuation) == w;
  }

  lemma FlagStarts(w: string)
    requires w != ""
    ensures StartsWith(w, "-") <==> IsFlag(w)
  {
    assert w[0..1] == [w[0]];
  }

  lemma KeptWord(w: string, rest: seq<string>)
    requires w != "" && !IsFlag(w)
    ensures DropFlags([w] + rest) == [w] + DropFlags(rest)
  {
    FlagStarts(w);
    assert ([w] + rest)[1..] == rest;
  }

  lemma DroppedWord(w: string, rest: seq<string>)
    requires IsFlag(w)
    ensures DropFlags([w] + rest) == DropFlags(rest)
  {
    FlagStarts(w);
    assert ([w] + rest)[1..] == rest;
  }

  lemma RunsModuleIs(ws: seq<string>)
    ensures RunsModule(ws) <==> IsModuleRun(ws)
  {
    hide PathStem;
  }

  /** The key of a plain command is its program and its first argument, separated by a space. */
  lemma KeyIsProgramAndArgument(u: Alphabet, c: string)
    requires u.Sane() && IsPlainCommand(u, c)
    ensures CommandKey(u, c) == if |Words(c)| == 1 then Words(c)[0] else Words(c)[0] + " " + Words(c)[1]
  {
    hide Words, Contains, IsProgramWord, NamesCommand, KeyProgram, DropFlags, IsModuleRun;
    var ws := Words(c);
    DashIsNoProgram(u, ws[0], Contains(c, "$("));
    RunsModuleIs(ws);
    assert ws == [ws[0]] + ws[1..];
    KeptWord(ws[0], ws[1..]);
    if |ws| > 1 {
      assert ws[1] != "";
      assert ws[1..] == [ws[1]] + ws[2..];
      KeptWord(ws[1], ws[2..]);
    } else {
      assert ws[1..] == [] && DropFlags([]) == [] by { NoFlags(); }
    }
  }

  lemma NoFlags()
    ensures DropFlags([]) == []
  {
  }

  /** Two plain commands have one key exactly when both the program and the first argument are the same. */
  lemma SameKeyExactly(u: Alphabet, a: string, b: string)
    requires u.Sane() && IsPlainCommand(u, a) && IsPlainCommand(u, b)
    ensures CommandKey(u, a) == CommandKey(u, b) <==> Program(a) == Program(b) && Argument(a) == Argument(b)
    ensures CommandKey(u, a) != ""
  {
    hide Words, CommandKey, IsProgramWord;
    KeyIsProgramAndArgument(u, a);
    KeyIsProgramAndArgument(u, b);
    WordsOfKey(a);
    WordsOfKey(b);
    assert Program(a) != "" && Program(b) != "";
    assert |Words(a)| > 1 ==> Argument(a) != "";
    assert |Words(b)| > 1 ==> Argument(b) != "";
  }

  /** The program and the first argument can be read off the key again. */
  lemma WordsOfKey(c: string)
    requires Words(c) != []
    ensures Words(if |Words(c)| == 1 then Words(c)[0] else Words(c)[0] + " " + Words(c)[1])
         == if |Words(c)| == 1 then [Words(c)[0]] else [Words(c)[0], Words(c)[1]]
  {
    hide Words;
    var ws := Words(c);
    if |ws| == 1 {
      WordsOne(ws[0]);
    } else {
      WordsCons(ws[0], ws[1]);
      WordsOne(ws[1]);
    }
  }

  // ---------------------------------------------------------------- what makes no difference

  lemma {:induction false} DropFlagsAround(a: seq<string>, f: string, b: seq<string>)
    requires IsFlag(f)
    ensures DropFlags(a + [f] + b) == DropFlags(a + b)
  {
    if a == [] {
      assert a + [f] + b == [f] + b && a + b == b;
      DroppedWord(f, b);
    } else {
      assert (a + [f] + b)[1..] == a[1..] + [f] + b && (a + b)[1..] == a[1..] + b;
      DropFlagsAround(a[1..], f, b);
    }
  }

  /** A flag makes no difference wherever it stands, outside `python -m`. */
  lemma FlagsDoNotCount(u: Alphabet, c: string, d: string, a: seq<string>, f: string, b: seq<string>)
    requires Words(c) == a + b && Words(d) == a + [f] + b && IsFlag(f)
    requires !RunsModule(Words(c)) && !RunsModule(Words(d)) && Contains(c, "$(") == Contains(d, "$(")
    ensures CommandKey(u, c) == CommandKey(u, d)
  {
    hide Words, Contains, KeyOfTokens, DropFlags, IsModuleRun, RunsModule;
    RunsModuleIs(Words(c));
    RunsModuleIs(Words(d));
    DropFlagsAround(a, f, b);
  }

  /** `python -m` in front of a command leaves its key alone, in any of the interpreter's spellings. */
  lemma ModuleRunKey(u: Alphabet, c: string, d: string, python: string)
    requires Words(c) == [python, "-m"] + Words(d) && Words(d) != []
    requires PathStem(python) == "python" || PathStem(python) == "python3" || PathStem(python) == "py"
    requires !RunsModule(Words(d)) && Contains(c, "$(") == Contains(d, "$(")
    ensures CommandKey(u, c) == CommandKey(u, d)
  {
    hide Words, Contains, KeyOfTokens, DropFlags, PathStem, IsModuleRun;
    RunsModuleIs(Words(c));
    RunsModuleIs(Words(d));
    assert RunsModule(Words(c));
    assert Words(c)[2..] == Words(d);
  }

  /** The interpreter may be given with its directory. */
  lemma StemInDirectory(dir: string, name: string)
    requires name != "" && name != "." && '/' !in name
    ensures PathStem(dir + "/" + name) == PathStem(name)
  {
    hide SplitOn, LastDot;
    SplitOnNone(name, '/');
    assert dir + "/" + name == dir + ['/'] + name;
    SplitOnConcat(dir, '/', name);
  }

  /** And with an extension. */
  lemma StemWithExtension(name: string, extension: string)
    requires name != "" && '/' !in name && extension != "" && '/' !in extension && '.' !in extension
    ensures PathStem(name + "." + extension) == name
  {
    hide SplitOn;
    var all := name + "." + extension;
    SplitOnNone(all, '/');
    assert |all| >= 3;
    LastDotAt(name, extension);
    assert all[..|name|] == name;
  }

  lemma {:induction false} LastDotAt(name: string, extension: string)
    requires '.' !in extension
    ensures LastDot(name + "." + extension) == |name|
    decreases |extension|
  {
    var all := name + "." + extension;
    if extension == "" {
      assert all[|all| - 1] == '.';
    } else {
      assert all[|all| - 1] == extension[|extension| - 1];
      assert extension[|extension| - 1] in extension;
      assert all[..|all| - 1] == name + "." + extension[..|extension| - 1];
      LastDotAt(name, extension[..|extension| - 1]);
    }
  }

  lemma StripAround(a: string, w: string, b: string, drop: char -> bool)
    requires w != "" && !drop(w[0]) && !drop(w[|w| - 1])
    requires (forall i | 0 <= i < |a| :: drop(a[i])) && (forall i | 0 <= i < |b| :: drop(b[i]))
    ensures StripBy(a + w + b, drop) == w
  {
    assert a + w + b == a + (w + b);
    TrimLeftAround(a, w + b, drop);
    TrimRightAround(w, b, drop);
  }

  lemma {:induction false} TrimLeftAround(a: string, w: string, drop: char -> bool)
    requires w != "" && !drop(w[0]) && forall i | 0 <= i < |a| :: drop(a[i])
    ensures TrimLeft(a + w, drop) == w
  {
    if a == "" {
      assert a + w == w;
    } else {
      assert (a + w)[1..] == a[1..] + w;
      TrimLeftAround(a[1..], w, drop);
    }
  }

  lemma {:induction false} TrimRightAround(w: string, b: string, drop: char -> bool)
    requires w != "" && !drop(w[|w| - 1]) && forall i | 0 <= i < |b| :: drop(b[i])
    ensures TrimRight(w + b, drop) == w
    decreases |b|
  {
    if b == "" {
      assert w + b == w;
    } else {
      assert (w + b)[..|w + b| - 1] == w + b[..|b| - 1];
      TrimRightAround(w, b[..|b| - 1], drop);
    }
  }

  /** Quotes and, inside them, brackets around the program make no difference. */
  lemma WrappedProgram(u: Alphabet, c: string, d: string, quotes: string, opening: string, w: string, closing: string,
    more: string, rest: seq<string>)
    requires Words(c) == [quotes + opening + w + closing + more] + rest && Words(d) == [w] + rest
    requires HasPlainEnds(w) && !IsFlag(w)
    requires (forall i | 0 <= i < |quotes| :: IsQuote(quotes[i])) && (forall i | 0 <= i < |more| :: IsQuote(more[i]))
    requires forall i | 0 <= i < |opening| :: IsPunctuation(opening[i]) && !IsQuote(opening[i])
    requires forall i | 0 <= i < |closing| :: IsPunctuation(closing[i]) && !IsQuote(closing[i])
    requires !RunsModule(Words(c)) && !RunsModule(Words(d)) && Contains(c, "$(") == Contains(d, "$(")
    ensures CommandKey(u, c) == CommandKey(u, d)
  {
    hide Words, Contains, DropFlags, IsModuleRun, RunsModule, NamesCommand, StripBy, IsPunctuation, IsQuote;
    var inner := opening + w + closing;
    var token := quotes + inner + more;
    assert token == quotes + opening + w + closing + more;
    RunsModuleIs(Words(c));
    RunsModuleIs(Words(d));
    StripAround(quotes, inner, more, IsQuote);
    StripAround(opening, w, closing, IsPunctuation);
    assert StripBy(w, IsQuote) == w && StripBy(w, IsPunctuation) == w;
    assert !IsFlag(token) by { DashIsNoWrapping(quotes, opening, token, w); }
    KeptWord(token, rest);
    KeptWord(w, rest);
  }

  lemma DashIsNoWrapping(quotes: string, opening: string, token: string, w: string)
    requires (forall i | 0 <= i < |quotes| :: IsQuote(quotes[i])) && (forall i | 0 <= i < |opening| :: IsPunctuation(opening[i]))
    requires w != "" && !IsFlag(w) && |token| >= |quotes| + |opening| + |w| && token[..|quotes| + |opening| + |w|] == quotes + opening + w
    ensures !IsFlag(token)
  {
    var start := quotes + opening + w;
    assert token[0] == start[0];
    assert start[0] == if quotes != "" then quotes[0] else if opening != "" then opening[0] else w[0];
  }

  // ---------------------------------------------------------------- which commands have a key

  /** A command outside `python -m` has a key exactly when its first word names a command. */
  lemma KeyedExactly(u: Alphabet, c: string)
    requires u.Sane() && Words(c) != [] && !RunsModule(Words(c)) && HasPlainEnds(Words(c)[0]) && !IsFlag(Words(c)[0])
    ensures CommandKey(u, c) != "" <==> IsProgramWord(u, Words(c)[0], Contains(c, "$("))
  {
    hide Words, Contains, DropFlags, IsModuleRun, RunsModule, StripBy, SHELL_BUILTINS, SHELL_KEYWORDS, PLUMBING, IsPunctuation, IsQuote;
    var w := Words(c)[0];
    RunsModuleIs(Words(c));
    assert Words(c) == [w] + Words(c)[1..];
    KeptWord(w, Words(c)[1..]);
    assert StripBy(w, IsQuote) == w && StripBy(w, IsPunctuation) == w;
  }

  lemma {:induction false} AllFlags(ws: seq<string>)
    requires forall i | 0 <= i < |ws| :: IsFlag(ws[i])
    ensures DropFlags(ws) == []
  {
    if ws != [] {
      assert ws == [ws[0]] + ws[1..];
      DroppedWord(ws[0], ws[1..]);
      AllFlags(ws[1..]);
    }
  }

  /** Flags alone have none. */
  lemma FlagsHaveNoKey(u: Alphabet, c: string)
    requires u.Sane() && !RunsModule(Words(c)) && forall i | 0 <= i < |Words(c)| :: IsFlag(Words(c)[i])
    ensures CommandKey(u, c) == ""
  {
    hide Words, Contains, DropFlags, IsModuleRun, RunsModule;
    RunsModuleIs(Words(c));
    AllFlags(Words(c));
  }

  // ---------------------------------------------------------------- the program that is looked up

  /** The program is the first word without its quotes, unless that word is an assignment. */
  lemma ProgramIsFirstWord(u: Alphabet, c: string, quotes: string, w: string, more: string, rest: seq<string>)
    requires Words(c) == [quotes + w + more] + rest && w != "" && !IsQuote(w[0]) && !IsQuote(w[|w| - 1])
    requires (forall i | 0 <= i < |quotes| :: IsQuote(quotes[i])) && (forall i | 0 <= i < |more| :: IsQuote(more[i]))
    requires '=' !in w || quotes != "" || !(IsAsciiLetter(w[0]) || w[0] == '_')
    ensures ProgramOf(u, c) == w
  {
    hide Words, StripBy, IsQuote;
    var token := quotes + w + more;
    assert !IsAssignment(u, token) by { NoAssignment(u, quotes, w, more); }
    StripAround(quotes, w, more, IsQuote);
  }

  lemma NoAssignment(u: Alphabet, quotes: string, w: string, more: string)
    requires w != "" && (forall i | 0 <= i < |quotes| :: IsQuote(quotes[i])) && (forall i | 0 <= i < |more| :: IsQuote(more[i]))
    requires '=' !in w || quotes != "" || !(IsAsciiLetter(w[0]) || w[0] == '_')
    ensures !IsAssignment(u, quotes + w + more)
  {
    var token := quotes + w + more;
    assert token[0] == if quotes != "" then quotes[0] else w[0];
    if quotes == "" && '=' !in w {
      assert forall n | 0 <= n < |token| :: token[n] != '=' by {
        forall n | 0 <= n < |token| ensures token[n] != '=' {
          if n < |w| { assert token[n] == w[n] && w[n] in w; } else { assert token[n] == more[n - |w|]; }
        }
      }
    }
  }

  /** An assignment in front makes no difference. */
  lemma AssignmentsAreSkipped(u: Alphabet, c: string, d: string, name: string, value: string)
    requires Words(c) == [name + "=" + value] + Words(d)
    requires name != "" && (IsAsciiLetter(name[0]) || name[0] == '_') && forall i | 1 <= i < |name| :: u.alnum(name[i]) || name[i] == '_'
    ensures ProgramOf(u, c) == ProgramOf(u, d)
  {
    hide Words, StripBy;
    var token := name + "=" + value;
    assert token[|name|] == '=' && forall i | 0 <= i < |name| :: token[i] == name[i];
    assert IsAssignment(u, token) by { assert 0 < |name| < |token|; }
    assert ([token] + Words(d))[1..] == Words(d);
  }

  // ---------------------------------------------------------------- which commands are drift

  /** Against a manifest with one command, a CI command is drift exactly when its program or its first
      argument is another. */
  lemma DriftOfOneExactly(u: Alphabet, declared: DeclaredCommand, c: string)
    requires u.Sane() && IsPlainCommand(u, declared.raw) && IsPlainCommand(u, c)
    ensures ManifestVsCi(u, [declared], [c])
         == if Program(c) == Program(declared.raw) && Argument(c) == Argument(declared.raw) then [] else [c]
  {
    hide CommandKey, IsPlainCommand, Program, Argument, Keys;
    SameKeyExactly(u, declared.raw, c);
    SameKeyExactly(u, c, c);
    assert Raws([declared]) == [declared.raw];
    KeysOfOne(u, declared.raw);
    OneUnmentioned(u, c, Keys(u, Raws([declared])));
  }

  lemma OneUnmentioned(u: Alphabet, c: string, known: set<string>)
    ensures Unmentioned(u, [c], known) == if CommandKey(u, c) == "" || CommandKey(u, c) in known then [] else [c]
  {
    hide CommandKey;
    assert [c][1..] == [];
    assert Unmentioned(u, [], known) == [] && Unmentioned(u, [], known + {CommandKey(u, c)}) == [];
  }

  /** The same from the text of a manifest with one shell block. */
  lemma DriftOfTextExactly(u: Alphabet, a: string, c: string, manifest: string)
    requires u.Sane() && IsPlainCommand(u, a) && IsPlainCommand(u, c)
    requires IsPiece(a) && IsStable(a) && FenceLanguage(a).None? && ProgramOf(u, a) != ""
    ensures ManifestVsCi(u, ParseManifest(u, Unlines(["```bash", a, "```"]), manifest), [c])
         == if Program(c) == Program(a) && Argument(c) == Argument(a) then [] else [c]
  {
    hide IsPlainCommand, Program, Argument, ManifestVsCi, ParseLines, FenceLanguage, ProgramOf, SplitLines, Unlines, IsStable, NoSeparators,
      NoComment, ReadBack, SplitCommandLine, DeclareLine, StateAfter, Visible;
    var lines := ["```bash", a, "```"];
    assert AreLines(lines) by { ThreeLines(a); }
    SplitLinesUnlines(lines);
    assert lines == BlockLines([a]);
    OneBlockReads(u, a, manifest);
    OneLineDeclares(u, a, manifest);
    DriftOfOneExactly(u, DeclaredCommand(a, ProgramOf(u, a), manifest, 2, "."), c);
  }

  function BlockLines(commands: seq<string>): seq<string> { ["```bash"] + commands + ["```"] }

  lemma ThreeLines(a: string)
    requires NoBreaks(a)
    ensures AreLines(["```bash", a, "```"])
  {
  }

  lemma OneBlockReads(u: Alphabet, a: string, manifest: string)
    requires FenceLanguage(a).None?
    ensures ParseLines(u, BlockLines([a]), false, manifest, 1) == DeclareLine(u, a, manifest, 2)
  {
    hide FenceLanguage, DeclareLine, ParseLines, StateAfter, Visible, BlockAfter;
    FencesFlip(false);
    ReadFenced(u, "```bash", [a], false, manifest, 1);
    ReadUnfenced(u, [a], true, manifest, 2);
    OneDeclared(u, a, manifest);
  }

  lemma OneDeclared(u: Alphabet, a: string, manifest: string)
    ensures DeclareAll(u, [a], manifest, 2) == DeclareLine(u, a, manifest, 2)
  {
    hide DeclareLine;
    assert [a][1..] == [] && DeclareAll(u, [], manifest, 3) == [];
  }

  lemma OneLineDeclares(u: Alphabet, a: string, manifest: string)
    requires IsPiece(a) && IsStable(a) && ProgramOf(u, a) != ""
    ensures DeclareLine(u, a, manifest, 2) == [DeclaredCommand(a, ProgramOf(u, a), manifest, 2, ".")]
  {
    hide ProgramOf, ApplyCd, SplitCommandLine, ReadBack;
    StableReadsBack(a);
    PieceReread(a);
    assert [a][1..] == [];
    var next := if ProgramOf(u, a) == "cd" then ApplyCd(".", a) else ".";
    assert DeclareParts(u, [], next, manifest, 2) == [];
  }

  /** The documented example: two scripts run by one interpreter are different commands. */
  lemma ScriptsDiffer(u: Alphabet, manifest: string, line: nat, cwd: string)
    requires u.Sane()
    ensures var one, other := "python" + " " + "scripts/secret_scan.py", "python" + " " + "scripts/check_docs.py";
      ManifestVsCi(u, [DeclaredCommand(one, "python", manifest, line, cwd)], [other]) == [other]
  {
    hide ManifestVsCi, NoSpaces;
    ScriptsAreWords();
    ScriptsOfOneInterpreter(u, "scripts/secret_scan.py", "scripts/check_docs.py", manifest, line, cwd);
  }

  lemma ScriptsAreWords()
    ensures var one, other := "scripts/secret_scan.py", "scripts/check_docs.py";
      one != "" && other != "" && NoSpaces(one) && NoSpaces(other) && one[0] == 's' && other[0] == 's' && one != other
  {
    ScriptIsWord("scripts/secret_scan.py");
    ScriptIsWord("scripts/check_docs.py");
    assert |"scripts/secret_scan.py"| != |"scripts/check_docs.py"|;
  }

  lemma ScriptIsWord(script: string)
    requires script == "scripts/secret_scan.py" || script == "scripts/check_docs.py"
    ensures script != "" && NoSpaces(script) && script[0] == 's'
  {
  }

  lemma ScriptsOfOneInterpreter(u: Alphabet, one: string, other: string, manifest: string, line: nat, cwd: string)
    requires u.Sane() && one != "" && other != "" && NoSpaces(one) && NoSpaces(other) && one[0] == 's' && other[0] == 's' && one != other
    ensures var declared := DeclaredCommand("python" + " " + one, "python", manifest, line, cwd);
      ManifestVsCi(u, [declared], ["python" + " " + other]) == ["python" + " " + other]
  {
    hide Words, ManifestVsCi, IsPlainCommand;
    ScriptCommand(u, one);
    ScriptCommand(u, other);
    DriftOfOneExactly(u, DeclaredCommand("python" + " " + one, "python", manifest, line, cwd), "python" + " " + other);
  }

  lemma ScriptCommand(u: Alphabet, script: string)
    requires u.Sane() && script != "" && NoSpaces(script) && script[0] == 's'
    ensures Words("python" + " " + script) == ["python", script] && IsPlainCommand(u, "python" + " " + script)
  {
    hide Words, Contains, IsProgramWord;
    WordsCons("python", script);
    WordsOne(script);
    PythonIsProgram(u, Contains("python" + " " + script, "$("));
  }

  lemma PythonIsProgram(u: Alphabet, substitutes: bool)
    requires u.Sane()
    ensures IsProgramWord(u, "python", substitutes)
  {
    hide SHELL_BUILTINS, SHELL_KEYWORDS, PLUMBING;
    assert "python"[0] == 'p' && "python"[|"python"| - 1] == 'n';
    assert IsAsciiLetter('p') && u.alnum('p');
    PythonIsNoTableWord("python");
  }

  lemma PythonIsNoTableWord(w: string)
    requires |w| == 6 && w[0] == 'p' && w[1] == 'y'
    ensures w !in SHELL_BUILTINS && w !in SHELL_KEYWORDS && w !in PLUMBING
  {
    hide SHELL_BUILTINS, SHELL_KEYWORDS, PLUMBING;
    NoBuiltin();
    NoKeyword();
    NoPlumbing();
  }

  lemma NoBuiltin()
    ensures forall e | e in SHELL_BUILTINS :: |e| < 6
  {
  }

  lemma NoKeyword()
    ensures forall e | e in SHELL_KEYWORDS :: e != "" && e[0] != 'p'
  {
  }

  lemma NoPlumbing()
    ensures forall e | e in PLUMBING :: e != "" && (e[0] != 'p' || |e| != 6 || e[1] == 'r')
  {
  }
}
