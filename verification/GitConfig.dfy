/** Reading `git config --list --show-scope` (devrepro/git/health.py): the line reader inverts git's
    line form, and looking a key up backwards is looking it up in the last-wins map. */
module GitConfig {
  import opened Strings

  datatype Entry = Entry(scope: string, key: string, value: string)

  /** `s.partition(c)`: what precedes and what follows the first separator. */
  function Partition(s: string, c: char): (r: (string, string))
  {
    if s == "" then ("", "")
    else if s[0] == c then ("", s[1..])
    else
      var rest := Partition(s[1..], c);
      ([s[0]] + rest.0, rest.1)
  }

  /** One line of output: a setting, the continuation of the value before it, or neither. */
  function ReadLine(entries: seq<Entry>, line: string): seq<Entry> {
    if '\t' in line then
      var scoped := Partition(line, '\t');
      var setting := Partition(scoped.1, '=');
      if setting.0 != "" then entries + [Entry(Strip(scoped.0), Strip(setting.0), setting.1)]
      else entries
    else if entries != [] then
      var last := entries[|entries| - 1];
      entries[..|entries| - 1] + [last.(value := last.value + "\n" + line)]
    else entries
  }

  function ReadLines(entries: seq<Entry>, lines: seq<string>): seq<Entry>
    decreases |lines|
  {
    if lines == [] then entries else ReadLines(ReadLine(entries, lines[0]), lines[1..])
  }

  /** `_read_config` on what git wrote; output that strips to nothing reads as no output. */
  function ReadConfig(output: string): seq<Entry> {
    ReadLines([], SplitLines(Strip(output)))
  }

  method ReadConfigLoop(output: string) returns (entries: seq<Entry>)
    ensures entries == ReadConfig(output)
  {
    hide Strip, SplitLines, Partition, ReadLines;
    var raw := Strip(output);
    entries := [];
    if raw == "" {
      NoLines();
      return;
    }
    var lines := SplitLines(raw);
    for i := 0 to |lines|
      invariant ReadLines(entries, lines[i..]) == ReadConfig(output)
    {
      var line := lines[i];
      ReadLinesStep(entries, lines, i);
      ghost var next := ReadLine(entries, line);
      if '\t' in line {
        var scoped := Partition(line, '\t');
        var setting := Partition(scoped.1, '=');
        if setting.0 != "" {
          entries := entries + [Entry(Strip(scoped.0), Strip(setting.0), setting.1)];
        }
      } else if entries != [] {
        var previous := entries[|entries| - 1];
        var continued := previous.(value := previous.value + "\n" + line);
        assert entries[|entries| - 1 := continued] == entries[..|entries| - 1] + [continued];
        entries := entries[|entries| - 1 := continued];
      }
      assert entries == next;
    }
    assert lines[|lines|..] == [];
    ReadNone(entries);
  }

  lemma NoLines()
    ensures ReadConfig("") == []
  {
  }

  lemma ReadNone(entries: seq<Entry>)
    ensures ReadLines(entries, []) == entries
  {
  }

  lemma ReadLinesStep(entries: seq<Entry>, lines: seq<string>, i: nat)
    requires i < |lines|
    ensures ReadLines(entries, lines[i..]) == ReadLines(ReadLine(entries, lines[i]), lines[i + 1..])
  {
    hide ReadLine;
    assert lines[i..][1..] == lines[i + 1..];
  }

  /** `_config_value`: the last entry with the key decides; an empty value reads as none. */
  function ConfigValue(entries: seq<Entry>, key: string): Option<string> {
    if entries == [] then None
    else
      var last := entries[|entries| - 1];
      if last.key == key then (if last.value == "" then None else Some(last.value))
      else ConfigValue(entries[..|entries| - 1], key)
  }

  // ---------------------------------------------------------------- what git prints

  function PrintEntry(e: Entry): string {
    e.scope + "\t" + e.key + "=" + e.value + "\n"
  }

  function PrintConfig(entries: seq<Entry>): string {
    if entries == [] then "" else PrintEntry(entries[0]) + PrintConfig(entries[1..])
  }

  function ValueLines(value: string): (lines: seq<string>)
    ensures lines != []
  {
    SplitOn(value, "\n")
  }

  /** What git always prints before the value: one of its scopes, and a key that starts and ends plainly. */
  predicate IsNamed(e: Entry) {
    && e.scope != "" && Trimmed(e.scope) && '\t' !in e.scope && NoBreaks(e.scope)
    && e.key != "" && Trimmed(e.key)
  }

  predicate AreNamed(entries: seq<Entry>) {
    forall i | 0 <= i < |entries| :: IsNamed(entries[i])
  }

  /** The key has no line break, and the value none but the newline. */
  predicate IsBrokenPlainly(e: Entry) {
    NoBreaks(e.key) && forall i | 0 <= i < |e.value| :: IsLineBreak(e.value[i]) ==> e.value[i] == '\n'
  }

  /** Then the value's lines are lines. */
  lemma ValueLinesFit(e: Entry)
    requires IsBrokenPlainly(e)
    ensures AreLines(ValueLines(e.value))
  {
    hide SplitOn, IsLineBreak;
    var lines := ValueLines(e.value);
    forall k | 0 <= k < |lines| ensures NoBreaks(lines[k]) {
      SplitOnParts(e.value, '\n', k);
      assert forall i | 0 <= i < |lines[k]| :: lines[k][i] in lines[k] && lines[k][i] in e.value;
    }
  }

  predicate IsPrintable(e: Entry) { IsNamed(e) && IsBrokenPlainly(e) }

  predicate ArePrintable(entries: seq<Entry>) {
    forall i | 0 <= i < |entries| :: IsPrintable(entries[i])
  }

  /** Lines without a tab. */
  predicate AreTabless(lines: seq<string>) {
    forall i | 0 <= i < |lines| :: '\t' !in lines[i]
  }

  /** No line of the value after the first has a tab. */
  predicate ContinuesTabless(e: Entry) { AreTabless(ValueLines(e.value)[1..]) }

  /** What the reader makes of lines: a key without the separator, and plain line breaks. */
  predicate IsClean(e: Entry) { '=' !in e.key && IsBrokenPlainly(e) }

  predicate AreClean(entries: seq<Entry>) {
    forall i | 0 <= i < |entries| :: IsClean(entries[i])
  }

  /** An entry the line form carries. */
  predicate IsCarried(e: Entry) { IsClean(e) && ContinuesTabless(e) }

  predicate AreCarried(entries: seq<Entry>) {
    forall i | 0 <= i < |entries| :: IsCarried(entries[i])
  }

  /** The lines an entry is printed on. */
  function EntryLines(e: Entry): seq<string> {
    [e.scope + "\t" + e.key + "=" + ValueLines(e.value)[0]] + ValueLines(e.value)[1..]
  }

  function ConfigLines(entries: seq<Entry>): seq<string> {
    if entries == [] then [] else EntryLines(entries[0]) + ConfigLines(entries[1..])
  }

  // ---------------------------------------------------------------- printing is line by line

  lemma {:induction false} UnlinesJoin(lines: seq<string>)
    requires lines != []
    ensures Unlines(lines) == Join("\n", lines) + "\n"
  {
    if |lines| == 1 {
      assert Unlines(lines) == lines[0] + "\n" + Unlines([]);
    } else {
      UnlinesJoin(lines[1..]);
      assert lines[0] + "\n" + (Join("\n", lines[1..]) + "\n") == lines[0] + "\n" + Join("\n", lines[1..]) + "\n";
    }
  }

  lemma PrintEntryLines(e: Entry)
    ensures PrintEntry(e) == Unlines(EntryLines(e))
  {
    hide Unlines, Join, SplitOn;
    var head := e.scope + "\t" + e.key + "=";
    var parts := ValueLines(e.value);
    JoinSplit(e.value, '\n');
    JoinHead("\n", head, parts);
    UnlinesJoin(EntryLines(e));
  }

  lemma {:induction false} PrintConfigLines(entries: seq<Entry>)
    ensures PrintConfig(entries) == Unlines(ConfigLines(entries))
  {
    hide PrintEntry, EntryLines;
    if entries != [] {
      PrintConfigLines(entries[1..]);
      PrintEntryLines(entries[0]);
      UnlinesConcat(EntryLines(entries[0]), ConfigLines(entries[1..]));
    }
  }

  lemma {:induction false} ConfigLinesFit(entries: seq<Entry>)
    requires ArePrintable(entries)
    ensures AreLines(ConfigLines(entries))
  {
    hide ValueLines, Trimmed;
    if entries != [] {
      assert IsPrintable(entries[0]);
      assert ArePrintable(entries[1..]);
      ConfigLinesFit(entries[1..]);
      var parts := ValueLines(entries[0].value);
      ValueLinesFit(entries[0]);
      assert NoBreaks(entries[0].scope + "\t" + entries[0].key + "=" + parts[0]) by { assert NoBreaks(parts[0]); }
    }
  }

  // ---------------------------------------------------------------- reading the lines back

  lemma {:induction false} PartitionAt(a: string, c: char, b: string)
    requires c !in a
    ensures Partition(a + [c] + b, c) == (a, b)
  {
    var s := a + [c] + b;
    if a == "" {
      assert s[1..] == b;
    } else {
      assert s[0] == a[0] && a[0] in a && s[1..] == a[1..] + [c] + b;
      PartitionAt(a[1..], c, b);
      assert [a[0]] + a[1..] == a;
    }
  }

  /** The first line of an entry starts a new one. */
  lemma ReadFirstLine(entries: seq<Entry>, e: Entry, v: string)
    requires IsNamed(e) && '=' !in e.key
    ensures ReadLine(entries, e.scope + "\t" + e.key + "=" + v) == entries + [e.(value := v)]
  {
    hide Partition, Strip, ValueLines;
    var rest := e.key + "=" + v;
    var line := e.scope + "\t" + e.key + "=" + v;
    assert line == e.scope + ['\t'] + rest && '\t' in line;
    PartitionAt(e.scope, '\t', rest);
    assert rest == e.key + ['='] + v;
    PartitionAt(e.key, '=', v);
  }

  /** Lines without a tab extend the last value. */
  lemma {:induction false} ReadContinuations(entries: seq<Entry>, last: Entry, lines: seq<string>)
    requires AreTabless(lines)
    ensures ReadLines(entries + [last], lines)
         == entries + [last.(value := Join("\n", [last.value] + lines))]
    decreases |lines|
  {
    if lines == [] {
      assert [last.value] + lines == [last.value];
    } else {
      var next := last.(value := last.value + "\n" + lines[0]);
      var all := entries + [last];
      assert all[..|all| - 1] == entries;
      assert ReadLine(all, lines[0]) == entries + [next];
      ReadContinuations(entries, next, lines[1..]);
      JoinTwo(last.value, lines);
    }
  }

  lemma JoinTwo(v: string, lines: seq<string>)
    requires lines != []
    ensures Join("\n", [v + "\n" + lines[0]] + lines[1..]) == Join("\n", [v] + lines)
  {
    assert ([v] + lines)[1..] == lines;
    JoinHead("\n", v + "\n", lines);
  }

  lemma ReadEntry(entries: seq<Entry>, e: Entry)
    requires IsNamed(e) && IsCarried(e)
    ensures ReadLines(entries, EntryLines(e)) == entries + [e]
  {
    hide ReadLine, SplitOn, Join;
    var parts := ValueLines(e.value);
    var first := e.scope + "\t" + e.key + "=" + parts[0];
    ReadFirstLine(entries, e, parts[0]);
    assert EntryLines(e)[0] == first && EntryLines(e)[1..] == parts[1..];
    ReadContinuations(entries, e.(value := parts[0]), parts[1..]);
    assert [parts[0]] + parts[1..] == parts;
    JoinSplit(e.value, '\n');
  }

  lemma {:induction false} ReadLinesConcat(entries: seq<Entry>, a: seq<string>, b: seq<string>)
    ensures ReadLines(entries, a + b) == ReadLines(ReadLines(entries, a), b)
    decreases |a|
  {
    hide ReadLine;
    if a == [] {
      assert a + b == b;
    } else {
      assert (a + b)[1..] == a[1..] + b;
      ReadLinesConcat(ReadLine(entries, a[0]), a[1..], b);
    }
  }

  lemma {:induction false} ReadConfigLines(read: seq<Entry>, entries: seq<Entry>)
    requires AreNamed(entries) && AreCarried(entries)
    ensures ReadLines(read, ConfigLines(entries)) == read + entries
    decreases |entries|
  {
    hide IsNamed, IsCarried, EntryLines, ReadLine;
    if entries == [] {
      assert ReadLines(read, []) == read;
    } else {
      assert IsNamed(entries[0]) && IsCarried(entries[0]);
      ReadLinesConcat(read, EntryLines(entries[0]), ConfigLines(entries[1..]));
      ReadEntry(read, entries[0]);
      assert AreNamed(entries[1..]) && AreCarried(entries[1..]);
      ReadConfigLines(read + [entries[0]], entries[1..]);
      assert read + [entries[0]] + entries[1..] == read + entries;
    }
  }

  // ---------------------------------------------------------------- stripping the output

  lemma {:induction false} SplitLinesJoined(lines: seq<string>)
    requires lines != [] && AreLines(lines) && lines[|lines| - 1] != ""
    ensures SplitLines(Join("\n", lines)) == lines
  {
    hide NoBreaks, SplitLines;
    assert lines == [lines[0]] + lines[1..];
    if |lines| == 1 {
      SplitOneLine(lines[0]);
    } else {
      SplitLinesJoined(lines[1..]);
      SplitLinesFirst(lines[0], Join("\n", lines[1..]));
    }
  }

  lemma SplitOneLine(l: string)
    requires l != "" && NoBreaks(l)
    ensures SplitLines(l) == [l]
  {
    var n := FirstBreak(l);
    assert n == |l|;
  }

  /** A last value that ends in whitespace would lose it. */
  predicate EndsPlainly(entries: seq<Entry>) {
    entries == [] || var v := entries[|entries| - 1].value; v == "" || !IsSpace(v[|v| - 1])
  }

  lemma PrintEnds(e: Entry)
    requires IsPrintable(e) && (e.value == "" || !IsSpace(e.value[|e.value| - 1]))
    ensures var s := PrintEntry(e);
      |s| > 1 && !IsSpace(s[0]) && !IsSpace(s[|s| - 2]) && s[|s| - 1] == '\n'
  {
    hide ValueLines;
    assert PrintEntry(e)[0] == e.scope[0];
  }

  lemma {:induction false} PrintConfigEnds(entries: seq<Entry>)
    requires entries != [] && ArePrintable(entries) && EndsPlainly(entries)
    ensures var s := PrintConfig(entries);
      |s| > 1 && !IsSpace(s[0]) && !IsSpace(s[|s| - 2]) && s[|s| - 1] == '\n'
  {
    hide PrintEntry, ValueLines;
    assert IsPrintable(entries[0]);
    var first, rest := PrintEntry(entries[0]), PrintConfig(entries[1..]);
    PrintStarts(entries[0]);
    if |entries| == 1 {
      PrintEnds(entries[0]);
      assert PrintConfig(entries) == first + PrintConfig([]);
    } else {
      assert ArePrintable(entries[1..]);
      PrintConfigEnds(entries[1..]);
      var s := first + rest;
      assert s[|s| - 2] == rest[|rest| - 2] && s[|s| - 1] == rest[|rest| - 1];
    }
  }

  lemma PrintStarts(e: Entry)
    requires IsPrintable(e)
    ensures PrintEntry(e) != "" && !IsSpace(PrintEntry(e)[0])
  {
    hide ValueLines;
    assert PrintEntry(e)[0] == e.scope[0];
  }

  lemma StripFinalNewline(s: string)
    requires |s| > 1 && !IsSpace(s[0]) && !IsSpace(s[|s| - 2]) && s[|s| - 1] == '\n'
    ensures Strip(s) == s[..|s| - 1]
  {
    var t := s[..|s| - 1];
    assert t[|t| - 1] == s[|s| - 2];
  }

  /** The last line of an output that ends plainly is not empty. */
  lemma LastLine(lines: seq<string>)
    requires lines != [] && Join("\n", lines) != ""
    requires !IsSpace(Join("\n", lines)[|Join("\n", lines)| - 1])
    ensures lines[|lines| - 1] != ""
  {
    if lines[|lines| - 1] == "" { JoinLast(lines); }
  }

  lemma {:induction false} JoinLast(lines: seq<string>)
    requires lines != [] && lines[|lines| - 1] == ""
    ensures Join("\n", lines) == "" || Join("\n", lines)[|Join("\n", lines)| - 1] == '\n'
  {
    if |lines| > 1 {
      JoinLast(lines[1..]);
    }
  }

  /** The reader sees the lines that were printed. */
  lemma ReadsPrintedLines(entries: seq<Entry>)
    requires ArePrintable(entries) && EndsPlainly(entries)
    ensures ReadConfig(PrintConfig(entries)) == ReadLines([], ConfigLines(entries))
  {
    hide ArePrintable, ConfigLines, PrintConfig, ReadLines, Strip, SplitLines, Join, Unlines;
    if entries == [] {
      NothingPrinted();
      assert ConfigLines([]) == [] && ReadLines([], []) == [] by { NoConfigLines(); }
    } else {
      PrintConfigEnds(entries);
      PrintConfigLines(entries);
      ConfigLinesFit(entries);
      var s, lines := PrintConfig(entries), ConfigLines(entries);
      assert lines != [] by { SomeLines(entries); }
      UnlinesJoin(lines);
      StripFinalNewline(s);
      assert Strip(s) == Join("\n", lines);
      LastLine(lines);
      SplitLinesJoined(lines);
    }
  }

  /** Carried entries that end plainly are read back: every scope, key and value, continuation lines
      included, in order. */
  lemma ReadsCarried(entries: seq<Entry>)
    requires AreNamed(entries) && AreCarried(entries) && EndsPlainly(entries)
    ensures ReadConfig(PrintConfig(entries)) == entries
  {
    hide EndsPlainly, ConfigLines, PrintConfig, ReadLines, ReadConfig, IsNamed, IsBrokenPlainly, ContinuesTabless;
    assert forall i | 0 <= i < |entries| :: IsPrintable(entries[i]) by {
      assert forall i | 0 <= i < |entries| :: IsNamed(entries[i]) && IsCarried(entries[i]);
    }
    ReadsPrintedLines(entries);
    ReadConfigLines([], entries);
    assert [] + entries == entries;
  }

  // ---------------------------------------------------------------- what the reader can make at all

  lemma {:induction false} PartitionAvoids(s: string, c: char)
    ensures c !in Partition(s, c).0
    ensures NoBreaks(s) ==> NoBreaks(Partition(s, c).0) && NoBreaks(Partition(s, c).1)
  {
    if s != "" && s[0] != c { PartitionAvoids(s[1..], c); }
  }

  lemma StripKeeps(s: string, c: char)
    ensures c !in s ==> c !in Strip(s)
    ensures NoBreaks(s) ==> NoBreaks(Strip(s))
  {
    hide Strip;
    var a, b := StripSlice(s);
  }

  lemma OneValueLine(line: string)
    requires NoBreaks(line)
    ensures ValueLines(line) == [line]
  {
    SplitOnNone(line, '\n');
  }

  lemma MoreValueLines(value: string, line: string)
    requires NoBreaks(line)
    ensures ValueLines(value + "\n" + line) == ValueLines(value) + [line]
  {
    hide SplitOn;
    OneValueLine(line);
    SplitOnConcat(value, '\n', line);
  }

  lemma NewEntryIsClean(line: string)
    requires NoBreaks(line)
    ensures var setting := Partition(Partition(line, '\t').1, '=');
      IsClean(Entry(Strip(Partition(line, '\t').0), Strip(setting.0), setting.1)) && ValueLines(setting.1) == [setting.1]
  {
    hide Partition, Strip, NoBreaks, ValueLines;
    var rest := Partition(line, '\t').1;
    PartitionAvoids(line, '\t');
    PartitionAvoids(rest, '=');
    var setting := Partition(rest, '=');
    StripKeeps(setting.0, '=');
    OneValueLine(setting.1);
  }

  /** One line leaves the entries clean, and adds at most one to the lines they are printed on; an entry is
      added only by a line with a tab, which adds a line too. */
  lemma ReadLineCounts(entries: seq<Entry>, line: string)
    requires AreClean(entries) && NoBreaks(line)
    ensures var next := ReadLine(entries, line);
      && AreClean(next)
      && LineCount(next) <= LineCount(entries) + 1
      && (LineCount(next) == LineCount(entries) + 1 ==> |next| == |entries| + (if '\t' in line then 1 else 0))
  {
    hide Partition, Strip, NoBreaks, ValueLines, IsBrokenPlainly;
    var next := ReadLine(entries, line);
    if '\t' in line {
      NewEntryIsClean(line);
      if next != entries { LineCountAppend(entries, next[|entries|]); }
    } else if entries != [] {
      var init, last := entries[..|entries| - 1], entries[|entries| - 1];
      assert entries == init + [last] && IsClean(last);
      LineCountAppend(init, last);
      ContinuedIsClean(last, line);
      LineCountAppend(init, last.(value := last.value + "\n" + line));
    }
  }

  lemma ContinuedIsClean(e: Entry, line: string)
    requires IsClean(e) && NoBreaks(line)
    ensures var next := e.(value := e.value + "\n" + line);
      IsClean(next) && |ValueLines(next.value)| == |ValueLines(e.value)| + 1
  {
    hide ValueLines;
    MoreValueLines(e.value, line);
  }

  /** The lines the values take. */
  function LineCount(entries: seq<Entry>): nat {
    if entries == [] then 0 else |ValueLines(entries[0].value)| + LineCount(entries[1..])
  }

  lemma {:induction false} LineCountAppend(entries: seq<Entry>, e: Entry)
    ensures LineCount(entries + [e]) == LineCount(entries) + |ValueLines(e.value)|
  {
    hide ValueLines;
    if entries == [] {
      assert [e][1..] == [] && entries + [e] == [e];
    } else {
      assert (entries + [e])[1..] == entries[1..] + [e];
      LineCountAppend(entries[1..], e);
    }
  }

  function TabbedCount(lines: seq<string>): nat {
    if lines == [] then 0 else (if '\t' in lines[0] then 1 else 0) + TabbedCount(lines[1..])
  }

  /** Lines give at most as many value lines as they are, and when that many, an entry for each with a tab. */
  lemma {:induction false} ReadLinesCount(entries: seq<Entry>, lines: seq<string>)
    requires AreClean(entries) && AreLines(lines)
    ensures var read := ReadLines(entries, lines);
      && AreClean(read)
      && LineCount(read) <= LineCount(entries) + |lines|
      && (LineCount(read) == LineCount(entries) + |lines| ==> |read| == |entries| + TabbedCount(lines))
    decreases |lines|
  {
    hide ReadLine, IsClean, NoBreaks, LineCount;
    if lines != [] {
      ReadLineCounts(entries, lines[0]);
      ReadLinesCount(ReadLine(entries, lines[0]), lines[1..]);
    }
  }

  lemma {:induction false} TabbedConcat(a: seq<string>, b: seq<string>)
    ensures TabbedCount(a + b) == TabbedCount(a) + TabbedCount(b)
  {
    if a == [] {
      assert a + b == b;
    } else {
      assert (a + b)[1..] == a[1..] + b;
      TabbedConcat(a[1..], b);
    }
  }

  lemma {:induction false} TablessExactly(lines: seq<string>)
    ensures TabbedCount(lines) == 0 <==> AreTabless(lines)
  {
    if lines != [] {
      TablessExactly(lines[1..]);
      assert forall i | 0 < i < |lines| :: lines[i] == lines[1..][i - 1];
    }
  }

  lemma EntryTabs(e: Entry)
    ensures |EntryLines(e)| == |ValueLines(e.value)|
    ensures TabbedCount(EntryLines(e)) >= 1
    ensures TabbedCount(EntryLines(e)) == 1 <==> ContinuesTabless(e)
  {
    hide ValueLines;
    var lines := EntryLines(e);
    assert lines[0][|e.scope|] == '\t';
    assert lines[1..] == ValueLines(e.value)[1..];
    TablessExactly(lines[1..]);
  }

  /** A printed list has a tab on at least one line for each entry, and on no more exactly when no
      continuation has one. */
  lemma {:induction false} ConfigTabs(entries: seq<Entry>)
    ensures |ConfigLines(entries)| == LineCount(entries)
    ensures TabbedCount(ConfigLines(entries)) >= |entries|
    ensures TabbedCount(ConfigLines(entries)) == |entries|
      <==> forall i | 0 <= i < |entries| :: ContinuesTabless(entries[i])
  {
    hide EntryLines, ValueLines, ContinuesTabless;
    if entries != [] {
      var rest := entries[1..];
      EntryTabs(entries[0]);
      ConfigTabs(rest);
      TabbedConcat(EntryLines(entries[0]), ConfigLines(rest));
      assert forall i | 0 <= i < |rest| :: rest[i] == entries[i + 1];
      assert forall i | 0 < i < |entries| :: entries[i] == rest[i - 1];
    }
  }

  // ---------------------------------------------------------------- the end of the output

  /** The list with the whitespace at the very end gone, as stripping the output has it. */
  function Stripped(entries: seq<Entry>): (r: seq<Entry>)
    ensures |r| == |entries|
  {
    if entries == [] then []
    else
      var n := |entries| - 1;
      entries[..n] + [entries[n].(value := TrimRight(entries[n].value, IsSpace))]
  }

  lemma TrimRightNewline(s: string)
    ensures TrimRight(s + "\n", IsSpace) == TrimRight(s, IsSpace)
  {
    assert (s + "\n")[..|s|] == s;
  }

  lemma StripFromStart(x: string, v: string)
    requires x != "" && !IsSpace(x[0]) && !IsSpace(x[|x| - 1])
    ensures Strip(x + v + "\n") == x + TrimRight(v, IsSpace)
  {
    hide IsSpace, TrimRight, TrimLeft;
    assert (x + v + "\n")[0] == x[0];
    assert TrimLeft(x + v + "\n", IsSpace) == x + v + "\n";
    TrimRightNewline(x + v);
    TrimRightConcat(x, v, IsSpace);
  }

  lemma {:induction false} PrintConcat(a: seq<Entry>, b: seq<Entry>)
    ensures PrintConfig(a + b) == PrintConfig(a) + PrintConfig(b)
  {
    hide PrintEntry;
    if a == [] {
      assert a + b == b;
    } else {
      assert (a + b)[1..] == a[1..] + b;
      PrintConcat(a[1..], b);
    }
  }

  /** The printed text up to the last value. */
  lemma PrintedUpToLast(init: seq<Entry>, e: Entry) returns (x: string)
    requires AreNamed(init) && IsNamed(e)
    ensures x != "" && !IsSpace(x[0]) && !IsSpace(x[|x| - 1])
    ensures forall v :: PrintConfig(init + [e.(value := v)]) == x + v + "\n"
  {
    hide IsSpace;
    assert !IsSpace('=') by { EqualsIsVisible(); }
    var head := e.scope + "\t" + e.key + "=";
    x := PrintConfig(init) + head;
    if init != [] {
      assert IsNamed(init[0]);
      assert x[0] == PrintEntry(init[0])[0] == init[0].scope[0];
    } else {
      assert x[0] == e.scope[0];
    }
    forall v ensures PrintConfig(init + [e.(value := v)]) == x + v + "\n" {
      PrintConcat(init, [e.(value := v)]);
      PrintOne(e.(value := v));
    }
  }

  lemma PrintOne(e: Entry)
    ensures PrintConfig([e]) == PrintEntry(e)
  {
    assert [e][1..] == [];
  }

  lemma EqualsIsVisible()
    ensures !IsSpace('=')
  {
  }

  /** Whitespace at the end of the last value makes no difference to the reader. */
  lemma ReadsStripped(entries: seq<Entry>)
    requires AreNamed(entries)
    ensures ReadConfig(PrintConfig(entries)) == ReadConfig(PrintConfig(Stripped(entries)))
    ensures AreNamed(Stripped(entries)) && EndsPlainly(Stripped(entries))
  {
    hide IsNamed, PrintConfig, ReadLines, Strip, SplitLines, IsSpace;
    if entries != [] {
      var n := |entries| - 1;
      var init, e := entries[..n], entries[n];
      var v := TrimRight(e.value, IsSpace);
      assert IsNamed(e) && IsNamed(e.(value := v)) by { NamedAnyValue(e, v); }
      var x := PrintedUpToLast(init, e);
      StripFromStart(x, e.value);
      StripFromStart(x, v);
      assert entries == init + [e.(value := e.value)];
    }
  }

  lemma NamedAnyValue(e: Entry, v: string)
    requires IsNamed(e)
    ensures IsNamed(e.(value := v))
  {
  }

  /** A prefix takes no more lines. */
  lemma {:induction false} PrefixLines(t: string, w: string)
    ensures |ValueLines(t)| <= |ValueLines(t + w)|
    decreases |t|
  {
    hide SplitOn;
    var all := t + w;
    if t == "" {
      SplitOnNone("", '\n');
    } else {
      assert all[0] == t[0] && all[1..] == t[1..] + w;
      PrefixLines(t[1..], w);
      SplitOnStep(t, '\n');
      SplitOnStep(all, '\n');
    }
  }

  lemma LineCountStripped(entries: seq<Entry>)
    ensures LineCount(Stripped(entries)) <= LineCount(entries)
  {
    hide ValueLines, IsSpace;
    if entries != [] {
      var n := |entries| - 1;
      var e := entries[n];
      var v := TrimRight(e.value, IsSpace);
      assert entries == entries[..n] + [e];
      LineCountAppend(entries[..n], e);
      LineCountAppend(entries[..n], e.(value := v));
      assert e.value == v + e.value[|v|..];
      PrefixLines(v, e.value[|v|..]);
    }
  }

  lemma StrippedIsClean(entries: seq<Entry>)
    requires AreClean(entries)
    ensures AreClean(Stripped(entries))
  {
    hide IsSpace, TrimRight;
    if entries != [] { assert IsClean(entries[|entries| - 1]); }
  }

  lemma StrippedOfPlain(entries: seq<Entry>)
    ensures Stripped(entries) == entries <==> EndsPlainly(entries)
  {
    hide IsSpace;
    if entries != [] {
      var n := |entries| - 1;
      assert entries == entries[..n] + [entries[n]];
      if Stripped(entries) == entries { assert Stripped(entries)[n] == entries[n]; }
    }
  }

  /** Printable entries whose stripped form is read back are carried, by counting lines and tabs. */
  lemma ReadBackIsTabless(entries: seq<Entry>)
    requires AreNamed(entries) && AreClean(entries)
    requires ReadConfig(PrintConfig(entries)) == entries
    ensures AreCarried(Stripped(entries))
  {
    hide ReadConfig, PrintConfig, ReadLines, ConfigLines, IsNamed, IsBrokenPlainly, ContinuesTabless, LineCount, Stripped,
      TabbedCount, EndsPlainly;
    var stripped := Stripped(entries);
    ReadsStripped(entries);
    StrippedIsClean(entries);
    assert ArePrintable(stripped) by {
      assert forall i | 0 <= i < |stripped| :: IsNamed(stripped[i]) && IsClean(stripped[i]);
    }
    ReadsPrintedLines(stripped);
    ConfigLinesFit(stripped);
    ConfigTabs(stripped);
    LineCountStripped(entries);
    assert AreClean([]) && LineCount([]) == 0 by { NothingCounted(); }
    ReadLinesCount([], ConfigLines(stripped));
    assert forall i | 0 <= i < |stripped| :: IsClean(stripped[i]) && ContinuesTabless(stripped[i]);
  }

  lemma NothingCounted()
    ensures AreClean([]) && LineCount([]) == 0
  {
  }

  /** Whatever the output, what the reader makes of it is clean. */
  lemma ReadIsClean(output: string)
    ensures AreClean(ReadConfig(output))
  {
    hide Strip, SplitLines, ReadLines, IsClean;
    assert AreClean([]);
    ReadLinesCount([], SplitLines(Strip(output)));
  }

  /** Reading what git printed gives the entries back exactly when no key has an equals sign or a line break
      in it, no value a line break but the newline, no line of a value after its first a tab, and the last
      value no whitespace at its end. */
  lemma ReadInvertsPrint(entries: seq<Entry>)
    requires AreNamed(entries)
    ensures ReadConfig(PrintConfig(entries)) == entries <==> AreCarried(entries) && EndsPlainly(entries)
  {
    hide ReadConfig, PrintConfig, IsNamed, AreCarried, AreClean, EndsPlainly, Stripped;
    if AreCarried(entries) && EndsPlainly(entries) {
      ReadsCarried(entries);
    }
    if ReadConfig(PrintConfig(entries)) == entries {
      ReadIsClean(PrintConfig(entries));
      ReadBackIsTabless(entries);
      ReadsStripped(entries);
      ReadsCarried(Stripped(entries));
      StrippedOfPlain(entries);
    }
  }

  lemma NothingPrinted()
    ensures ReadConfig(PrintConfig([])) == []
  {
  }

  lemma NoConfigLines()
    ensures ConfigLines([]) == [] && ReadLines([], []) == []
  {
  }

  lemma SomeLines(entries: seq<Entry>)
    requires entries != []
    ensures ConfigLines(entries) != []
  {
  }

  /** A credential helper written as a shell fragment with its body indented by a tab is not read back. */
  lemma IndentedHelperIsLost(scope: string, key: string, start: string, body: string)
    requires IsNamed(Entry(scope, key, ""))
    ensures var e := Entry(scope, key, start + "\n" + "\t" + body + "\n" + "}");
      ReadConfig(PrintConfig([e])) != [e]
  {
    hide SplitOn, ReadConfig, PrintConfig, IsNamed, EndsPlainly;
    var tail := "\t" + body + "\n" + "}";
    var e := Entry(scope, key, start + "\n" + "\t" + body + "\n" + "}");
    NamedAnyValue(Entry(scope, key, ""), e.value);
    ReadInvertsPrint([e]);
    var lines := ValueLines(e.value);
    var k := |ValueLines(start)|;
    assert e.value == start + ['\n'] + tail;
    SplitOnConcat(start, '\n', tail);
    assert tail == ("\t" + body) + ['\n'] + "}";
    SplitOnConcat("\t" + body, '\n', "}");
    assert lines == ValueLines(start) + (ValueLines("\t" + body) + ValueLines("}"));
    TabFirst(body);
    assert lines[k] == ValueLines("\t" + body)[0] && '\t' in lines[k];
    assert lines[1..][k - 1] == lines[k];
    assert !ContinuesTabless(e) && !IsCarried([e][0]);
  }

  lemma TabFirst(body: string)
    ensures '\t' in ValueLines("\t" + body)[0]
  {
    hide SplitOn;
    SplitOnStep("\t" + body, '\n');
  }

  lemma {:induction false} NothingToContinue(lines: seq<string>)
    requires AreTabless(lines)
    ensures ReadLines([], lines) == []
  {
    if lines != [] { NothingToContinue(lines[1..]); }
  }

  lemma ReadCutLine(scope: string, a: string, rest: string)
    requires scope != "" && Trimmed(scope) && '\t' !in scope && '=' !in a
    ensures ReadLine([], scope + "\t" + a + "=" + rest) == if a == "" then [] else [Entry(scope, Strip(a), rest)]
  {
    hide Partition, Strip;
    var after := a + "=" + rest;
    var line := scope + "\t" + a + "=" + rest;
    assert line == scope + ['\t'] + after && '\t' in line;
    PartitionAt(scope, '\t', after);
    assert after == a + ['='] + rest;
    PartitionAt(a, '=', rest);
  }

  /** What becomes of a key with an equals sign: it is cut at the first one and the rest joins the value,
      or, when it starts with one, the whole entry is dropped. */
  lemma EqualsInKeyIsCut(scope: string, a: string, b: string, value: string)
    requires IsPrintable(Entry(scope, a + "=" + b, value)) && '=' !in a
    requires ContinuesTabless(Entry(scope, a + "=" + b, value))
    requires value == "" || !IsSpace(value[|value| - 1])
    ensures ReadConfig(PrintConfig([Entry(scope, a + "=" + b, value)]))
         == if a == "" then [] else [Entry(scope, Strip(a), b + "=" + value)]
  {
    hide ReadConfig, PrintConfig, SplitOn, Join, Strip, ReadLine;
    var e := Entry(scope, a + "=" + b, value);
    var parts := ValueLines(value);
    var first := b + "=" + parts[0];
    ReadsPrintedLines([e]);
    assert '=' in e.key && e.key != "";
    OneEntryLines(e);
    var lines := EntryLines(e);
    assert lines[0] == scope + "\t" + a + "=" + first && lines[1..] == parts[1..] by {
      assert scope + "\t" + (a + "=" + b) + "=" + parts[0] == scope + "\t" + a + "=" + (b + "=" + parts[0]);
    }
    ReadCutLine(scope, a, first);
    if a == "" {
      NothingToContinue(parts[1..]);
    } else {
      ReadContinuations([], Entry(scope, Strip(a), first), parts[1..]);
      assert [parts[0]] + parts[1..] == parts;
      JoinHead("\n", b + "=", parts);
      JoinSplit(value, '\n');
      assert [first] + parts[1..] == [b + "=" + parts[0]] + parts[1..];
      var last := Entry(scope, Strip(a), first);
      assert [] + [last] == [last] && ReadLine([], lines[0]) == [last];
      FirstThenRest([], lines);
    }
  }

  lemma FirstThenRest(entries: seq<Entry>, lines: seq<string>)
    requires lines != []
    ensures ReadLines(entries, lines) == ReadLines(ReadLine(entries, lines[0]), lines[1..])
  {
    hide ReadLine;
  }

  lemma OneEntryLines(e: Entry)
    ensures ConfigLines([e]) == EntryLines(e)
  {
    hide EntryLines;
    assert [e][1..] == [];
  }

  // ---------------------------------------------------------------- lookup

  /** The settings in force: later entries win. */
  function LastWins(entries: seq<Entry>): map<string, string> {
    if entries == [] then map[]
    else LastWins(entries[..|entries| - 1])[entries[|entries| - 1].key := entries[|entries| - 1].value]
  }

  /** Searching backwards is looking up in the last-wins map, an empty value being none. */
  lemma {:induction false} LookupIsLastWins(entries: seq<Entry>, key: string)
    ensures ConfigValue(entries, key)
         == if key in LastWins(entries) && LastWins(entries)[key] != "" then Some(LastWins(entries)[key]) else None
  {
    if entries != [] {
      LookupIsLastWins(entries[..|entries| - 1], key);
    }
  }
}
