/** Which mount a path is on (devrepro/platforms/mounts.py): reading the mount table, undoing its octal
    escapes, and finding the longest mount point above a path. */
module Mounts {
  import opened Strings

  datatype Mount = Mount(point: string, fstype: string)

  const SLOW_FILESYSTEMS := {
    "9p", "drvfs", "cifs", "smbfs", "smb3", "nfs", "nfs4", "afpfs", "fuse.sshfs", "virtiofs"
  }

  // ---------------------------------------------------------------- the mount table

  /** The mount point, still escaped, and the type on a line; the type must have something after it. */
  function MountLine(line: string): Option<Mount> {
    if line == "" || IsSpace(line[0]) then None
    else
      var afterDevice := TrimLeft(line[WordLen(line)..], IsSpace);
      var n := WordLen(afterDevice);
      var afterPoint := TrimLeft(afterDevice[n..], IsSpace);
      var m := WordLen(afterPoint);
      if n == 0 || m == 0 || m == |afterPoint| then None
      else Some(Mount(afterDevice[..n], afterPoint[..m]))
  }

  predicate IsEscape(s: string) {
    |s| >= 4 && s[0] == '\\' && IsDigit(s[1]) && IsDigit(s[2]) && IsDigit(s[3])
  }

  /** The character of a three-digit octal escape; 8 and 9 are no octal digits. */
  function EscapedChar(s: string): Option<char>
    requires IsEscape(s)
  {
    var (a, b, c) := (DigitValue(s[1]), DigitValue(s[2]), DigitValue(s[3]));
    if a > 7 || b > 7 || c > 7 then None else Some((64 * a + 8 * b + c) as char)
  }

  /** Escapes decoded left to right; None is the error a malformed one raises. */
  function Decode(s: string): Option<string> {
    if s == "" then Some("")
    else if IsEscape(s) then
      match (EscapedChar(s), Decode(s[4..]))
      case (Some(c), Some(rest)) => Some([c] + rest)
      case _ => None
    else match Decode(s[1..])
      case Some(rest) => Some([s[0]] + rest)
      case None => None
  }

  function MountPairs(lines: seq<string>): Option<seq<Mount>> {
    if lines == [] then Some([])
    else match MountLine(lines[0])
      case None => MountPairs(lines[1..])
      case Some(m) =>
        match (Decode(m.point), MountPairs(lines[1..]))
        case (Some(point), Some(rest)) => Some([Mount(point, m.fstype)] + rest)
        case _ => None
  }

  /** Into a list sorted by length, longest first, ahead of those of its own length. */
  function Insert(m: Mount, sorted: seq<Mount>): seq<Mount> {
    if sorted == [] || |sorted[0].point| <= |m.point| then [m] + sorted
    else [sorted[0]] + Insert(m, sorted[1..])
  }

  /** The stable sort by descending length. */
  function SortByLength(mounts: seq<Mount>): seq<Mount> {
    if mounts == [] then [] else Insert(mounts[0], SortByLength(mounts[1..]))
  }

  function ParseProcMounts(text: string): Option<seq<Mount>> {
    match MountPairs(SplitLines(text)) case None => None case Some(pairs) => Some(SortByLength(pairs))
  }

  method ParseProcMountsLoop(text: string) returns (r: Option<seq<Mount>>)
    ensures r == ParseProcMounts(text)
  {
    hide SplitLines, MountLine, Decode, MountPairs;
    var pairs: seq<Mount> := [];
    var lines := SplitLines(text);
    NoMounts();
    assert lines[0..] == lines;
    for i := 0 to |lines|
      invariant (MountPairs(lines).Some? <==> MountPairs(lines[i..]).Some?)
      invariant MountPairs(lines).Some? ==> MountPairs(lines).value == pairs + MountPairs(lines[i..]).value
    {
      MountPairsStep(lines, i);
      var m := MountLine(lines[i]);
      if m.Some? {
        var point := Decode(m.value.point);
        if point.None? {
          return None;
        }
        pairs := pairs + [Mount(point.value, m.value.fstype)];
      }
    }
    assert lines[|lines|..] == [] && pairs + [] == pairs;
    r := Some(SortByLength(pairs));
  }

  lemma NoMounts()
    ensures MountPairs([]) == Some([])
  {
  }

  lemma MountPairsStep(lines: seq<string>, i: nat)
    requires i < |lines|
    ensures MountPairs(lines[i..]) ==
      match MountLine(lines[i])
      case None => MountPairs(lines[i + 1..])
      case Some(m) =>
        match (Decode(m.point), MountPairs(lines[i + 1..]))
        case (Some(point), Some(rest)) => Some([Mount(point, m.fstype)] + rest)
        case _ => None
  {
    hide MountLine, Decode;
    assert lines[i..][1..] == lines[i + 1..];
  }

  // ---------------------------------------------------------------- classification

  predicate IsSlash(c: char) { c == '/' }

  /** The path is the mount point or lies below it. */
  predicate IsUnder(path: string, point: string) {
    path == point || StartsWith(path, TrimRight(point, IsSlash) + "/")
  }

  /** The first mount in the list the path is under. */
  function FindMount(path: string, mounts: seq<Mount>): Option<Mount> {
    if mounts == [] then None
    else if IsUnder(path, mounts[0].point) then Some(mounts[0])
    else FindMount(path, mounts[1..])
  }

  method FindMountLoop(path: string, mounts: seq<Mount>) returns (r: Option<Mount>)
    ensures r == FindMount(path, mounts)
  {
    hide IsUnder;
    for i := 0 to |mounts|
      invariant FindMount(path, mounts[i..]) == FindMount(path, mounts)
    {
      assert mounts[i..][1..] == mounts[i + 1..];
      if IsUnder(path, mounts[i].point) {
        return Some(mounts[i]);
      }
    }
    return None;
  }

  datatype Verdict = Verdict(kind: string, slow: Option<bool>)

  /** `/mnt/<letter>/...` */
  predicate IsDriveMount(path: string) {
    |path| > 6 && path[..5] == "/mnt/" && 'a' <= path[5] <= 'z' && path[6] == '/'
  }

  function ClassifyPath(path: string, windows: bool, isWsl: bool, mounts: seq<Mount>): Verdict {
    if windows then
      if StartsWith(path, "\\\\") || StartsWith(path, "//") then Verdict("network-share", Some(true))
      else Verdict("local", Some(false))
    else
      var normalised := ForwardSlashes(path);
      if isWsl && IsDriveMount(normalised) then Verdict("wsl-windows-crossing", Some(true))
      else match FindMount(normalised, mounts)
        case None => Verdict("unknown", None)
        case Some(m) =>
          if m.fstype in SLOW_FILESYSTEMS then Verdict("network:" + m.fstype, Some(true))
          else Verdict("local:" + m.fstype, Some(false))
  }

  // ---------------------------------------------------------------- the longest mount point wins

  predicate IsSorted(mounts: seq<Mount>) {
    forall i, j | 0 <= i < j < |mounts| :: |mounts[i].point| >= |mounts[j].point|
  }

  lemma {:induction false} InsertMembers(m: Mount, sorted: seq<Mount>, x: Mount)
    ensures x in Insert(m, sorted) <==> x == m || x in sorted
  {
    if sorted != [] && |sorted[0].point| > |m.point| {
      InsertMembers(m, sorted[1..], x);
    }
  }

  lemma {:induction false} InsertSorted(m: Mount, sorted: seq<Mount>)
    requires IsSorted(sorted)
    ensures IsSorted(Insert(m, sorted))
  {
    if sorted != [] && |sorted[0].point| > |m.point| {
      var rest := Insert(m, sorted[1..]);
      InsertSorted(m, sorted[1..]);
      forall i | 0 <= i < |rest| ensures |rest[i].point| <= |sorted[0].point| {
        InsertMembers(m, sorted[1..], rest[i]);
        assert rest[i] in rest;
      }
    }
  }

  lemma {:induction false} SortSorted(mounts: seq<Mount>)
    ensures IsSorted(SortByLength(mounts))
  {
    if mounts != [] {
      SortSorted(mounts[1..]);
      InsertSorted(mounts[0], SortByLength(mounts[1..]));
    }
  }

  lemma {:induction false} FindMember(path: string, mounts: seq<Mount>)
    ensures FindMount(path, mounts).Some? ==>
      FindMount(path, mounts).value in mounts && IsUnder(path, FindMount(path, mounts).value.point)
  {
    hide IsUnder;
    if mounts != [] { FindMember(path, mounts[1..]); }
  }

  /** What finding in a sorted list becomes when one mount is inserted. */
  lemma {:induction false} FindInserted(path: string, m: Mount, sorted: seq<Mount>)
    requires IsSorted(sorted)
    ensures var found := FindMount(path, sorted);
      FindMount(path, Insert(m, sorted)) ==
        if IsUnder(path, m.point) && (found.None? || |found.value.point| <= |m.point|) then Some(m) else found
  {
    hide IsUnder;
    var all := Insert(m, sorted);
    if sorted == [] || |sorted[0].point| <= |m.point| {
      assert all[1..] == sorted;
      FindMember(path, sorted);
      if FindMount(path, sorted).Some? {
        var k :| 0 <= k < |sorted| && sorted[k] == FindMount(path, sorted).value;
      }
    } else {
      assert all[0] == sorted[0] && all[1..] == Insert(m, sorted[1..]);
      FindInserted(path, m, sorted[1..]);
    }
  }

  /** Mount i is the one a path belongs to: it is above the path, no mount above the path is longer, and
      none of its length is listed before it. */
  predicate IsBest(path: string, mounts: seq<Mount>, i: nat) {
    && i < |mounts| && IsUnder(path, mounts[i].point)
    && forall j | 0 <= j < |mounts| && IsUnder(path, mounts[j].point) ::
         |mounts[j].point| < |mounts[i].point| || (|mounts[j].point| == |mounts[i].point| && i <= j)
  }

  lemma {:induction false} FindsBest(path: string, mounts: seq<Mount>) returns (i: nat)
    ensures FindMount(path, SortByLength(mounts)).None?
      <==> forall j | 0 <= j < |mounts| :: !IsUnder(path, mounts[j].point)
    ensures FindMount(path, SortByLength(mounts)).Some? ==>
      IsBest(path, mounts, i) && FindMount(path, SortByLength(mounts)) == Some(mounts[i])
  {
    hide IsUnder;
    i := 0;
    if mounts != [] {
      var sorted := SortByLength(mounts[1..]);
      SortSorted(mounts[1..]);
      FindInserted(path, mounts[0], sorted);
      var k := FindsBest(path, mounts[1..]);
      assert forall j | 0 < j < |mounts| :: mounts[1..][j - 1] == mounts[j];
      if FindMount(path, SortByLength(mounts)) == FindMount(path, sorted) && FindMount(path, sorted).Some?
        && !(IsUnder(path, mounts[0].point) && |FindMount(path, sorted).value.point| <= |mounts[0].point|)
      {
        i := k + 1;
      }
    }
  }

  /** The mount found is the best one, and one is found whenever any is above the path. */
  lemma LongestMountWins(path: string, mounts: seq<Mount>, i: nat)
    ensures FindMount(path, SortByLength(mounts)) == None
      <==> forall j | 0 <= j < |mounts| :: !IsUnder(path, mounts[j].point)
    ensures IsBest(path, mounts, i) ==> FindMount(path, SortByLength(mounts)) == Some(mounts[i])
  {
    hide IsUnder, SortByLength;
    var k := FindsBest(path, mounts);
    if IsBest(path, mounts, i) {
      assert IsUnder(path, mounts[i].point);
      assert i == k;
    }
  }

  /** The verdict on a path that is no Windows drive seen from WSL: unknown exactly when no mount is above
      it, and slow exactly when the longest mount above it is of a slow type. */
  lemma SlowExactly(path: string, isWsl: bool, mounts: seq<Mount>, i: nat)
    requires !(isWsl && IsDriveMount(ForwardSlashes(path)))
    ensures var slow := ClassifyPath(path, false, isWsl, SortByLength(mounts)).slow;
      && (slow == None <==> forall j | 0 <= j < |mounts| :: !IsUnder(ForwardSlashes(path), mounts[j].point))
      && (IsBest(ForwardSlashes(path), mounts, i) ==> slow == Some(mounts[i].fstype in SLOW_FILESYSTEMS))
  {
    hide IsUnder, IsDriveMount, SLOW_FILESYSTEMS, IsBest, FindMount, SortByLength;
    LongestMountWins(ForwardSlashes(path), mounts, i);
  }

  // ---------------------------------------------------------------- below means segment by segment

  lemma {:induction false} JoinConcat(sep: string, a: seq<string>, b: seq<string>)
    requires a != [] && b != []
    ensures Join(sep, a + b) == Join(sep, a) + sep + Join(sep, b)
  {
    if |a| == 1 {
      assert (a + b)[1..] == b;
    } else {
      assert (a + b)[1..] == a[1..] + b;
      JoinConcat(sep, a[1..], b);
      assert a[0] + sep + (Join(sep, a[1..]) + sep + Join(sep, b))
        == a[0] + sep + Join(sep, a[1..]) + sep + Join(sep, b);
    }
  }

  /** A path starts with another's segments exactly when it is that path or continues it after a slash. */
  lemma SegmentPrefix(p: string, path: string)
    ensures SplitOn(p, "/") <= SplitOn(path, "/") <==> path == p || StartsWith(path, p + "/")
  {
    hide SplitOn, Join;
    var a, b := SplitOn(p, "/"), SplitOn(path, "/");
    if StartsWith(path, p + "/") {
      var rest := path[|p| + 1..];
      assert path == p + ['/'] + rest by { assert path[..|p| + 1] == p + "/"; }
      SplitOnConcat(p, '/', rest);
    }
    if a <= b {
      JoinSplit(p, '/');
      JoinSplit(path, '/');
      var tail := b[|a|..];
      assert b == a + tail;
      if tail == [] {
        assert a == b;
      } else {
        JoinConcat("/", a, tail);
        assert path == p + "/" + Join("/", tail);
        assert path[0..|p| + 1] == p + "/";
      }
    }
  }

  /** A mount point as tables write it: the root, or no slash at the end. */
  predicate IsMountPoint(point: string) {
    point == "/" || (point != "" && point[|point| - 1] != '/')
  }

  /** A nonempty path is under a mount point exactly when its segments start with the point's. */
  lemma UnderIsSegmentPrefix(path: string, point: string)
    requires path != "" && IsMountPoint(point)
    ensures IsUnder(path, point)
      <==> SplitOn(TrimRight(point, IsSlash), "/") <= SplitOn(path, "/")
  {
    hide SplitOn;
    SegmentPrefix(TrimRight(point, IsSlash), path);
    if point == "/" {
      assert "/"[..0] == "";
      assert TrimRight(point, IsSlash) == "";
      assert path == "/" ==> path[0..1] == "/";
    }
  }

  // ---------------------------------------------------------------- escapes

  /** How the kernel writes a mount point: space, tab, newline and backslash as octal escapes. */
  function Encode(s: string): string {
    if s == "" then ""
    else
      (if s[0] == ' ' then "\\040"
       else if s[0] == '\t' then "\\011"
       else if s[0] == '\n' then "\\012"
       else if s[0] == '\\' then "\\134"
       else [s[0]]) + Encode(s[1..])
  }

  lemma DecodeEscape(a: char, b: char, c: char, rest: string)
    requires '0' <= a <= '7' && '0' <= b <= '7' && '0' <= c <= '7'
    ensures Decode(['\\', a, b, c] + rest) ==
      match Decode(rest)
      case None => None
      case Some(r) => Some([(64 * DigitValue(a) + 8 * DigitValue(b) + DigitValue(c)) as char] + r)
  {
    var s := ['\\', a, b, c] + rest;
    assert s[4..] == rest;
  }

  lemma DecodePlain(c: char, rest: string)
    requires c != '\\'
    ensures Decode([c] + rest) ==
      match Decode(rest) case None => None case Some(r) => Some([c] + r)
  {
    assert ([c] + rest)[1..] == rest;
  }

  /** Decoding undoes the escaping of every mount point. */
  lemma {:induction false} DecodeEncode(s: string)
    ensures Decode(Encode(s)) == Some(s)
  {
    hide Decode;
    if s == "" {
      DecodeEmpty();
    } else {
      DecodeEncode(s[1..]);
      var rest := Encode(s[1..]);
      assert s == [s[0]] + s[1..];
      if s[0] == ' ' {
        DecodeEscape('0', '4', '0', rest);
      } else if s[0] == '\t' {
        DecodeEscape('0', '1', '1', rest);
      } else if s[0] == '\n' {
        DecodeEscape('0', '1', '2', rest);
      } else if s[0] == '\\' {
        DecodeEscape('1', '3', '4', rest);
      } else {
        DecodePlain(s[0], rest);
      }
    }
  }

  lemma DecodeEmpty()
    ensures Decode("") == Some("")
  {
  }

  // ---------------------------------------------------------------- the whole table

  datatype TableLine = TableLine(device: string, mount: Mount, options: string)

  function PrintLine(t: TableLine): string {
    t.device + " " + Encode(t.mount.point) + " " + t.mount.fstype + " " + t.options
  }

  function PrintLines(table: seq<TableLine>): seq<string> {
    if table == [] then [] else [PrintLine(table[0])] + PrintLines(table[1..])
  }

  function MountsOf(table: seq<TableLine>): seq<Mount> {
    if table == [] then [] else [table[0].mount] + MountsOf(table[1..])
  }

  /** A line whose fields hold no whitespace the table does not escape. */
  predicate IsTableLine(t: TableLine) {
    && t.device != "" && NoSpaces(t.device)
    && t.mount.point != "" && NoSpaces(Encode(t.mount.point))
    && t.mount.fstype != "" && NoSpaces(t.mount.fstype)
    && NoBreaks(t.options)
  }

  lemma EncodeNonempty(s: string)
    requires s != ""
    ensures Encode(s) != ""
  {
  }

  lemma WordThenSpace(w: string, rest: string)
    requires w != "" && NoSpaces(w)
    ensures WordLen(w + " " + rest) == |w|
    ensures (w + " " + rest)[..|w|] == w && (w + " " + rest)[|w|..] == " " + rest
  {
    hide WordLen, NoSpaces;
    SpaceSlices(w, rest);
    WordLenOf(w, " " + rest);
  }

  lemma SpaceSlices(w: string, rest: string)
    ensures w + " " + rest == w + (" " + rest)
    ensures (w + " " + rest)[..|w|] == w && (w + " " + rest)[|w|..] == " " + rest
  {
  }

  lemma TrimSpaceWord(w: string, rest: string)
    requires w != "" && NoSpaces(w)
    ensures TrimLeft(" " + (w + rest), IsSpace) == w + rest
  {
    var s := " " + (w + rest);
    assert s[1..] == w + rest && (w + rest)[0] == w[0];
  }

  lemma MountLineReads(t: TableLine)
    requires IsTableLine(t)
    ensures MountLine(PrintLine(t)) == Some(Mount(Encode(t.mount.point), t.mount.fstype))
  {
    hide WordLen, TrimLeft, Encode, NoSpaces;
    EncodeNonempty(t.mount.point);
    var point, fstype := Encode(t.mount.point), t.mount.fstype;
    var afterPoint := fstype + " " + t.options;
    var afterDevice := point + " " + afterPoint;
    assert PrintLine(t) == t.device + " " + afterDevice;
    WordThenSpace(t.device, afterDevice);
    TrimSpaceWord(point, " " + afterPoint);
    assert point + (" " + afterPoint) == afterDevice;
    WordThenSpace(point, afterPoint);
    TrimSpaceWord(fstype, " " + t.options);
    assert fstype + (" " + t.options) == afterPoint;
    WordThenSpace(fstype, t.options);
    StartsWithWord(t.device, " " + afterDevice);
  }

  lemma StartsWithWord(w: string, rest: string)
    requires w != "" && NoSpaces(w)
    ensures w + rest != "" && !IsSpace((w + rest)[0])
  {
    assert (w + rest)[0] == w[0];
  }

  lemma PrintLineBreaks(t: TableLine)
    requires IsTableLine(t)
    ensures NoBreaks(PrintLine(t))
  {
    hide Encode;
    SpaceFree(t.device);
    SpaceFree(Encode(t.mount.point));
    SpaceFree(t.mount.fstype);
  }

  lemma SpaceFree(s: string)
    requires NoSpaces(s)
    ensures NoBreaks(s)
  {
  }

  lemma {:induction false} TableReads(table: seq<TableLine>)
    requires forall i | 0 <= i < |table| :: IsTableLine(table[i])
    ensures AreLines(PrintLines(table)) && MountPairs(PrintLines(table)) == Some(MountsOf(table))
  {
    hide MountLine, PrintLine, Encode, Decode, NoBreaks, NoSpaces;
    if table != [] {
      TableReads(table[1..]);
      MountLineReads(table[0]);
      PrintLineBreaks(table[0]);
      DecodeEncode(table[0].mount.point);
      assert PrintLines(table)[1..] == PrintLines(table[1..]);
    }
  }

  /** Reading a mount table gives its mounts with their real names, longest first, and the mount found for
      a path in it is the longest one above the path, the first listed of equals. */
  lemma MountTableLookup(table: seq<TableLine>, path: string, i: nat)
    requires forall k | 0 <= k < |table| :: IsTableLine(table[k])
    ensures ParseProcMounts(Unlines(PrintLines(table))) == Some(SortByLength(MountsOf(table)))
    ensures IsBest(path, MountsOf(table), i) ==>
      FindMount(path, ParseProcMounts(Unlines(PrintLines(table))).value) == Some(MountsOf(table)[i])
  {
    hide MountPairs, SplitLines, Unlines, IsTableLine, SortByLength, FindMount, IsUnder;
    TableReads(table);
    SplitLinesUnlines(PrintLines(table));
    LongestMountWins(path, MountsOf(table), i);
  }

  // ---------------------------------------------------------------- the output of `mount`

  /** A line `device on point details`, the details being `type fstype (options)` on Linux and
      `(fstype, options)` elsewhere. */
  datatype MountOutput = MountOutput(device: string, point: string, details: string)

  predicate IsMountOutput(o: MountOutput) {
    && o.device != "" && NoSpaces(o.device)
    && o.point != "" && !IsSpace(o.point[0]) && NoBreaks(o.point) && NoBreaks(o.details)
  }

  /** The first word of the mount point, and what follows it on the line. */
  function FirstWord(o: MountOutput): string { o.point[..WordLen(o.point)] }

  function AfterFirstWord(o: MountOutput): string {
    o.point[WordLen(o.point)..] + " " + o.details
  }

  function OutputLine(o: MountOutput): string {
    o.device + " on " + o.point + " " + o.details
  }

  function OutputLines(os: seq<MountOutput>): (r: seq<string>)
    ensures |r| == |os| && forall i | 0 <= i < |r| :: r[i] == OutputLine(os[i])
  {
    seq(|os|, i requires 0 <= i < |os| => OutputLine(os[i]))
  }

  /** The line has the word `on` where the table has the mount point, and the mount point where it has the type. */
  lemma OutputLineIsMisread(o: MountOutput)
    requires IsMountOutput(o)
    ensures MountLine(OutputLine(o)) == Some(Mount("on", FirstWord(o)))
    ensures NoSpaces(o.point) ==> MountLine(OutputLine(o)) == Some(Mount("on", o.point))
    ensures NoBreaks(OutputLine(o))
  {
    hide MountLine, NoSpaces, IsSpace, WordLen;
    var w, after := FirstWord(o), AfterFirstWord(o);
    PointStarts(o);
    assert o.point == w + o.point[|w|..];
    assert IsSpace(' ') && NoSpaces("on") by { OnIsWord(); }
    AfterStarts(o);
    OutputParts(o);
    FieldsRead(o.device, "on", w, after);
    assert o.device + " on " + w + after == o.device + " " + ("on" + " " + (w + after)) by { OnBetween(o.device, w + after); }
    OutputBreaks(o);
  }

  lemma OnIsWord()
    ensures IsSpace(' ') && NoSpaces("on")
  {
  }

  lemma OnBetween(a: string, rest: string)
    ensures a + " on " + rest == a + " " + ("on" + " " + rest)
  {
    assert " on " == " " + "on" + " ";
  }

  lemma AfterStarts(o: MountOutput)
    requires IsMountOutput(o)
    ensures AfterFirstWord(o) != "" && IsSpace(AfterFirstWord(o)[0])
  {
    var n := WordLen(o.point);
    var after := AfterFirstWord(o);
    if n < |o.point| {
      assert after[0] == o.point[n];
    } else {
      assert o.point[n..] == "" && after[0] == ' ';
    }
  }

  lemma PointStarts(o: MountOutput)
    requires IsMountOutput(o)
    ensures FirstWord(o) != "" && NoSpaces(FirstWord(o))
    ensures NoSpaces(o.point) ==> FirstWord(o) == o.point
  {
    assert NoSpaces(o.point) ==> WordLen(o.point) == |o.point|;
    assert NoSpaces(o.point) ==> o.point[..|o.point|] == o.point;
  }

  lemma OutputParts(o: MountOutput)
    ensures OutputLine(o) == o.device + " on " + FirstWord(o) + AfterFirstWord(o)
    ensures AfterFirstWord(o) != ""
  {
    hide WordLen;
    assert o.point == FirstWord(o) + o.point[WordLen(o.point)..];
  }

  /** Three fields, the third followed by whitespace. */
  lemma FieldsRead(a: string, b: string, c: string, rest: string)
    requires a != "" && b != "" && c != "" && NoSpaces(a) && NoSpaces(b) && NoSpaces(c)
    requires rest != "" && IsSpace(rest[0])
    ensures MountLine(a + " " + (b + " " + (c + rest))) == Some(Mount(b, c))
  {
    hide WordLen, TrimLeft, NoSpaces, IsSpace;
    var last := c + rest;
    var middle := b + " " + last;
    assert !IsSpace(c[0]) && !IsSpace(b[0]) by { WordsAreVisible(b, c); }
    SkipField(a, middle);
    SkipField(b, last);
    LastField(c, rest);
  }

  lemma WordsAreVisible(b: string, c: string)
    requires b != "" && c != "" && NoSpaces(b) && NoSpaces(c)
    ensures !IsSpace(b[0]) && !IsSpace(c[0])
  {
  }

  lemma LastField(c: string, rest: string)
    requires c != "" && NoSpaces(c) && rest != "" && IsSpace(rest[0])
    ensures WordLen(c + rest) == |c| && (c + rest)[..|c|] == c
  {
    hide WordLen, NoSpaces, IsSpace;
    WordLenOf(c, rest);
  }

  /** The first field and what is after it. */
  lemma SkipField(w: string, rest: string)
    requires w != "" && NoSpaces(w) && rest != "" && !IsSpace(rest[0])
    ensures var s := w + " " + rest;
      && s != "" && !IsSpace(s[0]) && WordLen(s) == |w| && s[..|w|] == w && TrimLeft(s[|w|..], IsSpace) == rest
  {
    hide WordLen, NoSpaces;
    WordThenSpace(w, rest);
    assert !IsSpace(w[0]) by { WordsAreVisible(w, w); }
    assert (w + " " + rest)[0] == w[0];
    assert (" " + rest)[1..] == rest;
  }

  lemma OutputBreaks(o: MountOutput)
    requires IsMountOutput(o)
    ensures NoBreaks(OutputLine(o))
  {
    SpaceFree(o.device);
  }

  lemma {:induction false} OutputReads(os: seq<MountOutput>)
    requires forall i | 0 <= i < |os| :: IsMountOutput(os[i])
    ensures AreLines(OutputLines(os)) && MountPairs(OutputLines(os)).Some?
    ensures forall i | 0 <= i < |MountPairs(OutputLines(os)).value| :: MountPairs(OutputLines(os)).value[i].point == "on"
  {
    hide MountLine, OutputLine, Decode, NoBreaks, IsMountOutput;
    if os != [] {
      OutputReads(os[1..]);
      OutputLineIsMisread(os[0]);
      assert OutputLines(os)[1..] == OutputLines(os[1..]);
      assert Decode("on") == Some("on") by { DecodeOn(); }
    }
  }

  lemma DecodeOn()
    ensures Decode("on") == Some("on")
  {
    assert Encode("n") == "n" + Encode("") && "on"[1..] == "n" && "n"[1..] == "";
    assert Encode("on") == "o" + Encode("n");
    DecodeEncode("on");
  }

  lemma NotUnderOn(path: string)
    requires path != "" && path[0] == '/'
    ensures !IsUnder(path, "on")
  {
    assert TrimRight("on", IsSlash) == "on";
    assert !StartsWith(path, "on/") by { if |path| >= 3 { assert path[0..3][0] == '/'; } }
  }

  /** From the output of `mount` in that form no absolute path is on any mount. */
  lemma MountOutputFindsNothing(os: seq<MountOutput>, path: string)
    requires forall i | 0 <= i < |os| :: IsMountOutput(os[i])
    requires path != "" && path[0] == '/'
    ensures var mounts := ParseProcMounts(Unlines(OutputLines(os)));
      mounts.Some? && FindMount(path, mounts.value) == None
  {
    hide MountPairs, SplitLines, Unlines, IsMountOutput, SortByLength, FindMount, IsUnder, OutputLine;
    OutputReads(os);
    SplitLinesUnlines(OutputLines(os));
    var pairs := MountPairs(OutputLines(os)).value;
    NotUnderOn(path);
    forall j | 0 <= j < |pairs| ensures !IsUnder(path, pairs[j].point) { assert pairs[j].point == "on"; }
    LongestMountWins(path, pairs, 0);
  }

  // ---------------------------------------------------------------- the other verdicts

  /** On Windows a path is on a network share exactly when it starts with two slashes of one kind. */
  lemma WindowsVerdict(path: string, isWsl: bool, mounts: seq<Mount>)
    ensures var share := |path| >= 2 && ((path[0] == '/' && path[1] == '/') || (path[0] == '\\' && path[1] == '\\'));
      ClassifyPath(path, true, isWsl, mounts) == if share then Verdict("network-share", Some(true)) else Verdict("local", Some(false))
  {
    if |path| >= 2 { assert path[0..2] == [path[0], path[1]]; }
  }

  /** Seen from WSL a path below a drive letter in `/mnt` crosses into Windows, with either kind of slash and
      whatever is mounted; without WSL the mounts decide. */
  lemma DriveVerdict(drive: char, rest: string, mounts: seq<Mount>)
    requires 'a' <= drive <= 'z'
    ensures ClassifyPath("/mnt/" + [drive] + "/" + rest, false, true, mounts) == Verdict("wsl-windows-crossing", Some(true))
    ensures ClassifyPath("\\mnt\\" + [drive] + "\\" + rest, false, true, mounts) == Verdict("wsl-windows-crossing", Some(true))
  {
    var path, turned := "/mnt/" + [drive] + "/" + rest, "\\mnt\\" + [drive] + "\\" + rest;
    assert ForwardSlashes(path)[..5] == "/mnt/" && ForwardSlashes(turned)[..5] == "/mnt/";
    assert ForwardSlashes(path)[5] == drive == ForwardSlashes(turned)[5];
    assert ForwardSlashes(path)[6] == '/' == ForwardSlashes(turned)[6];
  }

  /** A path not below a drive letter in `/mnt` is judged by its mount alone. */
  lemma OtherVerdict(path: string, isWsl: bool, mounts: seq<Mount>, i: nat)
    requires !isWsl || |path| < 7 || ForwardSlashes(path)[..5] != "/mnt/" || ForwardSlashes(path)[6] != '/'
          || !('a' <= ForwardSlashes(path)[5] <= 'z')
    ensures var verdict := ClassifyPath(path, false, isWsl, SortByLength(mounts));
      && ((forall j | 0 <= j < |mounts| :: !IsUnder(ForwardSlashes(path), mounts[j].point)) ==> verdict == Verdict("unknown", None))
      && (IsBest(ForwardSlashes(path), mounts, i) ==>
            verdict == if mounts[i].fstype in SLOW_FILESYSTEMS then Verdict("network:" + mounts[i].fstype, Some(true))
                       else Verdict("local:" + mounts[i].fstype, Some(false)))
  {
    hide IsUnder, SLOW_FILESYSTEMS, IsBest, FindMount, SortByLength;
    LongestMountWins(ForwardSlashes(path), mounts, i);
  }
}
