/**
 * The text handling of the filesystem-unpack job: decimal numbers as Python's
 * int() and str() read and write them, str.replace, str/bytes.splitlines,
 * os.path.basename, os.path.splitext and os.path.join, the kernel's
 * filesystem list, and the progress items rsync prints.
 */
module UnpackfsText {
  import opened Wrappers

  // ---------------------------------------------------------------------------
  // Decimal numbers
  // ---------------------------------------------------------------------------

  predicate IsDigit(c: char) { '0' <= c <= '9' }

  predicate AllDigits(s: string) {
    forall i :: 0 <= i < |s| ==> IsDigit(s[i])
  }

  function DigitChar(d: nat): (c: char)
    requires d < 10
    ensures IsDigit(c) && c as int - '0' as int == d
  {
    ('0' as int + d) as char
  }

  /** str(n) for a non-negative n: its decimal digits, without leading zeros. */
  function Dec(n: nat): (s: string)
    ensures |s| >= 1 && AllDigits(s)
    ensures |s| > 1 ==> s[0] != '0'
    decreases n
  {
    if n < 10 then [DigitChar(n)] else Dec(n / 10) + [DigitChar(n % 10)]
  }

  /** int() of the digits between `i` and `j`. */
  function DecValue(s: string, i: nat, j: nat): nat
    requires i <= j <= |s| && forall k :: i <= k < j ==> IsDigit(s[k])
    decreases j
  {
    if j == i then 0
    else
      assert IsDigit(s[j - 1]);
      DecValue(s, i, j - 1) * 10 + (s[j - 1] as int - '0' as int)
  }

  /** int(w) for a string of decimal digits (leading zeros allowed). */
  function ParseDec(w: string): nat
    requires AllDigits(w)
  {
    DecValue(w, 0, |w|)
  }

  /** The value of the digits between `i` and `j` depends on those digits only. */
  lemma {:induction false} DecValueShift(s: string, i: nat, w: string, k: nat)
    requires i + |w| <= |s| && (forall m :: 0 <= m < |w| ==> s[i + m] == w[m]) && AllDigits(w)
    requires k <= |w|
    ensures forall m :: i <= m < i + k ==> IsDigit(s[m])
    ensures DecValue(s, i, i + k) == DecValue(w, 0, k)
    decreases k
  {
    forall m | i <= m < i + k ensures IsDigit(s[m]) {
      assert s[i + (m - i)] == w[m - i];
    }
    if k > 0 {
      DecValueShift(s, i, w, k - 1);
      assert s[i + (k - 1)] == w[k - 1];
    }
  }

  lemma {:induction false} ParseDecOfDec(n: nat)
    ensures ParseDec(Dec(n)) == n
    decreases n
  {
    if n >= 10 {
      var w := Dec(n);
      var v := Dec(n / 10);
      assert w == v + [DigitChar(n % 10)];
      DecValueShift(w, 0, v, |v|);
      ParseDecOfDec(n / 10);
    }
  }

  /** str(i) for any integer: a minus sign before the digits of a negative number. */
  function IntToString(i: int): (s: string)
    ensures |s| >= 1
    ensures s[0] == '-' <==> i < 0
  {
    if i < 0 then "-" + Dec(-i) else Dec(i)
  }

  /** Different numbers are written differently. */
  lemma IntToStringInjective(a: int, b: int)
    requires IntToString(a) == IntToString(b)
    ensures a == b
  {
    var s := IntToString(a);
    if a < 0 {
      assert b < 0;
      assert s == "-" + Dec(-a) && s == "-" + Dec(-b);
      assert Dec(-a) == s[1..] == Dec(-b);
      ParseDecOfDec(-a);
      ParseDecOfDec(-b);
    } else {
      assert b >= 0;
      assert Dec(a) == s == Dec(b);
      ParseDecOfDec(a);
      ParseDecOfDec(b);
    }
  }

  // ---------------------------------------------------------------------------
  // str.replace(pat, "")
  // ---------------------------------------------------------------------------

  /** `pat` occurs in `s` starting at index `i`. */
  predicate OccursAt(s: string, pat: string, i: int) {
    0 <= i && i + |pat| <= |s| && s[i..i + |pat|] == pat
  }

  predicate Occurs(s: string, pat: string) {
    exists i :: 0 <= i <= |s| && OccursAt(s, pat, i)
  }

  /** s.replace(pat, ""): scans left to right and drops every non-overlapping
      occurrence of `pat`. */
  function Remove(s: string, pat: string): (r: string)
    requires pat != ""
    ensures |r| <= |s|
    decreases |s|
  {
    if |s| < |pat| then s
    else if s[..|pat|] == pat then Remove(s[|pat|..], pat)
    else [s[0]] + Remove(s[1..], pat)
  }

  /** A text without the pattern comes back unchanged. */
  lemma {:induction false} RemoveAbsent(s: string, pat: string)
    requires pat != "" && !Occurs(s, pat)
    ensures Remove(s, pat) == s
    decreases |s|
  {
    if |s| >= |pat| {
      assert !OccursAt(s, pat, 0);
      assert s[0..0 + |pat|] == s[..|pat|];
      forall i | OccursAt(s[1..], pat, i) ensures false {
        assert s[1..][i..i + |pat|] == s[i + 1..i + 1 + |pat|];
        assert OccursAt(s, pat, i + 1);
      }
      RemoveAbsent(s[1..], pat);
      assert s == [s[0]] + s[1..];
    }
  }

  /** Removing a one-character pattern leaves none of that character. */
  lemma {:induction false} RemoveChar(s: string, c: char)
    ensures c !in Remove(s, [c])
    decreases |s|
  {
    if |s| >= 1 {
      RemoveChar(s[1..], c);
    }
  }

  /** The seam between `a` and `b` cannot be inside an occurrence of `pat`. */
  predicate NoSpan(a: string, b: string, pat: string) {
    a == [] || a[|a| - 1] !in pat || (b != [] && b[0] !in pat)
  }

  /** A window of `a + b` that starts in `a` and reaches into `b` holds the
      last character of `a` and the first of `b`. */
  lemma SeamChars(a: string, b: string, pat: string)
    requires 0 < |a| < |pat| <= |a + b| && (a + b)[..|pat|] == pat
    ensures a[|a| - 1] in pat && b[0] in pat
  {
    assert pat[|a| - 1] == a[|a| - 1];
    assert pat[|a|] == b[0];
  }

  /** Removal works piecewise on a concatenation whose seam no occurrence of
      `pat` can span. */
  lemma {:induction false} RemoveConcat(a: string, b: string, pat: string)
    requires pat != "" && NoSpan(a, b, pat)
    ensures Remove(a + b, pat) == Remove(a, pat) + Remove(b, pat)
    decreases |a|
  {
    if a == [] {
      assert a + b == b;
    } else if |a + b| < |pat| {
    } else if |a| < |pat| {
      if (a + b)[..|pat|] == pat {
        SeamChars(a, b, pat);
      }
      RemoveShortHead(a, b, pat);
    } else if a[..|pat|] == pat {
      RemoveMatchedHead(a, b, pat);
    } else {
      RemoveUnmatchedHead(a, b, pat);
    }
  }

  lemma {:induction false} RemoveShortHead(a: string, b: string, pat: string)
    requires pat != "" && NoSpan(a, b, pat)
    requires 0 < |a| < |pat| <= |a + b| && (a + b)[..|pat|] != pat
    ensures Remove(a + b, pat) == Remove(a, pat) + Remove(b, pat)
    decreases |a|, 0
  {
    var t := a[1..];
    assert (a + b)[1..] == t + b;
    assert Remove(a + b, pat) == [a[0]] + Remove(t + b, pat);
    assert NoSpan(t, b, pat);
    RemoveConcat(t, b, pat);
  }

  lemma {:induction false} RemoveMatchedHead(a: string, b: string, pat: string)
    requires pat != "" && NoSpan(a, b, pat)
    requires |a| >= |pat| && a[..|pat|] == pat
    ensures Remove(a + b, pat) == Remove(a, pat) + Remove(b, pat)
    decreases |a|, 0
  {
    assert (a + b)[..|pat|] == a[..|pat|];
    assert (a + b)[|pat|..] == a[|pat|..] + b;
    if |a| == |pat| {
      assert a[|a| - 1] == pat[|pat| - 1];
      assert a[|pat|..] == [] && a[|pat|..] + b == b;
    } else {
      assert a[|pat|..][|a[|pat|..]| - 1] == a[|a| - 1];
      RemoveConcat(a[|pat|..], b, pat);
    }
  }

  lemma {:induction false} RemoveUnmatchedHead(a: string, b: string, pat: string)
    requires pat != "" && NoSpan(a, b, pat)
    requires |a| >= |pat| && a[..|pat|] != pat
    ensures Remove(a + b, pat) == Remove(a, pat) + Remove(b, pat)
    decreases |a|, 0
  {
    assert (a + b)[..|pat|] == a[..|pat|];
    assert (a + b)[1..] == a[1..] + b;
    assert a[1..] == [] || a[1..][|a[1..]| - 1] == a[|a| - 1];
    RemoveConcat(a[1..], b, pat);
  }

  // ---------------------------------------------------------------------------
  // splitlines
  // ---------------------------------------------------------------------------

  /** A line boundary for splitlines: str.splitlines (`universal`) also breaks at
      vertical tab, form feed, the file/group/record separators, NEL and the
      Unicode line and paragraph separators; bytes.splitlines only at CR and LF. */
  predicate LineBreak(c: char, universal: bool) {
    || c == '\n' || c == '\r'
    || (universal && c as int in {0x0B, 0x0C, 0x1C, 0x1D, 0x1E, 0x85, 0x2028, 0x2029})
  }

  predicate NoLineBreak(s: string, universal: bool) {
    forall i :: 0 <= i < |s| ==> !LineBreak(s[i], universal)
  }

  /** The index of the first line boundary in `s`, or |s| when there is none. */
  function FirstBreak(s: string, universal: bool): (k: nat)
    ensures k <= |s| && NoLineBreak(s[..k], universal)
    ensures k < |s| ==> LineBreak(s[k], universal)
    decreases |s|
  {
    if s == [] then 0
    else if LineBreak(s[0], universal) then 0
    else
      var k := FirstBreak(s[1..], universal);
      assert s[..k + 1] == [s[0]] + s[1..][..k];
      k + 1
  }

  /** splitlines(): the lines without their boundaries; CR LF counts as one
      boundary, a final boundary opens no further line, and the empty text
      has no lines. */
  function SplitLines(s: string, universal: bool): (lines: seq<string>)
    ensures forall k :: 0 <= k < |lines| ==> NoLineBreak(lines[k], universal)
    ensures s == [] <==> lines == []
    decreases |s|
  {
    if s == [] then []
    else
      var k := FirstBreak(s, universal);
      if k == |s| then [s]
      else
        var next := if s[k] == '\r' && k + 1 < |s| && s[k + 1] == '\n' then k + 2 else k + 1;
        [s[..k]] + SplitLines(s[next..], universal)
  }

  /** Lines written one after another, each ended by a line feed. */
  function JoinLines(lines: seq<string>): string {
    if lines == [] then [] else lines[0] + "\n" + JoinLines(lines[1..])
  }

  lemma FirstBreakAfter(l: string, t: string, universal: bool)
    requires NoLineBreak(l, universal)
    ensures FirstBreak(l + "\n" + t, universal) == |l|
    decreases |l|
  {
    if l != [] {
      assert (l + "\n" + t)[1..] == l[1..] + "\n" + t;
      FirstBreakAfter(l[1..], t, universal);
    }
  }

  /** splitlines() undoes JoinLines for lines without boundaries. */
  lemma {:induction false} SplitJoinLines(lines: seq<string>, universal: bool)
    requires forall k :: 0 <= k < |lines| ==> NoLineBreak(lines[k], universal)
    ensures SplitLines(JoinLines(lines), universal) == lines
  {
    if lines != [] {
      var l := lines[0];
      var t := JoinLines(lines[1..]);
      var s := l + "\n" + t;
      FirstBreakAfter(l, t, universal);
      assert s[|l|] == '\n' && s[..|l|] == l && s[|l| + 1..] == t;
      SplitJoinLines(lines[1..], universal);
    }
  }

  // ---------------------------------------------------------------------------
  // The kernel's filesystem list
  // ---------------------------------------------------------------------------

  /** get_supported_filesystems_kernel: the text of /proc/filesystems (None when
      it is missing or unreadable) with every "nodev" and then every tab
      removed, cut into lines. */
  function KernelFilesystems(procFilesystems: Option<string>): (names: seq<string>)
    ensures procFilesystems.None? ==> names == []
    ensures forall k :: 0 <= k < |names| ==> '\t' !in names[k]
  {
    match procFilesystems
    case None => []
    case Some(text) =>
      var stripped := Remove(Remove(text, "nodev"), "\t");
      RemoveChar(Remove(text, "nodev"), '\t');
      var names := SplitLines(stripped, true);
      assert forall k :: 0 <= k < |names| ==> '\t' !in names[k] by {
        forall k | 0 <= k < |names| ensures '\t' !in names[k] {
          FromLinesOf(stripped, k);
        }
      }
      names
  }

  /** Every character of a line comes from the text. */
  lemma {:induction false} FromLinesOf(s: string, k: nat)
    requires k < |SplitLines(s, true)|
    ensures forall c :: c in SplitLines(s, true)[k] ==> c in s
    decreases |s|
  {
    var lines := SplitLines(s, true);
    var b := FirstBreak(s, true);
    if b == |s| {
      assert lines[k] == s;
    } else {
      var next := if s[b] == '\r' && b + 1 < |s| && s[b + 1] == '\n' then b + 2 else b + 1;
      var rest := SplitLines(s[next..], true);
      assert lines == [s[..b]] + rest;
      if k == 0 {
        assert forall c :: c in s[..b] ==> c in s;
      } else {
        FromLinesOf(s[next..], k - 1);
        assert lines[k] == rest[k - 1];
        assert forall c :: c in s[next..] ==> c in s;
      }
    }
  }

  /** get_supported_filesystems: "file" first, then the kernel's list. */
  function SupportedFilesystems(procFilesystems: Option<string>): (names: seq<string>)
    ensures |names| >= 1 && names[0] == "file"
    ensures names[1..] == KernelFilesystems(procFilesystems)
  {
    ["file"] + KernelFilesystems(procFilesystems)
  }

  /** One line of /proc/filesystems: the "nodev" flag, a tab, the name. */
  datatype FsEntry = FsEntry(nodev: bool, name: string)

  function ProcLine(e: FsEntry): string {
    (if e.nodev then "nodev" else "") + "\t" + e.name + "\n"
  }

  function ProcText(es: seq<FsEntry>): string {
    if es == [] then [] else ProcLine(es[0]) + ProcText(es[1..])
  }

  function Names(es: seq<FsEntry>): (names: seq<string>)
    ensures |names| == |es| && forall k :: 0 <= k < |es| ==> names[k] == es[k].name
  {
    if es == [] then [] else [es[0].name] + Names(es[1..])
  }

  /** A filesystem name the kernel may list: no tab, no line boundary and no
      "nodev" inside it. */
  predicate PlainFsName(name: string) {
    '\t' !in name && NoLineBreak(name, true) && !Occurs(name, "nodev")
  }

  /** The list text with each "nodev" removed. */
  function WithoutNodev(es: seq<FsEntry>): string {
    if es == [] then [] else "\t" + es[0].name + "\n" + WithoutNodev(es[1..])
  }

  lemma {:induction false} RemoveNodev(es: seq<FsEntry>)
    requires forall k :: 0 <= k < |es| ==> PlainFsName(es[k].name)
    ensures Remove(ProcText(es), "nodev") == WithoutNodev(es)
  {
    if es != [] {
      var name := es[0].name;
      var line := ProcLine(es[0]);
      RemoveConcat(line, ProcText(es[1..]), "nodev");
      RemoveNodev(es[1..]);
      var body := "\t" + name + "\n";
      RemoveConcat("\t", name + "\n", "nodev");
      RemoveConcat(name, "\n", "nodev");
      RemoveAbsent(name, "nodev");
      assert "\t" + (name + "\n") == body;
      if es[0].nodev {
        assert line == "nodev" + body;
        assert line[..5] == "nodev" && line[5..] == body;
      } else {
        assert line == body;
      }
    }
  }

  lemma RemoveTabsOfLine(name: string)
    requires PlainFsName(name)
    ensures Remove("\t" + name + "\n", "\t") == name + "\n"
  {
    RemoveConcat("\t", name + "\n", "\t");
    RemoveConcat(name, "\n", "\t");
    RemoveAbsent(name, "\t");
    assert "\t" + (name + "\n") == "\t" + name + "\n";
  }

  lemma {:induction false} RemoveTabs(es: seq<FsEntry>)
    requires forall k :: 0 <= k < |es| ==> PlainFsName(es[k].name)
    ensures Remove(WithoutNodev(es), "\t") == JoinLines(Names(es))
  {
    if es != [] {
      var name := es[0].name;
      var body := "\t" + name + "\n";
      RemoveConcat(body, WithoutNodev(es[1..]), "\t");
      RemoveTabs(es[1..]);
      RemoveTabsOfLine(name);
      assert Names(es)[1..] == Names(es[1..]);
    }
  }

  /** A well-formed /proc/filesystems text yields exactly the listed names, in
      order, whether or not they carry the "nodev" flag. */
  lemma KernelFilesystemsOfListing(es: seq<FsEntry>)
    requires forall k :: 0 <= k < |es| ==> PlainFsName(es[k].name)
    ensures KernelFilesystems(Some(ProcText(es))) == Names(es)
  {
    RemoveNodev(es);
    RemoveTabs(es);
    SplitJoinLines(Names(es), true);
  }

  // ---------------------------------------------------------------------------
  // Paths
  // ---------------------------------------------------------------------------

  /** os.path.basename: what follows the last slash. */
  function Basename(p: string): (b: string)
    ensures '/' !in b
    ensures |b| <= |p| && p[|p| - |b|..] == b
    ensures |b| < |p| ==> p[|p| - |b| - 1] == '/'
    decreases |p|
  {
    if p == [] then []
    else if p[|p| - 1] == '/' then []
    else
      var b := Basename(p[..|p| - 1]);
      assert p[..|p| - 1][|p| - 1 - |b|..] == b;
      b + [p[|p| - 1]]
  }

  /** A name after a slash is its own basename. */
  lemma {:induction false} BasenameAfterSlash(dir: string, name: string)
    requires '/' !in name
    ensures Basename(dir + "/" + name) == name
    decreases |name|
  {
    if name == [] {
      assert dir + "/" + name == dir + "/";
    } else {
      var p := dir + "/" + name;
      assert p[..|p| - 1] == dir + "/" + name[..|name| - 1];
      BasenameAfterSlash(dir, name[..|name| - 1]);
      assert name == name[..|name| - 1] + [name[|name| - 1]];
    }
  }

  lemma {:induction false} BasenameOfName(name: string)
    requires '/' !in name
    ensures Basename(name) == name
    decreases |name|
  {
    if name != [] {
      BasenameOfName(name[..|name| - 1]);
      assert name == name[..|name| - 1] + [name[|name| - 1]];
    }
  }

  /** The index of the last '.' in `s`, or -1. */
  function LastDot(s: string): (d: int)
    ensures -1 <= d < |s|
    ensures d >= 0 ==> s[d] == '.'
    ensures forall j :: d < j < |s| ==> s[j] != '.'
    decreases |s|
  {
    if s == [] then -1
    else if s[|s| - 1] == '.' then |s| - 1
    else LastDot(s[..|s| - 1])
  }

  /** os.path.splitext on a name without slashes: the extension starts at the
      last dot, unless only dots come before that dot (".bashrc" has none). */
  function ExtensionStart(b: string): (d: nat)
    ensures d <= |b|
  {
    var d := LastDot(b);
    if d >= 0 && exists j :: 0 <= j < d && b[j] != '.' then d else |b|
  }

  function Stem(b: string): string {
    b[..ExtensionStart(b)]
  }

  function Extension(b: string): string {
    b[ExtensionStart(b)..]
  }

  /** Root and extension put back together give the name; the extension is
      empty or one dot followed by no other dot, and a non-empty extension
      leaves a stem with something other than dots in it. */
  lemma SplitExtParts(b: string)
    ensures Stem(b) + Extension(b) == b
    ensures Extension(b) == "" || (Extension(b)[0] == '.' && '.' !in Extension(b)[1..])
    ensures Extension(b) != "" ==> exists j :: 0 <= j < |Stem(b)| && Stem(b)[j] != '.'
  {
    var d := ExtensionStart(b);
    if d < |b| {
      var j :| 0 <= j < d && b[j] != '.';
      assert Stem(b)[j] == b[j];
    }
  }

  /** A name with something other than dots in it, followed by a dot and an
      extension without dots, has that name as its stem. */
  lemma StemOfName(name: string, ext: string)
    requires exists j :: 0 <= j < |name| && name[j] != '.'
    requires '.' !in ext
    ensures Stem(name + "." + ext) == name
    ensures Extension(name + "." + ext) == "." + ext
  {
    var b := name + "." + ext;
    assert b[|name|] == '.';
    assert LastDot(b) == |name| by {
      LastDotOf(name, ext);
    }
    var j :| 0 <= j < |name| && name[j] != '.';
    assert b[j] == name[j];
  }

  lemma {:induction false} LastDotOf(name: string, ext: string)
    requires '.' !in ext
    ensures LastDot(name + "." + ext) == |name|
    decreases |ext|
  {
    var b := name + "." + ext;
    if ext != [] {
      assert b[..|b| - 1] == name + "." + ext[..|ext| - 1];
      assert b[|b| - 1] == ext[|ext| - 1];
      LastDotOf(name, ext[..|ext| - 1]);
    } else {
      assert b[|b| - 1] == '.';
    }
  }

  /** os.path.join of two parts: an absolute second part replaces the first;
      otherwise a slash goes between them unless the first is empty or
      already ends in one. */
  function PathJoin(a: string, b: string): (p: string)
    ensures |b| > 0 && b[0] == '/' ==> p == b
    ensures |p| >= |b| && p[|p| - |b|..] == b
  {
    if |b| > 0 && b[0] == '/' then b
    else if a == [] || a[|a| - 1] == '/' then a + b
    else a + "/" + b
  }

  /** Joining a directory and a plain name, the name is the basename. */
  lemma JoinedBasename(dir: string, name: string)
    requires '/' !in name
    ensures Basename(PathJoin(dir, name)) == name
  {
    if dir == [] {
      BasenameOfName(name);
    } else if dir[|dir| - 1] == '/' {
      var d := dir[..|dir| - 1];
      assert dir + name == d + "/" + name;
      BasenameAfterSlash(d, name);
    } else {
      BasenameAfterSlash(dir, name);
    }
  }

  // ---------------------------------------------------------------------------
  // rsync progress items
  // ---------------------------------------------------------------------------

  /** The counts of one `xfr#N, ..-chk=R/T` item: files still to check and the
      current total. */
  datatype Progress = Progress(remaining: nat, total: nat)

  /** The length of the run of digits that starts at `i`. */
  function DigitRun(s: string, i: nat): (n: nat)
    requires i <= |s|
    ensures i + n <= |s| && forall k :: i <= k < i + n ==> IsDigit(s[k])
    ensures i + n == |s| || !IsDigit(s[i + n])
    decreases |s| - i
  {
    if i == |s| || !IsDigit(s[i]) then 0 else DigitRun(s, i + 1) + 1
  }

  /** The item `xfr#(\d+), ..-chk=(\d+)/(\d+)` matched at index `i`. Each digit
      group is followed by a non-digit in the pattern or ends it, so the
      greedy groups take whole digit runs; `.` takes any character but a
      line feed. */
  function MatchAt(s: string, i: nat): Option<Progress>
    requires i <= |s|
  {
    if i + 4 <= |s| && s[i] == 'x' && s[i + 1] == 'f' && s[i + 2] == 'r' && s[i + 3] == '#'
    then MatchAfterXfr(s, i + 4)
    else None
  }

  /** The transfer number and the `, ..-chk=` that follows it. */
  function MatchAfterXfr(s: string, a: nat): Option<Progress>
    requires a <= |s|
  {
    var b := a + DigitRun(s, a);
    if b > a && b + 9 <= |s| && s[b] == ',' && s[b + 1] == ' ' && s[b + 2] != '\n' && s[b + 3] != '\n'
       && s[b + 4] == '-' && s[b + 5] == 'c' && s[b + 6] == 'h' && s[b + 7] == 'k' && s[b + 8] == '='
    then MatchCounts(s, b + 9)
    else None
  }

  /** The remaining count, the slash and the total. */
  function MatchCounts(s: string, c: nat): Option<Progress>
    requires c <= |s|
  {
    var d := c + DigitRun(s, c);
    if d == c || d == |s| || s[d] != '/' then None
    else
      var e := d + 1 + DigitRun(s, d + 1);
      if e == d + 1 then None else Some(Progress(DecValue(s, c, d), DecValue(s, d + 1, e)))
  }

  /** The leftmost item at or after `i`, as re.findall lists it first. */
  function FirstMatchFrom(s: string, i: nat): (m: Option<Progress>)
    requires i <= |s|
    decreases |s| - i
  {
    if MatchAt(s, i).Some? then MatchAt(s, i)
    else if i == |s| then None
    else FirstMatchFrom(s, i + 1)
  }

  function ParseProgress(line: string): Option<Progress> {
    FirstMatchFrom(line, 0)
  }

  /** `w` is written in `s` at index `i`. */
  predicate HasAt(s: string, i: nat, w: string) {
    i + |w| <= |s| && forall k :: 0 <= k < |w| ==> s[i + k] == w[k]
  }

  /** The digits of `w` sit at `i` and are followed by a non-digit or the end:
      they are the whole run, and its value is int(w). */
  lemma {:induction false} DigitRunOf(s: string, i: nat, w: string)
    requires HasAt(s, i, w) && AllDigits(w)
    requires i + |w| == |s| || !IsDigit(s[i + |w|])
    ensures DigitRun(s, i) == |w|
    decreases |w|
  {
    if w != [] {
      assert s[i] == w[0];
      assert HasAt(s, i + 1, w[1..]) by {
        forall k | 0 <= k < |w| - 1 ensures s[i + 1 + k] == w[1..][k] {
          assert s[i + (k + 1)] == w[k + 1];
        }
      }
      DigitRunOf(s, i + 1, w[1..]);
    }
  }

  /** The digits of `w` written at `i` have the value int(w). */
  lemma DecValueOf(s: string, i: nat, w: string)
    requires HasAt(s, i, w) && AllDigits(w)
    ensures forall k :: i <= k < i + |w| ==> IsDigit(s[k])
    ensures DecValue(s, i, i + |w|) == ParseDec(w)
  {
    DecValueShift(s, i, w, |w|);
  }

  /** No item can start where there is no 'x'. */
  lemma {:induction false} SkipNoX(s: string, i: nat, j: nat)
    requires i <= j <= |s|
    requires forall k :: i <= k < j ==> s[k] != 'x'
    ensures FirstMatchFrom(s, i) == FirstMatchFrom(s, j)
    decreases j - i
  {
    if i < j {
      assert MatchAt(s, i) == None;
      SkipNoX(s, i + 1, j);
    }
  }

  /** An item as rsync writes it: `xfr#`, the transfer number, a comma, a blank,
      the two letters of `ir` or `to`, `-chk=`, the remaining count, a slash
      and the total. */
  function Item(x: string, c1: char, c2: char, r: string, t: string): string {
    "xfr#" + x + ", " + [c1, c2] + "-chk=" + r + "/" + t
  }

  lemma DigitsAt(s: string, i: nat, w: string)
    requires HasAt(s, i, w) && AllDigits(w)
    ensures forall k :: i <= k < i + |w| ==> IsDigit(s[k])
  {
    forall k | i <= k < i + |w| ensures IsDigit(s[k]) {
      assert s[i + (k - i)] == w[k - i];
    }
  }

  /** Two digit runs around a slash are read as the two counts. */
  lemma MatchCountsRuns(s: string, c: nat, k1: nat, k2: nat)
    requires c <= |s| && DigitRun(s, c) == k1 >= 1
    requires c + k1 < |s| && s[c + k1] == '/' && DigitRun(s, c + k1 + 1) == k2 >= 1
    ensures MatchCounts(s, c) == Some(Progress(DecValue(s, c, c + k1), DecValue(s, c + k1 + 1, c + k1 + 1 + k2)))
  {
  }

  /** The counts written from `c` on, followed by a non-digit or the end, are
      read back. */
  lemma MatchCountsOf(s: string, c: nat, r: string, t: string)
    requires AllDigits(r) && AllDigits(t) && r != [] && t != []
    requires HasAt(s, c, r) && c + |r| < |s| && s[c + |r|] == '/' && HasAt(s, c + |r| + 1, t)
    requires c + |r| + 1 + |t| == |s| || !IsDigit(s[c + |r| + 1 + |t|])
    ensures MatchCounts(s, c) == Some(Progress(ParseDec(r), ParseDec(t)))
  {
    var d := c + |r|;
    DigitRunOf(s, c, r);
    DigitRunOf(s, d + 1, t);
    DecValueOf(s, c, r);
    DecValueOf(s, d + 1, t);
    MatchCountsRuns(s, c, |r|, |t|);
  }

  /** Where each piece of an item sits. */
  lemma ItemLayout(x: string, c1: char, c2: char, r: string, t: string)
    ensures var item := Item(x, c1, c2, r, t);
      var b := 4 + |x|;
      var d := b + 9 + |r|;
      && |item| == d + 1 + |t|
      && item[0] == 'x' && item[1] == 'f' && item[2] == 'r' && item[3] == '#'
      && (forall k :: 0 <= k < |x| ==> item[4 + k] == x[k])
      && item[b] == ',' && item[b + 1] == ' ' && item[b + 2] == c1 && item[b + 3] == c2
      && item[b + 4] == '-' && item[b + 5] == 'c' && item[b + 6] == 'h' && item[b + 7] == 'k' && item[b + 8] == '='
      && (forall k :: 0 <= k < |r| ==> item[b + 9 + k] == r[k])
      && item[d] == '/'
      && (forall k :: 0 <= k < |t| ==> item[d + 1 + k] == t[k])
  {
  }

  /** A piece of a text written at `i` is written at its own offset from `i`. */
  lemma PieceAt(s: string, i: nat, w: string, a: nat, v: string)
    requires HasAt(s, i, w) && a + |v| <= |w|
    requires forall k :: 0 <= k < |v| ==> w[a + k] == v[k]
    ensures HasAt(s, i + a, v)
  {
    forall k | 0 <= k < |v| ensures s[i + a + k] == v[k] {
      assert s[i + (a + k)] == w[a + k];
    }
  }

  /** The pieces of an item written from `i` on. */
  predicate PiecesAt(s: string, i: nat, x: string, c1: char, c2: char, r: string, t: string) {
    var b := i + 4 + |x|;
    var d := b + 9 + |r|;
    && i + 4 <= |s| && s[i] == 'x' && s[i + 1] == 'f' && s[i + 2] == 'r' && s[i + 3] == '#'
    && HasAt(s, i + 4, x)
    && b + 9 <= |s| && s[b] == ',' && s[b + 1] == ' ' && s[b + 2] == c1 && s[b + 3] == c2
    && s[b + 4] == '-' && s[b + 5] == 'c' && s[b + 6] == 'h' && s[b + 7] == 'k' && s[b + 8] == '='
    && HasAt(s, b + 9, r) && d < |s| && s[d] == '/' && HasAt(s, d + 1, t)
  }

  lemma ItemPieces(s: string, i: nat, x: string, c1: char, c2: char, r: string, t: string)
    requires HasAt(s, i, Item(x, c1, c2, r, t))
    ensures PiecesAt(s, i, x, c1, c2, r, t)
    ensures i + |Item(x, c1, c2, r, t)| == i + 4 + |x| + 9 + |r| + 1 + |t|
  {
    var item := Item(x, c1, c2, r, t);
    var b := 4 + |x|;
    var d := b + 9 + |r|;
    ItemLayout(x, c1, c2, r, t);
    PieceAt(s, i, item, 4, x);
    PieceAt(s, i, item, b + 9, r);
    PieceAt(s, i, item, d + 1, t);
    assert s[i + 0] == item[0] && s[i + 1] == item[1] && s[i + 2] == item[2] && s[i + 3] == item[3];
    assert s[i + b] == item[b] && s[i + b + 1] == item[b + 1] && s[i + b + 2] == item[b + 2];
    assert s[i + b + 3] == item[b + 3] && s[i + b + 4] == item[b + 4] && s[i + b + 5] == item[b + 5];
    assert s[i + b + 6] == item[b + 6] && s[i + b + 7] == item[b + 7] && s[i + b + 8] == item[b + 8];
    assert s[i + d] == item[d];
  }

  /** An item written at `i`, followed by a non-digit or the end, is matched
      there with its counts. */
  lemma MatchAtPieces(s: string, i: nat, x: string, c1: char, c2: char, r: string, t: string)
    requires AllDigits(x) && AllDigits(r) && AllDigits(t) && x != [] && r != [] && t != []
    requires c1 != '\n' && c2 != '\n'
    requires PiecesAt(s, i, x, c1, c2, r, t)
    requires var e := i + 4 + |x| + 9 + |r| + 1 + |t|; e == |s| || !IsDigit(s[e])
    ensures MatchAt(s, i) == Some(Progress(ParseDec(r), ParseDec(t)))
  {
    var b := i + 4 + |x|;
    DigitRunOf(s, i + 4, x);
    assert MatchAfterXfr(s, i + 4) == MatchCounts(s, b + 9);
    MatchCountsOf(s, b + 9, r, t);
  }

  /** The first item of a line is read back, whatever text without an 'x'
      precedes it and whatever text not starting with a digit follows it. */
  lemma ParseItemLine(prefix: string, x: string, c1: char, c2: char, r: string, t: string, suffix: string)
    requires AllDigits(x) && AllDigits(r) && AllDigits(t) && x != [] && r != [] && t != []
    requires 'x' !in prefix && c1 != '\n' && c2 != '\n'
    requires suffix == [] || !IsDigit(suffix[0])
    ensures ParseProgress(prefix + Item(x, c1, c2, r, t) + suffix) == Some(Progress(ParseDec(r), ParseDec(t)))
  {
    var item := Item(x, c1, c2, r, t);
    var s := prefix + item + suffix;
    var i := |prefix|;
    assert forall k :: 0 <= k < i ==> s[k] == prefix[k];
    SkipNoX(s, 0, i);
    assert HasAt(s, i, item);
    assert i + |item| == |s| || s[i + |item|] == suffix[0];
    ItemPieces(s, i, x, c1, c2, r, t);
    MatchAtPieces(s, i, x, c1, c2, r, t);
  }

  /** The item as rsync writes it, read back: the counts in the first item of a
      line come out as written. */
  lemma ParseProgressLine(prefix: string, xfr: nat, c1: char, c2: char, remaining: nat, total: nat, suffix: string)
    requires 'x' !in prefix
    requires c1 != '\n' && c2 != '\n'
    requires suffix == [] || !IsDigit(suffix[0])
    ensures ParseProgress(prefix + Item(Dec(xfr), c1, c2, Dec(remaining), Dec(total)) + suffix)
         == Some(Progress(remaining, total))
  {
    ParseItemLine(prefix, Dec(xfr), c1, c2, Dec(remaining), Dec(total), suffix);
    ParseDecOfDec(remaining);
    ParseDecOfDec(total);
  }
}
