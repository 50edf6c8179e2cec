/**
 * The filesystem-unpack job: it validates the `unpack` list of its
 * configuration against the host, then copies every source image into the
 * target system with rsync, following rsync's progress output.
 *
 * Everything the job learns from the host (path tests, the kernel's
 * filesystem list, the outcome of mount, of the listing commands and of
 * rsync) is a field of `Host`.
 */
module Unpackfs {
  import opened Wrappers
  import opened UnpackfsText

  // ---------------------------------------------------------------------------
  // The rsync command line
  // ---------------------------------------------------------------------------

  /** One entry of the `extraMounts` list in global storage. */
  datatype ExtraMount = ExtraMount(mountPoint: string)

  /** `--exclude p` for each path, in order. */
  function ExcludeArgs(paths: seq<string>): (args: seq<string>)
    ensures |args| == 2 * |paths|
    ensures forall k :: 0 <= k < |paths| ==> args[2 * k] == "--exclude" && args[2 * k + 1] == paths[k]
  {
    if paths == [] then []
    else
      var rest := ExcludeArgs(paths[1..]);
      var args := ["--exclude", paths[0]] + rest;
      forall k | 1 <= k < |paths|
        ensures args[2 * k] == "--exclude" && args[2 * k + 1] == paths[k]
      {
        var j := k - 1;
        assert 2 * k == 2 * j + 2;
        assert args[2 * j + 2] == rest[2 * j] && args[2 * j + 3] == rest[2 * j + 1];
        assert paths[k] == paths[1..][j];
      }
      args
  }

  /** The non-empty mount points, each with a trailing slash, in order. */
  function MountPointPaths(mounts: seq<ExtraMount>): (paths: seq<string>)
    ensures |paths| <= |mounts|
    ensures forall k :: 0 <= k < |paths| ==> |paths[k]| >= 2 && paths[k][|paths[k]| - 1] == '/'
    ensures forall j :: 0 <= j < |mounts| && mounts[j].mountPoint != "" ==> mounts[j].mountPoint + "/" in paths
    ensures forall p :: p in paths ==> exists j :: 0 <= j < |mounts| && mounts[j].mountPoint != "" && p == mounts[j].mountPoint + "/"
    ensures |mounts| == 1 ==> paths == if mounts[0].mountPoint != "" then [mounts[0].mountPoint + "/"] else []
  {
    if mounts == [] then []
    else
      var rest := MountPointPaths(mounts[1..]);
      assert forall j :: 1 <= j < |mounts| ==> mounts[j] == mounts[1..][j - 1];
      if mounts[0].mountPoint != "" then [mounts[0].mountPoint + "/"] + rest else rest
  }

  /** The list is built by walking the mounts in order and extending it, so
      the paths of a concatenation are the paths of each part, in order and
      with their repetitions. */
  lemma {:induction false} MountPointPathsConcat(a: seq<ExtraMount>, b: seq<ExtraMount>)
    ensures MountPointPaths(a + b) == MountPointPaths(a) + MountPointPaths(b)
    decreases |a|
  {
    if a != [] {
      assert (a + b)[0] == a[0] && (a + b)[1..] == a[1..] + b;
      MountPointPathsConcat(a[1..], b);
      if a[0].mountPoint != "" {
        calc {
          MountPointPaths(a + b);
          [a[0].mountPoint + "/"] + MountPointPaths(a[1..] + b);
          [a[0].mountPoint + "/"] + (MountPointPaths(a[1..]) + MountPointPaths(b));
          ([a[0].mountPoint + "/"] + MountPointPaths(a[1..])) + MountPointPaths(b);
        }
      }
    } else {
      assert a + b == b;
    }
  }

  /** `--exclude` arguments of a concatenation of paths are those of each
      part, in order. */
  lemma {:induction false} ExcludeArgsConcat(a: seq<string>, b: seq<string>)
    ensures ExcludeArgs(a + b) == ExcludeArgs(a) + ExcludeArgs(b)
    decreases |a|
  {
    if a != [] {
      assert (a + b)[0] == a[0] && (a + b)[1..] == a[1..] + b;
      ExcludeArgsConcat(a[1..], b);
      calc {
        ExcludeArgs(a + b);
        ["--exclude", a[0]] + ExcludeArgs(a[1..] + b);
        ["--exclude", a[0]] + (ExcludeArgs(a[1..]) + ExcludeArgs(b));
        (["--exclude", a[0]] + ExcludeArgs(a[1..])) + ExcludeArgs(b);
      }
    } else {
      assert a + b == b;
    }
  }

  /** global_excludes: an exclusion for every extra mount with a mount point;
      none when global storage has no `extraMounts`. */
  function GlobalExcludes(extraMounts: Option<seq<ExtraMount>>): (args: seq<string>)
    ensures extraMounts.None? ==> args == []
    ensures extraMounts.Some? ==> args == ExcludeArgs(MountPointPaths(extraMounts.value))
  {
    match extraMounts
    case None => []
    case Some(mounts) => ExcludeArgs(MountPointPaths(mounts))
  }

  /** rsync copies the contents of a directory only when its name ends in a
      slash, so a source that is not a file gets one unless it has it. */
  function RsyncSource(source: string, sourceIsFile: bool): (r: string)
    ensures r == source || r == source + "/"
    ensures r == source <==> (|source| > 0 && source[|source| - 1] == '/') || sourceIsFile
    ensures sourceIsFile || r[|r| - 1] == '/'
  {
    if !(|source| > 0 && source[|source| - 1] == '/') && !sourceIsFile then source + "/" else source
  }

  /** Adding the slash once is enough: for the same file test, a source that
      went through the rule comes out of it unchanged. */
  lemma RsyncSourceIdempotent(source: string, sourceIsFile: bool)
    ensures RsyncSource(RsyncSource(source, sourceIsFile), sourceIsFile) == RsyncSource(source, sourceIsFile)
  {
  }

  /** The option that reads exclusions from a file, when one is named. */
  function ExcludeFromArgs(excludeFile: string): (args: seq<string>)
    ensures excludeFile == "" <==> args == []
    ensures excludeFile != "" ==> args == ["--exclude-from=" + excludeFile]
  {
    if excludeFile != "" then ["--exclude-from=" + excludeFile] else []
  }

  /** The rsync command line of file_copy. */
  function RsyncArgs(globalExcludes: seq<string>, excludeFile: string, exclude: seq<string>, source: string, dest: string): (args: seq<string>)
    ensures var g := |globalExcludes|;
      var f := |ExcludeFromArgs(excludeFile)|;
      && |args| == 2 + g + f + 2 * |exclude| + 3
      && args[..2] == ["rsync", "-aHAXr"]
      && args[2..2 + g] == globalExcludes
      && args[2 + g..2 + g + f] == ExcludeFromArgs(excludeFile)
      && args[2 + g + f..|args| - 3] == ExcludeArgs(exclude)
      && args[|args| - 3..] == ["--progress", source, dest]
  {
    var fixed := ["rsync", "-aHAXr"];
    var f := ExcludeFromArgs(excludeFile);
    var e := ExcludeArgs(exclude);
    var tail := ["--progress", source, dest];
    var args := fixed + globalExcludes + f + e + tail;
    assert args[..2] == fixed;
    assert args[2..2 + |globalExcludes|] == globalExcludes;
    assert args[2 + |globalExcludes|..2 + |globalExcludes| + |f|] == f;
    assert args[2 + |globalExcludes| + |f|..|args| - 3] == e;
    assert args[|args| - 3..] == tail;
    args
  }

  /** The last two arguments are the source and the destination, and every
      user exclusion is passed to rsync. */
  lemma RsyncArgsOperands(globalExcludes: seq<string>, excludeFile: string, exclude: seq<string>, source: string, dest: string)
    ensures var args := RsyncArgs(globalExcludes, excludeFile, exclude, source, dest);
      && args[|args| - 2] == source && args[|args| - 1] == dest
      && (forall p :: p in exclude ==> p in args)
  {
    var args := RsyncArgs(globalExcludes, excludeFile, exclude, source, dest);
    var g := |globalExcludes|;
    var f := |ExcludeFromArgs(excludeFile)|;
    var e := ExcludeArgs(exclude);
    assert args[|args| - 3..][1] == source && args[|args| - 3..][2] == dest;
    forall p | p in exclude ensures p in args {
      var k :| 0 <= k < |exclude| && exclude[k] == p;
      assert e[2 * k + 1] == p;
      assert args[2 + g + f..|args| - 3][2 * k + 1] == p;
    }
  }

  /** file_copy's verdict on rsync's exit status: 0 and 23 (extended
      attributes the target cannot hold) are success, anything else is an
      error naming the status. */
  function RsyncError(returnCode: int): (error: Option<string>)
    ensures error.None? <==> returnCode == 0 || returnCode == 23
    ensures error.Some? ==> error.value == "rsync failed with error code " + IntToString(returnCode) + "."
  {
    if returnCode != 0 && returnCode != 23 then Some("rsync failed with error code " + IntToString(returnCode) + ".")
    else None
  }

  /** Different failing statuses give different messages. */
  lemma RsyncErrorNamesCode(a: int, b: int)
    requires RsyncError(a).Some? && RsyncError(a) == RsyncError(b)
    ensures a == b
  {
    var prefix := "rsync failed with error code ";
    var ma := RsyncError(a).value;
    assert ma == prefix + IntToString(a) + "." == prefix + IntToString(b) + ".";
    assert IntToString(a) == ma[|prefix|..|ma| - 1] == IntToString(b);
    IntToStringInjective(a, b);
  }

  // ---------------------------------------------------------------------------
  // Following rsync's progress output
  // ---------------------------------------------------------------------------

  /** One call of the progress callback: files copied so far, and the total. */
  datatype Report = Report(copied: int, total: int)

  /** The progress item of each line of output, as file_copy's regular
      expression finds it. */
  function ParsedLines(lines: seq<string>): (items: seq<Option<Progress>>)
    ensures |items| == |lines|
    ensures forall k :: 0 <= k < |lines| ==> items[k] == ParseProgress(lines[k])
  {
    seq(|lines|, k requires 0 <= k < |lines| => ParseProgress(lines[k]))
  }

  lemma ParsedLinesStep(lines: seq<string>, i: nat)
    requires i < |lines|
    ensures ParsedLines(lines[..i + 1]) == ParsedLines(lines[..i]) + [ParseProgress(lines[i])]
  {
  }

  /** file_copy's loop variables after some lines of output: the last copied
      count and total read, the count last reported, and the calls made. */
  datatype Scan = Scan(copied: int, total: int, lastReported: int, reports: seq<Report>)

  /** One line of rsync's output: a line with a progress item updates the
      counts, and is reported once 100 files have been copied since the last
      report. */
  function ScanItem(st: Scan, item: Option<Progress>): Scan {
    match item
    case None => st
    case Some(p) =>
      var copied := p.total - p.remaining;
      if copied - st.lastReported >= 100 then Scan(copied, p.total, copied, st.reports + [Report(copied, p.total)])
      else Scan(copied, p.total, st.lastReported, st.reports)
  }

  function ScanItems(items: seq<Option<Progress>>): Scan {
    if items == [] then Scan(0, 0, 0, [])
    else ScanItem(ScanItems(items[..|items| - 1]), items[|items| - 1])
  }

  lemma ScanItemsStep(items: seq<Option<Progress>>, item: Option<Progress>)
    ensures ScanItems(items + [item]) == ScanItem(ScanItems(items), item)
  {
    assert (items + [item])[..|items|] == items;
  }

  /** Every callback file_copy makes: the throttled ones, then the final push. */
  function ProgressReports(items: seq<Option<Progress>>): seq<Report> {
    var st := ScanItems(items);
    st.reports + [Report(st.copied, st.total)]
  }

  /** Where the last progress item of the output is, or -1 when there is none. */
  function LastItemIndex(items: seq<Option<Progress>>): (k: int)
    ensures -1 <= k < |items|
    ensures k >= 0 ==> items[k].Some?
    ensures forall j :: k < j < |items| ==> items[j].None?
  {
    if items == [] then -1
    else if items[|items| - 1].Some? then |items| - 1
    else LastItemIndex(items[..|items| - 1])
  }

  /** The last progress item of the output. */
  function LastProgress(items: seq<Option<Progress>>): (p: Option<Progress>)
    ensures p.None? <==> forall k :: 0 <= k < |items| ==> items[k].None?
    ensures p.Some? ==> p == items[LastItemIndex(items)]
  {
    var k := LastItemIndex(items);
    if k < 0 then None else items[k]
  }

  /** The callbacks are throttled: each one reports at least 100 more copied
      files than the one before it (than none, for the first). */
  lemma {:induction false} ReportsThrottled(items: seq<Option<Progress>>)
    ensures var r := ScanItems(items).reports;
      && (|r| > 0 ==> r[0].copied >= 100)
      && (forall k :: 0 < k < |r| ==> r[k].copied - r[k - 1].copied >= 100)
      && ScanItems(items).lastReported == (if r == [] then 0 else r[|r| - 1].copied)
  {
    if items != [] {
      ReportsThrottled(items[..|items| - 1]);
    }
  }

  /** The final callback carries the counts of the last progress item, or
      zeros when rsync printed none. */
  lemma {:induction false} FinalReport(items: seq<Option<Progress>>)
    ensures var r := ProgressReports(items);
      r[|r| - 1] == match LastProgress(items)
        case None => Report(0, 0)
        case Some(p) => Report(p.total - p.remaining, p.total)
  {
    if items != [] {
      FinalReport(items[..|items| - 1]);
    }
  }

  /** progress_cb only ever raises an entry's total. */
  function RaisedTotal(current: int, reported: int): (t: int)
    ensures t >= current && t >= reported
    ensures t == current || t == reported
  {
    if reported > current then reported else current
  }

  /** An entry's total after a series of callbacks. */
  function RaisedTotals(current: int, reports: seq<Report>): (t: int)
    ensures t >= current && forall k :: 0 <= k < |reports| ==> t >= reports[k].total
    ensures t == current || exists k :: 0 <= k < |reports| && t == reports[k].total
  {
    if reports == [] then current
    else
      var init := reports[..|reports| - 1];
      assert forall k :: 0 <= k < |init| ==> init[k] == reports[k];
      RaisedTotal(RaisedTotals(current, init), reports[|reports| - 1].total)
  }

  // ---------------------------------------------------------------------------
  // The host
  // ---------------------------------------------------------------------------

  /** A mount call: device, mount point, filesystem type and options. */
  datatype MountRequest = MountRequest(device: string, mountPoint: string, fsType: string, options: string)

  /** What rsync printed, line by line, and its exit status. */
  datatype RsyncRun = RsyncRun(output: seq<string>, returnCode: int)

  /** What the job observes of the system it runs on. */
  datatype Host = Host(
    pathExists: string -> bool,
    isDir: string -> bool,
    isFile: string -> bool,
    abspath: string -> string,
    procFilesystems: Option<string>,    // None when /proc/filesystems cannot be read
    extraMounts: Option<seq<ExtraMount>>,
    tempDir: string,                    // the directory mkdtemp creates
    unsquashfsFound: bool,
    mount: MountRequest -> int,         // mount's exit status
    commandOutput: seq<string> -> string,
    rsync: seq<string> -> RsyncRun)

  /** The rsync command line that copies `source` for an entry. */
  function CopyArgs(source: string, destination: string, exclude: seq<string>, excludeFile: string, host: Host): seq<string> {
    RsyncArgs(GlobalExcludes(host.extraMounts), excludeFile, exclude, RsyncSource(source, host.isFile(source)), destination)
  }

  // ---------------------------------------------------------------------------
  // Entries
  // ---------------------------------------------------------------------------

  /** One image to unpack; `copied` and `total` are filled in while copying.
      An empty `exclude` or `excludeFile` stands for "none". */
  class UnpackEntry {
    const source: string
    const sourcefs: string
    const destination: string
    const exclude: seq<string>
    const excludeFile: string
    var copied: int
    var total: int

    constructor (source: string, sourcefs: string, destination: string, exclude: seq<string>, excludeFile: string)
      ensures this.source == source && this.sourcefs == sourcefs && this.destination == destination
      ensures this.exclude == exclude && this.excludeFile == excludeFile && copied == 0 && total == 0
    {
      this.source := source;
      this.sourcefs := sourcefs;
      this.destination := destination;
      this.exclude := exclude;
      this.excludeFile := excludeFile;
      copied := 0;
      total := 0;
    }

    /** A "file" entry is copied directly instead of being mounted. */
    predicate IsFile() {
      sourcefs == "file"
    }

    /** unpack_image's progress callback: record the copied count and raise
        the total. */
    method ProgressCallback(copied: int, total: int)
      modifies this`copied, this`total
      ensures this.copied == copied && this.total == RaisedTotal(old(this.total), total)
    {
      this.copied := copied;
      if total > this.total {
        this.total := total;
      }
    }
  }

  /** file_copy's read loop: follows rsync's output line by line, reporting
      progress every 100 files, then pushes the final counts. */
  method FollowOutput(lines: seq<string>, entry: UnpackEntry)
    modifies entry`copied, entry`total
    ensures var reports := ProgressReports(ParsedLines(lines));
      && entry.copied == reports[|reports| - 1].copied
      && entry.total == RaisedTotals(old(entry.total), reports)
  {
    var numFilesTotalLocal: int := 0;
    var numFilesCopied: int := 0;
    var lastNumFilesCopied: int := 0;
    ghost var reports: seq<Report> := [];
    ghost var items: seq<Option<Progress>> := [];
    var i := 0;
    while i < |lines|
      invariant 0 <= i <= |lines|
      invariant items == ParsedLines(lines[..i])
      invariant ScanItems(items) == Scan(numFilesCopied, numFilesTotalLocal, lastNumFilesCopied, reports)
      invariant entry.total == RaisedTotals(old(entry.total), reports)
    {
      var m := ParseProgress(lines[i]);
      ParsedLinesStep(lines, i);
      ScanItemsStep(items, m);
      items := items + [m];
      if m.Some? {
        var numFilesRemaining := m.value.remaining;
        numFilesTotalLocal := m.value.total;
        numFilesCopied := numFilesTotalLocal - numFilesRemaining;
        if numFilesCopied - lastNumFilesCopied >= 100 {
          lastNumFilesCopied := numFilesCopied;
          entry.ProgressCallback(numFilesCopied, numFilesTotalLocal);
          ghost var before := reports;
          reports := reports + [Report(numFilesCopied, numFilesTotalLocal)];
          assert reports[..|reports| - 1] == before;
        }
      }
      i := i + 1;
    }
    assert lines[..i] == lines;
    entry.ProgressCallback(numFilesCopied, numFilesTotalLocal);
    ghost var all := reports + [Report(numFilesCopied, numFilesTotalLocal)];
    assert all[..|all| - 1] == reports;
  }

  /** file_copy: runs rsync on the entry, follows its output, and turns its
      exit status into an error message. */
  method FileCopy(source: string, entry: UnpackEntry, host: Host) returns (error: Option<string>)
    modifies entry`copied, entry`total
    ensures var run := host.rsync(CopyArgs(source, entry.destination, entry.exclude, entry.excludeFile, host));
      var reports := ProgressReports(ParsedLines(run.output));
      && error == RsyncError(run.returnCode)
      && entry.copied == reports[|reports| - 1].copied
      && entry.total == RaisedTotals(old(entry.total), reports)
  {
    var run := host.rsync(CopyArgs(source, entry.destination, entry.exclude, entry.excludeFile, host));
    FollowOutput(run.output, entry);
    if run.returnCode != 0 && run.returnCode != 23 {
      return Some("rsync failed with error code " + IntToString(run.returnCode) + ".");
    }
    return None;
  }

  /** unpack_image: a "file" entry is copied from its source, any other from
      the directory its image is mounted on. */
  method UnpackImage(entry: UnpackEntry, imgMountDir: string, host: Host) returns (error: Option<string>)
    modifies entry`copied, entry`total
    ensures var source := CopySource(entry.source, entry.sourcefs, imgMountDir);
      error == RsyncError(host.rsync(CopyArgs(source, entry.destination, entry.exclude, entry.excludeFile, host)).returnCode)
    ensures entry.total >= old(entry.total)
  {
    var source;
    if entry.IsFile() {
      source := entry.source;
    } else {
      source := imgMountDir;
    }
    error := FileCopy(source, entry, host);
  }

  /** What rsync copies for an entry. */
  function CopySource(source: string, sourcefs: string, imgMountDir: string): (r: string)
    ensures sourcefs == "file" ==> r == source
    ensures sourcefs != "file" ==> r == imgMountDir
  {
    if sourcefs == "file" then source else imgMountDir
  }

  // ---------------------------------------------------------------------------
  // Mounting and listing an image
  // ---------------------------------------------------------------------------

  /** Where an image is mounted: a directory named after the image file
      without its extension, inside the temporary directory. */
  function MountDir(tempDir: string, source: string): string {
    PathJoin(tempDir, Stem(Basename(source)))
  }

  /** The mount directory is named after the image's base name, stripped of
      its extension. */
  lemma MountDirName(tempDir: string, source: string)
    ensures Basename(MountDir(tempDir, source)) == Stem(Basename(source))
  {
    var b := Basename(source);
    SplitExtParts(b);
    assert Stem(b) <= b;
    assert '/' !in Stem(b) by {
      forall j | 0 <= j < |Stem(b)| ensures Stem(b)[j] != '/' {
        assert Stem(b)[j] == b[j];
      }
    }
    JoinedBasename(tempDir, Stem(b));
  }

  /** mount_image: "file" entries are not mounted; a directory is
      bind-mounted, an image file loop-mounted, and anything else (a device)
      mounted with the entry's filesystem type. */
  function MountFor(source: string, sourcefs: string, imgMountDir: string, host: Host): (req: Option<MountRequest>)
    ensures req.None? <==> sourcefs == "file"
    ensures req.Some? ==> req.value.device == source && req.value.mountPoint == imgMountDir
    ensures req.Some? ==> (req.value.options == "--bind" <==> host.isDir(source))
    ensures req.Some? && host.isDir(source) ==> req.value.fsType == ""
    ensures req.Some? && !host.isDir(source) ==>
      req.value.fsType == sourcefs && (req.value.options == "loop" <==> host.isFile(source))
  {
    if sourcefs == "file" then None
    else if host.isDir(source) then Some(MountRequest(source, imgMountDir, "", "--bind"))
    else if host.isFile(source) then Some(MountRequest(source, imgMountDir, sourcefs, "loop"))
    else Some(MountRequest(source, imgMountDir, sourcefs, ""))
  }

  /** The command whose output lists the files of an image: unsquashfs for a
      squashfs image, find over the mounted ext4 image or over a "file"
      source; none (the empty command) for any other filesystem. */
  function ListingCommand(source: string, sourcefs: string, imgMountDir: string): (cmd: seq<string>)
    ensures cmd == [] <==> sourcefs !in {"squashfs", "ext4", "file"}
    ensures cmd != [] ==> |cmd| >= 3
    ensures sourcefs == "squashfs" ==> cmd == ["unsquashfs", "-l", source]
    ensures sourcefs == "ext4" ==> cmd[1] == imgMountDir && cmd[0] == "find"
    ensures sourcefs == "file" ==> cmd[1] == source && cmd[0] == "find"
  {
    if sourcefs == "squashfs" then ["unsquashfs", "-l", source]
    else if sourcefs == "ext4" then ["find", imgMountDir, "-type", "f"]
    else if sourcefs == "file" then ["find", source, "-type", "f"]
    else []
  }

  /** The total an entry starts copying with: the number of lines the
      listing printed, or zero without a listing. */
  function ListedFiles(source: string, sourcefs: string, imgMountDir: string, host: Host): (n: nat)
    ensures ListingCommand(source, sourcefs, imgMountDir) == [] ==> n == 0
    ensures ListingCommand(source, sourcefs, imgMountDir) != [] ==>
      n == |SplitLines(host.commandOutput(ListingCommand(source, sourcefs, imgMountDir)), false)|
  {
    var cmd := ListingCommand(source, sourcefs, imgMountDir);
    if cmd == [] then 0 else |SplitLines(host.commandOutput(cmd), false)|
  }

  // ---------------------------------------------------------------------------
  // Unpacking
  // ---------------------------------------------------------------------------

  /** How the job, or one of its steps, ends: without a result, with an
      error message and its details, or with a command that raised. */
  datatype Outcome = Success | Failure(message: string, details: string) | Raised(command: string, code: int)

  /** What configures the copy of one entry. */
  datatype EntryConfig = EntryConfig(source: string, sourcefs: string, destination: string, exclude: seq<string>, excludeFile: string)

  function ConfigOf(e: UnpackEntry): EntryConfig {
    EntryConfig(e.source, e.sourcefs, e.destination, e.exclude, e.excludeFile)
  }

  function Configs(es: seq<UnpackEntry>): (cs: seq<EntryConfig>)
    ensures |cs| == |es|
    ensures forall k :: 0 <= k < |es| ==> cs[k] == ConfigOf(es[k])
  {
    if es == [] then []
    else
      var rest := Configs(es[1..]);
      assert forall k :: 1 <= k < |es| ==> es[k] == es[1..][k - 1];
      [ConfigOf(es[0])] + rest
  }

  function UnpackFailure(source: string, details: string): Outcome {
    Failure("Failed to unpack image \"" + source + "\"", details)
  }

  /** The end of one iteration of UnpackOperation.run: the mount raises, a
      squashfs image without unsquashfs fails, an rsync error fails, and
      anything else goes on to the next entry. */
  function EntryOutcome(e: EntryConfig, host: Host): (o: Outcome)
    ensures o.Raised? ==> e.sourcefs != "file" && o.command == "mount" && o.code != 0
    ensures o.Failure? ==> o.message == "Failed to unpack image \"" + e.source + "\""
    ensures e.sourcefs == "squashfs" && !host.unsquashfsFound ==> o != Success
    ensures o == Success ==>
      var dir := MountDir(host.tempDir, e.source);
      var run := host.rsync(CopyArgs(CopySource(e.source, e.sourcefs, dir), e.destination, e.exclude, e.excludeFile, host));
      run.returnCode == 0 || run.returnCode == 23
  {
    var dir := MountDir(host.tempDir, e.source);
    var req := MountFor(e.source, e.sourcefs, dir, host);
    if req.Some? && host.mount(req.value) != 0 then Raised("mount", host.mount(req.value))
    else if e.sourcefs == "squashfs" && !host.unsquashfsFound then
      UnpackFailure(e.source, "Failed to find unsquashfs, make sure you have the squashfs-tools package installed")
    else
      var run := host.rsync(CopyArgs(CopySource(e.source, e.sourcefs, dir), e.destination, e.exclude, e.excludeFile, host));
      match RsyncError(run.returnCode)
      case Some(msg) => UnpackFailure(e.source, msg)
      case None => Success
  }

  /** The image is mounted, or needs no mount, and can be listed: rsync runs. */
  predicate CopyReached(e: EntryConfig, host: Host) {
    var req := MountFor(e.source, e.sourcefs, MountDir(host.tempDir, e.source), host);
    (req.None? || host.mount(req.value) == 0) && !(e.sourcefs == "squashfs" && !host.unsquashfsFound)
  }

  /** A mount that fails ends the entry by raising with mount's exit code. */
  lemma MountFailureRaises(e: EntryConfig, host: Host)
    ensures var req := MountFor(e.source, e.sourcefs, MountDir(host.tempDir, e.source), host);
      req.Some? && host.mount(req.value) != 0 ==> EntryOutcome(e, host) == Raised("mount", host.mount(req.value))
  {
  }

  /** A squashfs image that mounts without unsquashfs on the host fails
      with the missing-tools message. */
  lemma MissingUnsquashfsFails(e: EntryConfig, host: Host)
    ensures var req := MountFor(e.source, e.sourcefs, MountDir(host.tempDir, e.source), host);
      (req.None? || host.mount(req.value) == 0) && e.sourcefs == "squashfs" && !host.unsquashfsFound ==>
        EntryOutcome(e, host) == UnpackFailure(e.source, "Failed to find unsquashfs, make sure you have the squashfs-tools package installed")
  {
  }

  /** Once rsync runs, the entry succeeds exactly when rsync's exit code is
      not an error, and otherwise fails with the message for that code. */
  lemma CopyDecidesOutcome(e: EntryConfig, host: Host)
    requires CopyReached(e, host)
    ensures var run := host.rsync(CopyArgs(CopySource(e.source, e.sourcefs, MountDir(host.tempDir, e.source)),
                                           e.destination, e.exclude, e.excludeFile, host));
      && (EntryOutcome(e, host) == Success <==> RsyncError(run.returnCode).None?)
      && (EntryOutcome(e, host) != Success ==> EntryOutcome(e, host) == UnpackFailure(e.source, RsyncError(run.returnCode).value))
  {
  }

  /** The outcome of each entry, in order. */
  function EntryOutcomes(es: seq<EntryConfig>, host: Host): (os: seq<Outcome>)
    ensures |os| == |es|
  {
    if es == [] then [] else [EntryOutcome(es[0], host)] + EntryOutcomes(es[1..], host)
  }

  lemma {:induction false} EntryOutcomesAt(es: seq<EntryConfig>, host: Host, k: int)
    requires 0 <= k < |es|
    ensures EntryOutcomes(es, host)[k] == EntryOutcome(es[k], host)
    decreases k
  {
    if k > 0 {
      EntryOutcomesAt(es[1..], host, k - 1);
    }
  }

  /** Where the first outcome that is not a success is, or |os|. */
  function FirstUnsuccessful(os: seq<Outcome>): (k: nat)
    ensures k <= |os|
    ensures forall j :: 0 <= j < k ==> os[j] == Success
    ensures k < |os| ==> os[k] != Success
  {
    if os == [] then 0
    else if os[0] != Success then 0
    else
      var k := FirstUnsuccessful(os[1..]);
      assert forall j :: 1 <= j < |os| ==> os[j] == os[1..][j - 1];
      k + 1
  }

  /** A sequence of steps ends with its first step that is not a success, or
      succeeds when all of them do. */
  function FirstOutcome(os: seq<Outcome>): (o: Outcome)
    ensures o == Success <==> forall k :: 0 <= k < |os| ==> os[k] == Success
    ensures o != Success ==> o == os[FirstUnsuccessful(os)]
  {
    var k := FirstUnsuccessful(os);
    if k == |os| then Success else os[k]
  }

  /** UnpackOperation.run: the entries are unpacked in order and the first
      one that does not succeed ends the run with its outcome. */
  function RunOutcome(es: seq<EntryConfig>, host: Host): Outcome {
    if es == [] then Success
    else
      var o := EntryOutcome(es[0], host);
      if o != Success then o else RunOutcome(es[1..], host)
  }

  /** A leading success moves the first step that does not succeed one
      place on; a leading step that does not succeed is that step. */
  lemma FirstUnsuccessfulPrepend(o: Outcome, os: seq<Outcome>)
    ensures FirstUnsuccessful([o] + os) == if o != Success then 0 else FirstUnsuccessful(os) + 1
  {
    assert ([o] + os)[1..] == os;
  }

  /** How many steps run when a sequence of steps stops at the first that
      does not succeed. */
  function StepsTaken(os: seq<Outcome>): (n: nat)
    ensures n <= |os|
  {
    if os == [] then 0
    else if os[0] != Success then 1
    else 1 + StepsTaken(os[1..])
  }

  /** The steps taken are those up to and including the first that does not
      succeed, or all of them. */
  lemma {:induction false} StepsTakenIsFirst(os: seq<Outcome>)
    ensures StepsTaken(os) == if FirstUnsuccessful(os) < |os| then FirstUnsuccessful(os) + 1 else |os|
    decreases |os|
  {
    if os != [] {
      assert os == [os[0]] + os[1..];
      FirstUnsuccessfulPrepend(os[0], os[1..]);
      StepsTakenIsFirst(os[1..]);
    }
  }

  /** A leading step that does not succeed is the only one taken; a leading
      success adds one to the steps of the rest. */
  lemma StepsTakenPrepend(o: Outcome, os: seq<Outcome>)
    ensures StepsTaken([o] + os) == if o != Success then 1 else 1 + StepsTaken(os)
  {
    assert ([o] + os)[1..] == os;
  }

  /** How many entries the run unpacks: up to and including the first that
      does not succeed, or all of them. */
  ghost function RunLength(es: seq<EntryConfig>, host: Host): nat {
    StepsTaken(EntryOutcomes(es, host))
  }

  /** The run stops right after the first entry that does not succeed. */
  lemma RunLengthIsFirst(es: seq<EntryConfig>, host: Host)
    ensures var first := FirstUnsuccessful(EntryOutcomes(es, host));
      RunLength(es, host) == if first < |es| then first + 1 else |es|
  {
    StepsTakenIsFirst(EntryOutcomes(es, host));
  }

  /** A leading success does not change where a sequence of steps ends; a
      leading step that does not succeed ends it. */
  lemma FirstOutcomePrepend(o: Outcome, os: seq<Outcome>)
    ensures FirstOutcome([o] + os) == if o != Success then o else FirstOutcome(os)
  {
    var t := [o] + os;
    assert t[1..] == os;
    if o == Success {
      assert FirstUnsuccessful(t) == FirstUnsuccessful(os) + 1;
    }
  }

  /** The first step that does not succeed is the one all of whose
      predecessors succeed. */
  lemma FirstUnsuccessfulAt(os: seq<Outcome>, i: int)
    requires 0 <= i <= |os|
    requires forall k :: 0 <= k < i ==> os[k] == Success
    requires i < |os| ==> os[i] != Success
    ensures FirstUnsuccessful(os) == i
  {
  }

  /** Where a sequence of steps ends, given the first step that does not
      succeed (|os| when all of them do). */
  lemma FirstOutcomeAt(os: seq<Outcome>, i: int)
    requires 0 <= i <= |os|
    requires forall k :: 0 <= k < i ==> os[k] == Success
    requires i < |os| ==> os[i] != Success
    ensures FirstOutcome(os) == if i == |os| then Success else os[i]
  {
  }

  /** A run from entry i ends with that entry's outcome unless it succeeds,
      and then goes on from entry i + 1. */
  lemma RunOutcomeFrom(es: seq<EntryConfig>, i: int, host: Host)
    requires 0 <= i < |es|
    ensures EntryOutcome(es[i], host) != Success ==> RunOutcome(es[i..], host) == EntryOutcome(es[i], host)
    ensures EntryOutcome(es[i], host) == Success ==> RunOutcome(es[i..], host) == RunOutcome(es[i + 1..], host)
    ensures EntryOutcome(es[i], host) != Success ==> RunLength(es[i..], host) == 1
    ensures EntryOutcome(es[i], host) == Success ==> RunLength(es[i..], host) == 1 + RunLength(es[i + 1..], host)
  {
    assert es[i..][0] == es[i];
    assert es[i..][1..] == es[i + 1..];
    assert EntryOutcomes(es[i..], host) == [EntryOutcome(es[i], host)] + EntryOutcomes(es[i + 1..], host);
    StepsTakenPrepend(EntryOutcome(es[i], host), EntryOutcomes(es[i + 1..], host));
  }

  /** Running the entries in turn ends like the first entry that does not
      succeed on its own would, and succeeds exactly when every entry does. */
  lemma {:induction false} RunOutcomeIsFirst(es: seq<EntryConfig>, host: Host)
    ensures RunOutcome(es, host) == FirstOutcome(EntryOutcomes(es, host))
    decreases |es|
  {
    if es != [] {
      FirstOutcomePrepend(EntryOutcome(es[0], host), EntryOutcomes(es[1..], host));
      RunOutcomeIsFirst(es[1..], host);
    }
  }

  /** The entry registered for a source: the last one with that source, or -1. */
  function LastWithSource(es: seq<UnpackEntry>, source: string): (k: int)
    ensures -1 <= k < |es|
    ensures k >= 0 ==> es[k].source == source
    ensures forall j :: k < j < |es| ==> es[j].source != source
  {
    if es == [] then -1
    else if es[|es| - 1].source == source then |es| - 1
    else LastWithSource(es[..|es| - 1], source)
  }

  /** The dictionary of entries by source; a later entry with the same source
      replaces an earlier one. */
  function SourceIndex(es: seq<UnpackEntry>): (m: map<string, UnpackEntry>)
    ensures forall src :: src in m <==> LastWithSource(es, src) >= 0
    ensures forall src :: src in m ==> m[src] == es[LastWithSource(es, src)]
  {
    if es == [] then map[]
    else
      var last := es[|es| - 1];
      var init := es[..|es| - 1];
      var m := SourceIndex(init);
      assert forall j :: 0 <= j < |init| ==> init[j] == es[j];
      m[last.source := last]
  }

  class UnpackOperation {
    const entries: seq<UnpackEntry>
    const entryForSource: map<string, UnpackEntry>

    constructor (entries: seq<UnpackEntry>)
      ensures this.entries == entries && entryForSource == SourceIndex(entries)
    {
      this.entries := entries;
      entryForSource := SourceIndex(entries);
    }

    /** One iteration of run: mount, list, copy. */
    method UnpackOne(entry: UnpackEntry, host: Host) returns (outcome: Outcome)
      modifies entry`copied, entry`total
      ensures outcome == EntryOutcome(ConfigOf(entry), host)
      ensures !CopyReached(ConfigOf(entry), host) ==> entry.copied == old(entry.copied) && entry.total == old(entry.total)
      ensures CopyReached(ConfigOf(entry), host) ==>
        entry.total >= ListedFiles(entry.source, entry.sourcefs, MountDir(host.tempDir, entry.source), host)
    {
      var imgMountDir := MountDir(host.tempDir, entry.source);
      var req := MountFor(entry.source, entry.sourcefs, imgMountDir, host);
      if req.Some? {
        var r := host.mount(req.value);
        if r != 0 {
          return Raised("mount", r);
        }
      }
      var fslist := "";
      if entry.sourcefs == "squashfs" {
        if !host.unsquashfsFound {
          return UnpackFailure(entry.source, "Failed to find unsquashfs, make sure you have the squashfs-tools package installed");
        }
        fslist := host.commandOutput(["unsquashfs", "-l", entry.source]);
      } else if entry.sourcefs == "ext4" {
        fslist := host.commandOutput(["find", imgMountDir, "-type", "f"]);
      } else if entry.IsFile() {
        fslist := host.commandOutput(["find", entry.source, "-type", "f"]);
      }
      entry.total := |SplitLines(fslist, false)|;
      var errorMsg := UnpackImage(entry, imgMountDir, host);
      if errorMsg.Some? {
        return UnpackFailure(entry.source, errorMsg.value);
      }
      return Success;
    }

    /** One turn of run's loop: unpacks entry i, given that the run has
        reached it; the run ends there with that outcome, or goes on with the
        entries after it. */
    method UnpackAt(i: int, host: Host) returns (outcome: Outcome)
      requires 0 <= i < |entries|
      requires RunOutcome(Configs(entries), host) == RunOutcome(Configs(entries)[i..], host)
      requires RunLength(Configs(entries), host) == i + RunLength(Configs(entries)[i..], host)
      modifies entries[i]
      ensures outcome != Success ==> RunOutcome(Configs(entries), host) == outcome
      ensures outcome != Success ==> RunLength(Configs(entries), host) == i + 1
      ensures outcome == Success ==> RunOutcome(Configs(entries), host) == RunOutcome(Configs(entries)[i + 1..], host)
      ensures outcome == Success ==> RunLength(Configs(entries), host) == i + 1 + RunLength(Configs(entries)[i + 1..], host)
    {
      outcome := UnpackOne(entries[i], host);
      RunOutcomeFrom(Configs(entries), i, host);
    }

    /** run: unpacks the entries in order, stopping at the first that does
        not succeed; the entries after it are left as they were. */
    method Run(host: Host) returns (outcome: Outcome)
      requires forall j, k :: 0 <= j < k < |entries| ==> entries[j] != entries[k]
      modifies set e | e in entries
      ensures outcome == RunOutcome(Configs(entries), host)
      ensures forall k :: FirstUnsuccessful(EntryOutcomes(Configs(entries), host)) < k < |entries| ==>
        entries[k].copied == old(entries[k].copied) && entries[k].total == old(entries[k].total)
    {
      var i := 0;
      while i < |entries|
        invariant 0 <= i <= |entries|
        invariant RunOutcome(Configs(entries), host) == RunOutcome(Configs(entries)[i..], host)
        invariant RunLength(Configs(entries), host) == i + RunLength(Configs(entries)[i..], host)
        invariant forall k :: i <= k < |entries| ==>
          entries[k].copied == old(entries[k].copied) && entries[k].total == old(entries[k].total)
      {
        outcome := UnpackAt(i, host);
        if outcome != Success {
          RunLengthIsFirst(Configs(entries), host);
          return;
        }
        i := i + 1;
      }
      RunLengthIsFirst(Configs(entries), host);
      return Success;
    }
  }

  // ---------------------------------------------------------------------------
  // The job
  // ---------------------------------------------------------------------------

  /** One item of the job's "unpack" list; an absent optional setting is the
      empty list or string, which the job treats like a missing key. */
  datatype UnpackItem = UnpackItem(source: string, sourcefs: string, destination: string, exclude: seq<string>, excludeFile: string)

  const BadConfiguration := "Bad unsquash configuration"

  /** The check run's first loop makes of one item before anything is
      unpacked: its filesystem must be supported and its source must exist. */
  function ItemCheck(item: UnpackItem, supported: seq<string>, host: Host): (o: Outcome)
    ensures o == Success <==> item.sourcefs in supported && host.pathExists(host.abspath(item.source))
    ensures o != Success ==> o.Failure? && o.message == BadConfiguration
    ensures item.sourcefs !in supported ==>
      o.details == "The filesystem for \"" + host.abspath(item.source) + "\" (" + item.sourcefs + ") is not supported by your current kernel"
  {
    var source := host.abspath(item.source);
    if item.sourcefs !in supported then
      Failure(BadConfiguration, "The filesystem for \"" + source + "\" (" + item.sourcefs + ") is not supported by your current kernel")
    else if !host.pathExists(source) then
      Failure(BadConfiguration, "The source filesystem \"" + source + "\" does not exist")
    else Success
  }

  function ItemChecks(items: seq<UnpackItem>, supported: seq<string>, host: Host): (os: seq<Outcome>)
    ensures |os| == |items|
  {
    seq(|items|, k requires 0 <= k < |items| => ItemCheck(items[k], supported, host))
  }

  /** run's first loop: the first item that fails its check ends the job. */
  method CheckItems(items: seq<UnpackItem>, supported: seq<string>, host: Host) returns (outcome: Outcome)
    ensures outcome == FirstOutcome(ItemChecks(items, supported, host))
  {
    ghost var checks := ItemChecks(items, supported, host);
    var i := 0;
    while i < |items|
      invariant 0 <= i <= |items|
      invariant forall k :: 0 <= k < i ==> checks[k] == Success
    {
      var source := host.abspath(items[i].source);
      if items[i].sourcefs !in supported {
        outcome := Failure(BadConfiguration, "The filesystem for \"" + source + "\" (" + items[i].sourcefs + ") is not supported by your current kernel");
        FirstOutcomeAt(checks, i);
        return;
      }
      if !host.pathExists(source) {
        outcome := Failure(BadConfiguration, "The source filesystem \"" + source + "\" does not exist");
        FirstOutcomeAt(checks, i);
        return;
      }
      i := i + 1;
    }
    FirstOutcomeAt(checks, i);
    outcome := Success;
  }

  /** Where an item is copied to: its destination under the root mount point,
      joined as plain text and made absolute. */
  function TargetOf(rootMountPoint: string, item: UnpackItem, host: Host): string {
    host.abspath(rootMountPoint + item.destination)
  }

  /** The check run's second loop makes: only the first item's destination
      must already be a directory (earlier items may create the later ones),
      and a "file" item needs none. */
  function DestinationCheck(rootMountPoint: string, items: seq<UnpackItem>, host: Host): (o: Outcome)
    ensures o == Success <==>
      items == [] || items[0].sourcefs == "file" || host.isDir(TargetOf(rootMountPoint, items[0], host))
    ensures o != Success ==>
      o == Failure(BadConfiguration, "The destination \"" + TargetOf(rootMountPoint, items[0], host) + "\" in the target system is not a directory")
  {
    if items == [] then Success
    else
      var destination := TargetOf(rootMountPoint, items[0], host);
      if !host.isDir(destination) && items[0].sourcefs != "file" then
        Failure(BadConfiguration, "The destination \"" + destination + "\" in the target system is not a directory")
      else Success
  }

  /** The entry run plans for an item. */
  function PlannedConfig(rootMountPoint: string, item: UnpackItem, host: Host): EntryConfig {
    EntryConfig(host.abspath(item.source), item.sourcefs, TargetOf(rootMountPoint, item, host), item.exclude, item.excludeFile)
  }

  function PlannedConfigs(rootMountPoint: string, items: seq<UnpackItem>, host: Host): (es: seq<EntryConfig>)
    ensures |es| == |items|
  {
    seq(|items|, k requires 0 <= k < |items| => PlannedConfig(rootMountPoint, items[k], host))
  }

  /** run's second loop: one fresh entry per item, in order, unless the first
      item's destination is missing. */
  method PlanEntries(rootMountPoint: string, items: seq<UnpackItem>, host: Host) returns (unpack: seq<UnpackEntry>, outcome: Outcome)
    ensures outcome == DestinationCheck(rootMountPoint, items, host)
    ensures outcome == Success ==> Configs(unpack) == PlannedConfigs(rootMountPoint, items, host)
    ensures forall e :: e in unpack ==> fresh(e)
    ensures forall j, k :: 0 <= j < k < |unpack| ==> unpack[j] != unpack[k]
  {
    unpack := [];
    var isFirst := true;
    var i := 0;
    while i < |items|
      invariant 0 <= i <= |items|
      invariant isFirst <==> i == 0
      invariant i > 0 ==> DestinationCheck(rootMountPoint, items, host) == Success
      invariant |unpack| == i
      invariant forall k :: 0 <= k < i ==> ConfigOf(unpack[k]) == PlannedConfig(rootMountPoint, items[k], host)
      invariant forall e :: e in unpack ==> fresh(e)
      invariant forall j, k :: 0 <= j < k < |unpack| ==> unpack[j] != unpack[k]
    {
      var item := items[i];
      var source := host.abspath(item.source);
      var destination := host.abspath(rootMountPoint + item.destination);
      if !host.isDir(destination) && item.sourcefs != "file" {
        if isFirst {
          return [], Failure(BadConfiguration, "The destination \"" + destination + "\" in the target system is not a directory");
        }
      }
      var entry := new UnpackEntry(source, item.sourcefs, destination, item.exclude, item.excludeFile);
      unpack := unpack + [entry];
      isFirst := false;
      i := i + 1;
    }
    assert Configs(unpack) == PlannedConfigs(rootMountPoint, items, host);
    outcome := Success;
  }

  /** How the job ends: without a usable root mount point, at the first
      item that fails its check, at a missing first destination, or as the
      run over the planned entries ends. */
  function JobOutcome(rootMountPoint: Option<string>, items: seq<UnpackItem>, host: Host): Outcome {
    if rootMountPoint.None? || rootMountPoint.value == "" then
      Failure("No mount point for root partition", "globalstorage does not contain a \"rootMountPoint\" key, doing nothing")
    else if !host.pathExists(rootMountPoint.value) then
      Failure("Bad mount point for root partition", "rootMountPoint is \"" + rootMountPoint.value + "\", which does not exist, doing nothing")
    else
      var checked := FirstOutcome(ItemChecks(items, SupportedFilesystems(host.procFilesystems), host));
      if checked != Success then checked
      else
        var planned := DestinationCheck(rootMountPoint.value, items, host);
        if planned != Success then planned
        else RunOutcome(PlannedConfigs(rootMountPoint.value, items, host), host)
  }

  /** A run succeeds exactly when every one of its entries would. */
  lemma RunSucceeds(es: seq<EntryConfig>, host: Host)
    ensures RunOutcome(es, host) == Success <==>
      forall k :: 0 <= k < |es| ==> EntryOutcomes(es, host)[k] == Success
  {
    RunOutcomeIsFirst(es, host);
  }

  /** The job succeeds exactly when the root mount point is usable, every
      item passes its check, the first destination is ready and the run over
      the planned entries succeeds. */
  lemma JobSucceeds(rootMountPoint: Option<string>, items: seq<UnpackItem>, host: Host)
    ensures JobOutcome(rootMountPoint, items, host) == Success <==>
      && rootMountPoint.Some? && rootMountPoint.value != ""
      && host.pathExists(rootMountPoint.value)
      && (forall k :: 0 <= k < |items| ==> ItemCheck(items[k], SupportedFilesystems(host.procFilesystems), host) == Success)
      && DestinationCheck(rootMountPoint.value, items, host) == Success
      && RunOutcome(PlannedConfigs(rootMountPoint.value, items, host), host) == Success
  {
    if rootMountPoint.Some? && rootMountPoint.value != "" && host.pathExists(rootMountPoint.value) {
      var supported := SupportedFilesystems(host.procFilesystems);
      var checks := ItemChecks(items, supported, host);
      assert FirstOutcome(checks) == Success <==> forall k :: 0 <= k < |items| ==> ItemCheck(items[k], supported, host) == Success by {
        assert forall k :: 0 <= k < |items| ==> checks[k] == ItemCheck(items[k], supported, host);
      }
    }
  }

  /** An item whose filesystem the kernel does not support stops the job
      before anything is mounted or copied, as a configuration error. */
  lemma UnsupportedStopsJob(rootMountPoint: Option<string>, items: seq<UnpackItem>, host: Host, k: int)
    requires rootMountPoint.Some? && rootMountPoint.value != "" && host.pathExists(rootMountPoint.value)
    requires 0 <= k < |items| && items[k].sourcefs !in SupportedFilesystems(host.procFilesystems)
    ensures JobOutcome(rootMountPoint, items, host).Failure?
    ensures JobOutcome(rootMountPoint, items, host).message == BadConfiguration
  {
    var checks := ItemChecks(items, SupportedFilesystems(host.procFilesystems), host);
    assert checks[k] != Success;
    var first := FirstUnsuccessful(checks);
    assert checks[first] == ItemCheck(items[first], SupportedFilesystems(host.procFilesystems), host);
  }

  /** The job's entry point. */
  method RunJob(rootMountPoint: Option<string>, items: seq<UnpackItem>, host: Host) returns (outcome: Outcome)
    ensures outcome == JobOutcome(rootMountPoint, items, host)
  {
    if rootMountPoint.None? || rootMountPoint.value == "" {
      return Failure("No mount point for root partition", "globalstorage does not contain a \"rootMountPoint\" key, doing nothing");
    }
    var root := rootMountPoint.value;
    if !host.pathExists(root) {
      return Failure("Bad mount point for root partition", "rootMountPoint is \"" + root + "\", which does not exist, doing nothing");
    }
    var supported := SupportedFilesystems(host.procFilesystems);
    outcome := CheckItems(items, supported, host);
    if outcome != Success {
      return;
    }
    var unpack;
    unpack, outcome := PlanEntries(root, items, host);
    if outcome != Success {
      return;
    }
    var op := new UnpackOperation(unpack);
    outcome := op.Run(host);
  }
}
