# Calamares installer core, modelled in Dafny

This project models five pieces of the Calamares system installer and proves what they
promise:

- **users page controller** (`src/modules/usersq/Config.cpp`, module `UsersConfig`). It covers
  - the readiness of the page;
  - user-name and host-name suggestions derived from the full name;
  - password acceptance against weighted checks;
  - the four jobs and the global-storage entries that `createJobs` hands to the job queue.
- **filesystem-unpack job** (`src/modules/unpackfs/main.py`, modules `UnpackfsText` and `Unpackfs`). It covers
  - the checks made before anything is touched: the root mount point, supported filesystems from
    `/proc/filesystems`, existing sources, and the first destination;
  - the mount, the file listing and the rsync copy of every image, in order, stopping at the
    first entry that fails;
  - rsync's command line, its progress output (throttled every 100 files), and the verdict on its
    exit status.
- **partition device list** (`src/modules/partition/core/DeviceModel.cpp`, module
  `PartitionDevices`). It covers the list model of disks kept sorted by device node, with
  swapping, adding and removing devices and the text each row displays.
- **welcome page controller** (`src/modules/welcomeq/Config.cpp`, module `WelcomeConfig`). It
  covers the requirements list model and the navigation, language and country properties.
- **partition page controller** (`src/modules/partitionq/Config.cpp` with `Config.h`, module
  `PartitionConfig`). It covers the install choice and the device model it exposes.

How state and the system are modelled:

- Qt objects whose slots update fields are Dafny classes whose methods modify those fields.
- Qt signals are an append-only log field on the object, so a method's `ensures` states exactly
  what it emits.
- The unpack job's view of the machine is a `Host` value. It holds:
  - the `os.path` tests and `abspath`;
  - the text of `/proc/filesystems`, the extra mounts in global storage, and the directory
    `mkdtemp` made;
  - whether `unsquashfs` is installed;
  - the exit status of `mount`, the output of the listing commands, and rsync's output lines and
    exit status.

  All of these are fixed for the run.
- `removeDiacritics`, `obscure`, `formatByteSize` and the welcome page's translation lookup are
  function parameters.

The two Python loops that update counters (rsync's output loop, the entry loop) and every Qt
slot are methods. Each is proved against a specification function. The functions carry the
round-trip, ordering and success/failure lemmas.

## Model

| member | source | states |
|---|---|---|
| WelcomeConfig.RequirementsModel.SetRequirementsList | src/modules/welcomeq/Config.cpp:23-41 | the list is replaced by the new requirements; the satisfied flag is set true and announced once with that value, whatever the list holds |
| WelcomeConfig.SatisfiedDespiteUnmetRequirement | src/modules/welcomeq/Config.cpp:23-41 | handing the model a list whose only mandatory requirement is unmet leaves it holding that list, with the satisfied flag true and one more `true` announced, because the clearing assignment in the loop is commented out |
| WelcomeConfig.RequirementsModel.RowCount | src/modules/welcomeq/Config.cpp:43-47 | one row per stored requirement; `Data` is defined on exactly the rows below it |
| WelcomeConfig.RequirementsModel.Data | src/modules/welcomeq/Config.cpp:49-69 | each of the five roles yields the matching field of the row's requirement (texts for name, details and negated text, flags for satisfied and mandatory); any other role yields an invalid value, and only those do |
| WelcomeConfig.RoleNames | src/modules/welcomeq/Config.cpp:71-81 | exactly the five roles are named, each with a non-empty name |
| WelcomeConfig.NamedRolesServed | src/modules/welcomeq/Config.cpp:49-81 | a role has a name iff `Data` serves a value for it |
| WelcomeConfig.Config.constructor | src/modules/welcomeq/Config.cpp:83-87 | the controller owns a fresh, empty requirements model |
| WelcomeConfig.Config.UpdateRequirements | src/modules/welcomeq/Config.cpp:83-87 | the model holds the new list with its satisfied flag set and one more `true` announced; through the connection from satisfiedRequirementsChanged to setIsNextEnabled, the next button is enabled and that one change is emitted |
| WelcomeConfig.Config.SetCountryCode | src/modules/welcomeq/Config.cpp:101-109 | stores the code and the translation index found for it, and emits the country then the index change |
| WelcomeConfig.Config.SetLanguageIcon | src/modules/welcomeq/Config.cpp:111-115 | the icon read back afterwards is the one set |
| WelcomeConfig.Config.SetIsBackEnabled | src/modules/welcomeq/Config.cpp:123-128 | stores the flag and emits exactly one change with it |
| WelcomeConfig.Config.SetIsNextEnabled | src/modules/welcomeq/Config.cpp:130-135 | stores the flag and emits exactly one change with it |
| PartitionConfig.Config.constructor | src/modules/partitionq/Config.cpp:52-56 | no device model yet; the install choice starts at NoChoice (Config.h:69) |
| PartitionConfig.Config.Init | src/modules/partitionq/Config.cpp:58-87 | keeps the core, publishes the core's device model and emits devicesChanged once |
| PartitionConfig.Config.PrettyStatus | src/modules/partitionq/Config.cpp:89-93 | the status text is the fixed placeholder |
| PartitionConfig.Config.OnActivate | src/modules/partitionq/Config.cpp:95-99 | changes nothing |
| PartitionConfig.Config.Finalize | src/modules/partitionq/Config.cpp:101-105 | changes nothing |
| PartitionConfig.Config.SetInstallChoice | src/modules/partitionq/Config.cpp:118-125 | the choice read back is the one set; setting the current value emits nothing, a new value emits exactly one installChoiceChanged |
| PartitionDevices.StrLessTransitive | src/modules/partition/core/DeviceModel.cpp:42-44 | the device-node order used by the sort is transitive |
| PartitionDevices.StrLessIrreflexive | src/modules/partition/core/DeviceModel.cpp:42-44 | the order is strict |
| PartitionDevices.StrLessAsymmetric | src/modules/partition/core/DeviceModel.cpp:42-44 | no two nodes precede each other |
| PartitionDevices.StrLessTotal | src/modules/partition/core/DeviceModel.cpp:42-44 | any two different nodes are ordered one way or the other |
| PartitionDevices.InsertByNode | src/modules/partition/core/DeviceModel.cpp:39-45 | inserting a device into a node-sorted list keeps it sorted and adds exactly that device |
| PartitionDevices.SortDevices | src/modules/partition/core/DeviceModel.cpp:39-45 | the result is sorted by device node and is a permutation of the input |
| PartitionDevices.DeviceModel.Init | src/modules/partition/core/DeviceModel.cpp:54-61 | the list holds exactly the given devices, in node order |
| PartitionDevices.DisplayText | src/modules/partition/core/DeviceModel.cpp:82-106 | an unnamed device shows its node; a named one with non-negative logical size and total shows "name - size (node)" with the formatted capacity, and otherwise "name - (node)" |
| PartitionDevices.DeviceModel.RowCount | src/modules/partition/core/DeviceModel.cpp:63-67 | no rows under a valid parent; one row per device under the root |
| PartitionDevices.DisplayedRows | src/modules/partition/core/DeviceModel.cpp:63-80 | the display role has a value at exactly the rows below the root's row count |
| PartitionDevices.DeviceModel.Data | src/modules/partition/core/DeviceModel.cpp:69-115 | no value outside the rows below the root's row count; the display text for the display and tool-tip roles, the disk pixmap for the decoration role, nothing for other roles |
| PartitionDevices.DeviceModel.DeviceForIndex | src/modules/partition/core/DeviceModel.cpp:118-127 | null exactly outside the rows, otherwise the device at that row |
| PartitionDevices.RowsAreDevices | src/modules/partition/core/DeviceModel.cpp:63-127 | a row has a device iff it is below the root's row count, and every listed device sits at some row |
| PartitionDevices.RowsInNodeOrder | src/modules/partition/core/DeviceModel.cpp:54-67 | after init, earlier rows never have a later device node than later rows |
| PartitionDevices.IndexOf | src/modules/partition/core/DeviceModel.cpp:136 | -1 iff the device is absent; otherwise the first index holding it |
| PartitionDevices.DeviceModel.SwapDevice | src/modules/partition/core/DeviceModel.cpp:130-145 | an absent old device changes nothing; otherwise only its first occurrence is replaced, in place, with no re-sort |
| PartitionDevices.DeviceModel.AddDevice | src/modules/partition/core/DeviceModel.cpp:147-154 | the list gains exactly that device and stays sorted |
| PartitionDevices.RemoveAll | src/modules/partition/core/DeviceModel.cpp:160 | every occurrence of the device goes; every other device keeps its multiplicity |
| PartitionDevices.DeviceModel.RemoveDevice | src/modules/partition/core/DeviceModel.cpp:156-163 | the device is gone, every other device is kept, and the list is sorted |
| UsersConfig.CleanChar | src/modules/usersq/Config.cpp:262-263 | after lowering and replacing every character outside [a-zA-Z0-9 ], only lower-case letters, digits and blanks remain |
| UsersConfig.Split | src/modules/usersq/Config.cpp:264 | QString::split keeps empty parts: always at least one part, no part holds the separator, every character comes from the text |
| UsersConfig.SplitJoin | src/modules/usersq/Config.cpp:264 | splitting parts joined with the separator gives the parts back |
| UsersConfig.JoinSplit | src/modules/usersq/Config.cpp:264 | joining the split parts gives the text back |
| UsersConfig.SplitSimplified | src/modules/usersq/Config.cpp:263-264 | splitting the simplified name on blanks yields its words, or one empty part when it has none |
| UsersConfig.CleanedWords | src/modules/usersq/Config.cpp:262-264 | every word of the cleaned name is non-empty lower-case alphanumeric |
| UsersConfig.BuildUsernameSuggestion | src/modules/usersq/Config.cpp:270-277 | the loop yields the first part followed by the first letter of every later non-empty part |
| UsersConfig.InitialsOfWords | src/modules/usersq/Config.cpp:271-277 | over non-empty parts, the initials are exactly the first characters, one per part |
| UsersConfig.UsernameSuggestionOfWords | src/modules/usersq/Config.cpp:270-278 | for cleaned words the suggestion is the first word plus the initials of the rest, and it passes USERNAME_RX iff the first word starts with a letter |
| UsersConfig.HostnameSuggestionOfWord | src/modules/usersq/Config.cpp:291-292 | "<word>-pc" always passes HOSTNAME_RX for a cleaned word |
| UsersConfig.SuggestionsForName | src/modules/usersq/Config.cpp:258-300 | a suggestion exists iff the cleaned name has a word; the user name is then its first word and the others' initials, valid iff it starts with a letter; the host name is always valid |
| UsersConfig.CustomUsernameKept | src/modules/usersq/Config.cpp:266-285 | a custom user name survives any full name |
| UsersConfig.HostnameAlwaysSuggested | src/modules/usersq/Config.cpp:287-299 | with a non-custom host name and a full name that has a word, the host name becomes that word followed by "-pc" |
| UsersConfig.Config.constructor | src/modules/usersq/Config.cpp:74-117 | every ready flag is false, the root password is written, and neither name is custom |
| UsersConfig.Config.IsReady | src/modules/usersq/Config.cpp:144-154 | ready iff the full-name, host-name, password and user-name flags are set and, when root's own password is written, its flag too |
| UsersConfig.StorageKeysDistinct | src/modules/usersq/Config.cpp:181-209 | the five storage keys are different entries |
| UsersConfig.StoredSettingsSpec | src/modules/usersq/Config.cpp:181-209 | the writes add exactly the job keys, with the host name, user name, obscured password, reuse flag (only if root is written) and auto-login user (only with auto-login), and leave every other entry as it was |
| UsersConfig.Config.StoreJobSettings | src/modules/usersq/Config.cpp:181-209 | the storage afterwards is the settings function applied to the old storage |
| UsersConfig.Config.CreateJobs | src/modules/usersq/Config.cpp:157-212 | not ready: no jobs and storage untouched; ready: create-user (full name defaulting to the user name), user password, root password (none, reused or root's own), host name, in that order, plus the storage entries above |
| UsersConfig.Config.OnActivate | src/modules/usersq/Config.cpp:215-220 | both password handlers run, so the readiness is announced twice |
| UsersConfig.Config.SetWriteRootPassword | src/modules/usersq/Config.cpp:222-227 | sets the write-root-password flag and changes nothing else |
| UsersConfig.Config.OnFullNameTextEdited | src/modules/usersq/Config.cpp:230-255 | empty text clears the name, the warning, the non-custom user and host names and the full-name flag; other text sets the flag and fills the suggestions from the stored full name; readiness is announced after each adopted suggestion and once at the end |
| UsersConfig.Config.AcceptFullName | src/modules/usersq/Config.cpp:247-253 | the full-name flag is set and the suggestions are filled |
| UsersConfig.Config.FillSuggestions | src/modules/usersq/Config.cpp:258-300 | each name becomes its suggestion exactly when it is not custom, the cleaned name has a first part, and the suggestion passes its regex; custom flags are unchanged; one readiness signal per adopted suggestion |
| UsersConfig.Config.SuggestUsername | src/modules/usersq/Config.cpp:266-285 | the user-name half of the suggestions |
| UsersConfig.Config.SuggestHostname | src/modules/usersq/Config.cpp:287-299 | the host-name half of the suggestions |
| UsersConfig.Config.OnUsernameTextEdited | src/modules/usersq/Config.cpp:303-308 | marks the user name custom and announces the readiness once |
| UsersConfig.Config.EmitCheckReady | src/modules/usersq/Config.cpp:397 | announces the current readiness once and changes no flag |
| UsersConfig.Config.SetValidatePasswordDefault | src/modules/usersq/Config.cpp:473-478 | sets the validate setting that password acceptance reads, announces the readiness once, and the readiness is unaffected |
| UsersConfig.Config.SetAutologinDefault | src/modules/usersq/Config.cpp:480-485 | only the check box changes, which the modelled state does not hold; the readiness is announced once and is unaffected |
| UsersConfig.Config.SetReusePasswordDefault | src/modules/usersq/Config.cpp:487-492 | only the check box changes (its connection to the reuse setting is commented out); the readiness is announced once and is unaffected |
| UsersConfig.Config.OnHostnameTextEdited | src/modules/usersq/Config.cpp:353-358 | marks the host name custom and announces the readiness once |
| UsersConfig.Config.OnPasswordTextChanged | src/modules/usersq/Config.cpp:445-454 | announces the readiness once |
| UsersConfig.FirstFailing | src/modules/usersq/Config.cpp:419-432 | the index of the first check the password fails, or the count when it fails none |
| UsersConfig.LastFailureMessage | src/modules/usersq/Config.cpp:419-432 | empty iff the password passes every check |
| UsersConfig.InsertByWeight | src/modules/usersq/Config.cpp:415 | inserting a check into a weight-sorted list keeps it sorted and adds exactly that check |
| UsersConfig.SortChecks | src/modules/usersq/Config.cpp:415 | the checks end sorted by weight and are a permutation of the input |
| UsersConfig.RunChecks | src/modules/usersq/Config.cpp:410-441 | with fatal failures the password is accepted iff no check fails, and the first failure's message is shown; otherwise it is accepted and the last failure's message is the warning |
| UsersConfig.Config.CheckPasswordAcceptance | src/modules/usersq/Config.cpp:400-443 | different texts are rejected with the mismatch message and nothing changes; otherwise changed checks are re-sorted (same checks) and the checks decide as above |
| UsersConfig.Config.AddPasswordCheck | src/modules/usersq/Config.cpp:494-527 | always marks the checks changed; length and pwquality keys add their helpers' checks, "nonempty" adds the non-empty check when enabled, unknown keys add nothing |
| UnpackfsText.DigitChar | src/modules/unpackfs/main.py:187 | a digit below ten becomes the character with that value |
| UnpackfsText.Dec | src/modules/unpackfs/main.py:187 | str(n) is non-empty, all digits, with no leading zero |
| UnpackfsText.ParseDecOfDec | src/modules/unpackfs/main.py:161-162 | int() of str(n) is n |
| UnpackfsText.IntToString | src/modules/unpackfs/main.py:187 | the text is non-empty and starts with '-' iff the number is negative |
| UnpackfsText.IntToStringInjective | src/modules/unpackfs/main.py:187-188 | different exit codes give different texts |
| UnpackfsText.Remove | src/modules/unpackfs/main.py:346-347 | str.replace(pat, "") never lengthens the text |
| UnpackfsText.RemoveAbsent | src/modules/unpackfs/main.py:346-347 | removing an absent pattern changes nothing |
| UnpackfsText.RemoveChar | src/modules/unpackfs/main.py:346-347 | after removing a character none is left |
| UnpackfsText.RemoveConcat | src/modules/unpackfs/main.py:346-347 | removal distributes over a concatenation whose seam no occurrence spans |
| UnpackfsText.FirstBreak | src/modules/unpackfs/main.py:347 | the first line boundary: no boundary before it, a boundary at it unless at the end |
| UnpackfsText.SplitLines | src/modules/unpackfs/main.py:347 | splitlines: no line holds a boundary, and only empty text gives no lines |
| UnpackfsText.SplitJoinLines | src/modules/unpackfs/main.py:347 | splitting lines joined with line feeds gives them back |
| UnpackfsText.FromLinesOf | src/modules/unpackfs/main.py:347 | every character of a line comes from the text |
| UnpackfsText.KernelFilesystems | src/modules/unpackfs/main.py:335-350 | no list when /proc/filesystems is unreadable; no name holds a tab |
| UnpackfsText.RemoveNodev | src/modules/unpackfs/main.py:346 | removing "nodev" from a listing leaves a tab, the name and a line feed per filesystem |
| UnpackfsText.RemoveTabs | src/modules/unpackfs/main.py:346-347 | removing the tabs then leaves the names, one per line |
| UnpackfsText.KernelFilesystemsOfListing | src/modules/unpackfs/main.py:335-350 | for a listing of "[nodev]\tname" lines, the kernel's filesystems are exactly the names, in order |
| UnpackfsText.SupportedFilesystems | src/modules/unpackfs/main.py:353-358 | "file" first, then the kernel's list |
| UnpackfsText.Basename | src/modules/unpackfs/main.py:236-237 | os.path.basename: the slash-free tail of the path, after a slash unless it is the whole path |
| UnpackfsText.BasenameAfterSlash | src/modules/unpackfs/main.py:236-237 | the basename of "dir/name" is the name |
| UnpackfsText.BasenameOfName | src/modules/unpackfs/main.py:236-237 | a slash-free name is its own basename |
| UnpackfsText.LastDot | src/modules/unpackfs/main.py:236-237 | the index of the last dot, or -1 |
| UnpackfsText.ExtensionStart | src/modules/unpackfs/main.py:236-237 | the extension starts within the name |
| UnpackfsText.SplitExtParts | src/modules/unpackfs/main.py:236-237 | os.path.splitext: stem and extension rebuild the name; the extension is empty or a dot followed by no dot; an extension needs a non-dot in the stem |
| UnpackfsText.StemOfName | src/modules/unpackfs/main.py:236-237 | splitting "name.ext" gives "name" and ".ext" |
| UnpackfsText.LastDotOf | src/modules/unpackfs/main.py:236-237 | the last dot of "name.ext" is the one before "ext" |
| UnpackfsText.PathJoin | src/modules/unpackfs/main.py:238 | os.path.join: an absolute second part replaces the first; the result ends with the second part |
| UnpackfsText.JoinedBasename | src/modules/unpackfs/main.py:238 | the basename of a joined slash-free name is that name |
| UnpackfsText.DigitRun | src/modules/unpackfs/main.py:157 | a greedy `\d+`: the whole run of digits at a position |
| UnpackfsText.DecValueShift | src/modules/unpackfs/main.py:161-162 | the value of digits read in place equals the value of the digit text |
| UnpackfsText.DigitRunOf | src/modules/unpackfs/main.py:157 | a digit text followed by a non-digit is the whole run |
| UnpackfsText.SkipNoX | src/modules/unpackfs/main.py:157 | no item starts where there is no 'x', so the search skips those positions |
| UnpackfsText.MatchCountsOf | src/modules/unpackfs/main.py:157-162 | "R/T" followed by a non-digit matches with counts int(R) and int(T) |
| UnpackfsText.ParseItemLine | src/modules/unpackfs/main.py:157-162 | a line with a full `xfr#X, ..-chk=R/T` item, and no 'x' before it, yields int(R) and int(T) |
| UnpackfsText.ParseProgressLine | src/modules/unpackfs/main.py:157-162 | the item as rsync writes it reads back with the counts it was written with |
| Unpackfs.ExcludeArgs | src/modules/unpackfs/main.py:131-133 | one "--exclude" and the path per path, in order |
| Unpackfs.MountPointPaths | src/modules/unpackfs/main.py:93-97 | every non-empty extra mount point with a slash appended, and only those; one mount gives its path if non-empty and nothing otherwise |
| Unpackfs.MountPointPathsConcat | src/modules/unpackfs/main.py:93-97 | the loop extends the list mount by mount: the paths of a concatenation are the paths of each part, in order and with repetitions |
| Unpackfs.ExcludeArgsConcat | src/modules/unpackfs/main.py:96-97 | the exclusions of a concatenation of paths are those of each part, in order |
| Unpackfs.GlobalExcludes | src/modules/unpackfs/main.py:84-99 | no extra mounts: no arguments; otherwise the `--exclude` arguments of the mount-point paths, in mount order |
| Unpackfs.RsyncSource | src/modules/unpackfs/main.py:121-122 | a slash is appended iff the source neither ends with one nor is a file |
| Unpackfs.RsyncSourceIdempotent | src/modules/unpackfs/main.py:121-122 | for the same file test, fixing the source twice is fixing it once |
| Unpackfs.ExcludeFromArgs | src/modules/unpackfs/main.py:129-130 | one "--exclude-from=" argument iff an exclude file is set |
| Unpackfs.RsyncArgs | src/modules/unpackfs/main.py:127-134 | rsync -aHAXr, the global exclusions, the exclude file, the entry's exclusions, then --progress, source, destination |
| Unpackfs.RsyncArgsOperands | src/modules/unpackfs/main.py:127-134 | the last two arguments are the source and the destination, and every exclusion is passed |
| Unpackfs.RsyncError | src/modules/unpackfs/main.py:186-190 | no error iff rsync exits with 0 or 23; otherwise the message names the code |
| Unpackfs.RsyncErrorNamesCode | src/modules/unpackfs/main.py:186-188 | two failures with the same message had the same exit code |
| Unpackfs.ReportsThrottled | src/modules/unpackfs/main.py:159-169 | each progress report is at least 100 copied files past the previous (past zero for the first) |
| Unpackfs.FinalReport | src/modules/unpackfs/main.py:171-172 | the final report carries the counts of the last progress item, or zeros when there was none |
| Unpackfs.LastProgress | src/modules/unpackfs/main.py:159-164 | none iff no line was a progress item; otherwise the last one |
| Unpackfs.RaisedTotal | src/modules/unpackfs/main.py:318-320 | the callback only ever raises an entry's total |
| Unpackfs.RaisedTotals | src/modules/unpackfs/main.py:313-321 | after a series of callbacks the total is the largest of the old total and the reported ones |
| Unpackfs.UnpackEntry.constructor | src/modules/unpackfs/main.py:57-75 | the entry keeps its source, filesystem and destination, with nothing copied yet |
| Unpackfs.UnpackEntry.ProgressCallback | src/modules/unpackfs/main.py:313-321 | records the copied count and raises the total |
| Unpackfs.FollowOutput | src/modules/unpackfs/main.py:139-172 | the entry ends with the copied count of the final report and the total raised by all reports of the output |
| Unpackfs.FileCopy | src/modules/unpackfs/main.py:101-190 | rsync runs on the command line above; the error is the verdict on its exit status; the counts follow its output |
| Unpackfs.UnpackImage | src/modules/unpackfs/main.py:305-332 | a file entry is copied from its source, any other from its mount directory; the total never drops |
| Unpackfs.CopySource | src/modules/unpackfs/main.py:324-327 | the source itself for a file entry, the mount directory otherwise |
| Unpackfs.MountDirName | src/modules/unpackfs/main.py:236-238 | the mount directory is named after the image's basename without its extension |
| Unpackfs.MountFor | src/modules/unpackfs/main.py:279-302 | no mount iff a file entry; a directory is bind-mounted, an image file loop-mounted with its filesystem, a device mounted with its filesystem |
| Unpackfs.ListingCommand | src/modules/unpackfs/main.py:243-264 | unsquashfs -l for squashfs, find over the mount for ext4, find over the source for a file, nothing otherwise |
| Unpackfs.ListedFiles | src/modules/unpackfs/main.py:266 | the total starts as the number of listed lines, zero without a listing |
| Unpackfs.EntryOutcome | src/modules/unpackfs/main.py:235-273 | only a mount can raise, and only with a non-zero code; every failure names the image; a squashfs image without unsquashfs never succeeds; success means rsync exited with 0 or 23 |
| Unpackfs.MountFailureRaises | src/modules/unpackfs/main.py:279-302 | a mount that returns non-zero ends the entry by raising with that code |
| Unpackfs.MissingUnsquashfsFails | src/modules/unpackfs/main.py:245-250 | a mounted squashfs image without unsquashfs on the host fails with the missing-tools message |
| Unpackfs.CopyDecidesOutcome | src/modules/unpackfs/main.py:269-275 | once rsync runs, the entry succeeds iff rsync's exit code is no error, and otherwise fails with the image named and the message for that code |
| Unpackfs.FirstUnsuccessful | src/modules/unpackfs/main.py:235-275 | the index of the first outcome that is not success |
| Unpackfs.FirstOutcome | src/modules/unpackfs/main.py:235-275 | success iff every outcome is; otherwise the first one that is not |
| Unpackfs.FirstOutcomePrepend | src/modules/unpackfs/main.py:235-275 | an unsuccessful first outcome decides; a successful one defers to the rest |
| Unpackfs.FirstOutcomeAt | src/modules/unpackfs/main.py:235-275 | outcomes successful up to a failing one give that one |
| Unpackfs.EntryOutcomesAt | src/modules/unpackfs/main.py:235-273 | the k-th outcome is that of the k-th entry |
| Unpackfs.RunOutcomeFrom | src/modules/unpackfs/main.py:235-275 | from entry i on, the run ends at i when it fails and goes on otherwise |
| Unpackfs.RunOutcomeIsFirst | src/modules/unpackfs/main.py:235-275 | the run's outcome is the first unsuccessful entry outcome, or success |
| Unpackfs.RunSucceeds | src/modules/unpackfs/main.py:235-275 | the run succeeds iff every entry would |
| Unpackfs.LastWithSource | src/modules/unpackfs/main.py:202 | the last entry with a given source, or -1 |
| Unpackfs.SourceIndex | src/modules/unpackfs/main.py:202 | the index maps exactly the sources present, each to the last entry with it |
| Unpackfs.UnpackOperation.constructor | src/modules/unpackfs/main.py:200-202 | keeps the entries and indexes them by source |
| Unpackfs.UnpackOperation.UnpackOne | src/modules/unpackfs/main.py:235-273 | one entry's mount, listing and copy end as its outcome says; the counts are untouched unless the copy is reached, and then the total is at least the listed count |
| Unpackfs.UnpackOperation.UnpackAt | src/modules/unpackfs/main.py:235-273 | one turn of the loop: the run ends with this outcome, or continues with the later entries |
| Unpackfs.UnpackOperation.Run | src/modules/unpackfs/main.py:226-277 | the entries are unpacked in order and the first that does not succeed ends the run with its outcome; the entries after it keep their counts |
| Unpackfs.StepsTakenIsFirst | src/modules/unpackfs/main.py:235-275 | a run of steps that stops at the first failure takes the steps up to and including it, or all of them |
| Unpackfs.RunLengthIsFirst | src/modules/unpackfs/main.py:235-275 | the run unpacks the entries up to and including the first that does not succeed, or all of them |
| Unpackfs.ItemCheck | src/modules/unpackfs/main.py:382-394 | an item passes iff its filesystem is supported and its absolute source exists; otherwise a "Bad unsquash configuration" failure, naming the filesystem when unsupported |
| Unpackfs.CheckItems | src/modules/unpackfs/main.py:382-394 | the first item that fails its check ends the job with that failure |
| Unpackfs.DestinationCheck | src/modules/unpackfs/main.py:398-410 | only the first item's destination must be a directory, and not for a file item; otherwise the failure names the destination |
| Unpackfs.PlanEntries | src/modules/unpackfs/main.py:396-419 | the outcome is the destination check; on success one fresh entry per item, in order, with absolute source and destination under the root mount point |
| Unpackfs.UnsupportedStopsJob | src/modules/unpackfs/main.py:379-390 | with a usable root, an item on an unsupported filesystem stops the job with a configuration failure |
| Unpackfs.JobSucceeds | src/modules/unpackfs/main.py:361-423 | the job succeeds iff the root mount point is set and exists, every item passes, the first destination is ready, and the run over the planned entries succeeds |
| Unpackfs.RunJob | src/modules/unpackfs/main.py:361-423 | the job's outcome: missing or empty root, root that does not exist, the first failed item, a missing first destination, or the run's outcome |

## Left out

- Qt user-interface code is left out: labels, pixmaps, visibility, retranslation and the
  commented-out widget connections.
- The welcome page's `languagesModel` and `requirementsModel` accessors return objects and state
  nothing to prove.
- `setPasswordCheckboxVisible` only changes whether the validate check box is shown, and emits
  nothing.
- The auto-login and reuse check boxes are not state of the model. Nothing in this class reads
  them: the jobs and the readiness use the separate auto-login and reuse settings.
- `validateUsernameText` and `validateHostnameText` have their checks commented out, so only the
  signal they emit is modelled. The user-name, host-name and password ready flags are then never
  set by this class.
- The reuse, auto-login and validate settings have no initialiser in this class, so the users
  constructor takes them as parameters.
- `m_core` in the partition page's controller has no initialiser. The partition constructor
  starts it as null, which is the model's choice and not something the source guarantees.
- `m_passwordChecksChanged` has no initialiser either. The users constructor starts it as
  false, which is the model's choice and not something the source guarantees.
- The users controller's passwords and the welcome page's initial navigation flags are set through
  property declarations in headers that are not part of this model. In the model they are fields.
- `add_check_minLength`, `add_check_maxLength` and `add_check_libpwquality` (`CheckPWQuality.h`)
  are not part of this model. `AddPasswordCheck` receives the checks they would build as
  `helperChecks`.
- `AddPasswordCheck`: does not log the warning for an unknown key.
- Password checks are ordered by weight only. `std::sort` is not stable, so checks of equal weight
  may end in any order. `SortChecks` states only that the result is sorted by weight and is a
  permutation, which every order `std::sort` may produce satisfies.
- `CleanChar` and `LowerAscii` lower-case ASCII letters only. Qt's `toLower` also maps non-ASCII
  letters, and some of them (such as the Kelvin sign) map to ASCII.
- `QString::simplified` is modelled for text whose only whitespace is the blank, which is all
  that `fillSuggestions` gives it.
- `QString( "%1-pc" ).arg(…)` is modelled as plain concatenation.
- `DisplayText`: the `tr(…)` lookup is dropped, and the `.arg` chain is taken as plain
  concatenation. In Qt a later `.arg` also replaces `%N` markers that an earlier argument put
  into the text, so a device name such as `"disk %2"` renders differently there.
- `removeDiacritics`, `obscure` and `KFormat::formatByteSize` are function parameters.
- Device-node comparison is lexicographic by character. `QString::operator<` compares UTF-16
  code units, so the two orders agree for node names within the Basic Multilingual Plane only.
- `report_progress` and `job.setprogress` are left out: they compute a floating-point fraction
  for the progress bar and change nothing the job's outcome depends on.
- The job's environment is a fixed `Host` value: the `LC_ALL` setting, `os.makedirs`,
  `shutil.rmtree` of the temporary directory, `umount` after each copy, `utils.warning`/`debug`,
  and gettext translation are left out.
- A listing command or `umount` that raises (`check_output`, `check_call`) is not modelled. Only
  `mount`'s failure is, as `Raised("mount", code)`.
- `Unpackfs.UnpackOperation.UnpackOne`: states that the total is at least the listed count once
  the copy is reached, not the exact counts after the copy. The exact counts are stated by
  `FileCopy` and `FollowOutput`.
- `Unpackfs.UnpackImage`: states the error and that the total never drops, not the exact counts,
  which `FileCopy` states.
- The job's `rootMountPoint` global-storage value is an optional string. Other falsy values, such
  as a number, are not modelled.
- `exclude` and `excludeFile` use the empty list and the empty string for "not given", which is
  how the job treats them (`entry.get(…)` is only used when truthy).
- rsync's output is taken as decoded lines. The `.` of the progress regex takes any character
  except a line feed.
- The progress regex's `\d` is taken as the ASCII digits 0-9. Python's `\d` on `str` also
  matches other Unicode decimal digits, which rsync does not write.
- An `extraMounts` entry without a `mountPoint` key raises `KeyError` in `global_excludes`. The
  model's `ExtraMount` always has a mount point, so that failure is not modelled.
