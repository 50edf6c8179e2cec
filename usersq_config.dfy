/**
 * The controller of the user-account page: readiness flags, name suggestions,
 * password acceptance and the jobs it hands to the installer's job queue.
 *
 * Text handling follows Qt: QString::split keeps empty parts, QString::simplified
 * trims and collapses runs of blanks, and the two validation regexes are
 * anchored, so they are predicates over the whole string.
 */
module UsersConfig {

  // ---------------------------------------------------------------------------
  // Character classes and the two validation regexes
  // ---------------------------------------------------------------------------

  predicate IsLower(c: char) { 'a' <= c <= 'z' }
  predicate IsUpper(c: char) { 'A' <= c <= 'Z' }
  predicate IsDigit(c: char) { '0' <= c <= '9' }

  predicate UsernameStart(c: char) { IsLower(c) || c == '_' }
  predicate UsernameBody(c: char) { IsLower(c) || IsDigit(c) || c == '_' || c == '-' }

  /** USERNAME_RX, `^[a-z_][a-z0-9_-]*[$]?$`: a start character, body characters,
      and optionally a single trailing dollar sign. */
  predicate MatchesUsernameRx(s: string) {
    && |s| >= 1
    && UsernameStart(s[0])
    && (forall i :: 1 <= i < |s| - 1 ==> UsernameBody(s[i]))
    && (|s| == 1 || UsernameBody(s[|s| - 1]) || s[|s| - 1] == '$')
  }

  predicate HostnameStart(c: char) { IsLower(c) || IsUpper(c) || IsDigit(c) }
  predicate HostnameBody(c: char) { HostnameStart(c) || c == '-' || c == '_' }

  /** HOSTNAME_RX, `^[a-zA-Z0-9][-a-zA-Z0-9_]*$`. */
  predicate MatchesHostnameRx(s: string) {
    && |s| >= 1
    && HostnameStart(s[0])
    && (forall i :: 1 <= i < |s| ==> HostnameBody(s[i]))
  }

  /** A word made only of lower-case ASCII letters and digits. */
  predicate LowerAlnum(w: string) {
    forall i :: 0 <= i < |w| ==> IsLower(w[i]) || IsDigit(w[i])
  }

  // ---------------------------------------------------------------------------
  // Qt string operations used by fillSuggestions
  // ---------------------------------------------------------------------------

  function LowerAscii(c: char): char {
    if IsUpper(c) then (c as int + 32) as char else c
  }

  /** One character of `toLower().replace( [^a-zA-Z0-9 ], " " )`. */
  function CleanChar(c: char): (r: char)
    ensures IsLower(r) || IsDigit(r) || r == ' '
  {
    var l := LowerAscii(c);
    if IsLower(l) || IsDigit(l) || l == ' ' then l else ' '
  }

  function Cleaned(s: string): string {
    seq(|s|, i requires 0 <= i < |s| => CleanChar(s[i]))
  }

  /** QString::split with empty parts kept: there is always at least one part,
      no part holds the separator, and every character of a part comes from `s`. */
  function Split(s: string, sep: char): (parts: seq<string>)
    ensures |parts| >= 1
    ensures forall k :: 0 <= k < |parts| ==> sep !in parts[k]
    ensures forall k, c :: 0 <= k < |parts| && c in parts[k] ==> c in s
    decreases |s|
  {
    if s == [] then [""]
    else
      var rest := Split(s[1..], sep);
      assert forall c :: c in s[1..] ==> c in s;
      if s[0] == sep then [""] + rest
      else [[s[0]] + rest[0]] + rest[1..]
  }

  /** QStringList::join with a one-character separator. */
  function Join(parts: seq<string>, sep: char): string
    decreases |parts|
  {
    if |parts| == 0 then ""
    else if |parts| == 1 then parts[0]
    else parts[0] + [sep] + Join(parts[1..], sep)
  }

  /** The non-empty parts, in order. */
  function NonEmpty(parts: seq<string>): (r: seq<string>)
    ensures forall k :: 0 <= k < |r| ==> r[k] != "" && r[k] in parts
    decreases |parts|
  {
    if parts == [] then []
    else (if parts[0] == "" then [] else [parts[0]]) + NonEmpty(parts[1..])
  }

  /** The blank-separated words of `s`. */
  function Words(s: string): seq<string> {
    NonEmpty(Split(s, ' '))
  }

  /** QString::simplified on a string whose only white space is the blank:
      leading and trailing blanks dropped, each inner run of blanks made one. */
  function Simplified(s: string): string {
    Join(Words(s), ' ')
  }

  /** The `cleanParts` list of fillSuggestions for an already diacritics-free name. */
  function CleanParts(name: string): seq<string> {
    Split(Simplified(Cleaned(name)), ' ')
  }

  lemma {:induction false} SplitPrefix(w: string, t: string, sep: char)
    requires sep !in w
    ensures Split(w + t, sep) == [w + Split(t, sep)[0]] + Split(t, sep)[1..]
    decreases |w|
  {
    if w != [] {
      assert (w + t)[1..] == w[1..] + t;
      assert (w + t)[0] == w[0] != sep;
      SplitPrefix(w[1..], t, sep);
      var r := Split(w[1..] + t, sep);
      assert Split(w + t, sep) == [[w[0]] + r[0]] + r[1..];
      assert [w[0]] + (w[1..] + Split(t, sep)[0]) == w + Split(t, sep)[0];
    } else {
      assert w + t == t;
      assert w + Split(t, sep)[0] == Split(t, sep)[0];
      assert Split(t, sep) == [Split(t, sep)[0]] + Split(t, sep)[1..];
    }
  }

  /** Splitting a join gives back the parts, when no part holds the separator. */
  lemma {:induction false} SplitJoin(parts: seq<string>, sep: char)
    requires |parts| >= 1
    requires forall k :: 0 <= k < |parts| ==> sep !in parts[k]
    ensures Split(Join(parts, sep), sep) == parts
    decreases |parts|
  {
    if |parts| == 1 {
      SplitPrefix(parts[0], "", sep);
      assert parts[0] + "" == parts[0];
    } else {
      var rest := Join(parts[1..], sep);
      assert parts[0] + [sep] + rest == parts[0] + ([sep] + rest);
      SplitPrefix(parts[0], [sep] + rest, sep);
      assert ([sep] + rest)[1..] == rest;
      assert Split([sep] + rest, sep) == [""] + Split(rest, sep);
      assert parts[0] + "" == parts[0];
      SplitJoin(parts[1..], sep);
      assert parts == [parts[0]] + parts[1..];
    }
  }

  /** Joining the parts of a split gives back the string. */
  lemma {:induction false} JoinSplit(s: string, sep: char)
    ensures Join(Split(s, sep), sep) == s
    decreases |s|
  {
    if s != [] {
      var rest := Split(s[1..], sep);
      JoinSplit(s[1..], sep);
      if s[0] == sep {
        assert Join([""] + rest, sep) == "" + [sep] + Join(rest, sep);
      } else {
        var parts := [[s[0]] + rest[0]] + rest[1..];
        if |rest| == 1 {
          assert Join(rest, sep) == rest[0];
        } else {
          assert Join(rest, sep) == rest[0] + [sep] + Join(rest[1..], sep);
          assert parts[1..] == rest[1..];
        }
        assert s == [s[0]] + s[1..];
      }
    }
  }

  /** QString::simplified leaves no empty part to split off: the parts of the
      simplified string are exactly its words, or a single empty part. */
  lemma SplitSimplified(s: string)
    ensures Split(Simplified(s), ' ') == if Words(s) == [] then [""] else Words(s)
  {
    var ws := Words(s);
    if ws != [] {
      forall k | 0 <= k < |ws| ensures ' ' !in ws[k] {
        assert ws[k] in Split(s, ' ');
      }
      SplitJoin(ws, ' ');
    }
  }

  /** Every word of a cleaned name is a non-empty lower-case alphanumeric word. */
  lemma CleanedWords(name: string)
    ensures forall k :: 0 <= k < |Words(Cleaned(name))| ==>
      Words(Cleaned(name))[k] != "" && LowerAlnum(Words(Cleaned(name))[k])
  {
    var s := Cleaned(name);
    var parts := Split(s, ' ');
    var ws := Words(s);
    forall k | 0 <= k < |ws| ensures ws[k] != "" && LowerAlnum(ws[k]) {
      assert ws[k] in parts;
      var j :| 0 <= j < |parts| && parts[j] == ws[k];
      forall i | 0 <= i < |ws[k]| ensures IsLower(ws[k][i]) || IsDigit(ws[k][i]) {
        var c := ws[k][i];
        assert c in parts[j];
        assert c in s && c != ' ';
        var m :| 0 <= m < |s| && s[m] == c;
        assert s[m] == CleanChar(name[m]);
      }
    }
  }

  // ---------------------------------------------------------------------------
  // Suggestions
  // ---------------------------------------------------------------------------

  /** The first character of every non-empty part, in order. */
  function Initials(parts: seq<string>): string
    decreases |parts|
  {
    if parts == [] then ""
    else
      var last := parts[|parts| - 1];
      Initials(parts[..|parts| - 1]) + (if last != "" then [last[0]] else "")
  }

  /** The first character of every part (all of them non-empty). */
  function Firsts(ws: seq<string>): (r: string)
    requires forall k :: 0 <= k < |ws| ==> ws[k] != ""
    ensures |r| == |ws| && forall k :: 0 <= k < |ws| ==> r[k] == ws[k][0]
  {
    seq(|ws|, k requires 0 <= k < |ws| => ws[k][0])
  }

  lemma {:induction false} InitialsOfWords(ws: seq<string>)
    requires forall k :: 0 <= k < |ws| ==> ws[k] != ""
    ensures Initials(ws) == Firsts(ws)
    decreases |ws|
  {
    if ws != [] {
      InitialsOfWords(ws[..|ws| - 1]);
    }
  }

  /** The user-name suggestion: the first part followed by the initials of the rest. */
  function UsernameSuggestion(parts: seq<string>): string
    requires |parts| >= 1
  {
    parts[0] + Initials(parts[1..])
  }

  /** The host-name suggestion, `%1-pc` filled with the first part. */
  function HostnameSuggestion(parts: seq<string>): string
    requires |parts| >= 1
  {
    parts[0] + "-pc"
  }

  /** For non-empty lower-case alphanumeric words, the user-name suggestion is
      the first word followed by the first letter of every other word, and it
      passes USERNAME_RX exactly when the first word starts with a letter. */
  lemma UsernameSuggestionOfWords(ws: seq<string>)
    requires ws != []
    requires forall k :: 0 <= k < |ws| ==> ws[k] != "" && LowerAlnum(ws[k])
    ensures UsernameSuggestion(ws) == ws[0] + Firsts(ws[1..])
    ensures MatchesUsernameRx(UsernameSuggestion(ws)) <==> IsLower(ws[0][0])
  {
    var rest := ws[1..];
    assert forall k :: 0 <= k < |rest| ==> rest[k] == ws[k + 1];
    InitialsOfWords(rest);
    var u := UsernameSuggestion(ws);
    var first := ws[0];
    assert u == first + Firsts(rest);
    assert LowerAlnum(first);
    forall i | 0 <= i < |u| ensures IsLower(u[i]) || IsDigit(u[i]) {
      if i >= |first| {
        var k := i - |first|;
        assert u[i] == ws[k + 1][0];
        assert LowerAlnum(ws[k + 1]);
      }
    }
    assert u[0] == first[0];
  }

  /** `<word>-pc` passes HOSTNAME_RX for every non-empty lower-case alphanumeric word. */
  lemma HostnameSuggestionOfWord(w: string)
    requires w != "" && LowerAlnum(w)
    ensures MatchesHostnameRx(w + "-pc")
  {
    var h := w + "-pc";
    forall i | 1 <= i < |h| ensures HostnameBody(h[i]) {
      if i < |w| {
        assert h[i] == w[i];
      }
    }
  }

  /** What fillSuggestions derives from a full name `name` (diacritics already
      removed): with `ws` its cleaned words, a suggestion exists iff `ws` is not
      empty; the user name is the first word and the initials of the others, and
      it passes USERNAME_RX iff the first word starts with a letter; the host name
      `<first word>-pc` always passes HOSTNAME_RX. */
  lemma SuggestionsForName(name: string)
    ensures var parts, ws := CleanParts(name), Words(Cleaned(name));
      && (parts[0] != "" <==> ws != [])
      && (ws != [] ==>
            && UsernameSuggestion(parts) == ws[0] + Firsts(ws[1..])
            && (MatchesUsernameRx(UsernameSuggestion(parts)) <==> IsLower(ws[0][0]))
            && MatchesHostnameRx(HostnameSuggestion(parts)))
  {
    var parts, ws := CleanParts(name), Words(Cleaned(name));
    SplitSimplified(Cleaned(name));
    CleanedWords(name);
    if ws != [] {
      assert parts == ws;
      UsernameSuggestionOfWords(ws);
      HostnameSuggestionOfWord(ws[0]);
    }
  }

  /** The loop of fillSuggestions that appends the initials of the later parts
      to the first one. */
  method BuildUsernameSuggestion(parts: seq<string>) returns (suggestion: string)
    requires |parts| >= 1
    ensures suggestion == UsernameSuggestion(parts)
  {
    suggestion := parts[0];
    var i := 1;
    while i < |parts|
      invariant 1 <= i <= |parts|
      invariant suggestion == parts[0] + Initials(parts[1..i])
    {
      if parts[i] != "" {
        suggestion := suggestion + [parts[i][0]];
      }
      assert parts[1..i + 1][..i - 1] == parts[1..i];
      i := i + 1;
    }
    assert parts[1..i] == parts[1..];
  }

  // ---------------------------------------------------------------------------
  // Password checks
  // ---------------------------------------------------------------------------

  /** A password check: its weight orders the checks, and its message is what
      `filter` reports for a password the check does not accept. */
  datatype PasswordCheck = PasswordCheck(weight: int, message: string, accept: string -> bool)

  /** PasswordCheck::filter: empty when the password is accepted, otherwise the message. */
  function Filter(pc: PasswordCheck, pw: string): string {
    if pc.accept(pw) then "" else pc.message
  }

  predicate Fails(pc: PasswordCheck, pw: string) { Filter(pc, pw) != "" }

  /** The "nonempty" check, weight 1. */
  function NonEmptyCheck(): PasswordCheck {
    PasswordCheck(1, "Password is empty", (s: string) => s != "")
  }

  predicate WeightSorted(cs: seq<PasswordCheck>) {
    forall i, j :: 0 <= i < j < |cs| ==> cs[i].weight <= cs[j].weight
  }

  /** Index of the first check that fails `pw`, or |cs| when none does. */
  function FirstFailing(cs: seq<PasswordCheck>, pw: string): (k: nat)
    ensures k <= |cs|
    ensures forall j :: 0 <= j < k ==> !Fails(cs[j], pw)
    ensures k < |cs| ==> Fails(cs[k], pw)
    decreases |cs|
  {
    if cs == [] then 0
    else if Fails(cs[0], pw) then 0
    else 1 + FirstFailing(cs[1..], pw)
  }

  /** The message of the last check that fails `pw`, or "" when none does. */
  function LastFailureMessage(cs: seq<PasswordCheck>, pw: string): (m: string)
    ensures m == "" <==> forall j :: 0 <= j < |cs| ==> !Fails(cs[j], pw)
    decreases |cs|
  {
    if cs == [] then ""
    else if Fails(cs[|cs| - 1], pw) then Filter(cs[|cs| - 1], pw)
    else LastFailureMessage(cs[..|cs| - 1], pw)
  }

  /** Places `pc` after every check of no greater weight (std::sort's ordering
      on PasswordCheck::operator<, which compares weights). */
  method InsertByWeight(cs: seq<PasswordCheck>, pc: PasswordCheck) returns (r: seq<PasswordCheck>)
    requires WeightSorted(cs)
    ensures WeightSorted(r)
    ensures multiset(r) == multiset(cs) + multiset{pc}
  {
    var k := 0;
    while k < |cs| && cs[k].weight <= pc.weight
      invariant 0 <= k <= |cs|
      invariant forall j :: 0 <= j < k ==> cs[j].weight <= pc.weight
    {
      k := k + 1;
    }
    r := cs[..k] + [pc] + cs[k..];
    forall i, j | 0 <= i < j < |r| ensures r[i].weight <= r[j].weight {
      if i < k && j == k {
        assert r[i] == cs[i];
      } else if i < k && j > k {
        assert r[i] == cs[i] && r[j] == cs[j - 1];
      } else if i == k {
        assert r[j] == cs[j - 1];
      } else if i > k {
        assert r[i] == cs[i - 1] && r[j] == cs[j - 1];
      }
    }
    assert cs == cs[..k] + cs[k..];
  }

  /** std::sort of the password checks: a permutation ordered by weight. */
  method SortChecks(cs: seq<PasswordCheck>) returns (r: seq<PasswordCheck>)
    ensures WeightSorted(r)
    ensures multiset(r) == multiset(cs)
  {
    r := [];
    var i := 0;
    while i < |cs|
      invariant 0 <= i <= |cs|
      invariant WeightSorted(r)
      invariant multiset(r) == multiset(cs[..i])
    {
      r := InsertByWeight(r, cs[i]);
      assert cs[..i + 1] == cs[..i] + [cs[i]];
      i := i + 1;
    }
    assert cs[..i] == cs;
  }

  /** The loop of checkPasswordAcceptance over checks already sorted: when
      failures are fatal the first failing check rejects the password with its
      message; otherwise the password is accepted and the last failure's
      message is the warning shown ("" when every check passes). */
  method RunChecks(checks: seq<PasswordCheck>, pw: string, failureIsFatal: bool)
    returns (accepted: bool, message: string)
    ensures failureIsFatal ==>
      var k := FirstFailing(checks, pw);
      && (accepted <==> k == |checks|)
      && message == if k < |checks| then Filter(checks[k], pw) else ""
    ensures !failureIsFatal ==> accepted && message == LastFailureMessage(checks, pw)
  {
    var failureFound := false;
    message := "";
    var i := 0;
    while i < |checks|
      invariant 0 <= i <= |checks|
      invariant failureIsFatal ==> forall j :: 0 <= j < i ==> !Fails(checks[j], pw)
      invariant message == LastFailureMessage(checks[..i], pw)
      invariant failureFound <==> message != ""
    {
      var s := Filter(checks[i], pw);
      assert checks[..i + 1][..i] == checks[..i];
      if s != "" {
        message := s;
        failureFound := true;
        if failureIsFatal {
          return false, message;
        }
      }
      i := i + 1;
    }
    assert checks[..i] == checks;
    return true, message;
  }

  // ---------------------------------------------------------------------------
  // Jobs and global storage
  // ---------------------------------------------------------------------------

  datatype Job =
    | CreateUserJob(userName: string, fullName: string, autoLogin: bool, groups: seq<string>)
    | SetPasswordJob(user: string, password: string)
    | SetHostNameJob(hostName: string)

  datatype GsValue = GsString(s: string) | GsBool(b: bool)

  /** The installer's global storage: a key-value map shared by all modules. */
  class GlobalStorage {
    var data: map<string, GsValue>

    constructor ()
      ensures data == map[]
    {
      data := map[];
    }

    method Insert(key: string, value: GsValue)
      modifies this
      ensures data == old(data)[key := value]
    {
      data := data[key := value];
    }
  }

  const MismatchMessage: string := "Your passwords do not match!"

  /** The global-storage keys createJobs writes: "hostname", "username" and
      "password" always, "reuseRootPassword" only when the root password is
      written, "autologinUser" only with automatic login. */
  function JobStorageKeys(writeRootPassword: bool, autoLogin: bool): set<string> {
    {"hostname", "username", "password"}
    + (if writeRootPassword then {"reuseRootPassword"} else {})
    + (if autoLogin then {"autologinUser"} else {})
  }

  /** The checkReady emissions of a step that emits `ready` exactly when
      `emitted` holds. */
  function Signal(emitted: bool, ready: bool): seq<bool> {
    if emitted then [ready] else []
  }

  /** The five keys are different entries of the storage. */
  lemma StorageKeysDistinct()
    ensures "hostname" != "username" && "hostname" != "password" && "username" != "password"
    ensures "reuseRootPassword" !in {"hostname", "username", "password", "autologinUser"}
    ensures "autologinUser" !in {"hostname", "username", "password"}
  {
    assert "hostname"[0] != "username"[0] && "hostname"[0] != "password"[0] && "username"[0] != "password"[0];
    assert "reuseRootPassword"[0] !in {"hostname"[0], "username"[0], "password"[0], "autologinUser"[0]};
    assert "autologinUser"[0] !in {"hostname"[0], "username"[0], "password"[0]};
  }

  /** The storage after createJobs's writes, in the order it makes them. */
  function StoredSettings(data: map<string, GsValue>, hostName: string, userName: string, password: string,
                          writeRootPassword: bool, reusePassword: bool, autoLogin: bool): map<string, GsValue>
  {
    var withReuse := if writeRootPassword then data["reuseRootPassword" := GsBool(reusePassword)] else data;
    var withHost := withReuse["hostname" := GsString(hostName)];
    var withLogin := if autoLogin then withHost["autologinUser" := GsString(userName)] else withHost;
    withLogin["username" := GsString(userName)]["password" := GsString(password)]
  }

  /** createJobs adds exactly its keys, with the values the later modules
      read, and leaves every other entry as it was. */
  lemma StoredSettingsSpec(data: map<string, GsValue>, hostName: string, userName: string, password: string,
                           writeRootPassword: bool, reusePassword: bool, autoLogin: bool)
    ensures var m := StoredSettings(data, hostName, userName, password, writeRootPassword, reusePassword, autoLogin);
      && m.Keys == data.Keys + JobStorageKeys(writeRootPassword, autoLogin)
      && m["hostname"] == GsString(hostName)
      && m["username"] == GsString(userName)
      && m["password"] == GsString(password)
      && (writeRootPassword ==> m["reuseRootPassword"] == GsBool(reusePassword))
      && (autoLogin ==> m["autologinUser"] == GsString(userName))
      && forall k :: k in data && k !in JobStorageKeys(writeRootPassword, autoLogin) ==> k in m && m[k] == data[k]
  {
    StorageKeysDistinct();
  }

  // ---------------------------------------------------------------------------
  // The page controller
  // ---------------------------------------------------------------------------

  class Config {
    var readyFullName: bool
    var readyUsername: bool
    var readyHostname: bool
    var readyPassword: bool
    var readyRootPassword: bool
    var writeRootPassword: bool
    var reusePassword: bool
    var autoLogin: bool
    /** The "validate password" check box: failed checks are fatal when set. */
    var validatePassword: bool
    var customUsername: bool
    var customHostname: bool
    var fullName: string
    var userName: string
    var hostName: string
    var userPassword: string
    var rootPassword: string
    var warningMessage: string
    var passwordChecks: seq<PasswordCheck>
    var passwordChecksChanged: bool
    /** The values carried by the checkReady signal, in the order emitted. */
    var readySignals: seq<bool>

    /** Every ready flag starts false, the root password is written, and no
        field is custom. The reuse, auto-login and validate settings have no
        initialiser in this class, so they are given. */
    constructor (reuse: bool, autoLoginSetting: bool, validate: bool)
      ensures !readyFullName && !readyUsername && !readyHostname
      ensures !readyPassword && !readyRootPassword
      ensures writeRootPassword && !customUsername && !customHostname
      ensures reusePassword == reuse && autoLogin == autoLoginSetting
      ensures validatePassword == validate
      ensures fullName == "" && userName == "" && hostName == ""
      ensures userPassword == "" && rootPassword == "" && warningMessage == ""
      ensures passwordChecks == [] && !passwordChecksChanged && readySignals == []
    {
      readyFullName, readyUsername, readyHostname := false, false, false;
      readyPassword, readyRootPassword := false, false;
      writeRootPassword := true;
      reusePassword, autoLogin, validatePassword := reuse, autoLoginSetting, validate;
      customUsername, customHostname := false, false;
      fullName, userName, hostName := "", "", "";
      userPassword, rootPassword, warningMessage := "", "", "";
      passwordChecks, passwordChecksChanged := [], false;
      readySignals := [];
    }

    /** The page is ready when the four field flags are set; the root-password
        flag matters only when a root password is written and not reused. */
    predicate IsReady()
      reads this`readyFullName, this`readyHostname, this`readyPassword, this`readyUsername
      reads this`writeRootPassword, this`reusePassword, this`readyRootPassword
      ensures IsReady() <==>
        && readyFullName && readyHostname && readyPassword && readyUsername
        && (writeRootPassword && !reusePassword ==> readyRootPassword)
    {
      var readyFields := readyFullName && readyHostname && readyPassword && readyUsername;
      if !writeRootPassword || reusePassword then readyFields
      else readyFields && readyRootPassword
    }

    /** The root password the jobs set: none when root's password is not
        written, the user's when it is reused, and root's own otherwise. */
    function RootPasswordToSet(): string
      reads this
    {
      if !writeRootPassword then "" else if reusePassword then userPassword else rootPassword
    }

    /** createJobs: nothing when not ready; otherwise four jobs in order (create
        the user, set its password, set root's password, set the host name) and
        the global-storage entries for the later modules. */
    method CreateJobs(defaultGroups: seq<string>, gs: GlobalStorage, obscure: string -> string)
      returns (jobs: seq<Job>)
      modifies gs
      ensures !IsReady() ==> jobs == [] && gs.data == old(gs.data)
      ensures IsReady() ==> jobs == [
        CreateUserJob(userName, if fullName == "" then userName else fullName, autoLogin, defaultGroups),
        SetPasswordJob(userName, userPassword),
        SetPasswordJob("root", RootPasswordToSet()),
        SetHostNameJob(hostName)]
      ensures IsReady() ==> gs.data.Keys == old(gs.data).Keys + JobStorageKeys(writeRootPassword, autoLogin)
      ensures IsReady() ==>
        && gs.data["hostname"] == GsString(hostName)
        && gs.data["username"] == GsString(userName)
        && gs.data["password"] == GsString(obscure(userPassword))
        && (writeRootPassword ==> gs.data["reuseRootPassword"] == GsBool(reusePassword))
        && (autoLogin ==> gs.data["autologinUser"] == GsString(userName))
      ensures forall k :: k in old(gs.data) && k !in JobStorageKeys(writeRootPassword, autoLogin) ==>
        k in gs.data && gs.data[k] == old(gs.data)[k]
    {
      if !IsReady() {
        return [];
      }
      jobs := [CreateUserJob(userName, if fullName == "" then userName else fullName, autoLogin, defaultGroups)];
      jobs := jobs + [SetPasswordJob(userName, userPassword)];
      if writeRootPassword {
        if reusePassword {
          jobs := jobs + [SetPasswordJob("root", userPassword)];
        } else {
          jobs := jobs + [SetPasswordJob("root", rootPassword)];
        }
      } else {
        jobs := jobs + [SetPasswordJob("root", "")];
      }
      jobs := jobs + [SetHostNameJob(hostName)];
      StoreJobSettings(gs, obscure);
      StoredSettingsSpec(old(gs.data), hostName, userName, obscure(userPassword), writeRootPassword, reusePassword, autoLogin);
    }

    /** The global-storage writes of createJobs. */
    method StoreJobSettings(gs: GlobalStorage, obscure: string -> string)
      modifies gs
      ensures gs.data == StoredSettings(old(gs.data), hostName, userName, obscure(userPassword),
                                        writeRootPassword, reusePassword, autoLogin)
    {
      if writeRootPassword {
        gs.Insert("reuseRootPassword", GsBool(reusePassword));
      }
      gs.Insert("hostname", GsString(hostName));
      if autoLogin {
        gs.Insert("autologinUser", GsString(userName));
      }
      gs.Insert("username", GsString(userName));
      gs.Insert("password", GsString(obscure(userPassword)));
    }

    method SetWriteRootPassword(write: bool)
      modifies this`writeRootPassword
      ensures writeRootPassword == write
    {
      writeRootPassword := write;
    }

    /** validateUsernameText and validateHostnameText: with their checks
        disabled, all that remains is announcing the readiness. */
    method EmitCheckReady()
      modifies this`readySignals
      ensures readySignals == old(readySignals) + [IsReady()]
      ensures IsReady() == old(IsReady())
    {
      readySignals := readySignals + [IsReady()];
    }

    /** setValidatePasswordDefault: checks or clears the validate box, then
        announces the readiness, which the box does not affect. */
    method SetValidatePasswordDefault(checked: bool)
      modifies this`validatePassword, this`readySignals
      ensures validatePassword == checked
      ensures readySignals == old(readySignals) + [IsReady()]
      ensures IsReady() == old(IsReady())
    {
      validatePassword := checked;
      readySignals := readySignals + [IsReady()];
    }

    /** setAutologinDefault: checks or clears the auto-login box, which
        nothing here reads (the jobs use the auto-login setting), then
        announces the readiness. */
    method SetAutologinDefault(checked: bool)
      modifies this`readySignals
      ensures readySignals == old(readySignals) + [IsReady()]
      ensures IsReady() == old(IsReady())
    {
      readySignals := readySignals + [IsReady()];
    }

    /** setReusePasswordDefault: checks or clears the reuse box; with its
        connection commented out, the reuse setting that readiness and the
        jobs read stays as it was. Then announces the readiness. */
    method SetReusePasswordDefault(checked: bool)
      modifies this`readySignals
      ensures readySignals == old(readySignals) + [IsReady()]
      ensures IsReady() == old(IsReady())
    {
      readySignals := readySignals + [IsReady()];
    }

    /** onActivate re-runs both password handlers, each of which announces
        the readiness. */
    method OnActivate()
      modifies this`readySignals
      ensures readySignals == old(readySignals) + [IsReady(), IsReady()]
    {
      EmitCheckReady();
      EmitCheckReady();
    }

    /** Editing the full name. Empty text clears the name and the warning, the
        user and host names unless they are custom, and readyFullName; other
        text sets readyFullName and fills in the suggestions. */
    method OnFullNameTextEdited(text: string, removeDiacritics: string -> string)
      modifies this`warningMessage, this`fullName, this`userName, this`hostName, this`readyFullName
      modifies this`customUsername, this`customHostname, this`readySignals
      ensures customUsername == old(customUsername) && customHostname == old(customHostname)
      ensures text == "" ==>
        && fullName == "" && warningMessage == "" && !readyFullName
        && userName == (if customUsername then old(userName) else "")
        && hostName == (if customHostname then old(hostName) else "")
        && readySignals == old(readySignals) + [IsReady()]
      ensures text != "" ==>
        && readyFullName && fullName == old(fullName) && warningMessage == old(warningMessage)
        && userName == SuggestedUsername(CleanParts(removeDiacritics(old(fullName))), old(customUsername), old(userName))
        && hostName == SuggestedHostname(CleanParts(removeDiacritics(old(fullName))), old(customHostname), old(hostName))
      ensures text != "" ==>
        var parts := CleanParts(removeDiacritics(old(fullName)));
        readySignals == old(readySignals) + Signal(UsernameAdopted(parts, old(customUsername)), IsReady())
          + Signal(HostnameAdopted(parts, old(customHostname)), IsReady()) + [IsReady()]
    {
      if text == "" {
        warningMessage := "";
        fullName := "";
        if !customUsername {
          userName := "";
        }
        if !customHostname {
          hostName := "";
        }
        readyFullName := false;
      } else {
        AcceptFullName(removeDiacritics);
      }
      EmitCheckReady();
    }

    /** The branch of onFullNameTextEdited for non-empty text. */
    method AcceptFullName(removeDiacritics: string -> string)
      modifies this`readyFullName, this`userName, this`hostName, this`customUsername, this`customHostname, this`readySignals
      ensures readyFullName && fullName == old(fullName) && warningMessage == old(warningMessage)
      ensures customUsername == old(customUsername) && customHostname == old(customHostname)
      ensures userName == SuggestedUsername(CleanParts(removeDiacritics(old(fullName))), old(customUsername), old(userName))
      ensures hostName == SuggestedHostname(CleanParts(removeDiacritics(old(fullName))), old(customHostname), old(hostName))
      ensures var parts := CleanParts(removeDiacritics(old(fullName)));
        readySignals == old(readySignals) + Signal(UsernameAdopted(parts, old(customUsername)), IsReady())
          + Signal(HostnameAdopted(parts, old(customHostname)), IsReady())
    {
      readyFullName := true;
      FillSuggestions(removeDiacritics);
    }

    /** Suggests a user name and a host name from the stored full name, each
        adopted only when that field is not custom and the suggestion passes
        its regex. */
    method FillSuggestions(removeDiacritics: string -> string)
      modifies this`userName, this`hostName, this`customUsername, this`customHostname, this`readySignals
      ensures userName == SuggestedUsername(CleanParts(removeDiacritics(old(fullName))), old(customUsername), old(userName))
      ensures hostName == SuggestedHostname(CleanParts(removeDiacritics(old(fullName))), old(customHostname), old(hostName))
      ensures customUsername == old(customUsername) && customHostname == old(customHostname)
      ensures readySignals == old(readySignals) + Signal(UsernameAdopted(CleanParts(removeDiacritics(old(fullName))), old(customUsername)), IsReady())
        + Signal(HostnameAdopted(CleanParts(removeDiacritics(old(fullName))), old(customHostname)), IsReady())
    {
      var cleanParts := CleanParts(removeDiacritics(fullName));
      SuggestUsername(cleanParts);
      SuggestHostname(cleanParts);
    }

    /** The user-name half of fillSuggestions. */
    method SuggestUsername(cleanParts: seq<string>)
      requires |cleanParts| >= 1
      modifies this`userName, this`customUsername, this`readySignals
      ensures userName == SuggestedUsername(cleanParts, customUsername, old(userName))
      ensures customUsername == old(customUsername)
      ensures readySignals == old(readySignals) + Signal(UsernameAdopted(cleanParts, customUsername), IsReady())
    {
      if !customUsername && cleanParts[0] != "" {
        var suggestion := BuildUsernameSuggestion(cleanParts);
        if MatchesUsernameRx(suggestion) {
          userName := suggestion;
          EmitCheckReady();
          customUsername := false;
        }
      }
    }

    /** The host-name half of fillSuggestions. */
    method SuggestHostname(cleanParts: seq<string>)
      requires |cleanParts| >= 1
      modifies this`hostName, this`customHostname, this`readySignals
      ensures hostName == SuggestedHostname(cleanParts, customHostname, old(hostName))
      ensures customHostname == old(customHostname)
      ensures readySignals == old(readySignals) + Signal(HostnameAdopted(cleanParts, customHostname), IsReady())
    {
      if !customHostname && cleanParts[0] != "" {
        var suggestion := cleanParts[0] + "-pc";
        if MatchesHostnameRx(suggestion) {
          hostName := suggestion;
          EmitCheckReady();
          customHostname := false;
        }
      }
    }

    /** Editing the user name marks it custom; the text itself is only
        validated, and validation no longer changes a flag. */
    method OnUsernameTextEdited(text: string)
      modifies this`customUsername, this`readySignals
      ensures customUsername
      ensures readySignals == old(readySignals) + [IsReady()]
    {
      customUsername := true;
      EmitCheckReady();
    }

    /** Editing the host name marks it custom. */
    method OnHostnameTextEdited(text: string)
      modifies this`customHostname, this`readySignals
      ensures customHostname
      ensures readySignals == old(readySignals) + [IsReady()]
    {
      customHostname := true;
      EmitCheckReady();
    }

    /** onPasswordTextChanged and onRootPasswordTextChanged: their checks are
        disabled, so they only announce the readiness. */
    method OnPasswordTextChanged()
      modifies this`readySignals
      ensures readySignals == old(readySignals) + [IsReady()]
    {
      EmitCheckReady();
    }

    /** Accepts a password and its repetition. Different texts are rejected.
        Otherwise the checks are sorted by weight if they changed since the last
        sort; with validation on, the first failing check rejects the password
        and its message is shown; with validation off the password is accepted
        and the last failing check's message is shown as a warning. */
    method CheckPasswordAcceptance(pw1: string, pw2: string) returns (accepted: bool, message: string)
      modifies this`passwordChecks, this`passwordChecksChanged
      ensures pw1 != pw2 ==>
        && !accepted && message == MismatchMessage
        && passwordChecks == old(passwordChecks) && passwordChecksChanged == old(passwordChecksChanged)
      ensures pw1 == pw2 ==> !passwordChecksChanged
      ensures pw1 == pw2 && old(passwordChecksChanged) ==>
        WeightSorted(passwordChecks) && multiset(passwordChecks) == multiset(old(passwordChecks))
      ensures pw1 == pw2 && !old(passwordChecksChanged) ==> passwordChecks == old(passwordChecks)
      ensures pw1 == pw2 && validatePassword ==>
        var k := FirstFailing(passwordChecks, pw1);
        && (accepted <==> k == |passwordChecks|)
        && message == if k < |passwordChecks| then Filter(passwordChecks[k], pw1) else ""
      ensures pw1 == pw2 && !validatePassword ==>
        accepted && message == LastFailureMessage(passwordChecks, pw1)
    {
      if pw1 != pw2 {
        return false, MismatchMessage;
      }
      var failureIsFatal := validatePassword;
      if passwordChecksChanged {
        passwordChecks := SortChecks(passwordChecks);
        passwordChecksChanged := false;
      }

      accepted, message := RunChecks(passwordChecks, pw1, failureIsFatal);
    }

    /** Adds the checks a configuration key asks for and always marks the list
        changed. "minLength", "maxLength" and, in builds with libpwquality,
        "libpwquality" add what their helpers build (`helperChecks`);
        "nonempty" adds the non-empty check when its value is true; an unknown
        key adds nothing. */
    method AddPasswordCheck(key: string, enabled: bool, helperChecks: seq<PasswordCheck>, pwQualityBuild: bool)
      modifies this`passwordChecks, this`passwordChecksChanged
      ensures passwordChecksChanged
      ensures key == "minLength" || key == "maxLength" || (key == "libpwquality" && pwQualityBuild) ==>
        passwordChecks == old(passwordChecks) + helperChecks
      ensures key == "nonempty" ==>
        passwordChecks == old(passwordChecks) + (if enabled then [NonEmptyCheck()] else [])
      ensures key !in {"minLength", "maxLength", "nonempty"} && !(key == "libpwquality" && pwQualityBuild) ==>
        passwordChecks == old(passwordChecks)
    {
      passwordChecksChanged := true;
      if key == "minLength" {
        passwordChecks := passwordChecks + helperChecks;
      } else if key == "maxLength" {
        passwordChecks := passwordChecks + helperChecks;
      } else if key == "nonempty" {
        if enabled {
          passwordChecks := passwordChecks + [NonEmptyCheck()];
        }
      } else if key == "libpwquality" && pwQualityBuild {
        passwordChecks := passwordChecks + helperChecks;
      }
    }
  }

  /** The user name after fillSuggestions: the suggestion when the field is not
      custom, the cleaned name has a first part, and the suggestion passes
      USERNAME_RX; otherwise the previous user name. */
  function SuggestedUsername(parts: seq<string>, custom: bool, previous: string): string
    requires |parts| >= 1
  {
    if UsernameAdopted(parts, custom) then UsernameSuggestion(parts) else previous
  }

  /** fillSuggestions adopts the user-name suggestion. */
  predicate UsernameAdopted(parts: seq<string>, custom: bool)
    requires |parts| >= 1
  {
    !custom && parts[0] != "" && MatchesUsernameRx(UsernameSuggestion(parts))
  }

  /** The host name after fillSuggestions, chosen the same way with HOSTNAME_RX. */
  function SuggestedHostname(parts: seq<string>, custom: bool, previous: string): string
    requires |parts| >= 1
  {
    if HostnameAdopted(parts, custom) then HostnameSuggestion(parts) else previous
  }

  /** fillSuggestions adopts the host-name suggestion. */
  predicate HostnameAdopted(parts: seq<string>, custom: bool)
    requires |parts| >= 1
  {
    !custom && parts[0] != "" && MatchesHostnameRx(HostnameSuggestion(parts))
  }

  /** A custom user name survives every later suggestion. */
  lemma CustomUsernameKept(fullName: string, removeDiacritics: string -> string, previous: string)
    ensures SuggestedUsername(CleanParts(removeDiacritics(fullName)), true, previous) == previous
  {
  }

  /** When the host name is not custom and the full name has a word, the host
      name becomes that word followed by `-pc`. */
  lemma HostnameAlwaysSuggested(fullName: string, removeDiacritics: string -> string, previous: string)
    requires Words(Cleaned(removeDiacritics(fullName))) != []
    ensures SuggestedHostname(CleanParts(removeDiacritics(fullName)), false, previous)
      == Words(Cleaned(removeDiacritics(fullName)))[0] + "-pc"
  {
    SuggestionsForName(removeDiacritics(fullName));
    SplitSimplified(Cleaned(removeDiacritics(fullName)));
  }
}
