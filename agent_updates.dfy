/**
 * The Linux branch of the agent's update check (`check_linux_updates`):
 * pick the package manager by which binary exists, run its listing command,
 * turn each line of its standard output into at most one update record,
 * and report the first 50 records.
 *
 * Running the command is not modelled: its outcome (return code and decoded
 * standard output, or an exception) is an input.
 */
module AgentUpdates {
  import opened Wrappers
  import opened PyStr

  /** One entry of the `updates` list, with the six keys the agent reports. */
  datatype Update = Update(title: string, description: string, kb: string,
                           size: int, isImportant: bool, isCritical: bool)

  /** Which of `/usr/bin/apt`, `/usr/bin/yum`, `/usr/bin/dnf`, `/usr/bin/pacman` exist. */
  datatype Binaries = Binaries(apt: bool, yum: bool, dnf: bool, pacman: bool)

  /**
   * The outcome of the commands the check runs: the listing command completed with a return code
   * and its standard output (as text, so `\r\n` and `\r` already read as `\n`), or the check raised.
   * `Raised` covers the listing command and also the `apt update` / `pacman -Sy` refresh that runs
   * first: its return code is ignored, but a timeout or a missing binary raises and the check returns `[]`.
   */
  datatype Run = Completed(returnCode: int, stdout: string) | Raised

  /** The three listing formats: `apt list --upgradable`, `dnf/yum check-update`, `pacman -Qu`. */
  datatype Manager = Apt | CheckUpdate | Pacman

  /** At most this many records are reported. */
  const MaxUpdates: nat := 50

  /** A record as every Linux parser builds it: no KB number, size 0, neither important nor critical. */
  function Record(title: string, description: string): (u: Update)
    ensures u.title == title && u.description == description
    ensures IsLinuxRecord(u)
  {
    Update(title, description, "", 0, false, false)
  }

  predicate IsLinuxRecord(u: Update)
  {
    u.kb == "" && u.size == 0 && !u.isImportant && !u.isCritical
  }

  /** The manager chosen by the `if`/`elif` chain on which binaries exist: apt first, then yum/dnf, then pacman. */
  function ManagerFor(bins: Binaries): Option<Manager>
  {
    if bins.apt then Some(Apt)
    else if bins.yum || bins.dnf then Some(CheckUpdate)
    else if bins.pacman then Some(Pacman)
    else None
  }

  /** The listing command line the agent runs for the chosen manager (`dnf` preferred to `yum`). */
  function ListingCommand(bins: Binaries): (argv: Option<seq<string>>)
    ensures argv.None? <==> ManagerFor(bins).None?
  {
    match ManagerFor(bins)
    case None => None
    case Some(Apt) => Some(["apt", "list", "--upgradable"])
    case Some(CheckUpdate) => Some([if bins.dnf then "dnf" else "yum", "check-update"])
    case Some(Pacman) => Some(["pacman", "-Qu"])
  }

  /** The only return code for which the manager's output is parsed: 100 for check-update, 0 otherwise. */
  function SuccessCode(m: Manager): int
  {
    if m == CheckUpdate then 100 else 0
  }

  /** One line of `apt list --upgradable`, e.g. `curl/jammy-updates 7.81.0-1ubuntu1.15 amd64 [upgradable from: ...]`. */
  function AptRecord(line: string): Option<Update>
  {
    if Contains(line, "upgradable") && '/' in line then
      var parts := SplitWs(line);
      if |parts| > 0 then
        var package := SplitOn(parts[0], '/')[0];
        var version := if |parts| > 1 then parts[1] else "unknown";
        Some(Record(package, "Version " + version + " available"))
      else None
    else None
  }

  /** One line of `dnf check-update` / `yum check-update`, e.g. `curl.x86_64  7.76.1-26.el9  baseos`. */
  function CheckUpdateRecord(line: string): Option<Update>
  {
    if line != "" && !StartsWith(line, "Last metadata") && !StartsWith(line, "*") then
      var parts := SplitWs(line);
      if |parts| >= 2 then Some(Record(parts[0], "Version " + parts[1] + " available"))
      else None
    else None
  }

  /** One line of `pacman -Qu`, e.g. `curl 8.5.0-1 -> 8.6.0-1`. */
  function PacmanRecord(line: string): Option<Update>
  {
    if line != "" then
      var parts := SplitWs(line);
      if |parts| >= 2 then Some(Record(parts[0], "Update to version " + parts[1]))
      else None
    else None
  }

  function LineRecord(m: Manager, line: string): Option<Update>
  {
    match m
    case Apt => AptRecord(line)
    case CheckUpdate => CheckUpdateRecord(line)
    case Pacman => PacmanRecord(line)
  }

  function OptionToSeq(o: Option<Update>): seq<Update>
  {
    if o.Some? then [o.value] else []
  }

  /** The records the parsing loop has appended after visiting `lines`, in line order. */
  function Records(m: Manager, lines: seq<string>): seq<Update>
  {
    if lines == [] then []
    else Records(m, lines[..|lines| - 1]) + OptionToSeq(LineRecord(m, lines[|lines| - 1]))
  }

  /** `updates[:50]` */
  function Take(s: seq<Update>, n: nat): (r: seq<Update>)
    ensures |r| == (if |s| < n then |s| else n) && r == s[..|r|]
  {
    if |s| <= n then s else s[..n]
  }

  /** What `check_linux_updates` returns for the binaries present and the listing command's outcome. */
  function LinuxUpdates(bins: Binaries, run: Run): seq<Update>
  {
    match ManagerFor(bins)
    case None => []
    case Some(m) =>
      if run.Raised? || run.returnCode != SuccessCode(m) then []
      else Take(Records(m, SplitOn(run.stdout, '\n')), MaxUpdates)
  }

  /** One more line visited appends that line's record, if any. */
  lemma RecordsStep(m: Manager, lines: seq<string>, i: nat)
    requires i < |lines|
    ensures Records(m, lines[..i + 1]) == Records(m, lines[..i]) + OptionToSeq(LineRecord(m, lines[i]))
  {
    assert lines[..i + 1][..i] == lines[..i];
  }

  /** The apt loop, over the lines `stdout.split('\n')` gives. */
  method ParseAptList(lines: seq<string>) returns (updates: seq<Update>)
    ensures updates == Records(Apt, lines)
  {
    updates := [];
    var i := 0;
    while i < |lines|
      invariant 0 <= i <= |lines|
      invariant updates == Records(Apt, lines[..i])
    {
      var line := lines[i];
      RecordsStep(Apt, lines, i);
      ghost var next := Records(Apt, lines[..i + 1]);
      if Contains(line, "upgradable") && '/' in line {
        var parts := SplitWs(line);
        if |parts| > 0 {
          var package := SplitOn(parts[0], '/')[0];
          var version := if |parts| > 1 then parts[1] else "unknown";
          var update := Record(package, "Version " + version + " available");
          assert next == updates + [update];
          updates := updates + [update];
        } else {
          assert next == updates;
        }
      } else {
        assert next == updates;
      }
      i := i + 1;
    }
    assert lines[..i] == lines;
  }

  /** The dnf/yum loop, over the lines `stdout.split('\n')` gives. */
  method ParseCheckUpdate(lines: seq<string>) returns (updates: seq<Update>)
    ensures updates == Records(CheckUpdate, lines)
  {
    updates := [];
    var i := 0;
    while i < |lines|
      invariant 0 <= i <= |lines|
      invariant updates == Records(CheckUpdate, lines[..i])
    {
      var line := lines[i];
      RecordsStep(CheckUpdate, lines, i);
      ghost var next := Records(CheckUpdate, lines[..i + 1]);
      if line != "" && !StartsWith(line, "Last metadata") && !StartsWith(line, "*") {
        var parts := SplitWs(line);
        if |parts| >= 2 {
          var update := Record(parts[0], "Version " + parts[1] + " available");
          assert next == updates + [update];
          updates := updates + [update];
        } else {
          assert next == updates;
        }
      } else {
        assert next == updates;
      }
      i := i + 1;
    }
    assert lines[..i] == lines;
  }

  /** The pacman loop, over the lines `stdout.split('\n')` gives. */
  method ParsePacmanQu(lines: seq<string>) returns (updates: seq<Update>)
    ensures updates == Records(Pacman, lines)
  {
    updates := [];
    var i := 0;
    while i < |lines|
      invariant 0 <= i <= |lines|
      invariant updates == Records(Pacman, lines[..i])
    {
      var line := lines[i];
      RecordsStep(Pacman, lines, i);
      ghost var next := Records(Pacman, lines[..i + 1]);
      if line != "" {
        var parts := SplitWs(line);
        if |parts| >= 2 {
          var update := Record(parts[0], "Update to version " + parts[1]);
          assert next == updates + [update];
          updates := updates + [update];
        } else {
          assert next == updates;
        }
      } else {
        assert next == updates;
      }
      i := i + 1;
    }
    assert lines[..i] == lines;
  }

  /** `check_linux_updates`: dispatch on the binaries, gate on the return code, parse, keep the first 50. */
  method CheckLinuxUpdates(bins: Binaries, run: Run) returns (updates: seq<Update>)
    ensures updates == LinuxUpdates(bins, run)
  {
    updates := [];
    if run.Raised? {
      return [];
    }
    if bins.apt {
      if run.returnCode == 0 {
        updates := ParseAptList(SplitOn(run.stdout, '\n'));
      }
    } else if bins.yum || bins.dnf {
      if run.returnCode == 100 {
        updates := ParseCheckUpdate(SplitOn(run.stdout, '\n'));
      }
    } else if bins.pacman {
      if run.returnCode == 0 {
        updates := ParsePacmanQu(SplitOn(run.stdout, '\n'));
      }
    }
    updates := Take(updates, MaxUpdates);
  }

  // ---------------------------------------------------------------------
  // Properties of the three line formats

  /** apt: a line yields a record exactly when it mentions `upgradable` and holds a `/`; title and description as described. */
  lemma AptRecordSpec(line: string)
    ensures AptRecord(line).Some? <==> Contains(line, "upgradable") && '/' in line
    ensures AptRecord(line).Some? ==>
      var parts := SplitWs(line);
      var u := AptRecord(line).value;
      |parts| >= 1 && IsLinuxRecord(u) &&
      u.title == SplitOn(parts[0], '/')[0] && '/' !in u.title && StartsWith(parts[0], u.title) &&
      u.description == "Version " + (if |parts| >= 2 then parts[1] else "unknown") + " available"
  {
    if Contains(line, "upgradable") && '/' in line {
      SplitWsNonEmpty(line, '/');
    }
  }

  /** dnf/yum: a line yields a record exactly when it is non-empty, is not a `Last metadata` or `*` line, and has two tokens. */
  lemma CheckUpdateRecordSpec(line: string)
    ensures CheckUpdateRecord(line).Some? <==>
      line != "" && !StartsWith(line, "Last metadata") && !StartsWith(line, "*") && |SplitWs(line)| >= 2
    ensures CheckUpdateRecord(line).Some? ==>
      var u := CheckUpdateRecord(line).value;
      IsLinuxRecord(u) && u.title == SplitWs(line)[0] &&
      u.description == "Version " + SplitWs(line)[1] + " available"
  {
  }

  /** pacman: every line with two tokens yields a record, `Update to version <second token>`. */
  lemma PacmanRecordSpec(line: string)
    ensures PacmanRecord(line).Some? <==> |SplitWs(line)| >= 2
    ensures PacmanRecord(line).Some? ==>
      var u := PacmanRecord(line).value;
      IsLinuxRecord(u) && u.title == SplitWs(line)[0] &&
      u.description == "Update to version " + SplitWs(line)[1]
  {
  }

  /** A title never holds whitespace, whatever the manager. */
  lemma TitleHasNoSpace(m: Manager, line: string)
    requires LineRecord(m, line).Some?
    ensures NoSpace(LineRecord(m, line).value.title)
  {
    var parts := SplitWs(line);
    if m == Apt {
      var tok := parts[0];
      var title := SplitOn(tok, '/')[0];
      assert title == tok[..IndexOf(tok, '/')];
      assert forall i :: 0 <= i < |title| ==> title[i] == tok[i];
    }
  }

  // ---------------------------------------------------------------------
  // Properties of the parsing loops and of the 50-record cap

  /** Parsing distributes over concatenation of line sequences: records keep input-line order. */
  lemma {:induction false} RecordsAppend(m: Manager, a: seq<string>, b: seq<string>)
    ensures Records(m, a + b) == Records(m, a) + Records(m, b)
    decreases |b|
  {
    if b == [] {
      assert a + b == a;
    } else {
      var b' := b[..|b| - 1];
      assert (a + b)[..|a + b| - 1] == a + b';
      RecordsAppend(m, a, b');
    }
  }

  /** At most one record per line, and every record carries the fixed KB, size and flags. */
  lemma {:induction false} RecordsShape(m: Manager, lines: seq<string>)
    ensures |Records(m, lines)| <= |lines|
    ensures forall k :: 0 <= k < |Records(m, lines)| ==> IsLinuxRecord(Records(m, lines)[k])
    decreases |lines|
  {
    if lines != [] {
      RecordsShape(m, lines[..|lines| - 1]);
    }
  }

  /** Lines that yield no record can be dropped without changing the result. */
  lemma {:induction false} SilentLinesIgnored(m: Manager, a: seq<string>, silent: string, b: seq<string>)
    requires LineRecord(m, silent).None?
    ensures Records(m, a + [silent] + b) == Records(m, a + b)
  {
    assert Records(m, [silent]) == [] by {
      assert [silent][..0] == [];
    }
    RecordsAppend(m, a + [silent], b);
    RecordsAppend(m, a, [silent]);
    RecordsAppend(m, a, b);
  }

  /** The result is the first min(50, n) parsed records, in input-line order. */
  lemma CapIsPrefix(bins: Binaries, run: Run)
    requires ManagerFor(bins).Some? && run.Completed? && run.returnCode == SuccessCode(ManagerFor(bins).value)
    ensures
      var all := Records(ManagerFor(bins).value, SplitOn(run.stdout, '\n'));
      var r := LinuxUpdates(bins, run);
      |r| == (if |all| < MaxUpdates then |all| else MaxUpdates) && r == all[..|r|]
  {
    var all := Records(ManagerFor(bins).value, SplitOn(run.stdout, '\n'));
    assert LinuxUpdates(bins, run) == Take(all, MaxUpdates);
  }

  /** Every reported update is a fixed-shape Linux record, and there are never more than 50. */
  lemma LinuxUpdatesShape(bins: Binaries, run: Run)
    ensures |LinuxUpdates(bins, run)| <= MaxUpdates
    ensures forall k :: 0 <= k < |LinuxUpdates(bins, run)| ==> IsLinuxRecord(LinuxUpdates(bins, run)[k])
  {
    if ManagerFor(bins).Some? && run.Completed? {
      RecordsShape(ManagerFor(bins).value, SplitOn(run.stdout, '\n'));
    }
  }

  /** Return-code gate: dnf/yum output is read only on 100, apt and pacman output only on 0; no binary means no updates. */
  lemma ReturnCodeGate(bins: Binaries, code: int, stdout: string)
    ensures ManagerFor(bins) == Some(CheckUpdate) && code != 100 ==> LinuxUpdates(bins, Completed(code, stdout)) == []
    ensures ManagerFor(bins) in {Some(Apt), Some(Pacman)} && code != 0 ==> LinuxUpdates(bins, Completed(code, stdout)) == []
    ensures ManagerFor(bins).None? ==> LinuxUpdates(bins, Completed(code, stdout)) == []
    ensures LinuxUpdates(bins, Raised) == []
  {
  }

  /** apt takes precedence over dnf/yum, which takes precedence over pacman. */
  lemma ManagerPrecedence(bins: Binaries)
    ensures bins.apt ==> ManagerFor(bins) == Some(Apt)
    ensures !bins.apt && (bins.yum || bins.dnf) ==>
              ManagerFor(bins) == Some(CheckUpdate) &&
              ListingCommand(bins).value[0] == (if bins.dnf then "dnf" else "yum")
    ensures ManagerFor(bins) == Some(Pacman) <==> !bins.apt && !bins.yum && !bins.dnf && bins.pacman
  {
  }

  /** A dnf/yum line of two space-separated words is a record named after the first word. */
  lemma CheckUpdateTwoWords(a: string, b: string)
    requires a != "" && NoSpace(a) && b != "" && NoSpace(b)
    requires !StartsWith(a + " " + b, "Last metadata") && a[0] != '*'
    ensures CheckUpdateRecord(a + " " + b) == Some(Record(a, "Version " + b + " available"))
  {
    SplitWsTwoWords(a, b);
    assert (a + " " + b)[0] == a[0];
  }

  /** The `Obsoleting Packages` header of `dnf check-update` has two tokens and is reported as a package named `Obsoleting`. */
  lemma ObsoletingHeaderIsReported(header: string)
    requires header == "Obsoleting Packages"
    ensures CheckUpdateRecord(header) == Some(Record("Obsoleting", "Version Packages available"))
  {
    assert NoSpace("Obsoleting") && NoSpace("Packages") by {
      forall i | 0 <= i < 10 ensures !IsSpace("Obsoleting"[i]) { }
      forall i | 0 <= i < 8 ensures !IsSpace("Packages"[i]) { }
    }
    assert !StartsWith(header, "Last metadata") by {
      assert header[0] != "Last metadata"[0];
    }
    assert "Obsoleting" + " " + "Packages" == header;
    assert "Version " + "Packages" + " available" == "Version Packages available";
    CheckUpdateTwoWords("Obsoleting", "Packages");
  }
}
