/**
 * The Linux prerequisites installer: `detect_distro` reads /etc/os-release
 * into a key/value map, the distribution is classified into a package
 * family, and the installer builds the shell commands (or pip command line)
 * it would run. Running them is not modelled: the exit status of each
 * command is an input, and so are the effective user id, whether `dnf` is
 * on the PATH and whether `requirements.txt` exists.
 */
module Installer {
  import opened Wrappers
  import opened PyStr
  import AgentDistro

  // ---------------------------------------------------------------------
  // detect_distro

  /** The key and value of an os-release line that holds `=`: `line.strip().split('=', 1)`, the value then `strip('"')`. */
  function Entry(line: string): (kv: (string, string))
    requires '=' in line
    ensures '=' !in kv.0
  {
    StripKeeps(line, Whitespace, '=');
    var (key, value) := SplitFirst(Strip(line, Whitespace), '=');
    (key, Strip(value, Char('"')))
  }

  /** `info` after the loop has visited `lines`, starting from `info0`: each line with `=` sets its key, later lines win. */
  function Fill(info0: map<string, string>, lines: seq<string>): map<string, string>
  {
    if lines == [] then info0
    else
      var info := Fill(info0, lines[..|lines| - 1]);
      var line := lines[|lines| - 1];
      if '=' in line then info[Entry(line).0 := Entry(line).1] else info
  }

  /** `info.get(key, default)` */
  function Get(info: map<string, string>, key: string, default: string): string
  {
    if key in info then info[key] else default
  }

  /** What `detect_distro` returns for the file (absent, or its text): `(ID, ID_LIKE)` with defaults `unknown` and empty. */
  function DistroInfo(osRelease: Option<string>): (string, string)
  {
    if osRelease.None? then ("unknown", "")
    else
      var info := Fill(map[], ReadLines(osRelease.value));
      (Get(info, "ID", "unknown"), Get(info, "ID_LIKE", ""))
  }

  /** The loop that fills the `info` dictionary in place. */
  method DetectDistro(osRelease: Option<string>) returns (id: string, idLike: string)
    ensures (id, idLike) == DistroInfo(osRelease)
  {
    if osRelease.None? {
      return "unknown", "";
    }
    var lines := ReadLines(osRelease.value);
    var info: map<string, string> := map[];
    var i := 0;
    while i < |lines|
      invariant i <= |lines|
      invariant info == Fill(map[], lines[..i])
    {
      var line := lines[i];
      FillStep(lines, i);
      if '=' in line {
        var (key, value) := Entry(line);
        info := info[key := value];
      }
      i := i + 1;
    }
    assert lines[..|lines|] == lines;
    assert info == Fill(map[], ReadLines(osRelease.value));
    id := if "ID" in info then info["ID"] else "unknown";
    idLike := if "ID_LIKE" in info then info["ID_LIKE"] else "";
  }

  lemma FillStep(lines: seq<string>, i: nat)
    requires i < |lines|
    ensures Fill(map[], lines[..i + 1]) ==
      if '=' in lines[i] then Fill(map[], lines[..i])[Entry(lines[i]).0 := Entry(lines[i]).1] else Fill(map[], lines[..i])
  {
    assert lines[..i + 1][..i] == lines[..i];
  }

  /** The line sets `key`. */
  predicate Defines(line: string, key: string)
  {
    '=' in line && Entry(line).0 == key
  }

  /** Filling continues where the previous lines left off. */
  lemma {:induction false} FillAppend(info0: map<string, string>, a: seq<string>, b: seq<string>)
    ensures Fill(info0, a + b) == Fill(Fill(info0, a), b)
    decreases |b|
  {
    if b == [] {
      assert a + b == a;
    } else {
      assert (a + b)[..|a + b| - 1] == a + b[..|b| - 1];
      FillAppend(info0, a, b[..|b| - 1]);
    }
  }

  /** Lines without `=` are ignored. */
  lemma PlainLinesIgnored(a: seq<string>, line: string, b: seq<string>)
    requires '=' !in line
    ensures Fill(map[], a + [line] + b) == Fill(map[], a + b)
  {
    FillAppend(map[], a + [line], b);
    FillAppend(map[], a, [line]);
    FillAppend(map[], a, b);
    assert [line][..0] == [];
  }

  /** Some line of `lines` sets `key`. */
  predicate SomeLineDefines(lines: seq<string>, key: string)
  {
    exists j :: 0 <= j < |lines| && Defines(lines[j], key)
  }

  /** Some element of `xs` satisfies `p`. */
  predicate Any(xs: seq<string>, p: string -> bool)
  {
    exists j :: 0 <= j < |xs| && p(xs[j])
  }

  lemma AnySnoc(init: seq<string>, last: string, p: string -> bool)
    ensures Any(init + [last], p) <==> Any(init, p) || p(last)
  {
    var xs := init + [last];
    if Any(init, p) {
      var j :| 0 <= j < |init| && p(init[j]);
      assert xs[j] == init[j];
    }
    if p(last) {
      assert xs[|init|] == last;
    }
    if Any(xs, p) && !p(last) {
      var j :| 0 <= j < |xs| && p(xs[j]);
      assert j < |init| && xs[j] == init[j];
    }
  }

  lemma SomeLineDefinesIsAny(lines: seq<string>, key: string)
    ensures SomeLineDefines(lines, key) <==> Any(lines, l => Defines(l, key))
  {
  }

  lemma SomeLineDefinesSnoc(init: seq<string>, last: string, key: string)
    ensures SomeLineDefines(init + [last], key) <==> SomeLineDefines(init, key) || Defines(last, key)
  {
    AnySnoc(init, last, l => Defines(l, key));
    SomeLineDefinesIsAny(init + [last], key);
    SomeLineDefinesIsAny(init, key);
  }

  /** A key is in the map exactly when some line defines it. */
  lemma {:induction false} FillKeys(lines: seq<string>, key: string)
    ensures key in Fill(map[], lines) <==> SomeLineDefines(lines, key)
    decreases |lines|
  {
    if lines != [] {
      var init := lines[..|lines| - 1];
      var last := lines[|lines| - 1];
      FillKeys(init, key);
      assert lines == init + [last];
      SomeLineDefinesSnoc(init, last, key);
    }
  }

  /** A key defined on several lines keeps the value of the last of them. */
  lemma {:induction false} LastDefinitionWins(lines: seq<string>, key: string, k: nat)
    requires k < |lines| && Defines(lines[k], key)
    requires forall j :: k < j < |lines| ==> !Defines(lines[j], key)
    ensures key in Fill(map[], lines) && Fill(map[], lines)[key] == Entry(lines[k]).1
    decreases |lines|
  {
    if k < |lines| - 1 {
      var init := lines[..|lines| - 1];
      assert init[k] == lines[k];
      forall j | k < j < |init| ensures !Defines(init[j], key) {
        assert init[j] == lines[j];
      }
      LastDefinitionWins(init, key, k);
    }
  }

  /**
   * The line is split at its FIRST `=` only: a key free of `=` followed by
   * `=` and any text (which may hold more `=`) gives that key and that text
   * with its surrounding double quotes removed. Nothing is lower-cased.
   */
  lemma EntrySplitsAtFirstEquals(line: string, key: string, raw: string)
    requires '=' !in key
    requires Strip(line, Whitespace) == key + "=" + raw
    ensures '=' in line
    ensures Entry(line) == (key, Strip(raw, Char('"')))
  {
    var t := Strip(line, Whitespace);
    assert t[|key|] == '=';
    StripFrom(line, Whitespace, '=');
    IndexOfAfterFree(key, '=', raw);
    assert t[..|key|] == key && t[|key| + 1..] == raw;
  }

  // ---------------------------------------------------------------------
  // install_system_deps: classification

  /** The three package families the installer knows, and the fall-through. */
  datatype Family = Debian | RedHat | Arch | Unknown

  predicate IsDebianLike(id: string, idLike: string)
  {
    id in ["debian", "ubuntu"] || Contains(idLike, "debian")
  }

  predicate IsRedHatLike(id: string, idLike: string)
  {
    id in ["rhel", "centos", "fedora", "rocky", "almalinux"] || Contains(idLike, "rhel") || Contains(idLike, "fedora")
  }

  predicate IsArchLike(id: string, idLike: string)
  {
    id in ["arch", "manjaro", "endeavouros"] || Contains(idLike, "arch")
  }

  /** The `if`/`elif` chain of `install_system_deps`: Debian first, then Red Hat, then Arch. */
  function Classify(id: string, idLike: string): Family
  {
    if IsDebianLike(id, idLike) then Debian
    else if IsRedHatLike(id, idLike) then RedHat
    else if IsArchLike(id, idLike) then Arch
    else Unknown
  }

  /** The families in the order the installer tries them. */
  const FamilyOrder: seq<Family> := [Debian, RedHat, Arch]

  predicate Matches(f: Family, id: string, idLike: string)
  {
    match f
    case Debian => IsDebianLike(id, idLike)
    case RedHat => IsRedHatLike(id, idLike)
    case Arch => IsArchLike(id, idLike)
    case Unknown => false
  }

  /** The classification is the first family in `FamilyOrder` that matches, or `Unknown` when none does. */
  lemma ClassifyIsFirstMatch(id: string, idLike: string)
    ensures Classify(id, idLike) == Unknown <==> forall i :: 0 <= i < |FamilyOrder| ==> !Matches(FamilyOrder[i], id, idLike)
    ensures Classify(id, idLike) != Unknown ==>
      exists i :: 0 <= i < |FamilyOrder| && FamilyOrder[i] == Classify(id, idLike) && Matches(FamilyOrder[i], id, idLike) &&
        forall j :: 0 <= j < i ==> !Matches(FamilyOrder[j], id, idLike)
  {
    var f := Classify(id, idLike);
    if f == Debian {
      assert FamilyOrder[0] == f;
    } else if f == RedHat {
      assert FamilyOrder[1] == f && !Matches(FamilyOrder[0], id, idLike);
    } else if f == Arch {
      assert FamilyOrder[2] == f && !Matches(FamilyOrder[0], id, idLike) && !Matches(FamilyOrder[1], id, idLike);
    } else {
      forall i | 0 <= i < |FamilyOrder| ensures !Matches(FamilyOrder[i], id, idLike) { }
    }
  }

  /** `ID_LIKE` is tested by substring: `ID_LIKE="rhel centos fedora"` (Rocky Linux) classifies as Red Hat whatever `ID` says, unless `ID` is Debian's. */
  lemma IdLikeIsSubstringTest(id: string, idLike: string, i: nat)
    requires OccursAt(idLike, "rhel", i)
    requires !IsDebianLike(id, idLike)
    ensures Classify(id, idLike) == RedHat
  {
    ContainsAt(idLike, "rhel", i);
  }

  // ---------------------------------------------------------------------
  // install_system_deps: the commands

  /** A shell command and whether it runs with `check=True` (a failure aborts the install). */
  datatype Command = Command(line: string, check: bool)

  const DebianDeps: seq<string> := ["python3-pip", "python3-venv", "python3-dev", "gcc", "libjpeg-dev", "zlib1g-dev"]
  const RedHatDeps: seq<string> := ["python3-pip", "python3-devel", "gcc", "libjpeg-devel", "zlib-devel"]
  const ArchDeps: seq<string> := ["python-pip", "python-virtualenv", "gcc", "libjpeg-turbo", "zlib"]

  /** `'sudo' if os.geteuid() != 0 else ''` */
  function SudoPrefix(euid: int): string
  {
    if euid != 0 then "sudo" else ""
  }

  /** `'dnf'` when `shutil.which('dnf')` finds it, else `'yum'`. */
  function PackageManager(dnfFound: bool): string
  {
    if dnfFound then "dnf" else "yum"
  }

  /** The EPEL repository is enabled for these identifiers only (not Fedora, not an `ID_LIKE` match). */
  predicate NeedsEpel(id: string)
  {
    id in ["rhel", "centos", "rocky", "almalinux"]
  }

  /** `f"{sudo} {cmd}"`: a command run through the sudo prefix, which is empty for root. */
  function AsUser(sudo: string, cmd: string): string
  {
    sudo + " " + cmd
  }

  function DebianInstall(sudo: string): string
  {
    AsUser(sudo, "apt update && " + AsUser(sudo, "apt install -y " + Join(" ", DebianDeps)))
  }

  function EpelInstall(sudo: string, pm: string): string
  {
    AsUser(sudo, pm + " install -y epel-release")
  }

  function RedHatInstall(sudo: string, pm: string): string
  {
    AsUser(sudo, pm + " install -y " + Join(" ", RedHatDeps))
  }

  function ArchInstall(sudo: string): string
  {
    AsUser(sudo, "pacman -Sy --noconfirm " + Join(" ", ArchDeps))
  }

  /** The commands `install_system_deps` runs, in order; `None` for an unknown distribution (nothing is run). */
  function SystemDepsCommands(id: string, idLike: string, euid: int, dnfFound: bool): Option<seq<Command>>
  {
    var sudo := SudoPrefix(euid);
    match Classify(id, idLike)
    case Debian => Some([Command(DebianInstall(sudo), true)])
    case RedHat =>
      var pm := PackageManager(dnfFound);
      var epel := if NeedsEpel(id) then [Command(EpelInstall(sudo, pm), false)] else [];
      Some(epel + [Command(RedHatInstall(sudo, pm), true)])
    case Arch => Some([Command(ArchInstall(sudo), true)])
    case Unknown => None
  }

  /**
   * `install_system_deps`'s return value, given the exit status the shell
   * reports for each command line: an unknown distribution fails without
   * running anything; the EPEL command's status is ignored (`check=False`);
   * the install command must exit 0 (`check=True`).
   */
  function InstallSystemDeps(id: string, idLike: string, euid: int, dnfFound: bool, exitStatus: string -> int): bool
  {
    var sudo := SudoPrefix(euid);
    match Classify(id, idLike)
    case Debian => exitStatus(DebianInstall(sudo)) == 0
    case RedHat => exitStatus(RedHatInstall(sudo, PackageManager(dnfFound))) == 0
    case Arch => exitStatus(ArchInstall(sudo)) == 0
    case Unknown => false
  }

  /** An unknown distribution builds no command and reports failure. */
  lemma UnknownRunsNothing(id: string, idLike: string, euid: int, dnfFound: bool, exitStatus: string -> int)
    ensures SystemDepsCommands(id, idLike, euid, dnfFound).None? <==> Classify(id, idLike) == Unknown
    ensures Classify(id, idLike) == Unknown ==> !InstallSystemDeps(id, idLike, euid, dnfFound, exitStatus)
  {
  }

  /** Success means exactly: every `check=True` command of the plan exited 0. */
  lemma InstallSucceedsIffCheckedCommandsPass(id: string, idLike: string, euid: int, dnfFound: bool, exitStatus: string -> int)
    ensures InstallSystemDeps(id, idLike, euid, dnfFound, exitStatus) <==>
      var cmds := SystemDepsCommands(id, idLike, euid, dnfFound);
      cmds.Some? && forall i :: 0 <= i < |cmds.value| && cmds.value[i].check ==> exitStatus(cmds.value[i].line) == 0
  {
    var sudo := SudoPrefix(euid);
    var cmds := SystemDepsCommands(id, idLike, euid, dnfFound);
    match Classify(id, idLike)
    case Debian =>
      assert cmds.value == [Command(DebianInstall(sudo), true)];
      assert cmds.value[0].line == DebianInstall(sudo);
    case RedHat =>
      var pm := PackageManager(dnfFound);
      var install := Command(RedHatInstall(sudo, pm), true);
      if NeedsEpel(id) {
        assert cmds.value == [Command(EpelInstall(sudo, pm), false), install];
        assert cmds.value[1] == install;
      } else {
        assert cmds.value == [install];
        assert cmds.value[0] == install;
      }
    case Arch =>
      assert cmds.value == [Command(ArchInstall(sudo), true)];
      assert cmds.value[0].line == ArchInstall(sudo);
    case Unknown =>
  }

  /** The EPEL command runs only for rhel, centos, rocky and almalinux classified as Red Hat, and comes first, unchecked. */
  lemma EpelRule(id: string, idLike: string, euid: int, dnfFound: bool)
    requires SystemDepsCommands(id, idLike, euid, dnfFound).Some?
    ensures var cmds := SystemDepsCommands(id, idLike, euid, dnfFound).value;
      (|cmds| == 2 <==> Classify(id, idLike) == RedHat && NeedsEpel(id)) &&
      (|cmds| == 2 ==> cmds[0] == Command(EpelInstall(SudoPrefix(euid), PackageManager(dnfFound)), false)) &&
      1 <= |cmds| <= 2 && cmds[|cmds| - 1].check
    ensures id == "fedora" || !(id in ["rhel", "centos", "fedora", "rocky", "almalinux"]) ==>
      |SystemDepsCommands(id, idLike, euid, dnfFound).value| == 1
  {
  }

  lemma PrefixOfConcat(a: string, b: string)
    ensures StartsWith(a + b, a)
  {
    assert (a + b)[..|a|] == a;
  }

  /** Every command starts with the sudo prefix and a space: `sudo ` unless the effective uid is 0, a lone space for root. */
  lemma SudoRule(id: string, idLike: string, euid: int, dnfFound: bool)
    requires SystemDepsCommands(id, idLike, euid, dnfFound).Some?
    ensures var cmds := SystemDepsCommands(id, idLike, euid, dnfFound).value;
      forall i :: 0 <= i < |cmds| ==>
        StartsWith(cmds[i].line, (if euid != 0 then "sudo" else "") + " ")
  {
    var sudo := SudoPrefix(euid);
    var cmds := SystemDepsCommands(id, idLike, euid, dnfFound).value;
    match Classify(id, idLike)
    case Debian =>
      PrefixOfConcat(sudo + " ", "apt update && " + AsUser(sudo, "apt install -y " + Join(" ", DebianDeps)));
    case RedHat =>
      var pm := PackageManager(dnfFound);
      PrefixOfConcat(sudo + " ", pm + " install -y epel-release");
      PrefixOfConcat(sudo + " ", pm + " install -y " + Join(" ", RedHatDeps));
    case Arch =>
      PrefixOfConcat(sudo + " ", "pacman -Sy --noconfirm " + Join(" ", ArchDeps));
  }

  /** The package list at the end of the install command splits back (at spaces) into exactly the family's dependency list. */
  lemma DependencyListRoundTrip(deps: seq<string>)
    requires deps in {DebianDeps, RedHatDeps, ArchDeps}
    ensures SplitOn(Join(" ", deps), ' ') == deps
  {
    forall k | 0 <= k < |deps| ensures ' ' !in deps[k] {
      assert forall p :: 0 <= p < |deps[k]| ==> deps[k][p] != ' ';
    }
    SplitJoin(deps, ' ');
  }

  /** The only failure whose status matters is the install command's: a failing EPEL step does not change the outcome. */
  lemma EpelStatusIgnored(id: string, idLike: string, euid: int, dnfFound: bool, s1: string -> int, s2: string -> int)
    requires Classify(id, idLike) == RedHat
    requires s1(RedHatInstall(SudoPrefix(euid), PackageManager(dnfFound))) == s2(RedHatInstall(SudoPrefix(euid), PackageManager(dnfFound)))
    ensures InstallSystemDeps(id, idLike, euid, dnfFound, s1) == InstallSystemDeps(id, idLike, euid, dnfFound, s2)
  {
  }

  // ---------------------------------------------------------------------
  // install_python_deps

  /** `os.path.join(directory, name)` for a relative `name`: a `/` is inserted unless the directory is empty or already ends in one. */
  function PathJoin(directory: string, name: string): (path: string)
    ensures |path| == |directory| + |name| || (|path| == |directory| + 1 + |name| && path[|directory|] == '/')
    ensures directory <= path && path[|path| - |name|..] == name
    ensures |path| == |directory| + 1 + |name| <==> directory != "" && directory[|directory| - 1] != '/'
  {
    if directory == "" || directory[|directory| - 1] == '/' then directory + name else directory + "/" + name
  }

  const DefaultPackages: seq<string> := ["websockets", "psutil", "Pillow"]

  /** The pip command line: `-r requirements.txt` beside the script when that file exists, the three core packages otherwise. */
  function PipCommand(python: string, scriptDir: string, requirementsExist: bool): seq<string>
  {
    if requirementsExist then [python, "-m", "pip", "install", "-r", PathJoin(scriptDir, "requirements.txt")]
    else [python, "-m", "pip", "install"] + DefaultPackages
  }

  /** Both pip command lines start with the interpreter and `-m pip install`; then either `-r` and the requirements file in the script's directory, or exactly websockets, psutil, Pillow. */
  lemma PipCommandShape(python: string, scriptDir: string, requirementsExist: bool)
    ensures var argv := PipCommand(python, scriptDir, requirementsExist);
      argv[..4] == [python, "-m", "pip", "install"] &&
      (requirementsExist <==> |argv| == 6 && argv[4] == "-r") &&
      (!requirementsExist <==> argv[4..] == ["websockets", "psutil", "Pillow"])
    ensures requirementsExist ==>
      var file := PipCommand(python, scriptDir, requirementsExist)[5];
      scriptDir <= file && file[|file| - |"requirements.txt"|..] == "requirements.txt"
    ensures requirementsExist ==> PipCommand(python, scriptDir, requirementsExist)[5] == PathJoin(scriptDir, "requirements.txt")
  {
    var argv := PipCommand(python, scriptDir, requirementsExist);
    if !requirementsExist {
      assert argv[4..] == DefaultPackages;
    }
  }

  // ---------------------------------------------------------------------
  // main: the manual-install hint printed after a failure

  /** Which manual-install advice `main` prints. */
  datatype Hint = PacmanHint | AptDnfYumHint

  /** As written: the pacman advice iff `'arch' in distro`, on the `ID` alone. */
  function ManualHint(id: string): Hint
  {
    if Contains(id, "arch") then PacmanHint else AptDnfYumHint
  }

  /** `arch` itself, and any `ID` holding it, gets the pacman advice. */
  lemma ArchIdGetsPacmanHint(id: string, i: nat)
    requires OccursAt(id, "arch", i)
    ensures ManualHint(id) == PacmanHint
  {
    ContainsAt(id, "arch", i);
  }

  /** `arch` does not occur in `manjaro`: the only `r` is too close to the end for an `a` before it to start `arch`. */
  lemma NoArchInManjaro(id: string)
    requires id == "manjaro"
    ensures !Contains(id, "arch")
  {
    ContainsIffOccurs(id, "arch");
    forall i: nat ensures !OccursAt(id, "arch", i) {
      if i + 4 <= |id| {
        assert id[i..i + 4][1] == id[i + 1];
      }
    }
  }

  /** Manjaro is classified as Arch by `install_system_deps`, yet the hint written for it is the apt/dnf/yum one. */
  lemma ManjaroGetsAptHint(id: string)
    requires id == "manjaro"
    ensures Classify(id, "") == Arch
    ensures ManualHint(id) == AptDnfYumHint
  {
    NotContainedWithoutFirstChar("", "debian");
    NotContainedWithoutFirstChar("", "rhel");
    NotContainedWithoutFirstChar("", "fedora");
    NoArchInManjaro(id);
  }

  /** Corrected: the pacman advice iff the installer classified the system as Arch. */
  function FamilyHint(id: string, idLike: string): Hint
  {
    if Classify(id, idLike) == Arch then PacmanHint else AptDnfYumHint
  }

  /** Under the same sudo prefix, a command starts with `pacman ` exactly when the prefixed line does. */
  lemma AsUserStartsWith(sudo: string, cmd: string, word: string)
    ensures StartsWith(AsUser(sudo, cmd), AsUser(sudo, word)) <==> StartsWith(cmd, word)
  {
    var p := sudo + " ";
    assert AsUser(sudo, cmd) == p + cmd && AsUser(sudo, word) == p + word;
    if StartsWith(p + cmd, p + word) {
      assert cmd[..|word|] == (p + cmd)[|p|..|p| + |word|] == (p + word)[|p|..];
    }
    if StartsWith(cmd, word) {
      assert (p + cmd)[..|p| + |word|] == p + cmd[..|word|];
    }
  }

  lemma DebianIsNotPacman(sudo: string)
    ensures !StartsWith(DebianInstall(sudo), AsUser(sudo, "pacman "))
  {
    var cmd := "apt update && " + AsUser(sudo, "apt install -y " + Join(" ", DebianDeps));
    AsUserStartsWith(sudo, cmd, "pacman ");
    assert cmd[0] == 'a';
  }

  lemma RedHatIsNotPacman(sudo: string, pm: string)
    requires pm == "dnf" || pm == "yum"
    ensures !StartsWith(RedHatInstall(sudo, pm), AsUser(sudo, "pacman "))
  {
    var cmd := pm + " install -y " + Join(" ", RedHatDeps);
    AsUserStartsWith(sudo, cmd, "pacman ");
    assert cmd[0] == pm[0];
  }

  lemma ArchIsPacman(sudo: string)
    ensures StartsWith(ArchInstall(sudo), AsUser(sudo, "pacman "))
  {
    var cmd := "pacman -Sy --noconfirm " + Join(" ", ArchDeps);
    AsUserStartsWith(sudo, cmd, "pacman ");
    assert forall i :: 0 <= i < 7 ==> cmd[i] == "pacman "[i];
  }

  /** The corrected advice names pacman exactly when the install command the installer built was a pacman command. */
  lemma FamilyHintMatchesInstallCommand(id: string, idLike: string, euid: int, dnfFound: bool)
    ensures FamilyHint(id, idLike) == PacmanHint <==>
      var cmds := SystemDepsCommands(id, idLike, euid, dnfFound);
      cmds.Some? && StartsWith(cmds.value[|cmds.value| - 1].line, AsUser(SudoPrefix(euid), "pacman "))
  {
    var sudo := SudoPrefix(euid);
    match Classify(id, idLike)
    case Debian => DebianIsNotPacman(sudo);
    case RedHat => RedHatIsNotPacman(sudo, PackageManager(dnfFound));
    case Arch => ArchIsPacman(sudo);
    case Unknown =>
  }

  // ---------------------------------------------------------------------
  // The two os-release readers compared

  /** Stripping a string whose ends cannot be removed leaves it unchanged. */
  lemma StripUnchanged(s: string, k: StripSet)
    requires s == "" || (!Drops(k, s[0]) && !Drops(k, s[|s| - 1]))
    ensures Strip(s, k) == s
  {
  }

  /** Stripping whitespace from a word followed by a newline gives the word. */
  lemma StripNewline(w: string)
    requires w != "" && NoSpace(w)
    ensures Strip(w + "\n", Whitespace) == w
  {
    var s := w + "\n";
    var b := StripBounds(s, Whitespace);
    assert s[|w|] == '\n';
    assert s[0] == w[0] && s[|w| - 1] == w[|w| - 1];
    assert s[..|w|] == w;
  }

  /** An `ID=<word>` line, as read from the file with its newline. */
  function IdLine(w: string): string
  {
    "ID=" + w + "\n"
  }

  /** A plain word: no whitespace, quotes or `=`. */
  predicate PlainWord(w: string)
  {
    w != "" && NoSpace(w) && '"' !in w && '=' !in w
  }

  lemma IdLineIsOneLine(w: string)
    requires PlainWord(w)
    ensures var line := IdLine(w);
      line != "" && line[|line| - 1] == '\n' && '\n' !in line[..|line| - 1]
  {
    var line := IdLine(w);
    assert line[..|line| - 1] == "ID=" + w;
    assert forall i :: 0 <= i < |w| ==> w[i] != '\n';
  }

  /** The agent's reader turns the line into the lower-cased word. */
  lemma AgentReadsLowered(w: string)
    requires PlainWord(w)
    ensures AgentDistro.IsIdLine(IdLine(w)) && AgentDistro.IdValue(IdLine(w)) == Lower(w)
  {
    var line := IdLine(w);
    assert line[..3] == "ID=";
    var tail := w + "\n";
    assert line == "ID" + "=" + tail;
    IndexOfAfterFree("ID", '=', tail);
    assert '=' !in tail;
    assert SplitOn(line, '=')[1] == tail;
    StripNewline(w);
    assert w[0] in w && w[|w| - 1] in w;
    StripUnchanged(w, Char('"'));
  }

  /** Stripping whitespace from the line removes exactly its newline. */
  lemma IdLineStripped(w: string)
    requires PlainWord(w)
    ensures Strip(IdLine(w), Whitespace) == "ID" + "=" + w
  {
    var s := "ID=" + w;
    assert IdLine(w) == s + "\n";
    assert s == "ID" + "=" + w;
    assert NoSpace(s) by {
      assert forall i :: 0 <= i < |w| ==> s[3 + i] == w[i];
    }
    StripNewline(s);
  }

  /** The installer's reader keeps the word as written under the key `ID`. */
  lemma InstallerReadsAsWritten(w: string)
    requires PlainWord(w)
    ensures Defines(IdLine(w), "ID") && Entry(IdLine(w)).1 == w
  {
    IdLineStripped(w);
    EntrySplitsAtFirstEquals(IdLine(w), "ID", w);
    assert w[0] in w && w[|w| - 1] in w;
    StripUnchanged(w, Char('"'));
  }

  /** A file of two lines is read as those two lines. */
  lemma ReadTwoLines(a: string, b: string)
    requires PlainWord(a) && PlainWord(b)
    ensures ReadLines(IdLine(a) + IdLine(b)) == [IdLine(a), IdLine(b)]
  {
    IdLineIsOneLine(a);
    IdLineIsOneLine(b);
    ReadLinesCons(IdLine(a), IdLine(b));
    ReadLinesCons(IdLine(b), "");
    assert IdLine(b) + "" == IdLine(b);
  }

  /**
   * The agent's and the installer's readers of the same file disagree: for
   * `ID=<a>` followed by `ID=<b>`, the agent reports the first word
   * lower-cased, the installer the last word as written.
   */
  lemma ReadersDisagree(a: string, b: string)
    requires PlainWord(a) && PlainWord(b)
    ensures AgentDistro.DistroId(Some(IdLine(a) + IdLine(b))) == Lower(a)
    ensures DistroInfo(Some(IdLine(a) + IdLine(b))).0 == b
  {
    assert AgentDistro.DistroId(Some(IdLine(a) + IdLine(b))) == Lower(a) by {
      IdLineIsOneLine(a);
      AgentReadsLowered(a);
      AgentDistro.LeadingIdLineWins(IdLine(a), IdLine(b));
    }
    assert DistroInfo(Some(IdLine(a) + IdLine(b))).0 == b by {
      ReadTwoLines(a, b);
      InstallerReadsAsWritten(b);
      LastDefinitionWins([IdLine(a), IdLine(b)], "ID", 1);
    }
  }

  /** With a single `ID=<word>` line the two readers differ exactly by letter case. */
  lemma ReadersDisagreeOnCase(w: string)
    requires PlainWord(w)
    ensures AgentDistro.DistroId(Some(IdLine(w))) == Lower(w)
    ensures DistroInfo(Some(IdLine(w))).0 == w
  {
    IdLineIsOneLine(w);
    assert IdLine(w) + "" == IdLine(w);
    assert AgentDistro.DistroId(Some(IdLine(w))) == Lower(w) by {
      AgentReadsLowered(w);
      AgentDistro.LeadingIdLineWins(IdLine(w), "");
    }
    assert DistroInfo(Some(IdLine(w))).0 == w by {
      ReadLinesCons(IdLine(w), "");
      InstallerReadsAsWritten(w);
      LastDefinitionWins([IdLine(w)], "ID", 0);
    }
  }
}
