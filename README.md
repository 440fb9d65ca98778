# simple-rmm agent core, modelled in Dafny

This project models the decision logic of the Simple RMM Linux agent and of its
prerequisites installer. It covers these parts:

- **`AgentUpdates`** (`agent_updates.dfy`): the Linux branch of the agent's update check.
  - It picks apt, then dnf/yum, then pacman, by which binary exists.
  - It reads the listing command's output only on the manager's success code (0, or 100 for `check-update`).
  - It turns each output line into at most one update record.
  - It reports the first 50 records.
- **`AgentDistro`** (`agent_distro.dfy`): the agent's `detect_linux_distro`. The first `ID=` line of
  `/etc/os-release` decides, and its value is stripped, unquoted and lower-cased.
- **`AgentClient`** (`agent_client.dfy`): `RMMClient.handle_message` and the state it changes.
  - `agent_id` is replaced on `auth_success`.
  - `vnc_running` is guarded and set by `start_vnc` and cleared by `stop_vnc`.
  - `start_vnc` looks the quality up in its table, falling back to `medium`, and raises `TypeError` when the quality is not hashable.
  - The `RmmClient` class holds the mutable fields. Its methods are proved equal to pure step functions, and lemmas about those functions cover whole runs of messages.
- **`TunnelAuth`** (`tunnel_auth.dfy`): the `TUNNEL_AUTH:<agent id>:<token>\n` line the tunnel client sends.
- **`Installer`** (`installer.dfy`): the prerequisites installer.
  - `detect_distro` reads os-release into a dictionary in which later lines win.
  - The distribution is classified as Debian, Red Hat, Arch or unknown.
  - The model builds the shell commands the installer runs: the sudo prefix, the package manager choice, and the EPEL step.
  - It builds the pip command line.
  - It covers the manual-install hint printed after a failure.
  - It also compares the installer's os-release reader with the agent's.
- **`PyStr`** (`py_str.dfy`): the Python string built-ins the source relies on: `split(c)`, `split()`, `split(c, 1)`, `strip()`, `strip('"')`, ASCII `lower()`, `startswith`, substring `in`, `join`, and `readlines()` (lines keep their `\n`).
- **`Wrappers`** (`wrappers.dfy`): the `Option` type.

The model does not run commands, read files or talk to the network. These become inputs instead:
- the outcome of a subprocess (`Run`);
- which binaries exist (`Binaries`);
- the content of `/etc/os-release` (an `Option<string>`: absent, or its text);
- each shell command's exit status (a function from command line to status);
- the effective uid, whether `dnf` is on the PATH, and whether `requirements.txt` exists;
- the uuid the client is created with.

## Model

| member | source | states |
|---|---|---|
| AgentUpdates.ManagerFor | simple-rmm/agent/agent.py:390-438 | The `if`/`elif` chain on `/usr/bin/apt`, `/usr/bin/yum` or `/usr/bin/dnf`, and `/usr/bin/pacman`. |
| AgentUpdates.AptRecord | simple-rmm/agent/agent.py:400-412 | One apt line: `upgradable` and `/` in the line, a first token cut at `/`, the second token or `unknown`. |
| AgentUpdates.CheckUpdateRecord | simple-rmm/agent/agent.py:425-435 | One dnf/yum line: non-empty, not `Last metadata` or `*`, two or more tokens. |
| AgentUpdates.PacmanRecord | simple-rmm/agent/agent.py:449-459 | One pacman line: non-empty with two or more tokens. |
| AgentUpdates.Records | simple-rmm/agent/agent.py:399-459 | The records the loop appends after visiting the lines, in line order. |
| AgentUpdates.LinuxUpdates | simple-rmm/agent/agent.py:384-464 | The manager, the return-code gate, `split('\n')`, the parse, `[:50]`, and `[]` on an exception. |
| AgentUpdates.SuccessCode | simple-rmm/agent/agent.py:398-447 | The return code on which the output is read: 100 for `check-update` (line 423), 0 for apt and pacman (lines 398 and 447). |
| AgentUpdates.Record | simple-rmm/agent/agent.py:405-412 | A record carries the given title and description, an empty KB, size 0, and is neither important nor critical. |
| AgentUpdates.ListingCommand | simple-rmm/agent/agent.py:389-446 | A listing command exists exactly when one of apt, yum/dnf or pacman is present. |
| AgentUpdates.Take | simple-rmm/agent/agent.py:461 | `updates[:50]` is the prefix of length min(n, len). |
| AgentUpdates.ParseAptList | simple-rmm/agent/agent.py:399-412 | The apt loop appends exactly the records of the lines, in line order. |
| AgentUpdates.ParseCheckUpdate | simple-rmm/agent/agent.py:424-435 | The dnf/yum loop appends exactly the records of the lines, in line order. |
| AgentUpdates.ParsePacmanQu | simple-rmm/agent/agent.py:448-459 | The pacman loop appends exactly the records of the lines, in line order. |
| AgentUpdates.CheckLinuxUpdates | simple-rmm/agent/agent.py:384-464 | The method returns the specified update list for the binaries present and the command outcome, an exception giving `[]`. |
| AgentUpdates.AptRecordSpec | simple-rmm/agent/agent.py:400-412 | An apt line yields a record iff it contains `upgradable` and a `/`. The title is the first token up to its first `/`. The description is `Version <second token or unknown> available`. |
| AgentUpdates.CheckUpdateRecordSpec | simple-rmm/agent/agent.py:425-435 | A dnf/yum line yields a record iff it is non-empty, starts with neither `Last metadata` nor `*`, and has two or more tokens. The title and version are its first two tokens. |
| AgentUpdates.PacmanRecordSpec | simple-rmm/agent/agent.py:449-459 | A pacman line yields a record iff it has two or more tokens. The description is `Update to version <second token>`. |
| AgentUpdates.TitleHasNoSpace | simple-rmm/agent/agent.py:401-403 | For every manager, a record's title contains no whitespace. |
| AgentUpdates.RecordsAppend | simple-rmm/agent/agent.py:399-412 | Parsing distributes over concatenation of line sequences, so records keep input order. |
| AgentUpdates.RecordsShape | simple-rmm/agent/agent.py:399-459 | Parsing yields at most one record per line, each with the fixed KB, size and flags. |
| AgentUpdates.SilentLinesIgnored | simple-rmm/agent/agent.py:399-459 | Removing a line that yields no record does not change the result. |
| AgentUpdates.CapIsPrefix | simple-rmm/agent/agent.py:461 | On success, the result is the first min(50, n) parsed records, in order. |
| AgentUpdates.LinuxUpdatesShape | simple-rmm/agent/agent.py:399-461 | Never more than 50 updates are reported, all of the fixed Linux shape. |
| AgentUpdates.ReturnCodeGate | simple-rmm/agent/agent.py:386-464 | dnf/yum output is used only on code 100, and apt/pacman output only on 0. No manager, or an exception, gives `[]`. |
| AgentUpdates.ManagerPrecedence | simple-rmm/agent/agent.py:389-438 | apt wins over dnf/yum, which wins over pacman, and `dnf` is preferred to `yum`. |
| AgentUpdates.CheckUpdateTwoWords | simple-rmm/agent/agent.py:425-435 | A line of two words gives the record named after the first word, with the second as version. |
| AgentUpdates.ObsoletingHeaderIsReported | simple-rmm/agent/agent.py:425-435 | The `Obsoleting Packages` header passes the filter and is reported as package `Obsoleting`. |
| AgentDistro.IdValue | simple-rmm/agent/agent.py:101 | `line.split('=')[1].strip().strip('"').lower()` for an `ID=` line. |
| AgentDistro.FirstIdValue | simple-rmm/agent/agent.py:99-101 | The value of the first `ID=` line, the early return of the loop. |
| AgentDistro.DistroId | simple-rmm/agent/agent.py:95-102 | That value, or `unknown` when the file or the line is missing. |
| AgentDistro.IdLineHasEquals | simple-rmm/agent/agent.py:100-101 | An `ID=` line contains `=`, so the split yields a second piece. |
| AgentDistro.DetectLinuxDistro | simple-rmm/agent/agent.py:95-102 | The loop with its early return gives the value of the first `ID=` line, or `unknown` when the file or the line is missing. |
| AgentDistro.FirstIdLineDecides | simple-rmm/agent/agent.py:99-101 | The first `ID=` line decides, whatever follows it. |
| AgentDistro.NoIdLineIsUnknown | simple-rmm/agent/agent.py:97-102 | Without an `ID=` line there is no value, and the result is `unknown`. |
| AgentDistro.OtherKeyIsNotIdLine | simple-rmm/agent/agent.py:100 | Neither an `ID_LIKE=` nor a `VERSION_ID=` line starts with `ID=`. |
| AgentDistro.OtherKeysNeverMatch | simple-rmm/agent/agent.py:99-101 | A leading `ID_LIKE=` or `VERSION_ID=` line is skipped. |
| AgentDistro.LeadingIdLineWins | simple-rmm/agent/agent.py:99-101 | A leading `ID=` line wins over any later one. |
| AgentDistro.LowerShape | simple-rmm/agent/agent.py:101 | `lower()` leaves no upper-case letter. It neither adds nor removes `=`, `"` or newlines, and keeps a quote at either end. |
| AgentDistro.IdValueCutsAtSecondEquals | simple-rmm/agent/agent.py:101 | For `ID=v=rest`, the identifier is `v` (the text between the first and second `=`) stripped, unquoted and lower-cased. |
| AgentDistro.IdValueWithoutSecondEquals | simple-rmm/agent/agent.py:101 | For `ID=v` with no further `=`, the identifier is the whole of `v` stripped, unquoted and lower-cased. |
| AgentDistro.IdValueShape | simple-rmm/agent/agent.py:101 | The identifier is lower-case, holds no `=`, and neither begins nor ends with `"`. |
| AgentDistro.IdValueHasNoNewline | simple-rmm/agent/agent.py:101 | The identifier read from one line holds no newline. |
| AgentDistro.RawIdValueNewlineLast | simple-rmm/agent/agent.py:101 | `line.split('=')[1]` exists and can hold a newline only as its last character. |
| AgentDistro.NewlineOnlyAtEndIsStripped | simple-rmm/agent/agent.py:101 | `strip()` removes a newline that can only be the last character. |
| AgentClient.Get | simple-rmm/agent/agent.py:227-242 | `data.get(key, default)`: the message's value under the key, else the default. |
| AgentClient.Hashable | simple-rmm/agent/agent.py:524 | A JSON value can be looked up as a dictionary key unless it decodes to a list or a dict. |
| AgentClient.QualitySettings | simple-rmm/agent/agent.py:518-524 | `quality_settings.get(quality, (50, 30))`, `None` for the `TypeError` of a list or dict key. |
| AgentClient.Dispatch | simple-rmm/agent/agent.py:223-249 | The `if`/`elif` chain on `data.get("type")`, with the defaults of each `data.get`. |
| AgentClient.StartStep | simple-rmm/agent/agent.py:514-524 | The guard, the flag set before the lookup, then the table lookup and the capture thread. |
| AgentClient.StopStep | simple-rmm/agent/agent.py:566 | The flag cleared. |
| AgentClient.Step | simple-rmm/agent/agent.py:225-242 | The state after one message: `agent_id` on `auth_success`, the flag on `vnc_start` and `vnc_stop`. |
| AgentClient.StartOutcome | simple-rmm/agent/agent.py:238-239 | What `start_vnc` did during the message, if it was called. |
| AgentClient.Replay | simple-rmm/agent/agent.py:221-249 | The state after a run of messages handled in order. |
| AgentClient.QualityTableValues | simple-rmm/agent/agent.py:518-524 | low, medium and high map to (30, 50), (50, 30) and (75, 15). Any other hashable quality gets the medium settings, and a list or dict raises. |
| AgentClient.DispatchDefaults | simple-rmm/agent/agent.py:223-249 | The `data.get` defaults are `updateIds` `[]`, quality `medium`, fps 15 and input `{}`. A message without `type` is ignored. |
| AgentClient.AgentIdRule | simple-rmm/agent/agent.py:225-249 | `agent_id` changes only on `auth_success` that has an `agentId`. Only vnc messages touch `vnc_running`. An ignored message changes nothing. |
| AgentClient.StartGuard | simple-rmm/agent/agent.py:514-524 | When already running, `start_vnc` returns with the state unchanged. Otherwise the flag is set first, and a capture starts iff the quality is hashable. |
| AgentClient.StartStopIdempotent | simple-rmm/agent/agent.py:514-566 | A repeated `vnc_start` or `vnc_stop` message has no further effect. |
| AgentClient.StuckAfterTypeError | simple-rmm/agent/agent.py:514-524 | After a `vnc_start` with a list or dict quality, the flag is set and no capture runs. Every later `vnc_start` is then ignored. |
| AgentClient.LastAuthSuccessWins | simple-rmm/agent/agent.py:225-227 | After a run of messages, `agent_id` is the `agentId` of the last `auth_success` that carried one. |
| AgentClient.AgentIdKeptWithoutAuth | simple-rmm/agent/agent.py:225-227 | Without such a message, `agent_id` keeps its initial value. |
| AgentClient.LastVncSwitchDecides | simple-rmm/agent/agent.py:238-242 | After a run of messages, `vnc_running` holds iff the last vnc switch message was `vnc_start`. |
| AgentClient.RmmClient.constructor | simple-rmm/agent/agent.py:121-129 | A new client has the given uuid as `agent_id`, sharing off and no capture thread. |
| AgentClient.RmmClient.StartVnc | simple-rmm/agent/agent.py:512-524 | The new fields and the outcome are those of the start step on the old fields. |
| AgentClient.RmmClient.StopVnc | simple-rmm/agent/agent.py:564-569 | The flag is cleared and nothing else changes. |
| AgentClient.RmmClient.HandleMessage | simple-rmm/agent/agent.py:221-249 | The handler called, the new fields, and what `start_vnc` did (including the `TypeError` it raises) are those `Dispatch`, `Step` and `StartOutcome` give for the old fields. |
| AgentClient.RaisesIff | simple-rmm/agent/agent.py:238-239 | `handle_message` raises exactly for a `vnc_start` whose quality is a list or an object while sharing is off, and `start_vnc` runs exactly for `vnc_start`. |
| TunnelAuth.AuthLine | simple-rmm/agent/agent.py:647 | The line is `TUNNEL_AUTH:`, the agent id, a `:`, the token, and a final newline: each part sits at its position, and the length is the sum of the parts. |
| TunnelAuth.ReadAuthLineRoundTrip | simple-rmm/agent/agent.py:647 | The id and token are recovered from the line when the id holds no `:`. |
| TunnelAuth.ColonInAgentIdIsAmbiguous | simple-rmm/agent/agent.py:647 | With `:` in the id, two different (id, token) pairs give the same line. |
| TunnelAuth.SingleNewline | simple-rmm/agent/agent.py:647 | The final newline is the only one iff neither id nor token holds one. |
| Installer.Get | agent/install_linux.py:23 | `info.get(key, default)`: the stored value, else the default. |
| Installer.Fill | agent/install_linux.py:19-22 | The `info` dictionary after the loop: each line with `=` sets its key, later lines win. |
| Installer.DistroInfo | agent/install_linux.py:13-24 | `(info.get('ID', 'unknown'), info.get('ID_LIKE', ''))`, and `('unknown', '')` without the file. |
| Installer.IsDebianLike | agent/install_linux.py:36 | `ID` is debian or ubuntu, or `debian` occurs in `ID_LIKE`. |
| Installer.IsRedHatLike | agent/install_linux.py:42 | `ID` is rhel, centos, fedora, rocky or almalinux, or `rhel` or `fedora` occurs in `ID_LIKE`. |
| Installer.IsArchLike | agent/install_linux.py:60 | `ID` is arch, manjaro or endeavouros, or `arch` occurs in `ID_LIKE`. |
| Installer.Classify | agent/install_linux.py:36-69 | The Debian, Red Hat, Arch tests in that order, else unknown. |
| Installer.SudoPrefix | agent/install_linux.py:33 | `sudo` unless the effective uid is 0. |
| Installer.PackageManager | agent/install_linux.py:46-49 | `dnf` when found on the PATH, else `yum`. |
| Installer.NeedsEpel | agent/install_linux.py:54 | EPEL is enabled for the `ID`s rhel, centos, rocky and almalinux only. |
| Installer.AsUser | agent/install_linux.py:39-63 | `f"{sudo} {cmd}"`: the sudo prefix, a space, then the command. |
| Installer.DebianInstall | agent/install_linux.py:38-39 | `apt update`, then `apt install -y` with the six Debian packages, each part through the sudo prefix. |
| Installer.EpelInstall | agent/install_linux.py:55 | `<package manager> install -y epel-release` through the sudo prefix. |
| Installer.RedHatInstall | agent/install_linux.py:51-57 | `<package manager> install -y` with the five Red Hat packages through the sudo prefix. |
| Installer.ArchInstall | agent/install_linux.py:62-63 | `pacman -Sy --noconfirm` with the five Arch packages through the sudo prefix. |
| Installer.SystemDepsCommands | agent/install_linux.py:36-69 | The commands run for the family, in order, each with its `check` flag. |
| Installer.InstallSystemDeps | agent/install_linux.py:26-79 | `True` unless the family is unknown or a `check=True` command fails. |
| Installer.PipCommand | agent/install_linux.py:86-94 | The pip argument list for an existing or a missing `requirements.txt`. |
| Installer.ManualHint | agent/install_linux.py:147-153 | As written: the pacman hint iff `arch` occurs in the `ID`. |
| Installer.FamilyHint | agent/install_linux.py:147-153 | Corrected: the pacman hint iff the system was classified as Arch. |
| Installer.Entry | agent/install_linux.py:20-22 | The key holds no `=`, because the split is at the first `=` of the stripped line. |
| Installer.DetectDistro | agent/install_linux.py:13-24 | The loop gives `ID` and `ID_LIKE` from the filled dictionary, with defaults `unknown` and empty, and the same defaults without the file. |
| Installer.FillStep | agent/install_linux.py:19-22 | A line with `=` sets its key, and any other line leaves the dictionary as it was. |
| Installer.FillAppend | agent/install_linux.py:19-22 | Filling continues where the previous lines left off. |
| Installer.PlainLinesIgnored | agent/install_linux.py:20 | A line without `=` can be removed without changing the dictionary. |
| Installer.FillKeys | agent/install_linux.py:19-22 | A key is in the dictionary iff some line defines it. |
| Installer.LastDefinitionWins | agent/install_linux.py:19-22 | A key keeps the value from the last line that defines it. |
| Installer.EntrySplitsAtFirstEquals | agent/install_linux.py:21-22 | `KEY=raw` splits into the key and `raw.strip('"')`, even when `raw` contains `=`. |
| Installer.ClassifyIsFirstMatch | agent/install_linux.py:36-69 | The family is the first of Debian, Red Hat, Arch whose test matches, and unknown iff none matches. |
| Installer.IdLikeIsSubstringTest | agent/install_linux.py:42 | `rhel` anywhere in `ID_LIKE` makes a non-Debian system Red Hat. |
| Installer.UnknownRunsNothing | agent/install_linux.py:66-69 | An unknown distribution gets no commands and reports failure. |
| Installer.InstallSucceedsIffCheckedCommandsPass | agent/install_linux.py:35-79 | `install_system_deps` returns True iff the plan exists and every `check=True` command exits 0. |
| Installer.EpelRule | agent/install_linux.py:53-58 | The EPEL command is added, first and unchecked, iff the family is Red Hat and the ID is rhel, centos, rocky or almalinux. The final install command is checked. |
| Installer.SudoRule | agent/install_linux.py:33-64 | Every command starts with `sudo ` for a non-root user and with a lone space for root. |
| Installer.DependencyListRoundTrip | agent/install_linux.py:38-64 | Each space-joined dependency list splits back into exactly that list. |
| Installer.EpelStatusIgnored | agent/install_linux.py:55-58 | The EPEL command's exit status never changes the outcome. |
| Installer.PathJoin | agent/install_linux.py:86 | `os.path.join` gives the directory, then a `/` exactly when the directory is non-empty and does not already end in `/`, then the name. |
| Installer.PipCommandShape | agent/install_linux.py:86-94 | The command is `python -m pip install`. It is followed by `-r` and the path `PathJoin(<script dir>, requirements.txt)` iff that file exists, and by websockets, psutil and Pillow otherwise. |
| Installer.ArchIdGetsPacmanHint | agent/install_linux.py:147-149 | An ID containing `arch` gets the pacman hint. |
| Installer.NoArchInManjaro | agent/install_linux.py:148 | `arch` is not a substring of `manjaro`. |
| Installer.ManjaroGetsAptHint | agent/install_linux.py:147-153 | Manjaro is classified as Arch, yet it gets the apt/dnf/yum hint (as written). |
| Installer.AsUserStartsWith | agent/install_linux.py:39-63 | With the same sudo prefix, a command starts with a word iff the prefixed forms do. |
| Installer.DebianIsNotPacman | agent/install_linux.py:39 | The apt command line is not a pacman command. |
| Installer.RedHatIsNotPacman | agent/install_linux.py:57 | The dnf/yum install line is not a pacman command. |
| Installer.ArchIsPacman | agent/install_linux.py:63 | The Arch install line is a pacman command. |
| Installer.FamilyHintMatchesInstallCommand | agent/install_linux.py:147-153 | The corrected hint names pacman iff the install command built for the system was a pacman command. |
| Installer.IdLineStripped | agent/install_linux.py:21 | `strip()` removes exactly the newline of an `ID=<word>` line. |
| Installer.InstallerReadsAsWritten | agent/install_linux.py:19-22 | The installer stores the word under `ID` exactly as written. |
| Installer.AgentReadsLowered | simple-rmm/agent/agent.py:100-101 | The agent reads the same line as the lower-cased word. |
| Installer.ReadTwoLines | agent/install_linux.py:17 | `readlines()` of two newline-terminated lines gives those two lines. |
| Installer.ReadersDisagree | agent/install_linux.py:13-24 | With two `ID=` lines, the agent reports the first (lowered) and the installer the last. |
| Installer.ReadersDisagreeOnCase | agent/install_linux.py:19-23 | With one `ID=` line, the two readers differ exactly by letter case. |
| PyStr.StartsWith | simple-rmm/agent/agent.py:100 | `s.startswith(p)`: `p` is a prefix of `s`. |
| PyStr.Contains | simple-rmm/agent/agent.py:400 | Substring `in`: the needle is a prefix of some suffix of the text. |
| PyStr.Join | agent/install_linux.py:39 | `sep.join(parts)`: the parts with the separator between consecutive ones. |
| PyStr.IndexOf | simple-rmm/agent/agent.py:403 | The first position of the character, or the length when it is absent. |
| PyStr.SplitOn | simple-rmm/agent/agent.py:399 | `split(c)`: at least one piece, none holding `c`, and joining them with `c` gives the string back. |
| PyStr.SplitFirst | agent/install_linux.py:21 | `split('=', 1)`: the text before the first `=`, which holds none, and the text after it. |
| PyStr.SplitWs | simple-rmm/agent/agent.py:401 | `split()`: non-empty tokens without whitespace, none at all iff the string is all whitespace. |
| PyStr.Strip | agent/install_linux.py:21-22 | `strip()` and `strip('"')` give the slice of the input that starts after its removable leading characters. Only removable characters follow the slice, and the slice neither begins nor ends with a removable character. |
| PyStr.Lower | simple-rmm/agent/agent.py:101 | `lower()` character by character, keeping the length. |
| PyStr.ReadLines | agent/install_linux.py:17 | `readlines()`: the lines concatenate to the text, each non-empty with a newline only at its end, and all but the last end in one. |
| PyStr.SplitWsTokenThenRest | simple-rmm/agent/agent.py:401 | A token followed by whitespace (or by nothing) splits into that token, then the tokens of the rest. |
| PyStr.SplitWsSpaceThenRest | simple-rmm/agent/agent.py:401 | Leading whitespace does not change `split()`. With these two and the all-whitespace case, `split()` is fixed on every string. |
| PyStr.SplitJoin | simple-rmm/agent/agent.py:399 | `split('\n')` undoes joining pieces that hold no newline. |
| PyStr.SplitWsKeepsText | simple-rmm/agent/agent.py:401 | `split()` loses only whitespace: its tokens, joined, are the line without whitespace. |
| PyStr.SplitWsTwoWords | simple-rmm/agent/agent.py:426 | Two words separated by a space split into exactly those two words. |
| PyStr.ContainsIffOccurs | simple-rmm/agent/agent.py:400 | Substring `in` holds iff some slice of the line equals the needle. |
| PyStr.StripKeeps | agent/install_linux.py:21-22 | `strip` keeps every character it cannot remove. |
| PyStr.ReadLinesCons | agent/install_linux.py:17 | A first line ending at its only newline is read as its own line, followed by the rest. |

## Left out

- Running commands, reading files, the websocket connection, the heartbeat loop, threads and timeouts are not modelled. Their results are inputs: `Run`, `Binaries`, the os-release text, exit statuses, the effective uid, `dnf` presence, `requirements.txt` presence, and the uuid.
- The `apt update` and `pacman -Sy` refresh commands run before listing are not modelled as commands. Their return code is ignored by the source. A timeout or a missing binary raises instead, and that case is the `Raised` outcome, for which the check returns `[]`.
- The screen capture thread (PIL grab, resize, JPEG, base64, `time.sleep(1 / fps)`) is left out. A started capture is recorded only with its quality settings and fps. The `interval` from the quality table is recorded but, as in the source, unused.
- `stop_vnc` joining the thread with a 2-second timeout is left out. The thread object is kept, as in the source.
- The handlers `handle_message` calls (shell execution, update listing and installing, VNC input) are not modelled. `HandleMessage` returns which handler it called and with what arguments.
- `check_windows_updates`, `install_dependencies`, the installer's `main` prompt, and every `print` are not part of this model.
- The tunnel client's connection and relay are not part of this model. `.encode()` of the handshake line is left out: lines are character sequences.
- The command output and the os-release text are inputs in their decoded text form. `text=True` and text-mode `open()` have already turned `\r\n` and `\r` into `\n`, so lines are split at `\n` only.
- AgentClient.RmmClient.HandleMessage: the `TypeError` that `start_vnc` raises is returned as the `SettingsTypeError` outcome. It does not propagate: the message loop ending and the client reconnecting are not modelled.
- AgentClient: JSON numbers are integers only. Floats, and messages that are not JSON objects, are not modelled.
- PyStr.Lower: only ASCII letters are lower-cased. Python's full Unicode `lower()` is not modelled.
- TunnelAuth.ReadAuthLine: the server that reads the handshake line is not part of this model. This reader, which splits at the first `:` after the prefix, states what a reader can recover.
- Installer.InstallSystemDeps: exceptions other than a failing `check=True` command, such as a missing shell, are not modelled. The source turns those into `False` as well.

## Findings

| source | as written | input that shows it | evidently intended | confidence | as-written member | corrected member |
|---|---|---|---|---|---|---|
| agent/install_linux.py:147-153 | The manual-install hint offers pacman only when `'arch' in distro`, testing the `ID` alone. | `ID=manjaro` (also `endeavouros`): line 60 classifies it as Arch and runs pacman, but the hint suggests apt/dnf/yum. | The hint follows the family the installer classified the system as, which is pacman for Manjaro and EndeavourOS. | not executed | Installer.ManjaroGetsAptHint | Installer.FamilyHintMatchesInstallCommand |
