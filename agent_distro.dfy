/**
 * The agent's `detect_linux_distro`: the value of the first `ID=` line of
 * /etc/os-release, cut at the next `=`, stripped of whitespace and of
 * surrounding double quotes, and lower-cased; `unknown` when the file is
 * absent or holds no such line.
 *
 * The file is an input: `None` when it does not exist, otherwise its text
 * as text-mode `open()` reads it, with `\r\n` and `\r` already turned into `\n`.
 */
module AgentDistro {
  import opened Wrappers
  import opened PyStr

  const Unknown := "unknown"

  /** `line.startswith('ID=')` */
  predicate IsIdLine(line: string)
  {
    StartsWith(line, "ID=")
  }

  lemma IdLineHasEquals(line: string)
    requires IsIdLine(line)
    ensures line[2] == '=' && '=' in line
  {
    assert line[..3] == "ID=";
    assert line[..3][2] == line[2];
  }

  /** `line.split('=')[1].strip().strip('"').lower()` for an `ID=` line. */
  function IdValue(line: string): string
    requires IsIdLine(line)
  {
    IdLineHasEquals(line);
    var parts := SplitOn(line, '=');
    Lower(Strip(Strip(parts[1], Whitespace), Char('"')))
  }

  /** The value of the first `ID=` line, if any. */
  function FirstIdValue(lines: seq<string>): Option<string>
  {
    if lines == [] then None
    else if IsIdLine(lines[0]) then Some(IdValue(lines[0]))
    else FirstIdValue(lines[1..])
  }

  /** What `detect_linux_distro` returns for the file (absent, or its text). */
  function DistroId(osRelease: Option<string>): string
  {
    if osRelease.None? then Unknown
    else
      match FirstIdValue(ReadLines(osRelease.value))
      case None => Unknown
      case Some(v) => v
  }

  /** The loop over the file's lines with its early return. */
  method DetectLinuxDistro(osRelease: Option<string>) returns (distro: string)
    ensures distro == DistroId(osRelease)
  {
    if osRelease.None? {
      return "unknown";
    }
    var lines := ReadLines(osRelease.value);
    var i := 0;
    while i < |lines|
      invariant 0 <= i <= |lines|
      invariant FirstIdValue(lines[i..]) == FirstIdValue(lines)
    {
      var line := lines[i];
      assert lines[i..][0] == line && lines[i..][1..] == lines[i + 1..];
      if StartsWith(line, "ID=") {
        IdLineHasEquals(line);
        var parts := SplitOn(line, '=');
        return Lower(Strip(Strip(parts[1], Whitespace), Char('"')));
      }
      i := i + 1;
    }
    return "unknown";
  }

  // ---------------------------------------------------------------------
  // Properties

  /** The first `ID=` line decides the result, whatever follows it. */
  lemma {:induction false} FirstIdLineDecides(lines: seq<string>, k: nat)
    requires k < |lines| && IsIdLine(lines[k])
    requires forall j :: 0 <= j < k ==> !IsIdLine(lines[j])
    ensures FirstIdValue(lines) == Some(IdValue(lines[k]))
    decreases k
  {
    if k > 0 {
      FirstIdLineDecides(lines[1..], k - 1);
    }
  }

  /** Without an `ID=` line (or without the file) the result is `unknown`. */
  lemma {:induction false} NoIdLineIsUnknown(lines: seq<string>)
    requires forall j :: 0 <= j < |lines| ==> !IsIdLine(lines[j])
    ensures FirstIdValue(lines) == None
    decreases |lines|
  {
    if lines != [] {
      NoIdLineIsUnknown(lines[1..]);
    }
  }

  /** A line starting `ID_LIKE=` or `VERSION_ID=` does not start `ID=`. */
  lemma OtherKeyIsNotIdLine(line: string)
    requires StartsWith(line, "ID_LIKE=") || StartsWith(line, "VERSION_ID=")
    ensures !IsIdLine(line)
  {
    if StartsWith(line, "ID_LIKE=") {
      assert line[2] == "ID_LIKE="[2] == '_';
    } else {
      assert line[0] == "VERSION_ID="[0] == 'V';
    }
    assert "ID="[0] == 'I' && "ID="[2] == '=';
  }

  /** `ID_LIKE=` and `VERSION_ID=` lines are never taken for the `ID=` line: a file that starts with one reads as the rest. */
  lemma OtherKeysNeverMatch(line: string, rest: string)
    requires StartsWith(line, "ID_LIKE=") || StartsWith(line, "VERSION_ID=")
    requires line[|line| - 1] == '\n' && '\n' !in line[..|line| - 1]
    ensures DistroId(Some(line + rest)) == DistroId(Some(rest))
  {
    ReadLinesCons(line, rest);
    OtherKeyIsNotIdLine(line);
    var lines := [line] + ReadLines(rest);
    assert lines[1..] == ReadLines(rest);
  }

  /** A leading `ID=` line wins even when a later `ID=` line follows. */
  lemma LeadingIdLineWins(line: string, rest: string)
    requires IsIdLine(line)
    requires line[|line| - 1] == '\n' && '\n' !in line[..|line| - 1]
    ensures DistroId(Some(line + rest)) == IdValue(line)
  {
    ReadLinesCons(line, rest);
  }

  /** Lower-casing keeps the characters it does not change and maps none onto `=`, `"` or a newline. */
  lemma LowerShape(q: string)
    ensures NoUpper(Lower(q))
    ensures forall ch :: ch in "=\"\n" ==> (ch in Lower(q) <==> ch in q)
    ensures q != "" ==> (Lower(q)[0] == '"' <==> q[0] == '"')
    ensures q != "" ==> (Lower(q)[|q| - 1] == '"' <==> q[|q| - 1] == '"')
  {
    var v := Lower(q);
    forall ch | ch in "=\"\n" ensures ch in v <==> ch in q {
      if ch in v {
        var i :| 0 <= i < |v| && v[i] == ch;
        assert q[i] == ch;
      }
      if ch in q {
        var i :| 0 <= i < |q| && q[i] == ch;
        assert v[i] == ch;
      }
    }
  }

  /** The identifier is lower-case, holds no `=`, and does not begin or end with a double quote. */
  lemma IdValueShape(line: string)
    requires IsIdLine(line)
    ensures var v := IdValue(line);
      NoUpper(v) && '=' !in v && (v != "" ==> v[0] != '"' && v[|v| - 1] != '"')
  {
    IdLineHasEquals(line);
    var raw := SplitOn(line, '=')[1];
    var w := Strip(raw, Whitespace);
    var q := Strip(w, Char('"'));
    assert '=' !in q by {
      if '=' in q {
        StripFrom(w, Char('"'), '=');
        StripFrom(raw, Whitespace, '=');
      }
    }
    LowerShape(q);
  }

  /** For a line whose only newline is its last character, the identifier holds no newline. */
  lemma IdValueHasNoNewline(line: string)
    requires IsIdLine(line)
    requires '\n' !in line[..|line| - 1]
    ensures '\n' !in IdValue(line)
  {
    IdLineHasEquals(line);
    var raw := SplitOn(line, '=')[1];
    var w := Strip(raw, Whitespace);
    var q := Strip(w, Char('"'));
    assert '\n' !in w by {
      RawIdValueNewlineLast(line);
      NewlineOnlyAtEndIsStripped(raw);
    }
    assert '\n' !in q by {
      if '\n' in q {
        StripFrom(w, Char('"'), '\n');
      }
    }
    LowerShape(q);
  }

  /** The piece between the first and second `=` of an `ID=` line can hold a newline only as its last character. */
  lemma RawIdValueNewlineLast(line: string)
    requires IsIdLine(line)
    requires '\n' !in line[..|line| - 1]
    ensures '=' in line && |SplitOn(line, '=')| >= 2
    ensures var raw := SplitOn(line, '=')[1]; raw == "" || '\n' !in raw[..|raw| - 1]
  {
    IdLineHasEquals(line);
    var tail := line[3..];
    assert IndexOf(line, '=') == 2;
    assert line == line[..2] + ['='] + tail;
    assert SplitOn(line, '=')[1] == SplitOn(tail, '=')[0];
    var raw := SplitOn(tail, '=')[0];
    assert raw == tail[..IndexOf(tail, '=')];
    if raw != "" {
      forall i | 0 <= i < |raw| - 1 ensures raw[i] != '\n' {
        assert raw[i] == line[3 + i];
        assert line[..|line| - 1][3 + i] == line[3 + i];
      }
    }
  }

  /** The identifier is the text between the first and the second `=`, stripped, unquoted and lower-cased. */
  lemma IdValueCutsAtSecondEquals(v: string, rest: string)
    requires '=' !in v
    ensures IsIdLine("ID=" + v + "=" + rest)
    ensures IdValue("ID=" + v + "=" + rest) == Lower(Strip(Strip(v, Whitespace), Char('"')))
  {
    var line := "ID=" + v + "=" + rest;
    assert line[..3] == "ID=";
    var tail := line[3..];
    assert tail == v + ['='] + rest;
    assert line == "ID" + ['='] + tail;
    IndexOfAfterFree("ID", '=', tail);
    assert SplitOn(line, '=')[1] == SplitOn(tail, '=')[0];
    IndexOfAfterFree(v, '=', rest);
    assert SplitOn(tail, '=')[0] == tail[..|v|] == v;
  }

  /** Without a second `=`, the identifier is the whole rest of the line, stripped, unquoted and lower-cased. */
  lemma IdValueWithoutSecondEquals(v: string)
    requires '=' !in v
    ensures IsIdLine("ID=" + v)
    ensures IdValue("ID=" + v) == Lower(Strip(Strip(v, Whitespace), Char('"')))
  {
    var line := "ID=" + v;
    assert line[..3] == "ID=";
    assert line[3..] == v;
    assert line == "ID" + ['='] + v;
    IndexOfAfterFree("ID", '=', v);
    assert SplitOn(line, '=')[1] == SplitOn(v, '=')[0];
    assert v[..IndexOf(v, '=')] == v;
  }

  /** Stripping whitespace removes a newline that can only be the last character. */
  lemma NewlineOnlyAtEndIsStripped(s: string)
    requires s == "" || '\n' !in s[..|s| - 1]
    ensures '\n' !in Strip(s, Whitespace)
  {
    var b := StripBounds(s, Whitespace);
    var r := Strip(s, Whitespace);
    assert forall p :: 0 <= p < |r| ==> r[p] == s[b.0 + p];
  }
}
