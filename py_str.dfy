/**
 * The few Python `str` built-ins that the agent and the installer use to
 * read command output and /etc/os-release, each stated over `seq<char>`:
 * `s.split(c)`, `s.split()`, `s.split(c, 1)`, `s.strip()`, `s.strip(c)`,
 * `s.lower()`, `s.startswith(p)`, `sub in s`, `sep.join(parts)` and the
 * line iteration of a text file (`f.readlines()`, `for line in f`).
 */
module PyStr {

  /** Python's `str.isspace()` for one character. */
  predicate IsSpace(c: char)
  {
    c == ' ' || ('\t' <= c <= '\r') || ('\U{1C}' <= c <= '\U{1F}') ||
    c == '\U{85}' || c == '\U{A0}' || c == '\U{1680}' ||
    ('\U{2000}' <= c <= '\U{200A}') || c == '\U{2028}' || c == '\U{2029}' ||
    c == '\U{202F}' || c == '\U{205F}' || c == '\U{3000}'
  }

  predicate AllSpace(s: string)
  {
    forall i :: 0 <= i < |s| ==> IsSpace(s[i])
  }

  predicate NoSpace(s: string)
  {
    forall i :: 0 <= i < |s| ==> !IsSpace(s[i])
  }

  /** `s.startswith(p)` */
  predicate StartsWith(s: string, p: string)
  {
    p <= s
  }

  /** `n in h` for strings: `n` occurs somewhere in `h` as a contiguous substring. */
  predicate Contains(h: string, n: string)
    decreases |h|
  {
    StartsWith(h, n) || (|h| > 0 && Contains(h[1..], n))
  }

  /** `n` sits in `h` starting at index `i`. */
  predicate OccursAt(h: string, n: string, i: nat)
  {
    i + |n| <= |h| && h[i..i + |n|] == n
  }

  /** `Contains` means exactly "some slice of `h` equals `n`". */
  lemma {:induction false} ContainsIffOccurs(h: string, n: string)
    ensures Contains(h, n) <==> exists i: nat :: OccursAt(h, n, i)
    decreases |h|
  {
    if StartsWith(h, n) {
      assert OccursAt(h, n, 0);
    } else if |h| == 0 {
    } else {
      ContainsIffOccurs(h[1..], n);
      if Contains(h[1..], n) {
        var i: nat :| OccursAt(h[1..], n, i);
        assert h[1..][i..i + |n|] == h[i + 1..i + 1 + |n|];
        assert OccursAt(h, n, i + 1);
      }
      if exists i: nat :: OccursAt(h, n, i) {
        var i: nat :| OccursAt(h, n, i);
        assert i != 0;
        assert h[1..][i - 1..i - 1 + |n|] == h[i..i + |n|];
        assert OccursAt(h[1..], n, i - 1);
      }
    }
  }

  /** A needle found at a known position is contained. */
  lemma ContainsAt(h: string, n: string, i: nat)
    requires OccursAt(h, n, i)
    ensures Contains(h, n)
  {
    ContainsIffOccurs(h, n);
  }

  /** A non-empty needle whose first character never occurs in `h` is not contained. */
  lemma NotContainedWithoutFirstChar(h: string, n: string)
    requires |n| > 0 && n[0] !in h
    ensures !Contains(h, n)
  {
    ContainsIffOccurs(h, n);
  }

  /** Position of the first `c` in `s`, or `|s|` when there is none (`s.find(c)` with -1 read as `|s|`). */
  function IndexOf(s: string, c: char): (i: nat)
    ensures i <= |s|
    ensures i < |s| ==> s[i] == c
    ensures forall j :: 0 <= j < i ==> s[j] != c
    ensures i == |s| <==> c !in s
  {
    if |s| == 0 || s[0] == c then 0 else 1 + IndexOf(s[1..], c)
  }

  /** `sep.join(parts)` */
  function Join(sep: string, parts: seq<string>): string
  {
    if |parts| == 0 then ""
    else if |parts| == 1 then parts[0]
    else parts[0] + sep + Join(sep, parts[1..])
  }

  /** `s.split(c)` for a one-character separator: never empty, pieces free of `c`, joining them back gives `s`. */
  function SplitOn(s: string, c: char): (parts: seq<string>)
    ensures |parts| >= 1
    ensures forall k :: 0 <= k < |parts| ==> c !in parts[k]
    ensures Join([c], parts) == s
    ensures parts[0] == s[..IndexOf(s, c)]
    ensures |parts| == 1 <==> c !in s
    decreases |s|
  {
    var i := IndexOf(s, c);
    if i == |s| then
      assert s[..i] == s;
      [s]
    else
      var rest := SplitOn(s[i + 1..], c);
      SplitOnCons(s, c, i, rest);
      [s[..i]] + rest
  }

  /** The pieces before and after the first separator put together. */
  lemma SplitOnCons(s: string, c: char, i: nat, rest: seq<string>)
    requires i < |s| && i == IndexOf(s, c)
    requires |rest| >= 1 && Join([c], rest) == s[i + 1..]
    requires forall k :: 0 <= k < |rest| ==> c !in rest[k]
    ensures var parts := [s[..i]] + rest;
      (forall k :: 0 <= k < |parts| ==> c !in parts[k]) && Join([c], parts) == s
  {
    var head := s[..i];
    var parts := [head] + rest;
    assert parts[1..] == rest;
    forall k | 0 <= k < |parts| ensures c !in parts[k] {
      if k == 0 {
        forall j | 0 <= j < i ensures head[j] != c { }
      } else {
        assert parts[k] == rest[k - 1];
      }
    }
    assert s == head + [c] + s[i + 1..];
  }

  /** The index of the first `c` in `a + [c] + b` is `|a|` when `a` holds no `c`. */
  lemma IndexOfAfterFree(a: string, c: char, b: string)
    requires c !in a
    ensures IndexOf(a + [c] + b, c) == |a|
  {
    var s := a + [c] + b;
    assert s[|a|] == c;
  }

  /** Splitting undoes joining: `sep.join(parts).split(sep) == parts` when no part holds the separator. */
  lemma {:induction false} SplitJoin(parts: seq<string>, c: char)
    requires |parts| >= 1
    requires forall k :: 0 <= k < |parts| ==> c !in parts[k]
    ensures SplitOn(Join([c], parts), c) == parts
    decreases |parts|
  {
    if |parts| > 1 {
      var rest := Join([c], parts[1..]);
      var s := parts[0] + [c] + rest;
      assert Join([c], parts) == s;
      var i := |parts[0]|;
      IndexOfAfterFree(parts[0], c, rest);
      assert s[..i] == parts[0];
      assert s[i + 1..] == rest;
      assert SplitOn(s, c) == [s[..i]] + SplitOn(s[i + 1..], c);
      SplitJoin(parts[1..], c);
      assert parts == [parts[0]] + parts[1..];
    }
  }

  /** `s.split(c, 1)` where the caller knows `c` occurs: the text before the first `c` and everything after it. */
  function SplitFirst(s: string, c: char): (pair: (string, string))
    requires c in s
    ensures c !in pair.0
    ensures s == pair.0 + [c] + pair.1
  {
    var i := IndexOf(s, c);
    (s[..i], s[i + 1..])
  }

  /** Number of leading characters of `s` that are not whitespace. */
  function TokenEnd(s: string): (n: nat)
    ensures n <= |s|
    ensures NoSpace(s[..n])
    ensures n < |s| ==> IsSpace(s[n])
  {
    if |s| == 0 || IsSpace(s[0]) then 0 else 1 + TokenEnd(s[1..])
  }

  /** What `strip` removes: whitespace (`strip()`) or one given character (`strip('"')`). */
  datatype StripSet = Whitespace | Char(c: char)

  predicate Drops(k: StripSet, ch: char)
  {
    match k
    case Whitespace => IsSpace(ch)
    case Char(c) => ch == c
  }

  /** Number of leading characters of `s` that `k` removes. */
  function LeadDrop(s: string, k: StripSet): (n: nat)
    ensures n <= |s|
    ensures forall j :: 0 <= j < n ==> Drops(k, s[j])
    ensures n < |s| ==> !Drops(k, s[n])
  {
    if |s| == 0 || !Drops(k, s[0]) then 0 else 1 + LeadDrop(s[1..], k)
  }

  /** Number of trailing characters of `s` that `k` removes. */
  function TrailDrop(s: string, k: StripSet): (n: nat)
    ensures n <= |s|
    ensures forall j :: |s| - n <= j < |s| ==> Drops(k, s[j])
    ensures n < |s| ==> !Drops(k, s[|s| - 1 - n])
  {
    if |s| == 0 || !Drops(k, s[|s| - 1]) then 0 else 1 + TrailDrop(s[..|s| - 1], k)
  }

  /** Trailing removable characters of a suffix of `s` are trailing removable characters of `s`. */
  lemma TrailOfSuffix(s: string, a: nat, n: nat, k: StripSet)
    requires a <= |s| && n == TrailDrop(s[a..], k)
    ensures n <= |s| - a
    ensures forall j :: |s| - n <= j < |s| ==> Drops(k, s[j])
    ensures a < |s| - n ==> !Drops(k, s[|s| - n - 1])
  {
    var t := s[a..];
    forall j | |s| - n <= j < |s| ensures Drops(k, s[j]) {
      assert s[j] == t[j - a];
    }
    if a < |s| - n {
      assert s[|s| - n - 1] == t[|t| - 1 - n];
    }
  }

  /**
   * Where `s.strip()` / `s.strip(c)` cuts `s`: everything before the first
   * bound and from the second bound on is removable, and what is kept does
   * not begin or end with a removable character.
   */
  function StripBounds(s: string, k: StripSet): (b: (nat, nat))
    ensures b.0 <= b.1 <= |s|
    ensures forall j :: 0 <= j < b.0 ==> Drops(k, s[j])
    ensures forall j :: b.1 <= j < |s| ==> Drops(k, s[j])
    ensures b.0 < b.1 ==> !Drops(k, s[b.0]) && !Drops(k, s[b.1 - 1])
  {
    var a := LeadDrop(s, k);
    var n := TrailDrop(s[a..], k);
    TrailOfSuffix(s, a, n, k);
    (a, |s| - n)
  }

  /**
   * `s.strip()` / `s.strip(c)`: the slice of `s` that starts after its removable leading characters,
   * with only removable characters after it, and that neither begins nor ends with a removable one.
   */
  function Strip(s: string, k: StripSet): (r: string)
    ensures |r| <= |s|
    ensures r != "" ==> !Drops(k, r[0]) && !Drops(k, r[|r| - 1])
    ensures LeadDrop(s, k) + |r| <= |s| && r == s[LeadDrop(s, k)..LeadDrop(s, k) + |r|]
    ensures forall j :: 0 <= j < LeadDrop(s, k) ==> Drops(k, s[j])
    ensures forall j :: LeadDrop(s, k) + |r| <= j < |s| ==> Drops(k, s[j])
  {
    var b := StripBounds(s, k);
    s[b.0..b.1]
  }

  /** `strip` keeps every character it cannot remove. */
  lemma StripKeeps(s: string, k: StripSet, ch: char)
    requires ch in s && !Drops(k, ch)
    ensures ch in Strip(s, k)
  {
    var b := StripBounds(s, k);
    var p :| 0 <= p < |s| && s[p] == ch;
    assert Strip(s, k)[p - b.0] == ch;
  }

  /** Every character of `strip`'s result comes from its input. */
  lemma StripFrom(s: string, k: StripSet, ch: char)
    requires ch in Strip(s, k)
    ensures ch in s
  {
    var b := StripBounds(s, k);
    var r := Strip(s, k);
    var p :| 0 <= p < |r| && r[p] == ch;
    assert s[b.0 + p] == ch;
  }

  /** `s.split()`: the maximal runs of non-whitespace characters, in order. */
  function SplitWs(s: string): (tokens: seq<string>)
    ensures forall t :: 0 <= t < |tokens| ==> tokens[t] != "" && NoSpace(tokens[t])
    ensures tokens == [] <==> AllSpace(s)
    decreases |s|
  {
    var a := LeadDrop(s, Whitespace);
    if a == |s| then []
    else
      var t := s[a..];
      var b := TokenEnd(t);
      assert b > 0;
      [t[..b]] + SplitWs(t[b..])
  }

  /** A token followed by text that starts with whitespace (or nothing) splits into that token and the rest's tokens. */
  lemma SplitWsTokenThenRest(tok: string, rest: string)
    requires tok != "" && NoSpace(tok) && (rest != "" ==> IsSpace(rest[0]))
    ensures SplitWs(tok + rest) == [tok] + SplitWs(rest)
  {
    var s := tok + rest;
    assert forall i :: 0 <= i < |tok| ==> s[i] == tok[i];
    assert |tok| < |s| ==> s[|tok|] == rest[0];
    assert LeadDrop(s, Whitespace) == 0;
    var n := TokenEnd(s);
    assert n >= |tok|;
    assert n <= |tok|;
    assert s[..|tok|] == tok && s[|tok|..] == rest;
  }

  /** Leading whitespace does not change `split()`. */
  lemma SplitWsSpaceThenRest(sp: string, rest: string)
    requires AllSpace(sp) && (rest != "" ==> !IsSpace(rest[0]))
    ensures SplitWs(sp + rest) == SplitWs(rest)
  {
    var s := sp + rest;
    var a := LeadDrop(s, Whitespace);
    assert s[|sp|..] == rest;
    if rest != "" {
      assert rest[0] in rest;
      assert LeadDrop(rest, Whitespace) == 0;
      assert rest[0..] == rest;
    }
  }

  /** A single word splits into itself. */
  lemma SplitWsOneWord(w: string)
    requires w != "" && NoSpace(w)
    ensures SplitWs(w) == [w]
  {
    assert w + "" == w;
    assert AllSpace("");
    SplitWsTokenThenRest(w, "");
  }

  /** A space then a word splits into that word. */
  lemma SplitWsSpaceWord(b: string)
    requires b != "" && NoSpace(b)
    ensures SplitWs(" " + b) == [b]
  {
    assert AllSpace(" ");
    assert b[0] in b;
    SplitWsSpaceThenRest(" ", b);
    SplitWsOneWord(b);
  }

  /** Two words separated by one space split into exactly those two words. */
  lemma SplitWsTwoWords(a: string, b: string)
    requires a != "" && NoSpace(a) && b != "" && NoSpace(b)
    ensures SplitWs(a + " " + b) == [a, b]
  {
    var rest := " " + b;
    assert a + " " + b == a + rest;
    SplitWsSpaceWord(b);
    SplitWsTokenThenRest(a, rest);
  }

  /** The characters of `s` that are not whitespace, in order. */
  function NonSpace(s: string): string
  {
    if s == "" then "" else (if IsSpace(s[0]) then "" else [s[0]]) + NonSpace(s[1..])
  }

  function Concat(parts: seq<string>): string
  {
    if parts == [] then "" else parts[0] + Concat(parts[1..])
  }

  lemma {:induction false} NonSpaceAppend(x: string, y: string)
    ensures NonSpace(x + y) == NonSpace(x) + NonSpace(y)
    decreases |x|
  {
    if x == "" {
      assert x + y == y;
    } else {
      assert (x + y)[1..] == x[1..] + y;
      NonSpaceAppend(x[1..], y);
    }
  }

  lemma {:induction false} NonSpaceOfSpace(x: string)
    requires AllSpace(x)
    ensures NonSpace(x) == ""
    decreases |x|
  {
    if x != "" {
      NonSpaceOfSpace(x[1..]);
    }
  }

  lemma {:induction false} NonSpaceOfToken(x: string)
    requires NoSpace(x)
    ensures NonSpace(x) == x
    decreases |x|
  {
    if x != "" {
      NonSpaceOfToken(x[1..]);
      assert x == [x[0]] + x[1..];
    }
  }

  lemma ConcatCons(x: string, xs: seq<string>)
    ensures Concat([x] + xs) == x + Concat(xs)
  {
    assert ([x] + xs)[1..] == xs;
  }

  lemma NonSpaceAt(t: string, b: nat)
    requires b <= |t|
    ensures NonSpace(t) == NonSpace(t[..b]) + NonSpace(t[b..])
  {
    assert t == t[..b] + t[b..];
    NonSpaceAppend(t[..b], t[b..]);
  }

  /** Leading whitespace contributes nothing to `NonSpace`. */
  lemma NonSpaceAfterLead(s: string, a: nat)
    requires a == LeadDrop(s, Whitespace)
    ensures NonSpace(s) == NonSpace(s[a..])
  {
    assert AllSpace(s[..a]) by {
      forall j | 0 <= j < a ensures IsSpace(s[..a][j]) {
        assert Drops(Whitespace, s[j]);
      }
    }
    assert s == s[..a] + s[a..];
    NonSpaceAppend(s[..a], s[a..]);
    NonSpaceOfSpace(s[..a]);
  }

  /** `s.split()` loses only whitespace: its tokens, run together, are `s` without its whitespace. */
  lemma {:induction false} SplitWsKeepsText(s: string)
    ensures Concat(SplitWs(s)) == NonSpace(s)
    decreases |s|
  {
    var a := LeadDrop(s, Whitespace);
    NonSpaceAfterLead(s, a);
    if a < |s| {
      var t := s[a..];
      var b := TokenEnd(t);
      var tokens := SplitWs(t[b..]);
      assert SplitWs(s) == [t[..b]] + tokens;
      ConcatCons(t[..b], tokens);
      SplitWsKeepsText(t[b..]);
      NonSpaceAt(t, b);
      NonSpaceOfToken(t[..b]);
    } else {
      assert s[a..] == "";
    }
  }

  /** A string with a non-whitespace character has at least one `split()` token. */
  lemma SplitWsNonEmpty(s: string, ch: char)
    requires ch in s && !IsSpace(ch)
    ensures SplitWs(s) != []
  {
    var p :| 0 <= p < |s| && s[p] == ch;
  }

  /** Python's `str.lower()` restricted to ASCII letters. */
  function LowerChar(c: char): char
  {
    if 'A' <= c <= 'Z' then (c as int + 32) as char else c
  }

  function Lower(s: string): (r: string)
    ensures |r| == |s|
    ensures forall i :: 0 <= i < |s| ==> r[i] == LowerChar(s[i])
  {
    seq(|s|, i requires 0 <= i < |s| => LowerChar(s[i]))
  }

  predicate NoUpper(s: string)
  {
    forall i :: 0 <= i < |s| ==> !('A' <= s[i] <= 'Z')
  }

  /**
   * Lines as `for line in f` / `f.readlines()` yields them from the text
   * `s`: each keeps its `'\n'`, only the last may lack one, none is empty,
   * and together they are exactly `s`.
   */
  function ReadLines(s: string): (lines: seq<string>)
    ensures Concat(lines) == s
    ensures forall k :: 0 <= k < |lines| ==> lines[k] != "" && '\n' !in lines[k][..|lines[k]| - 1]
    ensures forall k :: 0 <= k < |lines| - 1 ==> lines[k][|lines[k]| - 1] == '\n'
    decreases |s|
  {
    var i := IndexOf(s, '\n');
    if s == "" then []
    else if i == |s| then
      LastLineProps(s);
      [s]
    else
      var rest := ReadLines(s[i + 1..]);
      ReadLinesConsProps(s, i, rest);
      [s[..i + 1]] + rest
  }

  /** Text without a newline is one line. */
  lemma LastLineProps(s: string)
    requires s != "" && IndexOf(s, '\n') == |s|
    ensures Concat([s]) == s && '\n' !in s[..|s| - 1]
  {
    assert [s][1..] == [];
    assert s + "" == s;
    assert forall j :: 0 <= j < |s| - 1 ==> s[..|s| - 1][j] == s[j];
  }

  /** The first line, up to and including the first newline, put in front of the lines after it. */
  lemma ReadLinesConsProps(s: string, i: nat, rest: seq<string>)
    requires i < |s| && i == IndexOf(s, '\n')
    requires Concat(rest) == s[i + 1..]
    requires forall k :: 0 <= k < |rest| ==> rest[k] != "" && '\n' !in rest[k][..|rest[k]| - 1]
    requires forall k :: 0 <= k < |rest| - 1 ==> rest[k][|rest[k]| - 1] == '\n'
    ensures var lines := [s[..i + 1]] + rest;
      Concat(lines) == s &&
      (forall k :: 0 <= k < |lines| ==> lines[k] != "" && '\n' !in lines[k][..|lines[k]| - 1]) &&
      (forall k :: 0 <= k < |lines| - 1 ==> lines[k][|lines[k]| - 1] == '\n')
  {
    var head := s[..i + 1];
    var lines := [head] + rest;
    assert lines[1..] == rest;
    assert Concat(lines) == s by {
      assert s == head + s[i + 1..];
    }
    assert head != "" && head[i] == '\n' && '\n' !in head[..i] by {
      forall j | 0 <= j < i ensures head[..i][j] != '\n' {
        assert head[..i][j] == s[j];
      }
    }
    forall k | 1 <= k < |lines| ensures lines[k] == rest[k - 1] { }
  }

  /** A first line that ends at its only newline is read as its own line, and the rest follow. */
  lemma ReadLinesCons(line: string, rest: string)
    requires line != "" && line[|line| - 1] == '\n' && '\n' !in line[..|line| - 1]
    ensures ReadLines(line + rest) == [line] + ReadLines(rest)
  {
    var a := line[..|line| - 1];
    assert line == a + ['\n'];
    assert line + rest == a + ['\n'] + rest;
    IndexOfAfterFree(a, '\n', rest);
    assert (line + rest)[..|a| + 1] == line;
    assert (line + rest)[|a| + 1..] == rest;
  }
}
