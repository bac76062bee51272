/**
 * The text side of the `.gitignore` support: splitting the file's content into lines as
 * `str::lines` does, and reducing the raw lines to the effective patterns. Reading the file
 * and matching paths against the patterns stay outside.
 */
module GitignoreHandler {

  // ---------------------------------------------------------------------------
  // Whitespace and trimming (`str::trim`)
  // ---------------------------------------------------------------------------

  /** The Unicode `White_Space` property, which `str::trim` strips. */
  predicate IsWhitespace(c: char) {
    var n := c as int;
    || (0x09 <= n <= 0x0D) || n == 0x20 || n == 0x85 || n == 0xA0 || n == 0x1680
    || (0x2000 <= n <= 0x200A) || n == 0x2028 || n == 0x2029 || n == 0x202F || n == 0x205F
    || n == 0x3000
  }

  /** `s` without its leading whitespace. */
  function TrimStart(s: string): (r: string)
    ensures |r| <= |s|
    ensures forall i :: 0 <= i < |s| - |r| ==> IsWhitespace(s[i])
    ensures |r| > 0 ==> !IsWhitespace(r[0])
    decreases |s|
  {
    if |s| > 0 && IsWhitespace(s[0]) then TrimStart(s[1..]) else s
  }

  /** `s` without its trailing whitespace. */
  function TrimEnd(s: string): (r: string)
    ensures |r| <= |s|
    ensures forall i :: |r| <= i < |s| ==> IsWhitespace(s[i])
    ensures |r| > 0 ==> !IsWhitespace(r[|r| - 1])
    decreases |s|
  {
    if |s| > 0 && IsWhitespace(s[|s| - 1]) then TrimEnd(s[..|s| - 1]) else s
  }

  /** What `TrimStart` keeps is a suffix, so it is exactly `s` minus the whitespace it removed. */
  lemma {:induction false} TrimStartIsSuffix(s: string)
    ensures TrimStart(s) == s[|s| - |TrimStart(s)|..]
    decreases |s|
  {
    if |s| > 0 && IsWhitespace(s[0]) {
      TrimStartIsSuffix(s[1..]);
    }
  }

  /** What `TrimEnd` keeps is a prefix. */
  lemma {:induction false} TrimEndIsPrefix(s: string)
    ensures TrimEnd(s) == s[..|TrimEnd(s)|]
    decreases |s|
  {
    if |s| > 0 && IsWhitespace(s[|s| - 1]) {
      TrimEndIsPrefix(s[..|s| - 1]);
    }
  }

  function Trim(s: string): string {
    TrimEnd(TrimStart(s))
  }

  /** A string with no whitespace at either end. */
  predicate IsTrimmed(s: string) {
    |s| > 0 ==> !IsWhitespace(s[0]) && !IsWhitespace(s[|s| - 1])
  }

  lemma TrimIsTrimmed(s: string)
    ensures IsTrimmed(Trim(s))
    ensures |Trim(s)| <= |s|
  {
    var t := TrimStart(s);
    var r := TrimEnd(t);
    TrimEndIsPrefix(t);
    if |r| > 0 {
      assert r[0] == t[0];
    }
  }

  lemma {:induction false} TrimStartOfTrimmed(s: string)
    requires |s| == 0 || !IsWhitespace(s[0])
    ensures TrimStart(s) == s
  {
  }

  lemma {:induction false} TrimEndOfTrimmed(s: string)
    requires |s| == 0 || !IsWhitespace(s[|s| - 1])
    ensures TrimEnd(s) == s
  {
  }

  /** Trimming leaves a trimmed string alone, so trimming twice is trimming once. */
  lemma TrimOfTrimmed(s: string)
    requires IsTrimmed(s)
    ensures Trim(s) == s
  {
    TrimStartOfTrimmed(s);
    TrimEndOfTrimmed(s);
  }

  lemma TrimIdempotent(s: string)
    ensures Trim(Trim(s)) == Trim(s)
  {
    TrimIsTrimmed(s);
    TrimOfTrimmed(Trim(s));
  }

  predicate AllWhitespace(w: string) {
    forall k :: 0 <= k < |w| ==> IsWhitespace(w[k])
  }

  lemma {:induction false} TrimStartSkips(w: string, t: string)
    requires AllWhitespace(w)
    ensures TrimStart(w + t) == TrimStart(t)
    decreases |w|
  {
    if |w| > 0 {
      assert (w + t)[1..] == w[1..] + t;
      TrimStartSkips(w[1..], t);
    } else {
      assert w + t == t;
    }
  }

  lemma {:induction false} TrimEndSkips(t: string, w: string)
    requires AllWhitespace(w)
    ensures TrimEnd(t + w) == TrimEnd(t)
    decreases |w|
  {
    if |w| > 0 {
      assert (t + w)[..|t + w| - 1] == t + w[..|w| - 1];
      TrimEndSkips(t, w[..|w| - 1]);
    } else {
      assert t + w == t;
    }
  }

  /** `trim` removes exactly the whitespace around a non-empty trimmed core. */
  lemma TrimAround(before: string, core: string, after: string)
    requires AllWhitespace(before) && AllWhitespace(after) && |core| > 0 && IsTrimmed(core)
    ensures Trim(before + core + after) == core
  {
    TrimStartSkips(before, core + after);
    assert before + core + after == before + (core + after);
    assert (core + after)[0] == core[0];
    TrimStartOfTrimmed(core + after);
    TrimEndSkips(core, after);
    TrimEndOfTrimmed(core);
  }

  /** A blank line trims to nothing and so is dropped. */
  lemma BlankIsDropped(w: string)
    requires AllWhitespace(w)
    ensures Trim(w) == "" && Kept(w) == []
  {
    TrimStartSkips(w, "");
    assert w + "" == w;
  }

  // ---------------------------------------------------------------------------
  // preprocess_gitignore_lines
  // ---------------------------------------------------------------------------

  /** A trimmed line survives when it is neither empty nor a comment. */
  predicate IsPattern(line: string) {
    line != "" && line[0] != '#'
  }

  /** What one raw line contributes: its trimmed form, unless that is empty or a comment. */
  function Kept(rawLine: string): seq<string> {
    var line := Trim(rawLine);
    if IsPattern(line) then [line] else []
  }

  /** Trim every line, then keep the non-empty lines that do not start with '#'. */
  function PreprocessGitignoreLines(rawLines: seq<string>): seq<string>
    decreases |rawLines|
  {
    if |rawLines| == 0 then [] else Kept(rawLines[0]) + PreprocessGitignoreLines(rawLines[1..])
  }

  /** Every kept line is a trimmed pattern, and no line turns into two. */
  lemma {:induction false} PreprocessYieldsPatterns(rawLines: seq<string>)
    ensures |PreprocessGitignoreLines(rawLines)| <= |rawLines|
    ensures forall i :: 0 <= i < |PreprocessGitignoreLines(rawLines)| ==>
      IsPattern(PreprocessGitignoreLines(rawLines)[i]) && IsTrimmed(PreprocessGitignoreLines(rawLines)[i])
    decreases |rawLines|
  {
    if |rawLines| > 0 {
      TrimIsTrimmed(rawLines[0]);
      PreprocessYieldsPatterns(rawLines[1..]);
    }
  }

  /** A string is a kept pattern exactly when it is the trimmed, non-comment form of some raw line. */
  lemma {:induction false} PreprocessMembership(rawLines: seq<string>, s: string)
    ensures s in PreprocessGitignoreLines(rawLines) <==>
      IsPattern(s) && exists i :: 0 <= i < |rawLines| && Trim(rawLines[i]) == s
    decreases |rawLines|
  {
    if |rawLines| > 0 {
      var rest := rawLines[1..];
      PreprocessMembership(rest, s);
      if IsPattern(s) && exists i :: 0 <= i < |rawLines| && Trim(rawLines[i]) == s {
        var i :| 0 <= i < |rawLines| && Trim(rawLines[i]) == s;
        if i > 0 {
          assert Trim(rest[i - 1]) == s;
        }
      }
      if exists i :: 0 <= i < |rest| && Trim(rest[i]) == s {
        var i :| 0 <= i < |rest| && Trim(rest[i]) == s;
        assert Trim(rawLines[i + 1]) == s;
      }
    }
  }

  /** The reduction works line by line, so it splits over concatenation. */
  lemma {:induction false} PreprocessConcat(a: seq<string>, b: seq<string>)
    ensures PreprocessGitignoreLines(a + b) == PreprocessGitignoreLines(a) + PreprocessGitignoreLines(b)
    decreases |a|
  {
    if |a| == 0 {
      assert a + b == b;
    } else {
      assert (a + b)[1..] == a[1..] + b;
      PreprocessConcat(a[1..], b);
    }
  }

  /** Lines that are already effective patterns pass through unchanged. */
  lemma {:induction false} PreprocessKeepsPatterns(lines: seq<string>)
    requires forall i :: 0 <= i < |lines| ==> IsPattern(lines[i]) && IsTrimmed(lines[i])
    ensures PreprocessGitignoreLines(lines) == lines
    decreases |lines|
  {
    if |lines| > 0 {
      TrimOfTrimmed(lines[0]);
      PreprocessKeepsPatterns(lines[1..]);
    }
  }

  lemma PreprocessIdempotent(rawLines: seq<string>)
    ensures PreprocessGitignoreLines(PreprocessGitignoreLines(rawLines)) == PreprocessGitignoreLines(rawLines)
  {
    PreprocessYieldsPatterns(rawLines);
    PreprocessKeepsPatterns(PreprocessGitignoreLines(rawLines));
  }

  /** Blank lines and comments, indented ones too, are dropped. */
  lemma PreprocessDropsBlanksAndComments()
    ensures PreprocessGitignoreLines([" ", "# c", "\t#d"]) == []
  {
    assert Trim(" ") == "";
    assert Trim("# c") == "# c";
    assert Trim("\t#d") == "#d";
  }

  /** Patterns lose their surrounding blanks; a '#' after the start and a leading '!' stay. */
  lemma PreprocessTrimsPatterns()
    ensures PreprocessGitignoreLines([" a#b ", "!f"]) == ["a#b", "!f"]
  {
    assert Trim(" a#b ") == "a#b";
    assert Trim("!f") == "!f";
  }

  // ---------------------------------------------------------------------------
  // read_gitignore_patterns: `content.lines()`
  // ---------------------------------------------------------------------------

  /** The index of the first '\n', or |s| when there is none. */
  function NewlineAt(s: string): (r: nat)
    ensures r <= |s| && (r < |s| ==> s[r] == '\n')
    ensures forall k :: 0 <= k < r ==> s[k] != '\n'
    decreases |s|
  {
    if |s| == 0 || s[0] == '\n' then 0 else 1 + NewlineAt(s[1..])
  }

  /** A line that ended in "\r\n" loses the '\r' as well. */
  function StripCarriageReturn(line: string): string {
    if |line| > 0 && line[|line| - 1] == '\r' then line[..|line| - 1] else line
  }

  /**
   * `str::lines`: the pieces between '\n's, each without its "\n" or "\r\n"; a final
   * '\n' does not start another line, and a last piece without '\n' is kept as it is.
   */
  function Lines(content: string): seq<string>
    decreases |content|
  {
    if |content| == 0 then []
    else
      var i := NewlineAt(content);
      if i == |content| then [content]
      else [StripCarriageReturn(content[..i])] + Lines(content[i + 1..])
  }

  lemma {:induction false} LinesHaveNoNewline(content: string)
    ensures forall i, k :: 0 <= i < |Lines(content)| && 0 <= k < |Lines(content)[i]| ==>
      Lines(content)[i][k] != '\n'
    decreases |content|
  {
    if |content| > 0 && NewlineAt(content) < |content| {
      LinesHaveNoNewline(content[NewlineAt(content) + 1..]);
    }
  }

  /** The lines a writer produces by ending each line with '\n'. */
  function Terminated(lines: seq<string>): string
    decreases |lines|
  {
    if |lines| == 0 then "" else lines[0] + "\n" + Terminated(lines[1..])
  }

  /** A line a writer could have ended with '\n' and that `lines` gives back unchanged. */
  predicate PlainLine(line: string) {
    '\n' !in line && (|line| == 0 || line[|line| - 1] != '\r')
  }

  /** The first '\n' of `line + "\n" + rest` is the one after `line`. */
  lemma {:induction false} NewlineAfter(line: string, rest: string)
    requires '\n' !in line
    ensures NewlineAt(line + "\n" + rest) == |line|
    decreases |line|
  {
    if |line| > 0 {
      assert (line + "\n" + rest)[1..] == line[1..] + "\n" + rest;
      NewlineAfter(line[1..], rest);
    }
  }

  /** A line ended by '\n' comes off the front, without its '\r' if it had one. */
  lemma LinesStep(line: string, rest: string)
    requires '\n' !in line
    ensures Lines(line + "\n" + rest) == [StripCarriageReturn(line)] + Lines(rest)
  {
    var s := line + "\n" + rest;
    NewlineAfter(line, rest);
    assert s[..|line|] == line;
    assert s[|line| + 1..] == rest;
  }

  /** Splitting undoes writing lines with "\n" after each. */
  lemma {:induction false} LinesOfTerminated(lines: seq<string>)
    requires forall i :: 0 <= i < |lines| ==> PlainLine(lines[i])
    ensures Lines(Terminated(lines)) == lines
    decreases |lines|
  {
    if |lines| > 0 {
      LinesStep(lines[0], Terminated(lines[1..]));
      LinesOfTerminated(lines[1..]);
    }
  }

  lemma LinesOfEmpty()
    ensures Lines("") == []
  {
  }

  lemma LinesOfNewline()
    ensures Lines("\n") == [""]
  {
    assert "" + "\n" + "" == "\n";
    LinesStep("", "");
  }

  lemma LinesWithFinalNewline()
    ensures Lines("line1\nline2\n") == ["line1", "line2"]
  {
    assert "line1" + "\n" + "line2\n" == "line1\nline2\n";
    assert "line2" + "\n" + "" == "line2\n";
    LinesStep("line1", "line2\n");
    LinesStep("line2", "");
  }

  lemma LinesOfCrlf()
    ensures Lines("a\r\nb") == ["a", "b"]
  {
    assert "a\r" + "\n" + "b" == "a\r\nb";
    LinesStep("a\r", "b");
    assert StripCarriageReturn("a\r") == "a";
    assert NewlineAt("b") == 1;
  }

  /** A blank line and an indented comment are lines like any other. */
  lemma LinesKeepBlankAndComment()
    ensures Lines("a/\n\n # c\n") == ["a/", "", " # c"]
  {
    var lines := ["a/", "", " # c"];
    assert Terminated(lines) == "a/\n\n # c\n";
    LinesOfTerminated(lines);
  }
}
