/**
 * The strategy used at compression level Maximum for code without a
 * dedicated converter: prose files get the Smart treatment; everything else
 * loses its block comments, blank lines and line comments, and its lines
 * are trimmed, or only right-trimmed for indentation-sensitive languages.
 */
module GeneralCodeStrategy {
  import opened Text
  import BlockComments
  import SmartCompressionStrategy
  import Paths

  /** The lower-cased extension the strategy looks at. */
  function Extension(filePath: string): string {
    Lower(Paths.GetExtension(filePath))
  }

  /** Markdown and plain text keep their comments: the text is the content. */
  predicate IsProse(ext: string) {
    ext == ".md" || ext == ".txt"
  }

  /** Languages whose indentation carries meaning. */
  predicate IsWhitespaceSensitive(ext: string) {
    ext == ".gd" || ext == ".py" || ext == ".yaml" || ext == ".yml"
  }

  predicate IsCommentLine(trimmed: string) {
    StartsWith(trimmed, "//") || StartsWith(trimmed, "#")
  }

  /** A line as the strategy may emit it: not blank, no whitespace at its end, not a comment. */
  predicate IsKeptForm(k: string, sensitive: bool) {
    k != [] && !IsWhite(k[|k| - 1]) && !IsCommentLine(Trim(k)) && (!sensitive ==> IsTrimmed(k))
  }

  /** What one input line contributes to the output: nothing, or the line in its kept form. */
  function KeepLine(line: string, sensitive: bool): (kept: seq<string>)
    ensures |kept| <= 1
  {
    var trimmed := Trim(line);
    if trimmed == [] || IsCommentLine(trimmed) then []
    else if sensitive then [TrimEnd(line)]
    else [trimmed]
  }

  /**
   * A line is dropped exactly when it is blank or a comment; otherwise it is
   * kept with the same trimmed text as the input line: in a whitespace-sensitive
   * file as the input with only its trailing whitespace cut, elsewhere trimmed.
   */
  lemma KeepLineSpec(line: string, sensitive: bool)
    ensures var kept := KeepLine(line, sensitive);
      (kept == [] <==> IsBlank(line) || IsCommentLine(Trim(line))) &&
      (kept != [] ==> IsKeptForm(kept[0], sensitive) && Trim(kept[0]) == Trim(line)) &&
      (kept != [] && sensitive ==> kept[0] == line[..|kept[0]|] && IsBlank(line[|kept[0]|..])) &&
      (kept != [] && !sensitive ==> kept[0] == Trim(line))
  {
    var trimmed := Trim(line);
    TrimOfTrimEnd(line);
    TrimEmptyIffBlank(line);
    TrimmedFixed(trimmed);
  }

  /** The kept lines, in input order. */
  function KeptLines(lines: seq<string>, sensitive: bool): (ks: seq<string>)
    ensures |ks| <= |lines|
  {
    if lines == [] then []
    else KeptLines(lines[..|lines| - 1], sensitive) + KeepLine(lines[|lines| - 1], sensitive)
  }

  /** The StringBuilder text: every kept line followed by '\n'. */
  function Terminated(lines: seq<string>): string {
    if lines == [] then []
    else Terminated(lines[..|lines| - 1]) + lines[|lines| - 1] + "\n"
  }

  /** What the loop appends for one line. */
  function Appended(line: string, sensitive: bool): string {
    var kept := KeepLine(line, sensitive);
    if kept == [] then [] else kept[0] + "\n"
  }

  /** The StringBuilder text after the loop has seen the given lines. */
  function Emitted(lines: seq<string>, sensitive: bool): string {
    if lines == [] then []
    else Emitted(lines[..|lines| - 1], sensitive) + Appended(lines[|lines| - 1], sensitive)
  }

  /** The non-prose path, on text whose block comments are already gone. */
  function Compacted(text: string, sensitive: bool): string {
    Trim(Emitted(Split(text, '\n'), sensitive))
  }

  /** GeneralCodeStrategy.Process, as a function of the text and the path. */
  function Compress(content: string, filePath: string): string {
    var ext := Extension(filePath);
    if IsProse(ext) then SmartCompressionStrategy.Process(content, filePath)
    else Compacted(BlockComments.StripBlockComments(content), IsWhitespaceSensitive(ext))
  }

  /** GeneralCodeStrategy.Process: the line loop over a StringBuilder. */
  method Process(content: string, filePath: string) returns (r: string)
    ensures IsProse(Extension(filePath)) ==> r == SmartCompressionStrategy.Process(content, filePath)
    ensures !IsProse(Extension(filePath)) ==>
      r == Compacted(BlockComments.StripBlockComments(content), IsWhitespaceSensitive(Extension(filePath)))
    ensures r == Compress(content, filePath)
  {
    var ext := Lower(Paths.GetExtension(filePath));
    if ext == ".md" || ext == ".txt" {
      return SmartCompressionStrategy.Process(content, filePath);
    }
    var text := BlockComments.StripBlockComments(content);
    var lines := Split(text, '\n');
    var sb := "";
    var isSensitive := IsWhitespaceSensitive(ext);
    for i := 0 to |lines|
      invariant sb == Emitted(lines[..i], isSensitive)
    {
      var line := lines[i];
      EmittedStep(lines, i, isSensitive);
      var trimmed := Trim(line);
      if trimmed == [] {
        continue;
      }
      if StartsWith(trimmed, "//") || StartsWith(trimmed, "#") {
        continue;
      }
      if isSensitive {
        sb := sb + TrimEnd(line) + "\n";
      } else {
        sb := sb + trimmed + "\n";
      }
    }
    assert lines[..|lines|] == lines;
    r := Trim(sb);
  }

  /** One more line: the loop's text grows by that line's kept form and a '\n', or not at all. */
  lemma EmittedStep(lines: seq<string>, i: nat, sensitive: bool)
    requires i < |lines|
    ensures var line := lines[i]; var t := Trim(line);
      Emitted(lines[..i + 1], sensitive) ==
      if t == [] || IsCommentLine(t) then Emitted(lines[..i], sensitive)
      else Emitted(lines[..i], sensitive) + (if sensitive then TrimEnd(line) else t) + "\n"
  {
    assert lines[..i + 1][..i] == lines[..i];
  }

  // ---------------------------------------------------------------------
  // What the output is made of

  /** Kept lines follow input order: the selection distributes over concatenation. */
  lemma {:induction false} KeptLinesAppend(a: seq<string>, b: seq<string>, sensitive: bool)
    ensures KeptLines(a + b, sensitive) == KeptLines(a, sensitive) + KeptLines(b, sensitive)
    decreases |b|
  {
    if b == [] {
      assert a + b == a;
    } else {
      var b' := b[..|b| - 1];
      assert (a + b)[..|a + b| - 1] == a + b';
      KeptLinesAppend(a, b', sensitive);
    }
  }

  /** Every kept line is in the form the strategy emits. */
  lemma {:induction false} KeptLinesForm(lines: seq<string>, sensitive: bool)
    ensures forall j :: 0 <= j < |KeptLines(lines, sensitive)| ==> IsKeptForm(KeptLines(lines, sensitive)[j], sensitive)
    decreases |lines|
  {
    if lines != [] {
      KeptLinesForm(lines[..|lines| - 1], sensitive);
      KeepLineSpec(lines[|lines| - 1], sensitive);
    }
  }

  /** The loop's text is every kept line followed by '\n'. */
  lemma {:induction false} EmittedIsTerminated(lines: seq<string>, sensitive: bool)
    ensures Emitted(lines, sensitive) == Terminated(KeptLines(lines, sensitive))
    decreases |lines|
  {
    if lines != [] {
      var init := lines[..|lines| - 1];
      var last := lines[|lines| - 1];
      EmittedIsTerminated(init, sensitive);
      var ks := KeptLines(init, sensitive);
      var kept := KeepLine(last, sensitive);
      assert Emitted(lines, sensitive) == Emitted(init, sensitive) + Appended(last, sensitive);
      assert KeptLines(lines, sensitive) == ks + kept;
      if kept != [] {
        var t := ks + kept;
        assert t[..|t| - 1] == ks && t[|t| - 1] == kept[0];
        assert Terminated(t) == Terminated(ks) + kept[0] + "\n";
      } else {
        assert ks + kept == ks;
      }
    }
  }

  lemma {:induction false} TerminatedJoin(lines: seq<string>)
    requires lines != []
    ensures Terminated(lines) == Join("\n", lines) + "\n"
    decreases |lines|
  {
    var init := lines[..|lines| - 1];
    var last := lines[|lines| - 1];
    if init != [] {
      TerminatedJoin(init);
    }
    JoinSnoc("\n", init, last);
    assert init + [last] == lines;
  }

  lemma KeptLinesBreakFree(lines: seq<string>, sensitive: bool)
    requires forall i :: 0 <= i < |lines| ==> '\n' !in lines[i]
    ensures forall j :: 0 <= j < |KeptLines(lines, sensitive)| ==> '\n' !in KeptLines(lines, sensitive)[j]
  {
    if lines != [] {
      KeptLinesBreakFree(lines[..|lines| - 1], sensitive);
      var line := lines[|lines| - 1];
      TrimSlice(line);
    }
  }

  /** The output as lines: the kept lines, the first one without its indentation. */
  function OutputLines(ks: seq<string>): seq<string>
    requires ks != []
  {
    [TrimStart(ks[0])] + ks[1..]
  }

  /**
   * The final Trim only strips the first kept line's indentation and the
   * last '\n': the output is the kept lines joined by single '\n'.
   */
  lemma CompactedIsJoin(text: string, sensitive: bool)
    ensures var ks := KeptLines(Split(text, '\n'), sensitive);
      Compacted(text, sensitive) == if ks == [] then [] else Join("\n", OutputLines(ks))
  {
    var ks := KeptLines(Split(text, '\n'), sensitive);
    EmittedIsTerminated(Split(text, '\n'), sensitive);
    if ks != [] {
      KeptLinesForm(Split(text, '\n'), sensitive);
      assert IsKeptForm(ks[0], sensitive) && IsKeptForm(ks[|ks| - 1], sensitive);
      TrimTerminated(ks);
    }
  }

  lemma TrimTerminated(ks: seq<string>)
    requires ks != [] && !IsBlank(ks[0])
    requires ks[|ks| - 1] != [] && !IsWhite(ks[|ks| - 1][|ks[|ks| - 1]| - 1])
    ensures Trim(Terminated(ks)) == Join("\n", OutputLines(ks))
  {
    var x := TrimStart(ks[0]) + JoinTail(ks);
    TrimStartTerminated(ks);
    JoinLastChar(ks);
    TrimEndOfLine(x);
    JoinHead(OutputLines(ks));
    assert OutputLines(ks)[1..] == ks[1..];
  }

  lemma TrimStartTerminated(ks: seq<string>)
    requires ks != [] && !IsBlank(ks[0])
    ensures TrimStart(Terminated(ks)) == TrimStart(ks[0]) + JoinTail(ks) + "\n"
  {
    TerminatedJoin(ks);
    JoinHead(ks);
    var rest := JoinTail(ks);
    TrimStartAppend(ks[0], rest + "\n");
    assert Terminated(ks) == ks[0] + (rest + "\n");
  }

  /** What follows the first line in a '\n'-join. */
  function JoinTail(ks: seq<string>): string
    requires ks != []
  {
    if |ks| == 1 then [] else "\n" + Join("\n", ks[1..])
  }

  lemma JoinHead(ks: seq<string>)
    requires ks != []
    ensures Join("\n", ks) == ks[0] + JoinTail(ks)
  {
  }

  lemma TrimEndOfLine(x: string)
    requires x != [] && !IsWhite(x[|x| - 1])
    ensures TrimEnd(x + "\n") == x
  {
    TrailingWhiteUnique(x + "\n", 1);
    assert (x + "\n")[..|x|] == x;
  }

  /** The last character of a join of kept lines is the last line's last character. */
  lemma JoinLastChar(ks: seq<string>)
    requires ks != [] && ks[|ks| - 1] != [] && !IsWhite(ks[|ks| - 1][|ks[|ks| - 1]| - 1])
    ensures var t := TrimStart(ks[0]) + JoinTail(ks);
      t != [] && t[|t| - 1] == ks[|ks| - 1][|ks[|ks| - 1]| - 1]
  {
    var head := TrimStart(ks[0]);
    if |ks| > 1 {
      JoinEndsWithLast(ks[1..]);
      var j := Join("\n", ks[1..]);
      assert (head + ("\n" + j))[|head| + 1 + |j| - 1] == j[|j| - 1];
    } else {
      var n := LeadingWhite(ks[0]);
      assert n < |ks[0]|;
      assert head == ks[0][n..];
    }
  }

  lemma {:induction false} JoinEndsWithLast(ls: seq<string>)
    requires ls != [] && ls[|ls| - 1] != []
    ensures var t := Join("\n", ls); t != [] && t[|t| - 1] == ls[|ls| - 1][|ls[|ls| - 1]| - 1]
    decreases |ls|
  {
    if |ls| > 1 {
      JoinEndsWithLast(ls[1..]);
    }
  }

  /**
   * Read back as lines, the output is exactly the kept lines in input order,
   * the first without its indentation.
   */
  lemma CompactedLines(text: string, sensitive: bool)
    ensures var ks := KeptLines(Split(text, '\n'), sensitive);
      ks != [] ==> Split(Compacted(text, sensitive), '\n') == OutputLines(ks)
  {
    var ks := KeptLines(Split(text, '\n'), sensitive);
    CompactedIsJoin(text, sensitive);
    if ks != [] {
      KeptLinesBreakFree(Split(text, '\n'), sensitive);
      SplitOutputLines(ks);
    }
  }

  lemma SplitOutputLines(ks: seq<string>)
    requires ks != [] && forall j :: 0 <= j < |ks| ==> '\n' !in ks[j]
    ensures Split(Join("\n", OutputLines(ks)), '\n') == OutputLines(ks)
  {
    TrimSlice(ks[0]);
    var out := OutputLines(ks);
    assert '\n' !in out[0] by {
      assert out[0] == ks[0][|ks[0]| - |out[0]|..];
    }
    assert forall i :: 1 <= i < |out| ==> out[i] == ks[i];
    SplitJoin(out, '\n');
  }

  /** For languages that do not care about indentation the kept lines come out as they are. */
  lemma CompactedInsensitive(text: string)
    ensures Compacted(text, false) == Join("\n", KeptLines(Split(text, '\n'), false))
  {
    var ks := KeptLines(Split(text, '\n'), false);
    CompactedIsJoin(text, false);
    if ks != [] {
      KeptLinesForm(Split(text, '\n'), false);
      assert IsKeptForm(ks[0], false);
      TrimmedFixed(ks[0]);
      assert OutputLines(ks) == ks;
    }
  }

  /**
   * The final Trim strips the first kept line's indentation even in an
   * indentation-sensitive file: the first output line then differs from it.
   */
  lemma FirstLineLosesIndent(text: string)
    requires var ks := KeptLines(Split(text, '\n'), true); ks != [] && ks[0] != [] && IsWhite(ks[0][0])
    ensures var ks := KeptLines(Split(text, '\n'), true);
      Split(Compacted(text, true), '\n')[0] == TrimStart(ks[0]) != ks[0]
  {
    var ks := KeptLines(Split(text, '\n'), true);
    CompactedLines(text, true);
    var r := TrimStart(ks[0]);
    assert r == [] || !IsWhite(r[0]);
  }
}
