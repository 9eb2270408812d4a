/**
 * CsCompactConverter: C# source with its block comments removed, its lines
 * split on '\r' and '\n' with empty pieces dropped, trimmed, blank and `//`
 * lines skipped, and a line that is exactly `{` appended to the line before.
 */
module CsCompactConverter {
  import opened Text
  import opened Wrappers
  import BlockComments

  /** The emitted lines after one more trimmed line. */
  function Emit(out: seq<string>, line: string): seq<string> {
    if line == [] || StartsWith(line, "//") then out
    else if line == "{" then
      (if out == [] then ["{"] else out[..|out| - 1] + [out[|out| - 1] + " {"])
    else out + [line]
  }

  /** The emitted lines after the given raw lines. */
  function CompactLines(lines: seq<string>): seq<string> {
    if lines == [] then []
    else Emit(CompactLines(lines[..|lines| - 1]), Trim(lines[|lines| - 1]))
  }

  /** CsCompactConverter.Convert, as a function of the text. */
  function Compacted(content: string): string {
    Join("\n", CompactLines(NonEmptyLines(BlockComments.StripBlockComments(content))))
  }

  /** CsCompactConverter.Convert: the line loop over a StringBuilder and the previous line. */
  method Convert(content: string) returns (r: string)
    ensures r == Compacted(content)
  {
    var text := BlockComments.StripBlockComments(content);
    var lines := NonEmptyLines(text);
    var sb := "";
    var previousLine: Option<string> := None;
    for i := 0 to |lines|
      invariant Tracks(sb, previousLine, CompactLines(lines[..i]))
    {
      CompactLinesStep(lines, i);
      NonEmptyLinesPrefix(lines, i);
      sb, previousLine := EmitLine(sb, previousLine, Trim(lines[i]), CompactLines(lines[..i]));
    }
    assert lines[..|lines|] == lines;
    r := sb;
  }

  /** The StringBuilder text and the previous line, for the lines emitted so far. */
  predicate Tracks(sb: string, previousLine: Option<string>, out: seq<string>) {
    && sb == Join("\n", out)
    && (previousLine.None? <==> out == [])
    && (previousLine.Some? ==> out != [] && previousLine.value == Last(out))
  }

  /** The body of Convert's loop, for one trimmed line. */
  method EmitLine(sb: string, previousLine: Option<string>, line: string, ghost out: seq<string>)
    returns (sb': string, previousLine': Option<string>)
    requires Tracks(sb, previousLine, out)
    requires forall j :: 0 <= j < |out| ==> out[j] != []
    ensures Tracks(sb', previousLine', Emit(out, line))
  {
    EmitJoin(out, line);
    sb', previousLine' := sb, previousLine;
    if line == [] {
      return;
    }
    if StartsWith(line, "//") {
      return;
    }
    if line == "{" {
      if previousLine.Some? {
        sb' := sb + " {";
        previousLine' := Some(previousLine.value + " {");
      } else {
        sb' := sb + "{";
        previousLine' := Some("{");
      }
    } else {
      if |sb| > 0 {
        sb' := sb + "\n";
      }
      sb' := sb' + line;
      previousLine' := Some(line);
    }
  }

  function Last(out: seq<string>): string
    requires out != []
  {
    out[|out| - 1]
  }

  lemma CompactLinesStep(lines: seq<string>, i: nat)
    requires i < |lines|
    ensures CompactLines(lines[..i + 1]) == Emit(CompactLines(lines[..i]), Trim(lines[i]))
  {
    assert lines[..i + 1][..i] == lines[..i];
  }

  /** The emitted lines of any prefix of the split text are all non-empty. */
  lemma NonEmptyLinesPrefix(lines: seq<string>, i: nat)
    requires i <= |lines| && forall j :: 0 <= j < |lines| ==> HasNoBreak(lines[j])
    ensures forall j :: 0 <= j < |CompactLines(lines[..i])| ==> CompactLines(lines[..i])[j] != []
  {
    CompactLinesForm(lines[..i]);
  }

  /** What one more line does to the StringBuilder text. */
  lemma EmitJoin(out: seq<string>, line: string)
    requires forall j :: 0 <= j < |out| ==> out[j] != []
    ensures var next := Join("\n", Emit(out, line));
      if line == [] || StartsWith(line, "//") then next == Join("\n", out)
      else if line == "{" then
        (out == [] ==> next == "{") && (out != [] ==> next == Join("\n", out) + " {")
      else
        (Join("\n", out) == [] <==> out == []) &&
        next == (if out == [] then line else Join("\n", out) + "\n" + line)
  {
    if line != [] && !StartsWith(line, "//") {
      if line == "{" {
        if out != [] {
          JoinExtendLast("\n", out, " {");
        }
      } else {
        JoinSnoc("\n", out, line);
        JoinNonEmpty(out);
      }
    }
  }

  /** Extending the last joined piece extends the join. */
  lemma JoinExtendLast(sep: string, out: seq<string>, x: string)
    requires out != []
    ensures Join(sep, out[..|out| - 1] + [out[|out| - 1] + x]) == Join(sep, out) + x
  {
    var init := out[..|out| - 1];
    JoinSnoc(sep, init, out[|out| - 1] + x);
    JoinSnoc(sep, init, out[|out| - 1]);
    assert init + [out[|out| - 1]] == out;
  }

  lemma JoinNonEmpty(out: seq<string>)
    requires forall j :: 0 <= j < |out| ==> out[j] != []
    ensures Join("\n", out) == [] <==> out == []
  {
    if |out| > 1 {
      assert Join("\n", out) == out[0] + "\n" + Join("\n", out[1..]);
    }
  }

  // ---------------------------------------------------------------------
  // The emitted lines

  /** A line as the converter emits it. */
  predicate IsEmitted(line: string) {
    line != [] && IsTrimmed(line) && !StartsWith(line, "//") && HasNoBreak(line)
  }

  /**
   * Every emitted line is non-empty, trimmed, break-free and not a `//`
   * comment, and no line but the first is a lone `{`.
   */
  predicate WellEmitted(out: seq<string>) {
    forall j :: 0 <= j < |out| ==> IsEmitted(out[j]) && (j > 0 ==> out[j] != "{")
  }

  lemma {:induction false} CompactLinesForm(lines: seq<string>)
    requires forall j :: 0 <= j < |lines| ==> HasNoBreak(lines[j])
    ensures WellEmitted(CompactLines(lines))
    decreases |lines|
  {
    if lines != [] {
      var init := lines[..|lines| - 1];
      assert forall j :: 0 <= j < |init| ==> init[j] == lines[j];
      CompactLinesForm(init);
      var raw := lines[|lines| - 1];
      TrimmedLineForm(raw);
      EmitForm(CompactLines(init), Trim(raw));
    }
  }

  /** Emitting a trimmed, break-free line keeps every emitted line in form. */
  lemma EmitForm(prev: seq<string>, line: string)
    requires WellEmitted(prev)
    requires HasNoBreak(line) && IsTrimmed(line)
    ensures WellEmitted(Emit(prev, line))
  {
    var out := Emit(prev, line);
    if line != [] && !StartsWith(line, "//") {
      if line == "{" {
        if prev != [] {
          assert IsEmitted(prev[|prev| - 1]);
          MergedIsEmitted(prev[|prev| - 1]);
          forall j | 0 <= j < |out| ensures IsEmitted(out[j]) && (j > 0 ==> out[j] != "{") {
            if j < |prev| - 1 {
              assert out[j] == prev[j];
            }
          }
        }
      } else {
        forall j | 0 <= j < |out| ensures IsEmitted(out[j]) && (j > 0 ==> out[j] != "{") {
          if j < |prev| {
            assert out[j] == prev[j];
          }
        }
      }
    }
  }

  lemma TrimmedLineForm(raw: string)
    requires HasNoBreak(raw)
    ensures var line := Trim(raw); HasNoBreak(line) && IsTrimmed(line)
  {
    TrimSlice(raw);
    var line := Trim(raw);
    assert forall k :: 0 <= k < |line| ==> line[k] == raw[LeadingWhite(raw) + k];
  }

  lemma MergedIsEmitted(p: string)
    requires IsEmitted(p)
    ensures IsEmitted(p + " {") && p + " {" != "{"
  {
    var m := p + " {";
    assert m[0] == p[0] && m[|m| - 1] == '{';
    assert forall k :: 0 <= k < |p| ==> m[k] == p[k];
    assert m[|p|] == ' ';
    if |p| >= 2 {
      assert m[..2] == p[..2];
    } else {
      assert m[..2] == [p[0], ' '];
    }
  }

  /**
   * The output read back as lines is exactly the emitted lines: they are
   * joined by single '\n', with no empty line, no leading or trailing newline.
   */
  lemma CompactedLines(content: string)
    ensures var out := CompactLines(NonEmptyLines(BlockComments.StripBlockComments(content)));
      NonEmptyLines(Compacted(content)) == out
  {
    var lines := NonEmptyLines(BlockComments.StripBlockComments(content));
    CompactLinesForm(lines);
    var out := CompactLines(lines);
    assert forall j :: 0 <= j < |out| ==> IsEmitted(out[j]);
    NonEmptyLinesOfJoin(out);
  }

  /** The lines the converter keeps: trimmed, neither empty nor a `//` comment. */
  function KeptLines(lines: seq<string>): seq<string> {
    if lines == [] then []
    else
      var line := Trim(lines[|lines| - 1]);
      KeptLines(lines[..|lines| - 1]) + (if line == [] || StartsWith(line, "//") then [] else [line])
  }

  /**
   * Brace merging only replaces a line break by a space: joined with spaces,
   * the emitted lines and the kept lines read the same, so kept lines keep
   * their input order and none is lost.
   */
  lemma {:induction false} MergeKeepsWords(lines: seq<string>)
    ensures Join(" ", CompactLines(lines)) == Join(" ", KeptLines(lines))
    ensures CompactLines(lines) == [] <==> KeptLines(lines) == []
    decreases |lines|
  {
    if lines != [] {
      var init := lines[..|lines| - 1];
      MergeKeepsWords(init);
      var line := Trim(lines[|lines| - 1]);
      var kept := KeptLines(init);
      assert KeptLines(lines) == if line == [] || StartsWith(line, "//") then kept else kept + [line];
      MergeStep(CompactLines(init), kept, line);
    }
  }

  lemma MergeStep(prev: seq<string>, kept: seq<string>, line: string)
    requires Join(" ", prev) == Join(" ", kept) && (prev == [] <==> kept == [])
    ensures var k := if line == [] || StartsWith(line, "//") then kept else kept + [line];
      Join(" ", Emit(prev, line)) == Join(" ", k) && (Emit(prev, line) == [] <==> k == [])
  {
    if line != [] && !StartsWith(line, "//") {
      JoinSnoc(" ", kept, line);
      if line == "{" && prev != [] {
        JoinExtendLast(" ", prev, " {");
        assert Join(" ", prev) + " {" == Join(" ", prev) + " " + "{";
      } else if line != "{" {
        JoinSnoc(" ", prev, line);
      }
    }
  }

  /** Removing one complete block comment is the same as never having written it. */
  lemma CommentIsInvisible(a: string, m: string, c: string)
    requires BlockComments.NoOpener(a) && BlockComments.NoCloser(m)
    requires !(a != [] && c != [] && a[|a| - 1] == '/' && c[0] == '*')
    ensures Compacted(a + "/*" + m + "*/" + c) == Compacted(a + c)
  {
    BlockComments.StripComment(a, m, c);
    BlockComments.StripPrefix(a, c);
  }

  /** The merge does not look at the previous line: a `{` after a trailing comment joins it. */
  lemma MergeAfterComment()
    ensures CompactLines(["x(); // note", "{"]) == ["x(); // note {"]
  {
    var note := "x(); // note";
    var lines := [note, "{"];
    var one := [note];
    assert lines[..1] == one;
    assert one[..0] == [];
    TrimmedFixed(note);
    TrimmedFixed("{");
    assert note[..2] == "x(";
    assert !StartsWith(note, "//");
    assert CompactLines(one) == Emit([], note);
    assert Emit([], note) == one;
    assert one[..0] + [note + " {"] == [note + " {"];
    assert CompactLines(lines) == Emit(one, "{");
    assert note + " {" == "x(); // note {";
  }

  /** Preprocessor lines such as `#region` are kept. */
  lemma RegionKept()
    ensures CompactLines(["#region Fields"]) == ["#region Fields"]
  {
    var region := "#region Fields";
    var lines := [region];
    assert lines[..0] == [];
    TrimmedFixed(region);
    assert region[..2] == "#r";
    assert !StartsWith(region, "//");
    assert CompactLines(lines) == Emit([], region);
  }
}
