/**
 * FileContentProcessor: read a file, normalise its line endings, and run the
 * strategy that CompressionFactory picks for the configured level and the
 * file's path. The file system is a map from path to content; the Godot
 * converter, which is not part of this model, is a function parameter.
 */
module ContentProcessing {
  import opened Text
  import opened Wrappers
  import opened Paths
  import opened CompressionFactory
  import NoCompressionStrategy
  import SmartCompressionStrategy
  import GeneralCodeStrategy
  import CsCompactConverter
  import UnityTree
  import UnityConverter

  datatype Error = FileNotFound(path: string)

  /** content.Replace("\r\n", "\n"): matches are taken left to right and never overlap. */
  function ReplaceCrLf(s: string): (r: string)
    ensures |r| <= |s|
    decreases |s|
  {
    if s == [] then []
    else if |s| >= 2 && s[0] == '\r' && s[1] == '\n' then "\n" + ReplaceCrLf(s[2..])
    else [s[0]] + ReplaceCrLf(s[1..])
  }

  /** content.Replace('\r', '\n'): every carriage return becomes a line feed, nothing else moves. */
  function ReplaceCr(s: string): (r: string)
    ensures |r| == |s|
    ensures forall i :: 0 <= i < |s| ==> r[i] == (if s[i] == '\r' then '\n' else s[i])
  {
    seq(|s|, i requires 0 <= i < |s| => if s[i] == '\r' then '\n' else s[i])
  }

  /** The line-ending normalisation of ReadAndProcess: no carriage return survives it. */
  function Normalize(s: string): (r: string)
    ensures |r| <= |s|
    ensures '\r' !in r
  {
    ReplaceCr(ReplaceCrLf(s))
  }

  /**
   * The intended reading of the normalisation, in one pass: a CR LF pair
   * becomes one line feed, a lone CR becomes a line feed.
   */
  function NormalizeOnePass(s: string): string
    decreases |s|
  {
    if s == [] then []
    else if s[0] == '\r' && |s| >= 2 && s[1] == '\n' then "\n" + NormalizeOnePass(s[2..])
    else if s[0] == '\r' then "\n" + NormalizeOnePass(s[1..])
    else [s[0]] + NormalizeOnePass(s[1..])
  }

  lemma ReplaceCrAppend(a: string, b: string)
    ensures ReplaceCr(a + b) == ReplaceCr(a) + ReplaceCr(b)
  {
  }

  /** The two chained replaces are the one-pass normalisation. */
  lemma {:induction false} NormalizeIsOnePass(s: string)
    ensures Normalize(s) == NormalizeOnePass(s)
    decreases |s|
  {
    if s != [] {
      if |s| >= 2 && s[0] == '\r' && s[1] == '\n' {
        NormalizeIsOnePass(s[2..]);
        ReplaceCrAppend("\n", ReplaceCrLf(s[2..]));
      } else {
        NormalizeIsOnePass(s[1..]);
        ReplaceCrAppend([s[0]], ReplaceCrLf(s[1..]));
      }
    }
  }

  lemma {:induction false} ReplaceCrLfFixed(s: string)
    requires '\r' !in s
    ensures ReplaceCrLf(s) == s
    decreases |s|
  {
    if s != [] {
      assert s[0] in s;
      assert forall c :: c in s[1..] ==> c in s;
      ReplaceCrLfFixed(s[1..]);
      assert s == [s[0]] + s[1..];
    }
  }

  /** Text without carriage returns is left as it is. */
  lemma NormalizeFixed(s: string)
    requires '\r' !in s
    ensures Normalize(s) == s
  {
    ReplaceCrLfFixed(s);
    assert forall i :: 0 <= i < |s| ==> s[i] != '\r';
  }

  /** Normalising twice is normalising once. */
  lemma NormalizeIdempotent(s: string)
    ensures Normalize(Normalize(s)) == Normalize(s)
  {
    NormalizeFixed(Normalize(s));
  }

  /** ICompressionStrategy.Process, for each strategy the factory can return. */
  function Apply(strategy: Strategy, content: string, filePath: string, godot: (string, string) -> string): string {
    match strategy
    case NoCompression => NoCompressionStrategy.Process(content, filePath)
    case SmartCompression => SmartCompressionStrategy.Process(content, filePath)
    case GodotScene => godot(content, FileName(filePath))
    case UnityScene => UnityTree.Converted(content)
    case CSharpCode => CsCompactConverter.Compacted(content)
    case GeneralCode => GeneralCodeStrategy.Compress(content, filePath)
  }

  /**
   * ReadAndProcess as a function of the level, the files, the path and the
   * Godot converter: a missing file is an error and runs no strategy; any
   * other file is normalised and handed to its strategy.
   */
  function Processed(level: CompressionLevel, files: map<string, string>, sourceFilePath: string,
                     godot: (string, string) -> string): (r: Result<string, Error>)
    ensures r.Failure? <==> sourceFilePath !in files
    ensures r.Failure? ==> r.error == FileNotFound(sourceFilePath)
  {
    if sourceFilePath !in files then Failure(FileNotFound(sourceFilePath))
    else Success(Apply(GetStrategy(level, sourceFilePath), Normalize(files[sourceFilePath]), sourceFilePath, godot))
  }

  /** At level None the result is the file's text with its line endings normalised. */
  lemma ProcessedAtNone(files: map<string, string>, sourceFilePath: string, godot: (string, string) -> string)
    requires sourceFilePath in files
    ensures Processed(CompressionLevel.None, files, sourceFilePath, godot) == Success(NormalizeOnePass(files[sourceFilePath]))
  {
    NormalizeIsOnePass(files[sourceFilePath]);
  }

  /**
   * At level Smart the result holds no carriage return, is trimmed, has no
   * run of three line feeds, and keeps the file's characters in order.
   */
  lemma ProcessedAtSmart(files: map<string, string>, sourceFilePath: string, godot: (string, string) -> string)
    requires sourceFilePath in files
    ensures Processed(Smart, files, sourceFilePath, godot).Success?
    ensures var r := Processed(Smart, files, sourceFilePath, godot).value;
      '\r' !in r && IsTrimmed(r) && SmartCompressionStrategy.NoTripleBreak(r)
      && IsSubsequence(r, Normalize(files[sourceFilePath]))
  {
    var c := Normalize(files[sourceFilePath]);
    var r := SmartCompressionStrategy.Process(c, sourceFilePath);
    SmartCompressionStrategy.ProcessIsSubsequence(c, sourceFilePath);
    SubsequenceMembers(r, c);
  }

  /** The FileContentProcessor service: one compression level, fixed at construction. */
  class FileContentProcessor {
    const compressionLevel: CompressionLevel

    constructor (compressionLevel: CompressionLevel)
      ensures this.compressionLevel == compressionLevel
    {
      this.compressionLevel := compressionLevel;
    }

    /** ICompressionStrategy.Process through the strategies' own methods. */
    static method RunStrategy(strategy: Strategy, content: string, filePath: string, godot: (string, string) -> string)
      returns (r: string)
      ensures r == Apply(strategy, content, filePath, godot)
    {
      match strategy
      case NoCompression => r := NoCompressionStrategy.Process(content, filePath);
      case SmartCompression => r := SmartCompressionStrategy.Process(content, filePath);
      case GodotScene => r := godot(content, FileName(filePath));
      case UnityScene => r := UnityConverter.UnityCompactConverter.Convert(content);
      case CSharpCode => r := CsCompactConverter.Convert(content);
      case GeneralCode => r := GeneralCodeStrategy.Process(content, filePath);
    }

    /** ReadAndProcess: existence check, read, line-ending normalisation, strategy. */
    method ReadAndProcess(files: map<string, string>, sourceFilePath: string, godot: (string, string) -> string)
      returns (r: Result<string, Error>)
      ensures r == Processed(compressionLevel, files, sourceFilePath, godot)
    {
      if sourceFilePath !in files {
        return Failure(FileNotFound(sourceFilePath));
      }
      var content := files[sourceFilePath];
      content := ReplaceCr(ReplaceCrLf(content));
      var strategy := GetStrategy(compressionLevel, sourceFilePath);
      var processed := RunStrategy(strategy, content, sourceFilePath, godot);
      return Success(processed);
    }
  }
}
