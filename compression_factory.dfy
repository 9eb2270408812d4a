/**
 * CompressionFactory: the strategy for a compression level and a file path.
 * The strategies are the values of a datatype; what each one does to a text
 * is FileContentProcessor.Apply.
 */
module CompressionFactory {
  import opened Text
  import opened Paths

  /**
   * The compression levels. The source's enum can hold any integer, so an
   * out-of-range value is a level of its own.
   */
  datatype CompressionLevel = None | Smart | Maximum | Undefined(code: int)

  datatype Strategy =
    | NoCompression
    | SmartCompression
    | GodotScene
    | UnityScene
    | CSharpCode
    | GeneralCode

  predicate IsGodotExtension(ext: string) {
    ext == ".tscn" || ext == ".tres"
  }

  predicate IsUnityExtension(ext: string) {
    ext == ".unity" || ext == ".prefab"
  }

  predicate IsCSharpExtension(ext: string) {
    ext == ".cs"
  }

  /**
   * CompressionFactory.GetStrategy. Total: every level and every path gets a
   * strategy. Only Maximum looks at the path, through its lower-cased extension.
   */
  function GetStrategy(level: CompressionLevel, filePath: string): (r: Strategy)
    ensures r.NoCompression? <==> level.None?
    ensures r.SmartCompression? <==> level.Smart? || level.Undefined?
    ensures var ext := Lower(GetExtension(filePath));
      && (r.GodotScene? <==> level.Maximum? && IsGodotExtension(ext))
      && (r.UnityScene? <==> level.Maximum? && IsUnityExtension(ext))
      && (r.CSharpCode? <==> level.Maximum? && IsCSharpExtension(ext))
      && (r.GeneralCode? <==> level.Maximum? && !IsGodotExtension(ext) && !IsUnityExtension(ext) && !IsCSharpExtension(ext))
  {
    match level
    case None => NoCompression
    case Smart => SmartCompression
    case Maximum =>
      var ext := Lower(GetExtension(filePath));
      if IsGodotExtension(ext) then GodotScene
      else if IsUnityExtension(ext) then UnityScene
      else if IsCSharpExtension(ext) then CSharpCode
      else GeneralCode
    case Undefined(_) => SmartCompression
  }

  /** Two paths whose extensions differ only in letter case get the same strategy. */
  lemma StrategyIgnoresCase(level: CompressionLevel, p1: string, p2: string)
    requires Lower(GetExtension(p1)) == Lower(GetExtension(p2))
    ensures GetStrategy(level, p1) == GetStrategy(level, p2)
  {
  }

  /** An upper-case `.CS` file under a directory is C# at level Maximum. */
  lemma UpperCaseCSharp(dir: string)
    ensures GetStrategy(Maximum, dir + "/Player.CS") == CSharpCode
  {
    assert dir + "/Player.CS" == dir + "/" + "Player" + "." + "CS";
    GetExtensionOfJoined(dir, "Player", "CS");
    assert Lower(".CS") == ".cs";
  }

  /** At level Maximum a file name without a '.' has no extension and gets the general strategy. */
  lemma NoExtensionIsGeneral(path: string)
    requires '.' !in FileName(path)
    ensures GetExtension(path) == []
    ensures GetStrategy(Maximum, path) == GeneralCode
  {
    NoDotNoExtension(path);
    EmptyExtensionIsGeneral(path);
  }

  lemma EmptyExtensionIsGeneral(path: string)
    requires GetExtension(path) == []
    ensures GetStrategy(Maximum, path) == GeneralCode
  {
    assert Lower([]) == [];
  }

  lemma NoDotNoExtension(path: string)
    requires '.' !in FileName(path)
    ensures GetExtension(path) == []
  {
    GetExtensionOfFileName(path);
    var n := FileName(path);
  }

  /** A name ending in a '.' has no extension either, as in .NET. */
  lemma TrailingDotIsGeneral(dir: string, base: string)
    ensures GetExtension(dir + "/" + base + ".") == []
    ensures GetStrategy(Maximum, dir + "/" + base + ".") == GeneralCode
  {
    var path := dir + "/" + base + ".";
    assert path[|path| - 1] == '.';
    assert Lower([]) == [];
  }
}
