/**
 * FileScanner: which files of a source tree are collected. The extension
 * list and the ignored folder names are normalised once, at construction;
 * the walk keeps the matching files of a directory and descends into every
 * subdirectory that the skip rule lets through; the collected full paths
 * are sorted. A directory is a value holding its files and subdirectories
 * in the order their enumerations yield them.
 */
module FileScanning {
  import opened Text
  import opened Wrappers
  import opened Paths

  /** ProjectConstants.OutputDirName: the folder the converter writes into. */
  const OutputDirName: string := "_ConvertedToTxt"

  /** A file as the enumeration reports it: its name and its full path. */
  datatype FileEntry = FileEntry(name: string, fullName: string)

  /**
   * A directory as its two enumerations see it. An enumeration that is
   * refused access part way is the sequence of entries yielded before the
   * refusal: the walk ignores the refusal and keeps what it already has.
   */
  datatype Dir = Dir(name: string, files: seq<FileEntry>, subdirs: seq<Dir>)

  // ---------------------------------------------------------------------
  // Normalisation of the settings

  /** TrimStart('.'): what follows the leading dots. */
  function TrimStartDots(s: string): (r: string)
    ensures |r| <= |s| && r == s[|s| - |r|..]
    ensures forall i :: 0 <= i < |s| - |r| ==> s[i] == '.'
    ensures r == [] || r[0] != '.'
  {
    if s != [] && s[0] == '.' then TrimStartDots(s[1..]) else s
  }

  /** No upper-case ASCII letter. */
  predicate IsLower(s: string) {
    forall i :: 0 <= i < |s| ==> LowerChar(s[i]) == s[i]
  }

  lemma LowerIdempotent(s: string)
    ensures IsLower(Lower(s)) && Lower(Lower(s)) == Lower(s)
  {
  }

  /** One entry of the extension list: trimmed, stripped of leading dots, lower-cased. */
  function NormalizeExtension(e: string): (r: string)
    ensures IsLower(r)
    ensures r == [] || r[0] != '.'
  {
    var t := TrimStartDots(Trim(e));
    LowerIdempotent(t);
    Lower(t)
  }

  /** The constructor's extension list: every entry normalised, the empty ones dropped. */
  function NormalizeExtensions(extensions: seq<string>): (r: seq<string>)
    ensures |r| <= |extensions|
    ensures forall x :: x in r ==> x != [] && x[0] != '.' && IsLower(x)
  {
    if extensions == [] then []
    else
      var e := NormalizeExtension(extensions[0]);
      (if e == [] then [] else [e]) + NormalizeExtensions(extensions[1..])
  }

  /** An entry is in the normalised list exactly when it is the non-empty normal form of a given one. */
  lemma {:induction false} NormalizeExtensionsMembers(extensions: seq<string>, x: string)
    ensures x in NormalizeExtensions(extensions) <==>
      x != [] && exists e :: e in extensions && NormalizeExtension(e) == x
    decreases |extensions|
  {
    if extensions != [] {
      NormalizeExtensionsMembers(extensions[1..], x);
      assert forall e :: e in extensions <==> e == extensions[0] || e in extensions[1..];
    }
  }

  /** The constructor's ignore set: every folder trimmed and lower-cased, and the output folder. */
  function NormalizeFolders(ignoredFolders: seq<string>): (r: set<string>)
    ensures Lower(OutputDirName) in r
    ensures forall f :: f in ignoredFolders ==> Lower(Trim(f)) in r
    ensures forall x :: x in r ==> IsLower(x)
  {
    LowerIdempotent(OutputDirName);
    assert forall f :: f in ignoredFolders ==> IsLower(Lower(Trim(f)));
    (set f | f in ignoredFolders :: Lower(Trim(f))) + {Lower(OutputDirName)}
  }

  // ---------------------------------------------------------------------
  // The two filters

  /** WalkDirectory's skip rule for a subdirectory called name. */
  predicate Skipped(ignoredFolders: set<string>, name: string) {
    var dirName := Lower(name);
    dirName in ignoredFolders || (StartsWith(dirName, ".") && dirName != ".gitignore")
  }

  /** The output folder is never descended into, however its name is cased. */
  lemma OutputFolderSkipped(ignoredFolders: seq<string>, name: string)
    requires Lower(name) == Lower(OutputDirName)
    ensures Skipped(NormalizeFolders(ignoredFolders), name)
  {
  }

  /**
   * A folder called .gitignore is skipped only when the ignore list names
   * it; any other name starting with a dot is always skipped.
   */
  lemma DotFolders(ignoredFolders: seq<string>, name: string)
    requires name != [] && name[0] == '.'
    ensures Skipped(NormalizeFolders(ignoredFolders), name) <==>
      Lower(name) != ".gitignore" || exists f :: f in ignoredFolders && Lower(Trim(f)) == ".gitignore"
  {
    assert Lower(OutputDirName) == "_convertedtotxt";
    assert Lower(name)[..1] == ".";
  }

  /** IsFileMatch: a .md file, a listed extension, or a listed whole name, ignoring case. */
  predicate IsFileMatch(extensions: seq<string>, fileName: string) {
    var lowerName := Lower(fileName);
    EndsWith(lowerName, ".md")
    || TrimStartDots(GetExtension(lowerName)) in extensions
    || lowerName in extensions
  }

  /** Matching does not depend on the case of the file name. */
  lemma IsFileMatchIgnoresCase(extensions: seq<string>, fileName: string)
    ensures IsFileMatch(extensions, Lower(fileName)) == IsFileMatch(extensions, fileName)
  {
    LowerIdempotent(fileName);
  }

  lemma LowerOfDotted(base: string, ext: string)
    ensures Lower(base + "." + ext) == Lower(base) + "." + Lower(ext)
  {
  }

  /**
   * A name made of a stem, a dot and an extension without dots: it matches
   * exactly when it ends in .md, when its lower-cased extension is listed,
   * or when its whole lower-cased name is listed.
   */
  lemma DottedNameMatch(extensions: seq<string>, base: string, ext: string)
    requires ext != [] && '.' !in ext && NoSeparator(ext)
    ensures IsFileMatch(extensions, base + "." + ext) <==>
      EndsWith(Lower(base + "." + ext), ".md") || Lower(ext) in extensions || Lower(base + "." + ext) in extensions
  {
    ExtensionOfDotted(base, ext);
    assert ext[0] in ext;
    assert Lower(ext)[0] == LowerChar(ext[0]);
    assert TrimStartDots("." + Lower(ext)) == Lower(ext);
  }

  /** The extension of a lower-cased stem, dot and dot-free extension is the dot and the extension. */
  lemma ExtensionOfDotted(base: string, ext: string)
    requires ext != [] && '.' !in ext && NoSeparator(ext)
    ensures GetExtension(Lower(base + "." + ext)) == "." + Lower(ext)
  {
    var path := Lower(base + "." + ext);
    var d := |base|;
    LowerOfDotted(base, ext);
    assert path[d] == '.';
    forall j | d < j < |path|
      ensures path[j] != '.' && !IsSeparator(path[j])
    {
      assert path[j] == LowerChar(ext[j - d - 1]);
      assert ext[j - d - 1] in ext;
    }
    ExtensionScanFrom(path, d);
  }

  /**
   * A file listed by extension in the settings matches in any case: the
   * entry ".CS" lets "Program.cs" and "Program.Cs" through.
   */
  lemma ListedExtensionMatches(extensions: seq<string>, e: string, base: string, ext: string)
    requires e in extensions
    requires ext != [] && '.' !in ext && NoSeparator(ext)
    requires Lower(ext) == NormalizeExtension(e)
    ensures IsFileMatch(NormalizeExtensions(extensions), base + "." + ext)
  {
    NormalizeExtensionsMembers(extensions, Lower(ext));
    DottedNameMatch(NormalizeExtensions(extensions), base, ext);
  }

  /**
   * A name without any dot (a Dockerfile, say) matches under the
   * normalised list exactly when its lower-cased name is listed.
   */
  lemma UndottedNameMatch(extensions: seq<string>, fileName: string)
    requires '.' !in fileName
    ensures IsFileMatch(NormalizeExtensions(extensions), fileName) <==>
      Lower(fileName) in NormalizeExtensions(extensions)
  {
    var lowerName := Lower(fileName);
    LowerKeepsNoDot(fileName);
    DotOfExtension(lowerName);
    assert TrimStartDots([]) == [];
  }

  lemma LowerKeepsNoDot(s: string)
    requires '.' !in s
    ensures '.' !in Lower(s)
  {
    forall i | 0 <= i < |s|
      ensures Lower(s)[i] != '.'
    {
      assert s[i] in s;
    }
  }

  /** A name with an extension, or ending in .md, holds a dot. */
  lemma DotOfExtension(s: string)
    ensures GetExtension(s) != [] ==> '.' in s
    ensures EndsWith(s, ".md") ==> '.' in s
  {
    var r := GetExtension(s);
    if r != [] {
      assert s[|s| - |r|] == r[0];
    }
    if EndsWith(s, ".md") {
      assert s[|s| - 3] == '.';
    }
  }

  // ---------------------------------------------------------------------
  // The walk

  /** IsFileMatch on a fixed extension list, as a filter on file names. */
  function FileFilter(extensions: seq<string>): string -> bool {
    name => IsFileMatch(extensions, name)
  }

  /** The skip rule on a fixed ignore set, as a filter on folder names. */
  function FolderFilter(ignoredFolders: set<string>): string -> bool {
    name => Skipped(ignoredFolders, name)
  }

  /** The full paths of the first k files of fs that keep lets through, in order. */
  function Matched(keep: string -> bool, fs: seq<FileEntry>, k: nat): (r: seq<string>)
    requires k <= |fs|
    ensures |r| <= k
  {
    if k == 0 then []
    else
      var f := fs[k - 1];
      Matched(keep, fs, k - 1) + (if keep(f.name) then [f.fullName] else [])
  }

  /**
   * What the walk of d has appended once it has passed the files of d and
   * its first k subdirectories.
   */
  function Collect(keep: string -> bool, skip: string -> bool, d: Dir, k: nat): seq<string>
    requires k <= |d.subdirs|
    decreases d, k
  {
    if k == 0 then Matched(keep, d.files, |d.files|)
    else
      var sub := d.subdirs[k - 1];
      Collect(keep, skip, d, k - 1) + (if skip(sub.name) then [] else Collect(keep, skip, sub, |sub.subdirs|))
  }

  /** What WalkDirectory appends for directory d. */
  function Walk(keep: string -> bool, skip: string -> bool, d: Dir): seq<string> {
    Collect(keep, skip, d, |d.subdirs|)
  }

  /**
   * f lies under d: in d itself, or under one of its subdirectories that
   * skip lets through.
   */
  ghost predicate Under(skip: string -> bool, d: Dir, f: FileEntry)
    decreases d
  {
    f in d.files
    || exists i :: 0 <= i < |d.subdirs| && !skip(d.subdirs[i].name) && Under(skip, d.subdirs[i], f)
  }

  lemma {:induction false} MatchedMembers(keep: string -> bool, fs: seq<FileEntry>, k: nat, x: string)
    requires k <= |fs|
    ensures x in Matched(keep, fs, k) <==>
      exists j :: 0 <= j < k && keep(fs[j].name) && fs[j].fullName == x
    decreases k
  {
    if k > 0 {
      MatchedMembers(keep, fs, k - 1, x);
    }
  }

  /** A file under a subdirectory that the walk enters lies under the directory. */
  lemma UnderSubdir(skip: string -> bool, d: Dir, i: nat, f: FileEntry)
    requires i < |d.subdirs| && !skip(d.subdirs[i].name) && Under(skip, d.subdirs[i], f)
    ensures Under(skip, d, f)
  {
  }

  /** A path collected from the files of d names one of them that keep lets through. */
  lemma FileSource(keep: string -> bool, skip: string -> bool, d: Dir, x: string) returns (f: FileEntry)
    requires x in Collect(keep, skip, d, 0)
    ensures Under(skip, d, f) && keep(f.name) && f.fullName == x
  {
    MatchedMembers(keep, d.files, |d.files|, x);
    var j :| 0 <= j < |d.files| && keep(d.files[j].name) && d.files[j].fullName == x;
    f := d.files[j];
    assert f in d.files;
  }

  /**
   * A path collected once the k-th subdirectory is passed was collected
   * before it, or comes from the walk of that subdirectory; before says which.
   */
  lemma CollectStep(keep: string -> bool, skip: string -> bool, d: Dir, k: nat, x: string) returns (before: bool)
    requires 0 < k <= |d.subdirs|
    requires x in Collect(keep, skip, d, k)
    ensures before ==> x in Collect(keep, skip, d, k - 1)
    ensures !before ==> !skip(d.subdirs[k - 1].name) && x in Walk(keep, skip, d.subdirs[k - 1])
  {
    before := x in Collect(keep, skip, d, k - 1);
  }

  /** The file of d, or under d, that a collected path comes from. */
  lemma {:induction false} CollectSource(keep: string -> bool, skip: string -> bool, d: Dir, k: nat, x: string)
    returns (f: FileEntry)
    requires k <= |d.subdirs|
    requires x in Collect(keep, skip, d, k)
    ensures Under(skip, d, f) && keep(f.name) && f.fullName == x
    decreases d, k, 2
  {
    if k == 0 {
      f := FileSource(keep, skip, d, x);
    } else {
      var before := CollectStep(keep, skip, d, k, x);
      f := StepSource(keep, skip, d, k, x, before);
    }
  }

  lemma {:induction false} StepSource(keep: string -> bool, skip: string -> bool, d: Dir, k: nat, x: string, before: bool)
    returns (f: FileEntry)
    requires 0 < k <= |d.subdirs|
    requires before ==> x in Collect(keep, skip, d, k - 1)
    requires !before ==> !skip(d.subdirs[k - 1].name) && x in Walk(keep, skip, d.subdirs[k - 1])
    ensures Under(skip, d, f) && keep(f.name) && f.fullName == x
    decreases d, k, 1
  {
    if before {
      f := CollectSource(keep, skip, d, k - 1, x);
    } else {
      f := SubdirSource(keep, skip, d, k - 1, x);
    }
  }

  lemma {:induction false} SubdirSource(keep: string -> bool, skip: string -> bool, d: Dir, i: nat, x: string)
    returns (f: FileEntry)
    requires i < |d.subdirs| && !skip(d.subdirs[i].name)
    requires x in Walk(keep, skip, d.subdirs[i])
    ensures Under(skip, d, f) && keep(f.name) && f.fullName == x
    decreases d, i, 0
  {
    f := CollectSource(keep, skip, d.subdirs[i], |d.subdirs[i].subdirs|, x);
    UnderSubdir(skip, d, i, f);
  }

  /** Every collected path is that of a file under the directory that keep lets through. */
  lemma WalkSound(keep: string -> bool, skip: string -> bool, d: Dir, x: string)
    requires x in Walk(keep, skip, d)
    ensures exists f :: Under(skip, d, f) && keep(f.name) && f.fullName == x
  {
    var f := CollectSource(keep, skip, d, |d.subdirs|, x);
  }

  lemma {:induction false} CollectComplete(keep: string -> bool, skip: string -> bool, d: Dir, k: nat, f: FileEntry)
    requires k <= |d.subdirs| && keep(f.name)
    requires f in d.files
             || exists i :: 0 <= i < k && !skip(d.subdirs[i].name) && Under(skip, d.subdirs[i], f)
    ensures f.fullName in Collect(keep, skip, d, k)
    decreases d, k
  {
    if k == 0 {
      var j :| 0 <= j < |d.files| && d.files[j] == f;
      MatchedMembers(keep, d.files, |d.files|, f.fullName);
    } else {
      var sub := d.subdirs[k - 1];
      if f in d.files || exists i :: 0 <= i < k - 1 && !skip(d.subdirs[i].name) && Under(skip, d.subdirs[i], f) {
        CollectComplete(keep, skip, d, k - 1, f);
      } else {
        assert !skip(sub.name) && Under(skip, sub, f);
        CollectComplete(keep, skip, sub, |sub.subdirs|, f);
      }
    }
  }

  /** Every file under the directory that keep lets through is collected. */
  lemma WalkComplete(keep: string -> bool, skip: string -> bool, d: Dir, f: FileEntry)
    requires Under(skip, d, f) && keep(f.name)
    ensures f.fullName in Walk(keep, skip, d)
  {
    CollectComplete(keep, skip, d, |d.subdirs|, f);
  }

  // ---------------------------------------------------------------------
  // Sorting

  /** The comparer List.Sort uses: total and transitive. */
  ghost predicate TotalPreorder(le: (string, string) -> bool) {
    (forall a, b :: le(a, b) || le(b, a))
    && (forall a, b, c :: le(a, b) && le(b, c) ==> le(a, c))
  }

  predicate Sorted(le: (string, string) -> bool, s: seq<string>) {
    forall i, j :: 0 <= i < j < |s| ==> le(s[i], s[j])
  }

  function Insert(le: (string, string) -> bool, x: string, s: seq<string>): (r: seq<string>)
    requires TotalPreorder(le) && Sorted(le, s)
    ensures Sorted(le, r) && multiset(r) == multiset(s) + multiset{x}
  {
    if s == [] then [x]
    else if le(x, s[0]) then [x] + s
    else
      var t := Insert(le, x, s[1..]);
      assert s == [s[0]] + s[1..];
      assert forall k :: 0 <= k < |t| ==> le(s[0], t[k]) by {
        forall k | 0 <= k < |t|
          ensures le(s[0], t[k])
        {
          assert t[k] in multiset(t);
          assert t[k] == x || t[k] in s[1..];
        }
      }
      [s[0]] + t
  }

  /** List.Sort: the same strings, in the comparer's order. */
  function SortBy(le: (string, string) -> bool, s: seq<string>): (r: seq<string>)
    requires TotalPreorder(le)
    ensures Sorted(le, r) && multiset(r) == multiset(s)
  {
    if s == [] then []
    else
      assert s == [s[0]] + s[1..];
      Insert(le, s[0], SortBy(le, s[1..]))
  }

  // ---------------------------------------------------------------------
  // The scanner

  class FileScanner {
    const extensions: seq<string>
    const ignoredFolders: set<string>
    /** IsFileMatch on this scanner's extension list. */
    const isFileMatch: string -> bool
    /** The skip rule on this scanner's ignore set. */
    const isSkipped: string -> bool

    constructor (extensions: seq<string>, ignoredFolders: seq<string>)
      ensures this.extensions == NormalizeExtensions(extensions)
      ensures this.ignoredFolders == NormalizeFolders(ignoredFolders)
      ensures isFileMatch == FileFilter(this.extensions) && isSkipped == FolderFilter(this.ignoredFolders)
    {
      this.extensions := NormalizeExtensions(extensions);
      this.ignoredFolders := NormalizeFolders(ignoredFolders);
      isFileMatch := FileFilter(NormalizeExtensions(extensions));
      isSkipped := FolderFilter(NormalizeFolders(ignoredFolders));
    }

    /** The first half of WalkDirectory: append the matching files of directory, in order. */
    method AddMatchingFiles(directory: Dir, results: seq<string>) returns (r: seq<string>)
      ensures r == results + Matched(isFileMatch, directory.files, |directory.files|)
    {
      r := results;
      for i := 0 to |directory.files|
        invariant r == results + Matched(isFileMatch, directory.files, i)
      {
        var file := directory.files[i];
        if isFileMatch(file.name) {
          r := r + [file.fullName];
        }
      }
    }

    /**
     * WalkDirectory: append the matching files of directory, then walk
     * each subdirectory the skip rule lets through, in order.
     */
    method WalkDirectory(directory: Dir, results: seq<string>) returns (r: seq<string>)
      ensures r == results + Walk(isFileMatch, isSkipped, directory)
      decreases directory
    {
      r := AddMatchingFiles(directory, results);
      for i := 0 to |directory.subdirs|
        invariant r == results + Collect(isFileMatch, isSkipped, directory, i)
      {
        var dir := directory.subdirs[i];
        if !isSkipped(dir.name) {
          r := WalkDirectory(dir, r);
          AppendAssoc(results, Collect(isFileMatch, isSkipped, directory, i), Walk(isFileMatch, isSkipped, dir));
        }
      }
    }

    /**
     * ScanAsync: nothing for a missing root; otherwise the walk's results,
     * sorted by the comparer.
     */
    method ScanAsync(root: Option<Dir>, le: (string, string) -> bool) returns (r: seq<string>)
      requires TotalPreorder(le)
      ensures root.None? ==> r == []
      ensures root.Some? ==> Sorted(le, r) && multiset(r) == multiset(Walk(isFileMatch, isSkipped, root.value))
    {
      var results: seq<string> := [];
      if root.None? {
        return results;
      }
      results := WalkDirectory(root.value, results);
      results := SortBy(le, results);
      return results;
    }
  }
}
