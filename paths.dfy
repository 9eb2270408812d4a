/**
 * The two System.IO.Path queries the compactors and the scanner use, as
 * .NET does them on Windows: '/' and '\\' both separate directories.
 */
module Paths {

  predicate IsSeparator(c: char) {
    c == '/' || c == '\\'
  }

  predicate NoSeparator(s: string) {
    forall i :: 0 <= i < |s| ==> !IsSeparator(s[i])
  }

  /** Path.GetFileName: what follows the last separator. */
  function FileName(path: string): (r: string)
    ensures |r| <= |path| && r == path[|path| - |r|..]
    ensures NoSeparator(r)
    ensures |r| < |path| ==> IsSeparator(path[|path| - |r| - 1])
  {
    if path == [] || IsSeparator(path[|path| - 1]) then []
    else FileName(path[..|path| - 1]) + [path[|path| - 1]]
  }

  /** The position of the last c in s, or -1. */
  function LastIndexOf(s: string, c: char): (k: int)
    ensures -1 <= k < |s|
    ensures k >= 0 ==> s[k] == c
    ensures forall i :: k < i < |s| ==> s[i] != c
  {
    if s == [] then -1
    else if s[|s| - 1] == c then |s| - 1
    else LastIndexOf(s[..|s| - 1], c)
  }

  /**
   * The backward scan of Path.GetExtension over path[..i]: the first '.'
   * met gives the extension (none when it is the path's last character), a
   * separator met first gives none.
   */
  function ExtensionScan(path: string, i: nat): (r: string)
    requires i <= |path|
    decreases i
  {
    if i == 0 then []
    else if path[i - 1] == '.' then (if i == |path| then [] else path[i - 1..])
    else if IsSeparator(path[i - 1]) then []
    else ExtensionScan(path, i - 1)
  }

  /**
   * Path.GetExtension: empty, or a '.' followed by at least one character,
   * ending the path, with no further '.' and no separator in it.
   */
  function GetExtension(path: string): (r: string)
    ensures r == [] || (|r| >= 2 && |r| <= |path| && r[0] == '.' && r == path[|path| - |r|..])
    ensures forall i :: 1 <= i < |r| ==> r[i] != '.' && !IsSeparator(r[i])
  {
    ExtensionScanShape(path, |path|);
    ExtensionScan(path, |path|)
  }

  lemma {:induction false} ExtensionScanShape(path: string, i: nat)
    requires i <= |path|
    requires forall j :: i <= j < |path| ==> path[j] != '.' && !IsSeparator(path[j])
    ensures var r := ExtensionScan(path, i);
      r == [] || (|r| >= 2 && |r| <= |path| && r[0] == '.' && r == path[|path| - |r|..])
    ensures var r := ExtensionScan(path, i);
      forall j :: 1 <= j < |r| ==> r[j] != '.' && !IsSeparator(r[j])
    decreases i
  {
    if i > 0 && path[i - 1] != '.' && !IsSeparator(path[i - 1]) {
      ExtensionScanShape(path, i - 1);
    }
  }

  /**
   * The same extension read off the file name: from the name's last '.',
   * unless the name has none or ends with it.
   */
  function ExtensionOfName(name: string): string {
    var k := LastIndexOf(name, '.');
    if k == -1 || k == |name| - 1 then [] else name[k..]
  }

  /** Within the file name, the scan stops at the last '.' of what it has seen. */
  lemma {:induction false} ExtensionScanOfName(name: string, i: nat)
    requires NoSeparator(name) && i <= |name|
    ensures ExtensionScan(name, i) ==
      (var k := LastIndexOf(name[..i], '.'); if k == -1 || k == |name| - 1 then [] else name[k..])
    decreases i
  {
    if i > 0 {
      assert name[..i][i - 1] == name[i - 1];
      if name[i - 1] != '.' {
        assert name[..i][..i - 1] == name[..i - 1];
        ExtensionScanOfName(name, i - 1);
      }
    }
  }

  /** The directory part, ended by a separator, never takes part in the scan. */
  lemma {:induction false} ExtensionScanInName(path: string, p: nat, i: nat)
    requires p <= i <= |path| && (p == 0 || IsSeparator(path[p - 1]))
    requires NoSeparator(path[p..])
    ensures ExtensionScan(path, i) == ExtensionScan(path[p..], i - p)
    decreases i
  {
    var n := path[p..];
    if i > p {
      assert path[i - 1] == n[i - 1 - p];
      assert path[i - 1..] == n[i - 1 - p..];
      ExtensionScanInName(path, p, i - 1);
    }
  }

  /** The backward scan and the reading off the file name agree on every path. */
  lemma GetExtensionOfFileName(path: string)
    ensures GetExtension(path) == ExtensionOfName(FileName(path))
  {
    var n := FileName(path);
    ExtensionScanInName(path, |path| - |n|, |path|);
    ExtensionScanOfName(n, |n|);
    assert n[..|n|] == n;
  }

  /** The usual case: a directory, a name without dots, a dot and a suffix. */
  lemma GetExtensionOfJoined(dir: string, base: string, ext: string)
    requires NoSeparator(base) && '.' !in base
    requires ext != [] && NoSeparator(ext) && '.' !in ext
    ensures GetExtension(dir + "/" + base + "." + ext) == "." + ext
  {
    var path := dir + "/" + base + "." + ext;
    var r := GetExtension(path);
    var d := |dir| + 1 + |base|;
    assert path[d] == '.';
    assert forall j :: d < j < |path| ==> path[j] == ext[j - d - 1];
    ExtensionScanFrom(path, d);
    assert path[d..] == "." + ext;
  }

  lemma {:induction false} ExtensionScanFrom(path: string, d: nat)
    requires d < |path| - 1 && path[d] == '.'
    requires forall j :: d < j < |path| ==> path[j] != '.' && !IsSeparator(path[j])
    ensures ExtensionScan(path, |path|) == path[d..]
  {
    ExtensionScanDown(path, d, |path|);
  }

  lemma {:induction false} ExtensionScanDown(path: string, d: nat, i: nat)
    requires d < i <= |path| && d < |path| - 1 && path[d] == '.'
    requires forall j :: d < j < |path| ==> path[j] != '.' && !IsSeparator(path[j])
    ensures ExtensionScan(path, i) == path[d..]
    decreases i
  {
    if i - 1 > d {
      ExtensionScanDown(path, d, i - 1);
    }
  }
}
