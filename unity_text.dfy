/**
 * The text-level pieces of UnityCompactConverter: the object header regex
 * `^--- !u!(\d+) &(\d+)` (multi-line), the reference regex
 * `fileID:\s*(-?\d+)`, GetValue, ShortenVal and the component-name table.
 * Each regex is an explicit left-to-right scanner.
 */
module UnityText {
  import opened Text
  import opened Wrappers

  /** A non-empty run of decimal digits. */
  predicate IsDigits(s: string) {
    s != [] && forall i :: 0 <= i < |s| ==> IsDigit(s[i])
  }

  /** key occurs in s at position p. */
  predicate HasAt(s: string, p: nat, key: string) {
    p + |key| <= |s| && s[p..p + |key|] == key
  }

  /** The number of digits from position i on (the greedy \d+). */
  function DigitRun(s: string, i: nat): (n: nat)
    requires i <= |s|
    ensures i + n <= |s|
    ensures forall j :: i <= j < i + n ==> IsDigit(s[j])
    ensures i + n == |s| || !IsDigit(s[i + n])
    decreases |s| - i
  {
    if i < |s| && IsDigit(s[i]) then 1 + DigitRun(s, i + 1) else 0
  }

  /** The number of whitespace characters from position i on (the greedy \s*). */
  function WhiteRun(s: string, i: nat): (n: nat)
    requires i <= |s|
    ensures i + n <= |s|
    ensures forall j :: i <= j < i + n ==> IsWhite(s[j])
    ensures i + n == |s| || !IsWhite(s[i + n])
    decreases |s| - i
  {
    if i < |s| && IsWhite(s[i]) then 1 + WhiteRun(s, i + 1) else 0
  }

  // ---------------------------------------------------------------------
  // Object headers

  /** Where `^` matches in multi-line mode: the start, or just after a '\n'. */
  predicate LineStart(s: string, p: nat)
    requires p <= |s|
  {
    p == 0 || s[p - 1] == '\n'
  }

  /** One header match: where it starts and ends, and its two groups. */
  datatype Header = Header(index: nat, end: nat, classId: string, fileId: string)

  const HeaderOpen: string := "--- !u!"

  /**
   * The header pattern tried at position p: `--- !u!`, digits, ` &`,
   * digits. Both digit runs are maximal, since \d+ is greedy and what
   * follows the first cannot be a digit.
   */
  function HeaderAt(s: string, p: nat): (h: Option<Header>)
    requires p <= |s|
    ensures h.Some? ==> h.value.index == p && p < h.value.end <= |s|
  {
    if !HasAt(s, p, HeaderOpen) then None
    else
      var a := p + 7;
      var n1 := DigitRun(s, a);
      var b := a + n1;
      if n1 == 0 || !HasAt(s, b, " &") then None
      else
        var n2 := DigitRun(s, b + 2);
        if n2 == 0 then None
        else
          var e := b + 2 + n2;
          Some(Header(p, e, s[p + 7..b], s[b + 2..e]))
  }

  lemma HeaderText(s: string, p: nat, b: nat, e: nat)
    requires p + 7 <= b && b + 2 <= e <= |s|
    requires HasAt(s, p, HeaderOpen) && HasAt(s, b, " &")
    ensures s[p..e] == HeaderOpen + s[p + 7..b] + " &" + s[b + 2..e]
  {
    var t := HeaderOpen + s[p + 7..b] + " &" + s[b + 2..e];
    assert |t| == e - p;
    forall q | 0 <= q < |t| ensures t[q] == s[p + q] {
      if q < 7 {
        assert t[q] == HeaderOpen[q] == s[p..p + 7][q];
      } else if q < b - p {
        assert t[q] == s[p + 7..b][q - 7];
      } else if q < b - p + 2 {
        assert t[q] == " &"[q - (b - p)] == s[b..b + 2][q - (b - p)];
      } else {
        assert t[q] == s[b + 2..e][q - (b - p) - 2];
      }
    }
  }

  /**
   * Regex.Matches from position p: a match is tried at each position in
   * turn, and after a match the search resumes where it ended.
   */
  function Matches(s: string, p: nat): (hs: seq<Header>)
    requires p <= |s|
    ensures forall i :: 0 <= i < |hs| ==> p <= hs[i].index < hs[i].end <= |s|
    ensures forall i, j :: 0 <= i < j < |hs| ==> hs[i].end <= hs[j].index
    decreases |s| - p
  {
    if p == |s| then []
    else if LineStart(s, p) && HeaderAt(s, p).Some? then [HeaderAt(s, p).value] + Matches(s, HeaderAt(s, p).value.end)
    else Matches(s, p + 1)
  }

  /** HeaderRegex.Matches(content). */
  function Headers(s: string): seq<Header> {
    Matches(s, 0)
  }

  /** The reference reading: one header for each line that starts with one. */
  function LineHeaders(s: string, p: nat): seq<Header>
    requires p <= |s|
    decreases |s| - p
  {
    if p == |s| then []
    else if LineStart(s, p) && HeaderAt(s, p).Some? then [HeaderAt(s, p).value] + LineHeaders(s, p + 1)
    else LineHeaders(s, p + 1)
  }

  lemma {:induction false} LineHeaderMember(s: string, p: nat, h: Header)
    requires p <= |s|
    ensures h in LineHeaders(s, p) <==>
      p <= h.index < |s| && LineStart(s, h.index) && HeaderAt(s, h.index) == Some(h)
    decreases |s| - p
  {
    if p < |s| {
      LineHeaderMember(s, p + 1, h);
      var found := HeaderAt(s, p);
      var rest := LineHeaders(s, p + 1);
      if LineStart(s, p) && found.Some? {
        assert LineHeaders(s, p) == [found.value] + rest;
        assert found.value.index == p;
      } else {
        assert LineHeaders(s, p) == rest;
      }
    }
  }

  /** A header found at p: both ids are digit runs, and the text is the header line's opening. */
  lemma HeaderAtText(s: string, p: nat)
    requires p <= |s| && HeaderAt(s, p).Some?
    ensures var h := HeaderAt(s, p).value;
      IsDigits(h.classId) && IsDigits(h.fileId) &&
      s[p..h.end] == HeaderOpen + h.classId + " &" + h.fileId
  {
    var h := HeaderAt(s, p).value;
    var b := p + 7 + |h.classId|;
    HeaderText(s, p, b, h.end);
  }

  /** A header holds no line feed. */
  lemma HeaderNoBreak(s: string, p: nat, q: nat)
    requires p <= |s| && HeaderAt(s, p).Some? && p <= q < HeaderAt(s, p).value.end
    ensures s[q] != '\n'
  {
    var h := HeaderAt(s, p).value;
    var t := HeaderOpen + h.classId + " &" + h.fileId;
    HeaderAtText(s, p);
    assert s[q] == t[q - p];
    if q - p < 7 {
      assert t[q - p] == HeaderOpen[q - p];
    } else if q - p < 7 + |h.classId| {
      assert t[q - p] == h.classId[q - p - 7];
    } else if q - p < 9 + |h.classId| {
      assert t[q - p] == " &"[q - p - 7 - |h.classId|];
    } else {
      assert t[q - p] == h.fileId[q - p - 9 - |h.classId|];
    }
  }

  /** Inside a match there is no line start, so resuming after it skips nothing. */
  lemma SkipInsideHeader(s: string, p: nat, q: nat)
    requires p < q <= |s| && HeaderAt(s, p).Some? && q <= HeaderAt(s, p).value.end
    ensures LineHeaders(s, q) == LineHeaders(s, HeaderAt(s, p).value.end)
  {
    var e := HeaderAt(s, p).value.end;
    forall x | q <= x < e ensures !LineStart(s, x) {
      HeaderNoBreak(s, p, x - 1);
    }
    NoLineStartBetween(s, q, e);
  }

  /** Positions that start no line contribute no header. */
  lemma {:induction false} NoLineStartBetween(s: string, q: nat, e: nat)
    requires q <= e <= |s| && forall x :: q <= x < e ==> !LineStart(s, x)
    ensures LineHeaders(s, q) == LineHeaders(s, e)
    decreases e - q
  {
    if q < e {
      assert !LineStart(s, q);
      NoLineStartBetween(s, q + 1, e);
    }
  }

  /** The regex scan finds exactly the headers that begin a line, in text order. */
  lemma {:induction false} MatchesAreLineHeaders(s: string, p: nat)
    requires p <= |s|
    ensures Matches(s, p) == LineHeaders(s, p)
    decreases |s| - p
  {
    if p < |s| {
      if LineStart(s, p) && HeaderAt(s, p).Some? {
        var h := HeaderAt(s, p).value;
        MatchesAreLineHeaders(s, h.end);
        SkipInsideHeader(s, p, p + 1);
        assert Matches(s, p) == [h] + Matches(s, h.end);
        assert LineHeaders(s, p) == [h] + LineHeaders(s, p + 1);
      } else {
        MatchesAreLineHeaders(s, p + 1);
      }
    }
  }

  /** A header is found exactly when it starts a line; none is found iff no line starts with one. */
  lemma HeadersIff(s: string)
    ensures forall h :: h in Headers(s) <==>
      h.index < |s| && LineStart(s, h.index) && HeaderAt(s, h.index) == Some(h)
    ensures Headers(s) == [] <==>
      forall q :: 0 <= q < |s| && LineStart(s, q) ==> HeaderAt(s, q).None?
  {
    MatchesAreLineHeaders(s, 0);
    forall h ensures h in Headers(s) <==>
      h.index < |s| && LineStart(s, h.index) && HeaderAt(s, h.index) == Some(h)
    {
      LineHeaderMember(s, 0, h);
    }
    if Headers(s) != [] {
      var h := Headers(s)[0];
      assert h in Headers(s);
    }
    if exists q :: 0 <= q < |s| && LineStart(s, q) && HeaderAt(s, q).Some? {
      var q :| 0 <= q < |s| && LineStart(s, q) && HeaderAt(s, q).Some?;
      LineHeaderMember(s, 0, HeaderAt(s, q).value);
    }
  }

  // ---------------------------------------------------------------------
  // fileID references

  const FileIdKey: string := "fileID:"

  /** A reference value: digits, possibly after a minus sign. */
  predicate IsFileIdText(r: string) {
    IsDigits(r) || (|r| >= 2 && r[0] == '-' && IsDigits(r[1..]))
  }

  /**
   * `fileID:\s*(-?\d+)` tried at position p. The whitespace run is
   * maximal; a '-' counts only when digits follow it.
   */
  function FileIdAt(s: string, p: nat): (r: Option<string>)
    requires p <= |s|
    ensures r.Some? ==> IsFileIdText(r.value)
  {
    if !HasAt(s, p, FileIdKey) then None
    else ValueAt(s, p + 7 + WhiteRun(s, p + 7))
  }

  /** The `-?\d+` group at w: a '-' counts only when digits follow it. */
  function ValueAt(s: string, w: nat): (r: Option<string>)
    requires w <= |s|
    ensures r.Some? ==> IsFileIdText(r.value)
  {
    if w < |s| && s[w] == '-' && DigitRun(s, w + 1) > 0 then
      var v := s[w..w + 1 + DigitRun(s, w + 1)];
      assert v[1..] == s[w + 1..w + 1 + DigitRun(s, w + 1)];
      Some(v)
    else if DigitRun(s, w) > 0 then Some(s[w..w + DigitRun(s, w)])
    else None
  }

  /** The leftmost match at or after p, or "". */
  function ExtractFrom(s: string, p: nat): (r: string)
    requires p <= |s|
    ensures r == [] || IsFileIdText(r)
    decreases |s| - p
  {
    if p == |s| then []
    else match FileIdAt(s, p)
      case Some(v) => v
      case None => ExtractFrom(s, p + 1)
  }

  /** ExtractFileId: the first reference in the line, or "". */
  function ExtractFileId(line: string): (r: string)
    ensures r == [] || IsFileIdText(r)
  {
    ExtractFrom(line, 0)
  }

  /** A value found comes from the leftmost position where the pattern matches. */
  lemma {:induction false} ExtractFromWitness(s: string, p: nat) returns (q: nat)
    requires p <= |s| && ExtractFrom(s, p) != []
    ensures p <= q < |s| && FileIdAt(s, q) == Some(ExtractFrom(s, p))
    ensures forall x :: p <= x < q ==> FileIdAt(s, x).None?
    decreases |s| - p
  {
    if FileIdAt(s, p).Some? {
      q := p;
    } else {
      q := ExtractFromWitness(s, p + 1);
    }
  }

  /** Without a match anywhere the result is "". */
  lemma {:induction false} ExtractFromNone(s: string, p: nat)
    requires p <= |s| && forall x :: p <= x <= |s| ==> FileIdAt(s, x).None?
    ensures ExtractFrom(s, p) == []
    decreases |s| - p
  {
    if p < |s| {
      ExtractFromNone(s, p + 1);
    }
  }

  /** ExtractFileId finds the leftmost match, and "" when there is none. */
  lemma ExtractFileIdLeftmost(line: string)
    ensures ExtractFileId(line) != [] <==> exists q :: 0 <= q <= |line| && FileIdAt(line, q).Some?
    ensures ExtractFileId(line) != [] ==>
      exists q :: 0 <= q < |line| && FileIdAt(line, q) == Some(ExtractFileId(line)) &&
        forall x :: 0 <= x < q ==> FileIdAt(line, x).None?
  {
    if ExtractFileId(line) != [] {
      var q := ExtractFromWitness(line, 0);
    } else if exists q :: 0 <= q <= |line| && FileIdAt(line, q).Some? {
      var q :| 0 <= q <= |line| && FileIdAt(line, q).Some?;
      ExtractFromFirst(line, 0, q);
    }
  }

  lemma {:induction false} ExtractFromFirst(s: string, p: nat, q: nat)
    requires p <= q <= |s| && FileIdAt(s, q).Some?
    ensures ExtractFrom(s, p) != []
    decreases q - p
  {
    if p < q && FileIdAt(s, p).None? {
      ExtractFromFirst(s, p + 1, q);
    } else if p == q {
      assert HasAt(s, q, FileIdKey);
    }
  }

  /** Where the line has no 'f' the pattern cannot start. */
  lemma NoKeyAt(s: string, x: nat)
    requires x <= |s| && (x == |s| || s[x] != 'f')
    ensures FileIdAt(s, x).None?
  {
    assert x + 7 <= |s| ==> s[x..x + 7][0] == s[x];
  }

  /** The pattern at p: the key, whitespace, then the value and a non-digit. */
  lemma FileIdAtValue(s: string, p: nat, nws: nat, v: string)
    requires HasAt(s, p, FileIdKey) && IsFileIdText(v)
    requires p + 7 + nws + |v| <= |s|
    requires forall j :: p + 7 <= j < p + 7 + nws ==> IsWhite(s[j])
    requires s[p + 7 + nws..p + 7 + nws + |v|] == v
    requires p + 7 + nws + |v| == |s| || !IsDigit(s[p + 7 + nws + |v|])
    ensures FileIdAt(s, p) == Some(v)
  {
    var w := p + 7 + nws;
    assert s[w] == v[0] && !IsWhite(v[0]);
    WhiteRunIs(s, p + 7, nws);
    ValueAtIs(s, w, v);
  }

  /** A reference value v at w, followed by no digit, is the group read there. */
  lemma ValueAtIs(s: string, w: nat, v: string)
    requires IsFileIdText(v) && w + |v| <= |s| && s[w..w + |v|] == v
    requires w + |v| == |s| || !IsDigit(s[w + |v|])
    ensures ValueAt(s, w) == Some(v)
  {
    if v[0] == '-' {
      SignedRunAt(s, w, v);
      assert s[w..w + 1 + DigitRun(s, w + 1)] == v;
    } else {
      DigitsRunAt(s, w, v);
      assert s[w..w + DigitRun(s, w)] == v;
    }
  }

  /** Unsigned digits v at w are read whole. */
  lemma DigitsRunAt(s: string, w: nat, v: string)
    requires IsDigits(v) && w + |v| <= |s| && s[w..w + |v|] == v
    requires w + |v| == |s| || !IsDigit(s[w + |v|])
    ensures w < |s| && s[w] != '-' && DigitRun(s, w) == |v|
  {
    assert s[w] == v[0];
    assert forall j :: 0 <= j < |v| ==> s[w + j] == v[j];
    DigitRunIs(s, w, |v|);
  }

  /** A minus sign and digits at w: the digits after the sign are read whole. */
  lemma SignedRunAt(s: string, w: nat, v: string)
    requires |v| >= 2 && v[0] == '-' && IsDigits(v[1..])
    requires w + |v| <= |s| && s[w..w + |v|] == v
    requires w + |v| == |s| || !IsDigit(s[w + |v|])
    ensures w < |s| && s[w] == '-' && DigitRun(s, w + 1) == |v| - 1
  {
    assert s[w] == v[0];
    assert forall j :: 0 <= j < |v| - 1 ==> s[w + 1 + j] == v[1..][j];
    DigitRunIs(s, w + 1, |v| - 1);
  }

  /**
   * The reference in a typical line: text without an 'f', then `fileID:`,
   * spaces and the value, then something that is not a digit.
   */
  lemma ExtractFileIdOf(a: string, ws: string, v: string, rest: string)
    requires 'f' !in a && IsBlank(ws) && IsFileIdText(v)
    requires rest == [] || !IsDigit(rest[0])
    ensures ExtractFileId(a + FileIdKey + ws + v + rest) == v
  {
    var s := a + FileIdKey + ws + v + rest;
    var p := |a|;
    forall x | 0 <= x < p ensures FileIdAt(s, x).None? {
      assert s[x] == a[x];
      NoKeyAt(s, x);
    }
    var w := p + 7 + |ws|;
    assert s[p..p + 7] == FileIdKey;
    assert s[p + 7..w] == ws;
    assert s[w..w + |v|] == v;
    assert w + |v| < |s| ==> s[w + |v|] == rest[0];
    FileIdAtValue(s, p, |ws|, v);
    ExtractFromSkip(s, 0, p);
  }

  /** `fileID:` followed by no number gives "": the pattern needs a digit. */
  lemma ExtractFileIdMissing(a: string, ws: string, rest: string)
    requires 'f' !in a && IsBlank(ws) && 'f' !in rest
    requires rest == [] || (rest[0] != '-' && !IsDigit(rest[0]) && !IsWhite(rest[0]))
    ensures ExtractFileId(a + FileIdKey + ws + rest) == []
  {
    var s := a + FileIdKey + ws + rest;
    var p := |a|;
    var w := p + 7 + |ws|;
    forall x | 0 <= x <= |s| ensures FileIdAt(s, x).None? {
      if x == p {
        assert s[p..p + 7] == FileIdKey;
        assert forall j :: p + 7 <= j < w ==> s[j] == ws[j - p - 7];
        WhiteRunIs(s, p + 7, |ws|);
        assert w < |s| ==> s[w] == rest[0];
        if w < |s| {
          DigitRunIs(s, w, 0);
        }
      } else if x < p {
        assert s[x] == a[x];
        NoKeyAt(s, x);
      } else if x < p + 7 {
        assert s[x] == FileIdKey[x - p];
        NoKeyAt(s, x);
      } else if x < w {
        assert s[x] == ws[x - p - 7];
        NoKeyAt(s, x);
      } else if x < |s| {
        assert s[x] == rest[x - w];
        NoKeyAt(s, x);
      } else {
        NoKeyAt(s, x);
      }
    }
    ExtractFromNone(s, 0);
  }

  lemma WhiteRunIs(s: string, i: nat, n: nat)
    requires i + n <= |s| && (forall j :: i <= j < i + n ==> IsWhite(s[j])) && (i + n == |s| || !IsWhite(s[i + n]))
    ensures WhiteRun(s, i) == n
    decreases n
  {
    if n > 0 {
      WhiteRunIs(s, i + 1, n - 1);
    }
  }

  lemma DigitRunIs(s: string, i: nat, n: nat)
    requires i + n <= |s| && (forall j :: i <= j < i + n ==> IsDigit(s[j])) && (i + n == |s| || !IsDigit(s[i + n]))
    ensures DigitRun(s, i) == n
    decreases n
  {
    if n > 0 {
      DigitRunIs(s, i + 1, n - 1);
    }
  }

  lemma {:induction false} ExtractFromSkip(s: string, p: nat, q: nat)
    requires p <= q <= |s| && forall x :: p <= x < q ==> FileIdAt(s, x).None?
    ensures ExtractFrom(s, p) == ExtractFrom(s, q)
    decreases q - p
  {
    if p < q {
      ExtractFromSkip(s, p + 1, q);
    }
  }

  /** A parent reference as Unity writes it. */
  lemma ExtractFileIdParent()
    ensures ExtractFileId("m_Father: {fileID: 400}") == "400"
  {
    assert "m_Father: {fileID: 400}" == "m_Father: {" + FileIdKey + " " + "400" + "}";
    ExtractFileIdOf("m_Father: {", " ", "400", "}");
  }

  /** A negative component reference keeps its sign. */
  lemma ExtractFileIdNegative()
    ensures ExtractFileId("- component: {fileID: -7}") == "-7"
  {
    assert "- component: {fileID: -7}" == "- component: {" + FileIdKey + " " + "-7" + "}";
    assert "-7"[1..] == "7";
    ExtractFileIdOf("- component: {", " ", "-7", "}");
  }

  /** A reference with no number gives "". */
  lemma ExtractFileIdEmpty()
    ensures ExtractFileId("m_Father: {fileID: }") == []
  {
    assert "m_Father: {fileID: }" == "m_Father: {" + FileIdKey + " " + "}";
    ExtractFileIdMissing("m_Father: {", " ", "}");
  }

  // ---------------------------------------------------------------------
  // Values

  /** GetValue: the trimmed text after the first ':', or "" when there is none. */
  function GetValue(line: string): (r: string)
    ensures IsTrimmed(r)
    ensures ':' !in line ==> r == []
  {
    var idx := IndexOf(line, ':');
    if idx == -1 then [] else Trim(line[idx + 1..])
  }

  /** The value of `key: value` is the trimmed value, even when the value holds colons. */
  lemma GetValueOf(key: string, v: string)
    requires ':' !in key
    ensures GetValue(key + ":" + v) == Trim(v)
  {
    IndexOfAfter(key, ':', v);
    assert (key + ":" + v)[|key| + 1..] == v;
  }

  /** ShortenVal: at most 20 characters; a longer value keeps 17 and gains "...". */
  function ShortenVal(val: string): (r: string)
    ensures |r| <= 20
    ensures |val| <= 20 ==> r == val
    ensures |val| > 20 ==> |r| == 20 && r[..17] == val[..17] && r[17..] == "..."
  {
    if |val| > 20 then val[..17] + "..." else val
  }

  /** Shortening a shortened value changes nothing. */
  lemma ShortenValIdempotent(val: string)
    ensures ShortenVal(ShortenVal(val)) == ShortenVal(val)
  {
  }

  // ---------------------------------------------------------------------
  // Class ids

  /** The settings objects ParseBlock drops. */
  predicate IsIgnoredClass(classId: string) {
    classId == "157" || classId == "196" || classId == "104" || classId == "29" || classId == "850595691"
  }

  predicate IsTransformClass(classId: string) {
    classId == "4" || classId == "224"
  }

  const ScriptClass: string := "114"

  const FallbackPrefix: string := "Comp#"

  /** GetComponentName: the fixed table, and `Comp#<id>` for any other id. */
  function GetComponentName(classId: string): string {
    match classId
    case "4" => "Transform"
    case "224" => "RectTransform"
    case "20" => "Camera"
    case "81" => "AudioListener"
    case "114" => "Script"
    case "212" => "SpriteRenderer"
    case "23" => "MeshRenderer"
    case "33" => "MeshFilter"
    case "65" => "BoxCollider"
    case "135" => "SphereCollider"
    case "136" => "CapsuleCollider"
    case "64" => "MeshCollider"
    case "50" => "Rigidbody"
    case "54" => "Rigidbody2D"
    case "61" => "BoxCollider2D"
    case "58" => "CircleCollider2D"
    case "223" => "Canvas"
    case "222" => "CanvasRenderer"
    case "108" => "Light"
    case _ => FallbackPrefix + classId
  }

  /** The table read backwards: the reference definition the names are checked against. */
  function ClassIdOfName(name: string): string {
    if StartsWith(name, FallbackPrefix) then name[5..]
    else match name
      case "Transform" => "4"
      case "RectTransform" => "224"
      case "Camera" => "20"
      case "AudioListener" => "81"
      case "Script" => "114"
      case "SpriteRenderer" => "212"
      case "MeshRenderer" => "23"
      case "MeshFilter" => "33"
      case "BoxCollider" => "65"
      case "SphereCollider" => "135"
      case "CapsuleCollider" => "136"
      case "MeshCollider" => "64"
      case "Rigidbody" => "50"
      case "Rigidbody2D" => "54"
      case "BoxCollider2D" => "61"
      case "CircleCollider2D" => "58"
      case "Canvas" => "223"
      case "CanvasRenderer" => "222"
      case "Light" => "108"
      case _ => name
  }

  predicate IsKnownClass(classId: string) {
    classId in ["4", "224", "20", "81", "114", "212", "23", "33", "65", "135", "136", "64", "50", "54", "61", "58", "223", "222", "108"]
  }

  /** Every class id can be read back from its component name. */
  lemma ComponentNameRoundTrip(classId: string)
    ensures ClassIdOfName(GetComponentName(classId)) == classId
  {
    var name := GetComponentName(classId);
    if IsKnownClass(classId) {
      KnownNameRoundTrip(classId);
    } else {
      assert name == FallbackPrefix + classId;
      assert name[..5] == FallbackPrefix;
      assert name[5..] == classId;
    }
  }

  /** The named half of the round trip, split in two so each half stays small. */
  lemma KnownNameRoundTrip(classId: string)
    requires IsKnownClass(classId)
    ensures ClassIdOfName(GetComponentName(classId)) == classId
  {
    KnownNameNotFallback(classId);
    if classId in ["4", "224", "20", "81", "114", "212", "23", "33", "65"] {
      FirstNamesRoundTrip(classId);
    } else if classId in ["135", "136", "64", "50", "54"] {
      MiddleNamesRoundTrip(classId);
    } else {
      LastNamesRoundTrip(classId);
    }
  }

  lemma FirstNamesRoundTrip(classId: string)
    requires classId in ["4", "224", "20", "81", "114", "212", "23", "33", "65"]
    requires !StartsWith(GetComponentName(classId), FallbackPrefix)
    ensures ClassIdOfName(GetComponentName(classId)) == classId
  {
  }

  lemma MiddleNamesRoundTrip(classId: string)
    requires classId in ["135", "136", "64", "50", "54"]
    requires !StartsWith(GetComponentName(classId), FallbackPrefix)
    ensures ClassIdOfName(GetComponentName(classId)) == classId
  {
  }

  lemma LastNamesRoundTrip(classId: string)
    requires classId in ["61", "58", "223", "222", "108"]
    requires !StartsWith(GetComponentName(classId), FallbackPrefix)
    ensures ClassIdOfName(GetComponentName(classId)) == classId
  {
  }

  /** No name in the table starts with the fallback prefix. */
  lemma KnownNameNotFallback(classId: string)
    requires IsKnownClass(classId)
    ensures !StartsWith(GetComponentName(classId), FallbackPrefix)
  {
    var name := GetComponentName(classId);
    if |name| >= 5 {
      assert name[..5][1] == name[1];
      assert name[..5][0] == name[0];
    }
  }

  /** So two different class ids never share a component name. */
  lemma ComponentNameInjective(a: string, b: string)
    requires GetComponentName(a) == GetComponentName(b)
    ensures a == b
  {
    ComponentNameRoundTrip(a);
    ComponentNameRoundTrip(b);
  }
}
