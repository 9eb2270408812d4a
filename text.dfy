/**
 * The .NET string operations the compactors rely on, over seq<char>:
 * Trim, TrimStart, TrimEnd, StartsWith, EndsWith, IndexOf, Split(char),
 * Split on '\r' and '\n' without empty entries, String.Join, ToLower and
 * the decimal rendering of a count.
 */
module Text {

  /** Whitespace as Trim and the regex class \s see it, restricted to ASCII. */
  predicate IsWhite(c: char) {
    c == ' ' || c == '\t' || c == '\n' || c == '\r' || c == '\U{000B}' || c == '\U{000C}'
  }

  predicate IsDigit(c: char) {
    '0' <= c <= '9'
  }

  predicate IsBlank(s: string) {
    forall i :: 0 <= i < |s| ==> IsWhite(s[i])
  }

  /** No whitespace at either end. */
  predicate IsTrimmed(s: string) {
    s == [] || (!IsWhite(s[0]) && !IsWhite(s[|s| - 1]))
  }

  predicate StartsWith(s: string, prefix: string) {
    |prefix| <= |s| && s[..|prefix|] == prefix
  }

  predicate EndsWith(s: string, suffix: string) {
    |suffix| <= |s| && s[|s| - |suffix|..] == suffix
  }

  // ---------------------------------------------------------------------
  // Trimming

  /** The number of whitespace characters at the front of s. */
  function LeadingWhite(s: string): (n: nat)
    ensures n <= |s|
    ensures forall i :: 0 <= i < n ==> IsWhite(s[i])
    ensures n < |s| ==> !IsWhite(s[n])
  {
    if s != [] && IsWhite(s[0]) then 1 + LeadingWhite(s[1..]) else 0
  }

  /** The number of whitespace characters at the back of s. */
  function TrailingWhite(s: string): (n: nat)
    ensures n <= |s|
    ensures forall i :: |s| - n <= i < |s| ==> IsWhite(s[i])
    ensures n < |s| ==> !IsWhite(s[|s| - 1 - n])
  {
    if s != [] && IsWhite(s[|s| - 1]) then 1 + TrailingWhite(s[..|s| - 1]) else 0
  }

  /** String.TrimStart(): the suffix of s after its leading whitespace. */
  function TrimStart(s: string): (r: string)
    ensures |r| <= |s| && r == s[|s| - |r|..]
    ensures IsBlank(s[..|s| - |r|])
    ensures r == [] || !IsWhite(r[0])
  {
    s[LeadingWhite(s)..]
  }

  /** String.TrimEnd(): the prefix of s before its trailing whitespace. */
  function TrimEnd(s: string): (r: string)
    ensures |r| <= |s| && r == s[..|r|]
    ensures IsBlank(s[|r|..])
    ensures r == [] || !IsWhite(r[|r| - 1])
  {
    s[..|s| - TrailingWhite(s)]
  }

  /** String.Trim(). */
  function Trim(s: string): (r: string)
    ensures IsTrimmed(r)
    ensures |r| <= |s|
  {
    TrimEnd(TrimStart(s))
  }

  lemma LeadingWhiteUnique(s: string, n: nat)
    requires n <= |s| && IsBlank(s[..n]) && (n < |s| ==> !IsWhite(s[n]))
    ensures LeadingWhite(s) == n
  {
    assert forall i :: 0 <= i < n ==> s[..n][i] == s[i];
  }

  lemma TrailingWhiteUnique(s: string, n: nat)
    requires n <= |s| && IsBlank(s[|s| - n..]) && (n < |s| ==> !IsWhite(s[|s| - 1 - n]))
    ensures TrailingWhite(s) == n
  {
    assert forall i :: |s| - n <= i < |s| ==> s[|s| - n..][i - (|s| - n)] == s[i];
  }

  /** Trim keeps exactly the text between the leading and the trailing whitespace. */
  lemma TrimSlice(s: string)
    ensures LeadingWhite(s) + |Trim(s)| <= |s|
    ensures Trim(s) == s[LeadingWhite(s)..LeadingWhite(s) + |Trim(s)|]
    ensures IsBlank(s[LeadingWhite(s) + |Trim(s)|..])
  {
    var a := LeadingWhite(s);
    var r := TrimEnd(s[a..]);
    TrimUnfold(s);
    TrimEndOfSuffix(s, a);
    assert Trim(s) == r;
    assert |Trim(s)| == |r|;
  }

  lemma TrimUnfold(s: string)
    ensures Trim(s) == TrimEnd(s[LeadingWhite(s)..])
  {
  }

  lemma TrimEndOfSuffix(s: string, a: nat)
    requires a <= |s|
    ensures a + |TrimEnd(s[a..])| <= |s|
    ensures TrimEnd(s[a..]) == s[a..a + |TrimEnd(s[a..])|]
    ensures IsBlank(s[a + |TrimEnd(s[a..])|..])
  {
    var r := TrimEnd(s[a..]);
    SuffixSlices(s, a, |r|);
  }

  lemma SuffixSlices<T>(s: seq<T>, a: nat, k: nat)
    requires a + k <= |s|
    ensures s[a..][..k] == s[a..a + k] && s[a..][k..] == s[a + k..]
  {
  }

  lemma TrimEmptyIffBlank(s: string)
    ensures Trim(s) == [] <==> IsBlank(s)
  {
    TrimSlice(s);
  }

  /** Trimming text that is already trimmed changes nothing. */
  lemma TrimmedFixed(s: string)
    requires IsTrimmed(s)
    ensures TrimStart(s) == s && TrimEnd(s) == s && Trim(s) == s
  {
    LeadingWhiteUnique(s, 0);
    TrailingWhiteUnique(s, 0);
  }

  lemma TrimIdempotent(s: string)
    ensures Trim(Trim(s)) == Trim(s)
  {
    TrimmedFixed(Trim(s));
  }

  /** Text after a non-blank prefix is left alone by TrimStart. */
  lemma TrimStartAppend(a: string, b: string)
    requires !IsBlank(a)
    ensures TrimStart(a + b) == TrimStart(a) + b
  {
    var n := LeadingWhite(a);
    assert (a + b)[..n] == a[..n];
    LeadingWhiteUnique(a + b, n);
  }

  /** Text before a non-blank suffix is left alone by TrimEnd. */
  lemma TrimEndAppend(a: string, b: string)
    requires !IsBlank(b)
    ensures TrimEnd(a + b) == a + TrimEnd(b)
  {
    var n := TrailingWhite(b);
    var s := a + b;
    assert s[|s| - n..] == b[|b| - n..];
    assert s[|s| - 1 - n] == b[|b| - 1 - n];
    TrailingWhiteUnique(s, n);
  }

  lemma TrimOfTrimStart(s: string)
    ensures Trim(TrimStart(s)) == Trim(s)
  {
    var t := TrimStart(s);
    LeadingWhiteUnique(t, 0);
  }

  /** Blank text after a non-blank last character is exactly what TrimEnd removes. */
  lemma TrimEndBlankSuffix(t: string, w: string)
    requires t == [] || !IsWhite(t[|t| - 1])
    requires IsBlank(w)
    ensures TrimEnd(t + w) == t
  {
    var s := t + w;
    assert s[|s| - |w|..] == w;
    if |w| < |s| {
      assert s[|s| - 1 - |w|] == t[|t| - 1];
    }
    TrailingWhiteUnique(s, |w|);
  }

  lemma TrimOfTrimEnd(s: string)
    ensures Trim(TrimEnd(s)) == Trim(s)
  {
    var e := TrimEnd(s);
    if IsBlank(s) {
      TrimEmptyIffBlank(s);
      assert s[|s| - |s|..] == s;
      TrailingWhiteUnique(s, |s|);
      assert e == [];
    } else {
      // s == e + w with w blank and e ending in a non-blank character
      var w := s[|e|..];
      assert s == e + w;
      assert e != [];
      assert !IsBlank(e) by { assert !IsWhite(e[|e| - 1]); }
      TrimStartAppend(e, w);
      var t := TrimStart(e);
      assert t != [] by { assert !IsBlank(e); }
      assert t == e[|e| - |t|..];
      assert t[|t| - 1] == e[|e| - 1];
      TrimEndBlankSuffix(t, []);
      assert t + [] == t;
      TrimEndBlankSuffix(t, w);
    }
  }

  // ---------------------------------------------------------------------
  // Searching

  /** String.IndexOf(char): the first position of c, or -1. */
  function IndexOf(s: string, c: char): (k: int)
    ensures -1 <= k < |s|
    ensures k == -1 <==> c !in s
    ensures 0 <= k ==> s[k] == c && c !in s[..k]
  {
    if s == [] then -1
    else if s[0] == c then 0
    else
      var k := IndexOf(s[1..], c);
      if k == -1 then -1 else k + 1
  }

  lemma IndexOfAfter(a: string, c: char, b: string)
    requires c !in a
    ensures IndexOf(a + [c] + b, c) == |a|
  {
    var s := a + [c] + b;
    assert s[|a|] == c;
    assert forall i :: 0 <= i < |a| ==> s[i] == a[i];
  }

  // ---------------------------------------------------------------------
  // Lower-casing

  function LowerChar(c: char): char {
    if 'A' <= c <= 'Z' then (c as int + 32) as char else c
  }

  /** ToLower(), on ASCII letters. */
  function Lower(s: string): (r: string)
    ensures |r| == |s|
    ensures forall i :: 0 <= i < |s| ==> r[i] == LowerChar(s[i])
  {
    seq(|s|, i requires 0 <= i < |s| => LowerChar(s[i]))
  }

  // ---------------------------------------------------------------------
  // Splitting and joining

  /** String.Split(char): the pieces between separators, empty ones included. */
  function Split(s: string, sep: char): (parts: seq<string>)
    ensures |parts| >= 1
    ensures forall i :: 0 <= i < |parts| ==> sep !in parts[i]
    decreases |s|
  {
    var k := IndexOf(s, sep);
    if k == -1 then [s] else [s[..k]] + Split(s[k + 1..], sep)
  }

  /** String.Join(sep, parts). */
  function Join(sep: string, parts: seq<string>): string {
    if parts == [] then []
    else if |parts| == 1 then parts[0]
    else parts[0] + sep + Join(sep, parts[1..])
  }

  lemma {:induction false} JoinSnoc(sep: string, parts: seq<string>, x: string)
    ensures Join(sep, parts + [x]) == if parts == [] then x else Join(sep, parts) + sep + x
  {
    if |parts| > 1 {
      assert (parts + [x])[1..] == parts[1..] + [x];
      JoinSnoc(sep, parts[1..], x);
    }
  }

  /** Joining the pieces of a split with the separator gives back the text. */
  lemma {:induction false} JoinSplit(s: string, sep: char)
    ensures Join([sep], Split(s, sep)) == s
    decreases |s|
  {
    var k := IndexOf(s, sep);
    if k != -1 {
      var rest := Split(s[k + 1..], sep);
      JoinSplit(s[k + 1..], sep);
      assert Split(s, sep)[1..] == rest;
      assert s == s[..k] + [sep] + s[k + 1..];
    }
  }

  /** Splitting a join of separator-free pieces gives back the pieces. */
  lemma {:induction false} SplitJoin(parts: seq<string>, sep: char)
    requires |parts| >= 1
    requires forall i :: 0 <= i < |parts| ==> sep !in parts[i]
    ensures Split(Join([sep], parts), sep) == parts
  {
    if |parts| > 1 {
      var s := Join([sep], parts);
      var tail := Join([sep], parts[1..]);
      assert s == parts[0] + [sep] + tail;
      IndexOfAfter(parts[0], sep, tail);
      assert s[..|parts[0]|] == parts[0];
      assert s[|parts[0]| + 1..] == tail;
      SplitJoin(parts[1..], sep);
    }
  }

  predicate IsLineBreak(c: char) {
    c == '\r' || c == '\n'
  }

  predicate HasNoBreak(s: string) {
    forall i :: 0 <= i < |s| ==> !IsLineBreak(s[i])
  }

  /** The position of the first '\r' or '\n', or |s|. */
  function BreakIndex(s: string): (k: nat)
    ensures k <= |s| && HasNoBreak(s[..k])
    ensures k < |s| ==> IsLineBreak(s[k])
  {
    if s == [] || IsLineBreak(s[0]) then 0 else 1 + BreakIndex(s[1..])
  }

  /** Split(new[] { '\r', '\n' }, StringSplitOptions.RemoveEmptyEntries). */
  function NonEmptyLines(s: string): (lines: seq<string>)
    ensures forall i :: 0 <= i < |lines| ==> lines[i] != [] && HasNoBreak(lines[i])
    decreases |s|
  {
    if s == [] then []
    else
      var k := BreakIndex(s);
      (if k > 0 then [s[..k]] else []) + (if k < |s| then NonEmptyLines(s[k + 1..]) else [])
  }

  /** Splitting a newline-join of non-empty, break-free lines gives back the lines. */
  lemma {:induction false} NonEmptyLinesOfJoin(lines: seq<string>)
    requires forall i :: 0 <= i < |lines| ==> lines[i] != [] && HasNoBreak(lines[i])
    ensures NonEmptyLines(Join("\n", lines)) == lines
  {
    if |lines| == 1 {
      var l := lines[0];
      assert BreakIndex(l) == |l|;
      assert l[..|l|] == l;
    } else if |lines| > 1 {
      var l := lines[0];
      var tail := Join("\n", lines[1..]);
      var s := l + "\n" + tail;
      assert Join("\n", lines) == s;
      var k := BreakIndex(s);
      assert s[|l|] == '\n';
      assert forall i :: 0 <= i < |l| ==> s[i] == l[i];
      assert k == |l|;
      assert s[..k] == l;
      assert s[k + 1..] == tail;
      NonEmptyLinesOfJoin(lines[1..]);
    }
  }

  // ---------------------------------------------------------------------
  // Decimal numerals

  function DigitChar(d: nat): (c: char)
    requires d < 10
    ensures IsDigit(c)
  {
    ('0' as int + d) as char
  }

  /** int.ToString() for a non-negative count. */
  function NatToString(n: nat): (s: string)
    ensures s != [] && forall i :: 0 <= i < |s| ==> IsDigit(s[i])
  {
    if n < 10 then [DigitChar(n)] else NatToString(n / 10) + [DigitChar(n % 10)]
  }

  function DigitValue(c: char): nat
    requires IsDigit(c)
  {
    c as int - '0' as int
  }

  /** The value of a decimal numeral: the reference reading of NatToString. */
  function DecimalValue(s: string): nat
    requires forall i :: 0 <= i < |s| ==> IsDigit(s[i])
  {
    if s == [] then 0 else 10 * DecimalValue(s[..|s| - 1]) + DigitValue(s[|s| - 1])
  }

  lemma {:induction false} NatToStringRoundTrip(n: nat)
    ensures DecimalValue(NatToString(n)) == n
  {
    if n >= 10 {
      NatToStringRoundTrip(n / 10);
      var s := NatToString(n);
      assert s[..|s| - 1] == NatToString(n / 10);
    }
  }

  // ---------------------------------------------------------------------
  // Subsequences: what is left when characters are only deleted

  ghost predicate IsSubsequence(a: string, b: string)
    decreases |b|
  {
    a == [] || (b != [] && ((a[0] == b[0] && IsSubsequence(a[1..], b[1..])) || IsSubsequence(a, b[1..])))
  }

  lemma {:induction false} SubsequenceOfSlice(s: string, i: nat, j: nat)
    requires i <= j <= |s|
    ensures IsSubsequence(s[i..j], s)
    decreases |s|
  {
    if i > 0 {
      SubsequenceOfSlice(s[1..], i - 1, j - 1);
      assert s[1..][i - 1..j - 1] == s[i..j];
    } else if j > 0 {
      SubsequenceOfSlice(s[1..], 0, j - 1);
      assert s[1..][..j - 1] == s[i..j][1..];
    }
  }

  /** Concatenation regrouped. */
  lemma AppendAssoc<T>(a: seq<T>, b: seq<T>, c: seq<T>)
    ensures a + b + c == a + (b + c)
  {
  }

  /** Trimming only deletes characters. */
  lemma TrimIsSubsequence(s: string)
    ensures IsSubsequence(Trim(s), s)
  {
    TrimSlice(s);
    var a := LeadingWhite(s);
    SubsequenceOfSlice(s, a, a + |Trim(s)|);
  }

  lemma {:induction false} SubsequencePrepend(a: string, p: string, b: string)
    requires IsSubsequence(a, b)
    ensures IsSubsequence(a, p + b)
    decreases |p|
  {
    if p != [] {
      SubsequencePrepend(a, p[1..], b);
      assert (p + b)[1..] == p[1..] + b;
      if a != [] {
        assert IsSubsequence(a, (p + b)[1..]);
      }
    } else {
      assert p + b == b;
    }
  }

  lemma {:induction false} SubsequenceAppend(a1: string, b1: string, a2: string, b2: string)
    requires IsSubsequence(a1, b1) && IsSubsequence(a2, b2)
    ensures IsSubsequence(a1 + a2, b1 + b2)
    decreases |b1|
  {
    if a1 == [] {
      assert a1 + a2 == a2;
      SubsequencePrepend(a2, b1, b2);
    } else if a1[0] == b1[0] && IsSubsequence(a1[1..], b1[1..]) {
      SubsequenceAppend(a1[1..], b1[1..], a2, b2);
      assert (a1 + a2)[1..] == a1[1..] + a2;
      assert (b1 + b2)[1..] == b1[1..] + b2;
    } else {
      SubsequenceAppend(a1, b1[1..], a2, b2);
      assert (b1 + b2)[1..] == b1[1..] + b2;
    }
  }

  lemma {:induction false} SubsequenceTransitive(a: string, b: string, c: string)
    requires IsSubsequence(a, b) && IsSubsequence(b, c)
    ensures IsSubsequence(a, c)
    decreases |c|
  {
    if a != [] {
      if b[0] == c[0] && IsSubsequence(b[1..], c[1..]) {
        if a[0] == b[0] && IsSubsequence(a[1..], b[1..]) {
          SubsequenceTransitive(a[1..], b[1..], c[1..]);
        } else {
          SubsequenceTransitive(a, b[1..], c[1..]);
        }
      } else {
        SubsequenceTransitive(a, b, c[1..]);
      }
    }
  }

  /** A subsequence holds no character its sequence does not. */
  lemma {:induction false} SubsequenceMembers(a: string, b: string)
    requires IsSubsequence(a, b)
    ensures forall c :: c in a ==> c in b
    decreases |b|
  {
    if a != [] {
      assert forall c :: c in b[1..] ==> c in b;
      if a[0] == b[0] && IsSubsequence(a[1..], b[1..]) {
        SubsequenceMembers(a[1..], b[1..]);
        assert forall c :: c in a ==> c == a[0] || c in a[1..];
      } else {
        SubsequenceMembers(a, b[1..]);
      }
    }
  }
}
