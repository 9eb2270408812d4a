/**
 * The strategy used at compression level Smart (and for prose files at level
 * Maximum): every maximal run of three or more '\n' becomes exactly two, and
 * the result is trimmed.
 */
module SmartCompressionStrategy {
  import opened Text

  /** No three consecutive line feeds. */
  predicate NoTripleBreak(s: string) {
    forall i :: 0 <= i && i + 2 < |s| ==> !(s[i] == '\n' && s[i + 1] == '\n' && s[i + 2] == '\n')
  }

  function Newlines(n: nat): (r: string)
    ensures |r| == n && forall i :: 0 <= i < n ==> r[i] == '\n'
  {
    seq(n, _ => '\n')
  }

  /** The length of the run of '\n' at the front of s. */
  function NewlineRun(s: string): (n: nat)
    ensures n <= |s|
    ensures forall i :: 0 <= i < n ==> s[i] == '\n'
    ensures n < |s| ==> s[n] != '\n'
  {
    if s != [] && s[0] == '\n' then 1 + NewlineRun(s[1..]) else 0
  }

  lemma {:induction false} NewlineRunUnique(s: string, n: nat)
    requires n <= |s| && (forall i :: 0 <= i < n ==> s[i] == '\n') && (n < |s| ==> s[n] != '\n')
    ensures NewlineRun(s) == n
    decreases n
  {
    if n > 0 {
      assert forall i :: 0 <= i < n - 1 ==> s[1..][i] == s[i + 1];
      NewlineRunUnique(s[1..], n - 1);
    }
  }

  lemma NoTripleCons(c: char, t: string)
    requires c != '\n' && NoTripleBreak(t)
    ensures NoTripleBreak([c] + t)
  {
    var s := [c] + t;
    forall i | 1 <= i && i + 2 < |s| ensures !(s[i] == '\n' && s[i + 1] == '\n' && s[i + 2] == '\n') {
      assert s[i] == t[i - 1] && s[i + 1] == t[i] && s[i + 2] == t[i + 1];
    }
  }

  lemma NoTripleShortRun(k: nat, t: string)
    requires k <= 2 && NoTripleBreak(t) && (t == [] || t[0] != '\n')
    ensures NoTripleBreak(Newlines(k) + t)
  {
    var s := Newlines(k) + t;
    forall i | 0 <= i && i + 2 < |s| ensures !(s[i] == '\n' && s[i + 1] == '\n' && s[i + 2] == '\n') {
      if i + 2 < k {
      } else if i < k {
        assert i + 2 >= k && (s[k] == t[0]);
      } else {
        assert s[i] == t[i - k] && s[i + 1] == t[i - k + 1] && s[i + 2] == t[i - k + 2];
      }
    }
  }

  /** Regex.Replace(s, "\n{3,}", "\n\n"): each maximal run of three or more line feeds becomes two. */
  function Collapse(s: string): (r: string)
    ensures |r| <= |s|
    ensures r == [] <==> s == []
    ensures r != [] ==> r[0] == s[0]
    decreases |s|
  {
    if s == [] then []
    else if s[0] != '\n' then [s[0]] + Collapse(s[1..])
    else
      var n := NewlineRun(s);
      (if n >= 3 then "\n\n" else s[..n]) + Collapse(s[n..])
  }

  /** After the replace no run of three line feeds is left. */
  lemma {:induction false} CollapseNoTriple(s: string)
    ensures NoTripleBreak(Collapse(s))
    decreases |s|
  {
    if s != [] {
      if s[0] != '\n' {
        CollapseNoTriple(s[1..]);
        NoTripleCons(s[0], Collapse(s[1..]));
      } else {
        var n := NewlineRun(s);
        var t := Collapse(s[n..]);
        CollapseNoTriple(s[n..]);
        var k := if n >= 3 then 2 else n;
        NoTripleShortRun(k, t);
        assert n < 3 ==> s[..n] == Newlines(n);
      }
    }
  }

  /** SmartCompressionStrategy.Process; the path plays no part. */
  function Process(content: string, filePath: string): (r: string)
    ensures IsTrimmed(r)
    ensures NoTripleBreak(r)
  {
    var c := Collapse(content);
    CollapseNoTriple(content);
    TrimNoTriple(c);
    Trim(c)
  }

  /** Trimming cannot create a run of line feeds. */
  lemma TrimNoTriple(c: string)
    requires NoTripleBreak(c)
    ensures NoTripleBreak(Trim(c))
  {
    TrimSlice(c);
    NoTripleSlice(c, LeadingWhite(c), LeadingWhite(c) + |Trim(c)|);
  }

  lemma NoTripleSlice(s: string, i: nat, j: nat)
    requires i <= j <= |s| && NoTripleBreak(s)
    ensures NoTripleBreak(s[i..j])
  {
    var t := s[i..j];
    forall x | 0 <= x && x + 2 < |t| ensures !(t[x] == '\n' && t[x + 1] == '\n' && t[x + 2] == '\n') {
      assert t[x] == s[i + x] && t[x + 1] == s[i + x + 1] && t[x + 2] == s[i + x + 2];
    }
  }

  /** Text without three consecutive line feeds is left as it is by the replace. */
  lemma {:induction false} CollapseFixed(s: string)
    requires NoTripleBreak(s)
    ensures Collapse(s) == s
    decreases |s|
  {
    if s != [] {
      if s[0] != '\n' {
        NoTripleSlice(s, 1, |s|);
        CollapseFixed(s[1..]);
        assert Collapse(s) == [s[0]] + Collapse(s[1..]);
        assert s == [s[0]] + s[1..];
      } else {
        var n := NewlineRun(s);
        assert |s| >= 3 ==> !(s[0] == '\n' && s[1] == '\n' && s[2] == '\n');
        NoTripleSlice(s, n, |s|);
        CollapseFixed(s[n..]);
        assert Collapse(s) == s[..n] + Collapse(s[n..]);
        assert s == s[..n] + s[n..];
      }
    }
  }

  /** A run of k line feeds followed by something else: only the run is rewritten. */
  lemma CollapseRun(k: nat, b: string)
    requires k >= 1 && (b == [] || b[0] != '\n')
    ensures Collapse(Newlines(k) + b) == (if k >= 3 then "\n\n" else Newlines(k)) + Collapse(b)
  {
    var s := Newlines(k) + b;
    NewlineRunUnique(s, k);
    assert s[..k] == Newlines(k);
    assert s[k..] == b;
  }

  /**
   * The replace works run by run: text cut where a line-feed run does not
   * continue across the cut collapses piece by piece.
   */
  lemma {:induction false} CollapseAppend(a: string, b: string)
    requires a == [] || b == [] || a[|a| - 1] != '\n' || b[0] != '\n'
    ensures Collapse(a + b) == Collapse(a) + Collapse(b)
    decreases |a|, 1
  {
    if a == [] {
      assert a + b == b;
    } else if b == [] {
      assert a + b == a;
    } else if a[0] != '\n' {
      var t := a[1..];
      assert a + b == [a[0]] + (t + b);
      assert a == [a[0]] + t;
      calc {
        Collapse(a + b);
        { CollapseCons(a[0], t + b); }
        [a[0]] + Collapse(t + b);
        { CollapseAppend(t, b); }
        [a[0]] + (Collapse(t) + Collapse(b));
        { AppendAssoc([a[0]], Collapse(t), Collapse(b)); }
        [a[0]] + Collapse(t) + Collapse(b);
        { CollapseCons(a[0], t); }
        Collapse(a) + Collapse(b);
      }
    } else {
      var m := NewlineRun(a);
      var s := a + b;
      var piece := if m >= 3 then "\n\n" else a[..m];
      assert s[..m] == a[..m];
      assert s[m..] == a[m..] + b;
      calc {
        Collapse(s);
        { CollapseRunSplit(s, m); }
        piece + Collapse(a[m..] + b);
        { CollapseRest(a, b, m); }
        piece + (Collapse(a[m..]) + Collapse(b));
        { AppendAssoc(piece, Collapse(a[m..]), Collapse(b)); }
        piece + Collapse(a[m..]) + Collapse(b);
        { CollapseRunSplit(a, m); }
        Collapse(a) + Collapse(b);
      }
    }
  }

  // The step of CollapseAppend after the leading run of a.
  lemma {:induction false} CollapseRest(a: string, b: string, m: nat)
    requires m <= |a| && (a == [] || b == [] || a[|a| - 1] != '\n' || b[0] != '\n')
    requires m > 0
    ensures Collapse(a[m..] + b) == Collapse(a[m..]) + Collapse(b)
    decreases |a| - m, 2
  {
    var r := a[m..];
    if r == [] {
      assert r + b == b;
    } else {
      assert r[|r| - 1] == a[|a| - 1];
      CollapseAppend(r, b);
    }
  }

  /** A character other than a line feed is copied. */
  lemma CollapseCons(c: char, t: string)
    requires c != '\n'
    ensures Collapse([c] + t) == [c] + Collapse(t)
  {
    assert ([c] + t)[1..] == t;
  }

  /** A leading run of m line feeds is rewritten on its own. */
  lemma CollapseRunSplit(s: string, m: nat)
    requires 0 < m <= |s| && (forall i :: 0 <= i < m ==> s[i] == '\n') && (m < |s| ==> s[m] != '\n')
    ensures Collapse(s) == (if m >= 3 then "\n\n" else s[..m]) + Collapse(s[m..])
  {
    NewlineRunUnique(s, m);
  }

  /** The result is the input with characters deleted, never added or changed. */
  lemma {:induction false} CollapseIsSubsequence(s: string)
    ensures IsSubsequence(Collapse(s), s)
    decreases |s|
  {
    if s == [] {
      SubsequenceOfSlice(s, 0, 0);
    } else if s[0] != '\n' {
      CollapseIsSubsequence(s[1..]);
      SubsequenceOfSlice([s[0]], 0, 1);
      SubsequenceAppend([s[0]], [s[0]], Collapse(s[1..]), s[1..]);
      assert [s[0]] + s[1..] == s;
    } else {
      var n := NewlineRun(s);
      CollapseIsSubsequence(s[n..]);
      RunPieceIsSubsequence(s[..n]);
      SubsequenceAppend(if n >= 3 then "\n\n" else s[..n], s[..n], Collapse(s[n..]), s[n..]);
      assert s[..n] + s[n..] == s;
    }
  }

  lemma RunPieceIsSubsequence(run: string)
    requires forall i :: 0 <= i < |run| ==> run[i] == '\n'
    ensures IsSubsequence(if |run| >= 3 then "\n\n" else run, run)
  {
    if |run| >= 3 {
      SubsequenceOfSlice(run, 0, 2);
      assert run[0..2] == "\n\n";
    } else {
      SubsequenceOfSlice(run, 0, |run|);
      assert run[0..|run|] == run;
    }
  }

  lemma ProcessIsSubsequence(content: string, filePath: string)
    ensures IsSubsequence(Process(content, filePath), content)
  {
    var c := Collapse(content);
    var r := Process(content, filePath);
    assert r == Trim(c);
    CollapseIsSubsequence(content);
    TrimIsSubsequence(c);
    SubsequenceTransitive(r, c, content);
  }

  /** Compressing twice gives the same text as compressing once. */
  lemma ProcessIdempotent(content: string, p1: string, p2: string)
    ensures Process(Process(content, p1), p2) == Process(content, p1)
  {
    var r := Process(content, p1);
    CollapseFixed(r);
    TrimmedFixed(r);
  }

  /** Five line feeds between two words become two. */
  lemma ProcessFiveBreaks()
    ensures Process("a\n\n\n\n\nb", "notes.txt") == "a\n\nb"
  {
    var s := "a\n\n\n\n\nb";
    assert s == "a" + (Newlines(5) + "b");
    CollapseAppend("a", Newlines(5) + "b");
    CollapseRun(5, "b");
    assert Collapse("a") == "a";
    assert Collapse("b") == "b";
    var c := Collapse(s);
    assert c == "a\n\nb";
    TrimmedFixed(c);
  }
}
