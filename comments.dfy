// The block-comment remover shared by the C# compactor and the general code
// strategy: Regex.Replace with the non-greedy pattern that runs from an
// opener `/*` to the first closer `*/` after it, replacing each match by
// nothing. Matches are taken left to right; an opener with no closer after
// it stays, together with everything that follows it.
module BlockComments {
  import opened Text

  // A comment opener `/*` starts at position i.
  predicate OpensAt(s: string, i: int) {
    0 <= i && i + 1 < |s| && s[i] == '/' && s[i + 1] == '*'
  }

  // A comment closer `*\/` starts at position i.
  predicate ClosesAt(s: string, i: int) {
    0 <= i && i + 1 < |s| && s[i] == '*' && s[i + 1] == '/'
  }

  predicate NoOpener(s: string) {
    forall i :: 0 <= i < |s| ==> !OpensAt(s, i)
  }

  predicate NoCloser(s: string) {
    forall i :: 0 <= i < |s| ==> !ClosesAt(s, i)
  }

  // The first closer starting at or after `from`, or -1 when there is none.
  function FindClose(s: string, from: nat): (k: int)
    ensures k == -1 || (from <= k && ClosesAt(s, k))
    ensures forall i :: from <= i && (k == -1 || i < k) ==> !ClosesAt(s, i)
    decreases |s| - from
  {
    if from + 1 >= |s| then -1
    else if ClosesAt(s, from) then from
    else FindClose(s, from + 1)
  }

  // Every complete comment removed, scanning left to right.
  function StripBlockComments(s: string): (r: string)
    ensures |r| <= |s|
    decreases |s|
  {
    if |s| < 2 then s
    else if OpensAt(s, 0) then
      var k := FindClose(s, 2);
      if k == -1 then s else StripBlockComments(s[k + 2..])
    else [s[0]] + StripBlockComments(s[1..])
  }

  // Text without an opener passes through unchanged.
  lemma {:induction false} StripWithoutOpener(s: string)
    requires NoOpener(s)
    ensures StripBlockComments(s) == s
    decreases |s|
  {
    if |s| >= 2 {
      assert !OpensAt(s, 0);
      assert NoOpener(s[1..]) by {
        forall i | 0 <= i < |s[1..]| ensures !OpensAt(s[1..], i) {
          assert !OpensAt(s, i + 1);
        }
      }
      StripWithoutOpener(s[1..]);
      assert s == [s[0]] + s[1..];
    }
  }

  // Text without a closer passes through unchanged: no opener in it can be closed.
  lemma {:induction false} StripWithoutCloser(s: string)
    requires NoCloser(s)
    ensures StripBlockComments(s) == s
    decreases |s|
  {
    if |s| >= 2 {
      if OpensAt(s, 0) {
        assert FindClose(s, 2) == -1;
      } else {
        assert NoCloser(s[1..]) by {
          forall i | 0 <= i < |s[1..]| ensures !ClosesAt(s[1..], i) {
            assert !ClosesAt(s, i + 1);
          }
        }
        StripWithoutCloser(s[1..]);
        assert s == [s[0]] + s[1..];
      }
    }
  }

  // Text without an opener, followed by text that does not complete an
  // opener with its last character, is copied and the rest is stripped on
  // its own.
  lemma {:induction false} StripPrefix(a: string, b: string)
    requires NoOpener(a)
    requires !(a != [] && b != [] && a[|a| - 1] == '/' && b[0] == '*')
    ensures StripBlockComments(a + b) == a + StripBlockComments(b)
    decreases |a|
  {
    if a == [] {
      assert a + b == b;
    } else if b == [] {
      assert a + b == a;
      StripWithoutOpener(a);
    } else {
      var s := a + b;
      assert !OpensAt(s, 0) by {
        if |a| >= 2 {
          assert !OpensAt(a, 0);
        }
      }
      NoOpenerTail(a);
      calc {
        StripBlockComments(s);
        { StripStep(s); }
        [s[0]] + StripBlockComments(s[1..]);
        { assert s[1..] == a[1..] + b; }
        [a[0]] + StripBlockComments(a[1..] + b);
        { StripPrefix(a[1..], b); }
        [a[0]] + (a[1..] + StripBlockComments(b));
        { AppendAssoc([a[0]], a[1..], StripBlockComments(b)); assert [a[0]] + a[1..] == a; }
        a + StripBlockComments(b);
      }
    }
  }

  // Past a character that opens no comment, stripping goes on from the next one.
  lemma StripStep(s: string)
    requires |s| >= 2 && !OpensAt(s, 0)
    ensures StripBlockComments(s) == [s[0]] + StripBlockComments(s[1..])
  {
  }

  lemma NoOpenerTail(a: string)
    requires a != [] && NoOpener(a)
    ensures NoOpener(a[1..])
  {
    forall i | 0 <= i < |a[1..]| ensures !OpensAt(a[1..], i) {
      assert !OpensAt(a, i + 1);
    }
  }

  // A complete comment is removed, together with its delimiters.
  lemma StripComment(a: string, m: string, c: string)
    requires NoOpener(a) && NoCloser(m)
    ensures StripBlockComments(a + "/*" + m + "*/" + c) == a + StripBlockComments(c)
  {
    var b := "/*" + m + "*/" + c;
    assert a + "/*" + m + "*/" + c == a + b;
    StripPrefix(a, b);
    var k := FindClose(b, 2);
    assert ClosesAt(b, |m| + 2);
    forall i | 2 <= i < |m| + 2 ensures !ClosesAt(b, i) {
      if i + 1 < |m| + 2 {
        assert b[i] == m[i - 2] && b[i + 1] == m[i - 1];
        assert !ClosesAt(m, i - 2);
      } else {
        assert b[i + 1] == '*';
      }
    }
    assert k == |m| + 2;
    assert b[k + 2..] == c;
  }

  // An opener never closed afterwards stays in the text with all that follows it.
  lemma StripUnclosed(a: string, m: string)
    requires NoOpener(a) && NoCloser(m)
    ensures StripBlockComments(a + "/*" + m) == a + "/*" + m
  {
    var b := "/*" + m;
    assert a + "/*" + m == a + b;
    StripPrefix(a, b);
    forall i | 2 <= i < |b| ensures !ClosesAt(b, i) {
      if i + 1 < |b| {
        assert b[i] == m[i - 2] && b[i + 1] == m[i - 1];
        assert !ClosesAt(m, i - 2);
      }
    }
    assert FindClose(b, 2) == -1;
  }

  // The remover only deletes characters.
  lemma {:induction false} StripIsSubsequence(s: string)
    ensures IsSubsequence(StripBlockComments(s), s)
    decreases |s|
  {
    var r := StripBlockComments(s);
    if |s| < 2 {
      SubsequenceOfSlice(s, 0, |s|);
      assert s[0..|s|] == s;
    } else if OpensAt(s, 0) {
      var k := FindClose(s, 2);
      if k == -1 {
        SubsequenceOfSlice(s, 0, |s|);
        assert s[0..|s|] == s;
      } else {
        StripIsSubsequence(s[k + 2..]);
        SubsequencePrepend(r, s[..k + 2], s[k + 2..]);
        assert s[..k + 2] + s[k + 2..] == s;
      }
    } else {
      StripIsSubsequence(s[1..]);
      SubsequenceAppend([s[0]], [s[0]], StripBlockComments(s[1..]), s[1..]);
      assert [s[0]] + s[1..] == s;
    }
  }

  // Removal is not idempotent: deleting one comment can join a `/` before it
  // and a `*` after it into a new opener, which a second pass removes.
  lemma StripNotIdempotent(x: string, y: string)
    requires NoCloser(x) && '/' !in y
    ensures StripBlockComments("/" + ("/*" + x + "*/" + ("*" + y + "*/"))) == "/*" + y + "*/"
    ensures StripBlockComments("/*" + y + "*/") == []
  {
    StripJoinsOpener(x, y);
    OpenerFree(y);
    assert "/*" + y + "*/" == "/*" + y + "*/" + [];
    StripLeadingComment(y, []);
  }

  // A comment at the very front goes, and stripping goes on after it.
  lemma StripLeadingComment(m: string, c: string)
    requires NoCloser(m)
    ensures StripBlockComments("/*" + m + "*/" + c) == StripBlockComments(c)
  {
    assert [] + "/*" + m + "*/" + c == "/*" + m + "*/" + c;
    StripComment([], m, c);
  }

  // The first pass: the comment goes, and the slash before it meets the star after it.
  lemma StripJoinsOpener(x: string, y: string)
    requires NoCloser(x) && '/' !in y
    ensures StripBlockComments("/" + ("/*" + x + "*/" + ("*" + y + "*/"))) == "/*" + y + "*/"
  {
    var c := "*" + y + "*/";
    var t := "/*" + x + "*/" + c;
    OpenerFree(y);
    calc {
      StripBlockComments("/" + t);
      { assert NoOpener("/"); StripPrefix("/", t); }
      "/" + StripBlockComments(t);
      { StripLeadingComment(x, c); }
      "/" + StripBlockComments(c);
      { StripWithoutOpener(c); }
      "/" + c;
    }
    assert "/" + c == "/*" + y + "*/";
  }

  // Text without a slash has no closer, and none of its own openers when
  // starred on both sides.
  lemma OpenerFree(y: string)
    requires '/' !in y
    ensures NoCloser(y) && NoOpener("*" + y + "*/")
  {
    var c := "*" + y + "*/";
    forall i | 0 <= i < |c| ensures !OpensAt(c, i) {
      if 0 < i <= |y| {
        assert c[i] == y[i - 1];
      }
    }
    forall i | 0 <= i < |y| ensures !ClosesAt(y, i) {
      if i + 1 < |y| {
        assert y[i + 1] in y;
      }
    }
  }
}
