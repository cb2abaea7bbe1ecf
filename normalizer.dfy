/** The fence normalizer, `normalizeBackticks`: Go's
    `regexp.MustCompile(".{0,1}```.{0,1}").ReplaceAllStringFunc` written out
    as the leftmost scan that the regular expression performs. Go's `.` never
    matches a newline, and `.{0,1}` is greedy. */
module Normalizer {
  import opened Text

  /** A fence marker occupies `t[k..k + 3]`. */
  predicate FenceAt(t: string, k: int)
  {
    0 <= k && k + 3 <= |t| && t[k] == '`' && t[k + 1] == '`' && t[k + 2] == '`'
  }

  /** How many characters the trailing `.{0,1}` takes from `t`. */
  function OptionalChar(t: string): nat
  {
    if |t| > 0 && t[0] != '\n' then 1 else 0
  }

  /** The shapes a match of `.{0,1}```.{0,1}` can have: an optional
      non-newline, the marker, an optional non-newline. */
  predicate IsMatch(m: string)
  {
    (|m| == 3 && FenceAt(m, 0))
    || (|m| == 4 && FenceAt(m, 0) && m[3] != '\n')
    || (|m| == 4 && m[0] != '\n' && FenceAt(m, 1))
    || (|m| == 5 && m[0] != '\n' && FenceAt(m, 1) && m[4] != '\n')
  }

  /** Length of the match that starts at the front of `s`, or 0 when none
      does. The leading `.` is tried first; without it the marker must sit
      at the front. */
  function MatchAt(s: string): (n: nat)
    ensures n == 0 || (n <= |s| && IsMatch(s[..n]))
    ensures n == 0 <==> !FenceAt(s, 0) && !(|s| >= 4 && s[0] != '\n' && FenceAt(s, 1))
    ensures forall k :: n < k <= |s| ==> !IsMatch(s[..k])
  {
    if |s| >= 4 && s[0] != '\n' && FenceAt(s, 1) then 4 + OptionalChar(s[4..])
    else if FenceAt(s, 0) then 3 + OptionalChar(s[3..])
    else 0
  }

  /** The replacement callback applied to each match. */
  function Rewrite(m: string): (r: string)
    requires |m| >= 1
    ensures |r| >= 1 && r[0] == m[0] && r[|r| - 1] == m[|m| - 1]
  {
    if m == "\n```\n" then m
    else if multiset(m)['`'] != 3 then m
    else
      var leading :=
        if m[0] == '`' then ""
        else if m[0] != '\n' then [m[0], '\n']
        else [m[0]];
      var trailing :=
        if m[|m| - 1] == '`' then ""
        else if m[|m| - 1] != '\n' then ['\n', m[|m| - 1]]
        else [m[|m| - 1]];
      var r := leading + Fence + trailing;
      assert r[0] == (if |leading| > 0 then leading[0] else '`');
      assert r[|r| - 1] == (if |trailing| > 0 then trailing[|trailing| - 1] else '`');
      r
  }

  /** `normalizeBackticks(s)`. */
  function Normalize(s: string): (r: string)
    ensures |r| == 0 <==> |s| == 0
    ensures |s| > 0 ==> r[0] == s[0]
    decreases |s|
  {
    if |s| == 0 then ""
    else
      var n := MatchAt(s);
      if n == 0 then [s[0]] + Normalize(s[1..])
      else Rewrite(s[..n]) + Normalize(s[n..])
  }

  /** The characters of `out` at the positions `marks` leaves unflagged. */
  function Kept(out: string, marks: seq<bool>): string
    requires |marks| == |out|
  {
    if |out| == 0 then "" else (if marks[0] then "" else [out[0]]) + Kept(out[1..], marks[1..])
  }

  /** `out` is `original` with newlines inserted at the flagged positions,
      and every inserted newline sits between two characters neither of
      which is a newline. */
  ghost predicate InsertedNewlines(out: string, original: string, marks: seq<bool>)
  {
    |marks| == |out| && Kept(out, marks) == original &&
    forall j :: 0 <= j < |out| && marks[j] ==>
      out[j] == '\n' && 0 < j < |out| - 1 && out[j - 1] != '\n' && out[j + 1] != '\n'
  }

  lemma {:induction false} KeptAppend(a: string, ma: seq<bool>, b: string, mb: seq<bool>)
    requires |ma| == |a| && |mb| == |b|
    ensures Kept(a + b, ma + mb) == Kept(a, ma) + Kept(b, mb)
    decreases |a|
  {
    if |a| == 0 {
      assert a + b == b && ma + mb == mb;
    } else {
      assert (a + b)[1..] == a[1..] + b && (ma + mb)[1..] == ma[1..] + mb;
      KeptAppend(a[1..], ma[1..], b, mb);
    }
  }

  lemma {:induction false} KeptNone(a: string, marks: seq<bool>)
    requires |marks| == |a| && forall j :: 0 <= j < |marks| ==> !marks[j]
    ensures Kept(a, marks) == a
    decreases |a|
  {
    if |a| > 0 {
      KeptNone(a[1..], marks[1..]);
    }
  }

  lemma InsertedNewlinesAppend(a: string, a0: string, ma: seq<bool>, b: string, b0: string, mb: seq<bool>)
    requires InsertedNewlines(a, a0, ma) && InsertedNewlines(b, b0, mb)
    ensures InsertedNewlines(a + b, a0 + b0, ma + mb)
  {
    KeptAppend(a, ma, b, mb);
    var out, marks := a + b, ma + mb;
    forall j | 0 <= j < |out| && marks[j]
      ensures out[j] == '\n' && 0 < j < |out| - 1 && out[j - 1] != '\n' && out[j + 1] != '\n'
    {
      if j < |a| {
        assert ma[j];
      } else {
        assert mb[j - |a|];
      }
    }
  }

  /** The three pieces a rewritten match is made of, each with its marks. */
  lemma KeptPieces(c: char, d: char)
    ensures Kept(Fence, [false, false, false]) == Fence
    ensures Kept([c, '\n'], [false, true]) == [c]
    ensures Kept(['\n', d], [true, false]) == [d]
  {
    assert Kept(['\n'], [true]) == "";
    assert Kept([d], [false]) == [d];
    assert [c, '\n'][1..] == ['\n'] && ['\n', d][1..] == [d];
  }

  lemma InsertedNewlinesUnchanged(m: string) returns (marks: seq<bool>)
    ensures InsertedNewlines(m, m, marks)
  {
    marks := seq(|m|, j => false);
    KeptNone(m, marks);
  }

  /** The rewritten match when it carries a character on the left only. */
  lemma RewriteLeft(c: char) returns (marks: seq<bool>)
    requires c != '\n' && c != '`'
    ensures Rewrite([c] + Fence) == [c, '\n'] + Fence
    ensures InsertedNewlines([c, '\n'] + Fence, [c] + Fence, marks)
  {
    RewriteLeftValue(c);
    marks := LeftMarks(c);
  }

  lemma RewriteLeftValue(c: char)
    requires c != '\n' && c != '`'
    ensures Rewrite([c] + Fence) == [c, '\n'] + Fence
  {
    var m := [c] + Fence;
    assert |m| == 4 && m[0] == c && m[3] == '`';
    assert multiset(m) == multiset([c]) + multiset(Fence);
    assert multiset(m)['`'] == 3;
  }

  lemma LeftMarks(c: char) returns (marks: seq<bool>)
    requires c != '\n' && c != '`'
    ensures InsertedNewlines([c, '\n'] + Fence, [c] + Fence, marks)
  {
    var out := [c, '\n'] + Fence;
    marks := [false, true] + [false, false, false];
    KeptPieces(c, c);
    KeptAppend([c, '\n'], [false, true], Fence, [false, false, false]);
    forall j | 0 <= j < |out| && marks[j]
      ensures out[j] == '\n' && 0 < j < |out| - 1 && out[j - 1] != '\n' && out[j + 1] != '\n'
    {
      assert j == 1;
    }
  }

  /** The rewritten match when it carries a character on the right only. */
  lemma RewriteRight(d: char) returns (marks: seq<bool>)
    requires d != '\n' && d != '`'
    ensures Rewrite(Fence + [d]) == Fence + ['\n', d]
    ensures InsertedNewlines(Fence + ['\n', d], Fence + [d], marks)
  {
    RewriteRightValue(d);
    marks := RightMarks(d);
  }

  lemma RewriteRightValue(d: char)
    requires d != '\n' && d != '`'
    ensures Rewrite(Fence + [d]) == Fence + ['\n', d]
  {
    var m := Fence + [d];
    assert |m| == 4 && m[0] == '`' && m[3] == d;
    assert multiset(m) == multiset(Fence) + multiset([d]);
    assert multiset(m)['`'] == 3;
  }

  lemma RightMarks(d: char) returns (marks: seq<bool>)
    requires d != '\n' && d != '`'
    ensures InsertedNewlines(Fence + ['\n', d], Fence + [d], marks)
  {
    var out := Fence + ['\n', d];
    marks := [false, false, false] + [true, false];
    KeptPieces(d, d);
    KeptAppend(Fence, [false, false, false], ['\n', d], [true, false]);
    forall j | 0 <= j < |out| && marks[j]
      ensures out[j] == '\n' && 0 < j < |out| - 1 && out[j - 1] != '\n' && out[j + 1] != '\n'
    {
      assert j == 3;
    }
  }

  /** The rewritten match when it carries a character on both sides. */
  lemma RewriteBoth(c: char, d: char) returns (marks: seq<bool>)
    requires c != '\n' && c != '`' && d != '\n' && d != '`'
    ensures Rewrite([c] + Fence + [d]) == [c, '\n'] + Fence + ['\n', d]
    ensures InsertedNewlines([c, '\n'] + Fence + ['\n', d], [c] + Fence + [d], marks)
  {
    RewriteBothValue(c, d);
    marks := BothMarks(c, d);
  }

  lemma RewriteBothValue(c: char, d: char)
    requires c != '\n' && c != '`' && d != '\n' && d != '`'
    ensures Rewrite([c] + Fence + [d]) == [c, '\n'] + Fence + ['\n', d]
  {
    var m := [c] + Fence + [d];
    assert |m| == 5 && m[0] == c && m[4] == d;
    assert multiset(m) == multiset([c]) + multiset(Fence) + multiset([d]);
    assert multiset(m)['`'] == 3;
    assert m != "\n```\n";
  }

  lemma BothMarks(c: char, d: char) returns (marks: seq<bool>)
    requires c != '\n' && c != '`' && d != '\n' && d != '`'
    ensures InsertedNewlines([c, '\n'] + Fence + ['\n', d], [c] + Fence + [d], marks)
  {
    var out := [c, '\n'] + Fence + ['\n', d];
    marks := [false, true] + [false, false, false] + [true, false];
    KeptPieces(c, d);
    KeptAppend([c, '\n'], [false, true], Fence, [false, false, false]);
    KeptAppend([c, '\n'] + Fence, [false, true] + [false, false, false], ['\n', d], [true, false]);
    forall j | 0 <= j < |out| && marks[j]
      ensures out[j] == '\n' && 0 < j < |out| - 1 && out[j - 1] != '\n' && out[j + 1] != '\n'
    {
      assert j == 1 || j == 5;
    }
  }

  /** One match gains at most two characters, and only newlines that do
      not touch another newline. */
  lemma RewriteInsertsAtMostTwo(m: string)
    requires IsMatch(m)
    ensures |m| <= |Rewrite(m)| <= |m| + 2
    ensures exists marks :: InsertedNewlines(Rewrite(m), m, marks)
  {
    var marks := RewriteMarks(m);
  }

  lemma RewriteMarks(m: string) returns (marks: seq<bool>)
    requires IsMatch(m)
    ensures |m| <= |Rewrite(m)| <= |m| + 2
    ensures InsertedNewlines(Rewrite(m), m, marks)
  {
    if |m| == 3 {
      marks := RewriteBare(m);
    } else if |m| == 4 && FenceAt(m, 0) {
      marks := RewriteFenceFirst(m);
    } else if |m| == 4 {
      marks := RewriteFenceLast(m);
    } else {
      marks := RewriteFenceMiddle(m);
    }
  }

  lemma RewriteBare(m: string) returns (marks: seq<bool>)
    requires |m| == 3 && FenceAt(m, 0)
    ensures Rewrite(m) == m && InsertedNewlines(m, m, marks)
  {
    assert m == Fence;
    assert multiset(m)['`'] == 3;
    marks := InsertedNewlinesUnchanged(m);
  }

  lemma RewriteFenceFirst(m: string) returns (marks: seq<bool>)
    requires |m| == 4 && FenceAt(m, 0) && m[3] != '\n'
    ensures |m| <= |Rewrite(m)| <= |m| + 2
    ensures InsertedNewlines(Rewrite(m), m, marks)
  {
    var d := m[3];
    assert m == Fence + [d];
    if d == '`' {
      assert multiset(m) == multiset(Fence) + multiset([d]);
      assert multiset(m)['`'] == 4;
      marks := InsertedNewlinesUnchanged(m);
    } else {
      marks := RewriteRight(d);
    }
  }

  lemma RewriteFenceLast(m: string) returns (marks: seq<bool>)
    requires |m| == 4 && m[0] != '\n' && FenceAt(m, 1)
    ensures |m| <= |Rewrite(m)| <= |m| + 2
    ensures InsertedNewlines(Rewrite(m), m, marks)
  {
    var c := m[0];
    assert m == [c] + Fence;
    if c == '`' {
      assert multiset(m) == multiset([c]) + multiset(Fence);
      assert multiset(m)['`'] == 4;
      marks := InsertedNewlinesUnchanged(m);
    } else {
      marks := RewriteLeft(c);
    }
  }

  lemma RewriteFenceMiddle(m: string) returns (marks: seq<bool>)
    requires |m| == 5 && m[0] != '\n' && FenceAt(m, 1) && m[4] != '\n'
    ensures |m| <= |Rewrite(m)| <= |m| + 2
    ensures InsertedNewlines(Rewrite(m), m, marks)
  {
    var c, d := m[0], m[4];
    assert m == [c] + Fence + [d];
    if c == '`' || d == '`' {
      assert multiset(m) == multiset([c]) + multiset(Fence) + multiset([d]);
      assert multiset(m)['`'] > 3;
      marks := InsertedNewlinesUnchanged(m);
    } else {
      marks := RewriteBoth(c, d);
    }
  }

  lemma {:induction false} NormalizeMarks(s: string) returns (marks: seq<bool>)
    ensures InsertedNewlines(Normalize(s), s, marks)
    decreases |s|
  {
    if |s| == 0 {
      marks := [];
      return;
    }
    var n := MatchAt(s);
    if n == 0 {
      var rest := NormalizeMarks(s[1..]);
      marks := [false] + rest;
      assert InsertedNewlines([s[0]], [s[0]], [false]);
      InsertedNewlinesAppend([s[0]], [s[0]], [false], Normalize(s[1..]), s[1..], rest);
      assert [s[0]] + s[1..] == s;
    } else {
      var head := RewriteMarks(s[..n]);
      var rest := NormalizeMarks(s[n..]);
      marks := head + rest;
      InsertedNewlinesAppend(Rewrite(s[..n]), s[..n], head, Normalize(s[n..]), s[n..], rest);
      assert s[..n] + s[n..] == s;
    }
  }

  lemma {:induction false} KeptShorter(out: string, marks: seq<bool>)
    requires |marks| == |out|
    ensures |Kept(out, marks)| <= |out|
    decreases |out|
  {
    if |out| > 0 {
      KeptShorter(out[1..], marks[1..]);
    }
  }

  /** The normalizer only inserts newlines, and never next to a newline:
      deleting the inserted characters gives back the input. */
  lemma NormalizeOnlyInsertsNewlines(s: string)
    ensures |s| <= |Normalize(s)|
    ensures exists marks :: InsertedNewlines(Normalize(s), s, marks)
  {
    var marks := NormalizeMarks(s);
    KeptShorter(Normalize(s), marks);
  }

  /** Text with no fence marker in it comes back unchanged. */
  lemma {:induction false} NoMarkerUnchanged(s: string)
    requires forall k :: 0 <= k < |s| ==> !FenceAt(s, k)
    ensures Normalize(s) == s
    decreases |s|
  {
    if |s| > 0 {
      assert !FenceAt(s, 0) && !FenceAt(s, 1);
      forall k | 0 <= k < |s[1..]|
        ensures !FenceAt(s[1..], k)
      {
        assert !FenceAt(s, k + 1);
      }
      NoMarkerUnchanged(s[1..]);
    }
  }

  /** No match starts with a newline, since `.` does not match one, so the
      callback's first rule, which keeps "\n```\n" as it is, never fires. */
  lemma IsolatedRuleUnreachable(m: string)
    requires IsMatch(m)
    ensures m != "\n```\n"
  {
    if |m| == 5 {
      assert m[0] != '\n';
    }
  }

  /** A marker glued to letters on both sides gets a newline on each side. */
  lemma ExampleBothSides()
    ensures Normalize("a```b") == "a\n```\nb"
  {
    var s := "a```b";
    assert MatchAt(s) == 5;
    assert s[..5] == [s[0]] + Fence + [s[4]] && s[5..] == "";
    RewriteBothValue('a', 'b');
  }

  /** Four backticks in a row are left alone. */
  lemma ExampleFourBackticks()
    ensures Normalize("a````b") == "a````b"
  {
    var s := "a````b";
    assert MatchAt(s) == 5;
    assert s[..5] == "a````" && s[5..] == "b";
    assert multiset("a````")['`'] == 4;
    assert MatchAt("b") == 0;
  }

  /** An already isolated marker is left alone. */
  lemma ExampleIsolated()
    ensures Normalize("\n```\n") == "\n```\n"
  {
    var s := "\n```\n";
    assert MatchAt(s) == 0;
    var t := s[1..];
    assert t == "```\n";
    assert MatchAt(t) == 3;
    assert t[..3] == Fence && t[3..] == "\n";
    assert multiset(Fence)['`'] == 3;
    assert Rewrite(Fence) == Fence;
    assert MatchAt("\n") == 0;
  }

  /** A bare marker at the end of the text is left alone. */
  lemma ExampleBareMarker()
    ensures Normalize(Fence) == Fence
  {
    assert MatchAt(Fence) == 3;
    assert Fence[..3] == Fence && Fence[3..] == "";
    RewriteFence();
  }

  /** Normalizing twice differs from normalizing once: the marker at the end
      of "```x```" is glued to `x` only after the first pass has separated
      the first marker from `x`. */
  lemma NotIdempotent()
    ensures Normalize("```x```") == "```\nx```"
    ensures Normalize("```\nx```") == "```\nx\n```"
  {
    FirstPass();
    SecondPass();
  }

  lemma FirstPass()
    ensures Normalize("```x```") == "```\nx```"
  {
    FirstPassSplit();
    FirstPassPieces();
  }

  lemma FirstPassPieces()
    ensures Rewrite(Fence + ['x']) + Normalize(Fence) == "```\nx```"
  {
    RewriteRightValue('x');
    ExampleBareMarker();
    FirstPassText();
  }

  lemma FirstPassText()
    ensures Fence + ['\n', 'x'] + Fence == "```\nx```"
  {
    assert Fence + ['\n', 'x'] == "```\nx";
  }

  lemma FirstPassSplit()
    ensures Normalize("```x```") == Rewrite(Fence + ['x']) + Normalize(Fence)
  {
    var s := "```x```";
    assert MatchAt(s) == 4;
    assert s[..4] == Fence + ['x'];
    assert s[4..] == Fence;
  }

  lemma SecondPass()
    ensures Normalize("```\nx```") == "```\nx\n```"
  {
    SecondPassHead();
    SecondPassTail();
    SecondPassText();
  }

  lemma SecondPassHead()
    ensures Normalize("```\nx```") == Fence + Normalize("\nx```")
  {
    var t := "```\nx```";
    assert t[..3] == Fence && t[3..] == "\nx```";
    assert t[3] == '\n' && !FenceAt(t, 1);
    assert OptionalChar(t[3..]) == 0;
    assert MatchAt(t) == 3;
    RewriteFence();
  }

  lemma RewriteFence()
    ensures Rewrite(Fence) == Fence
  {
    assert multiset(Fence)['`'] == 3;
    assert "" + Fence + "" == Fence;
  }

  lemma SecondPassTail()
    ensures Normalize("\nx```") == ['\n'] + (['x', '\n'] + Fence)
  {
    var u := "\nx```";
    assert MatchAt(u) == 0;
    assert u[1..] == "x```";
    var v := "x```";
    assert MatchAt(v) == 4;
    assert v[..4] == ['x'] + Fence && v[4..] == "";
    RewriteLeftValue('x');
  }

  lemma SecondPassText()
    ensures Fence + (['\n'] + (['x', '\n'] + Fence)) == "```\nx\n```"
  {
    assert ['\n'] + (['x', '\n'] + Fence) == "\nx\n```";
  }
}
