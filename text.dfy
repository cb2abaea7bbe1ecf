/** The small part of Go's `strings` package that the splitter relies on,
    over ASCII text (one `char` per byte, so `|s|` is Go's `len(s)`). */
module Text {

  /** A code-fence marker. */
  const Fence: string := "```"

  /** The pieces of `parts` glued together with nothing in between. */
  function Concat(parts: seq<string>): string
  {
    if |parts| == 0 then "" else parts[0] + Concat(parts[1..])
  }

  /** `strings.Join(parts, "\n")`. */
  function Join(parts: seq<string>): string
  {
    if |parts| == 0 then ""
    else if |parts| == 1 then parts[0]
    else parts[0] + "\n" + Join(parts[1..])
  }

  /** `strings.Index(s, string(c))`: the index of the first `c` in `s`, or
      -1 when there is none. */
  function Index(s: string, c: char): (r: int)
    ensures -1 <= r < |s|
    ensures 0 <= r ==> s[r] == c
    ensures forall k :: 0 <= k < |s| && (r < 0 || k < r) ==> s[k] != c
    decreases |s|
  {
    if |s| == 0 then -1
    else if s[0] == c then 0
    else
      var j := Index(s[1..], c);
      if j < 0 then -1 else j + 1
  }

  /** `strings.Split(s, "\n")`: the text before the first newline, then
      the split of what follows it. It is never empty (`Split("", "\n")` is
      `[""]`), no piece holds a newline, and joining the pieces back with
      newlines gives `s`. */
  function SplitLines(s: string): (r: seq<string>)
    ensures |r| >= 1
    ensures forall k :: 0 <= k < |r| ==> '\n' !in r[k]
    ensures Join(r) == s
    decreases |s|
  {
    var i := Index(s, '\n');
    if i < 0 then [s]
    else
      var rest := SplitLines(s[i + 1..]);
      JoinCons(s[..i], rest);
      assert s == s[..i] + "\n" + s[i + 1..];
      [s[..i]] + rest
  }

  lemma JoinCons(x: string, tail: seq<string>)
    requires |tail| > 0
    ensures Join([x] + tail) == x + "\n" + Join(tail)
  {
    assert ([x] + tail)[1..] == tail;
  }

  /** Text made of spaces and newlines only splits into pieces made of
      spaces only. */
  lemma {:induction false} SplitLinesOfBlank(s: string)
    requires forall j :: 0 <= j < |s| ==> s[j] == ' ' || s[j] == '\n'
    ensures forall k, j :: 0 <= k < |SplitLines(s)| && 0 <= j < |SplitLines(s)[k]| ==> SplitLines(s)[k][j] == ' '
    decreases |s|
  {
    var i := Index(s, '\n');
    var r := SplitLines(s);
    if i >= 0 {
      var t := s[i + 1..];
      var rest := SplitLines(t);
      assert r == [s[..i]] + rest;
      SplitLinesOfBlank(t);
      forall k, j | 0 <= k < |r| && 0 <= j < |r[k]|
        ensures r[k][j] == ' '
      {
        if k == 0 {
          assert r[0][j] == s[j];
        } else {
          assert r[k] == rest[k - 1];
        }
      }
    } else {
      assert r == [s];
    }
  }

  /** `strings.TrimRight(s, " ")`: the longest prefix of `s` that does not
      end in a space; what is cut off is spaces only. */
  function TrimRight(s: string): (r: string)
    ensures r <= s
    ensures |r| == 0 || r[|r| - 1] != ' '
    ensures forall k :: |r| <= k < |s| ==> s[k] == ' '
    decreases |s|
  {
    if |s| > 0 && s[|s| - 1] == ' ' then TrimRight(s[..|s| - 1]) else s
  }

  /** `strings.LastIndex(s, string(c))`: the index of the last `c` in `s`,
      or -1 when there is none. */
  function LastIndex(s: string, c: char): (r: int)
    ensures -1 <= r < |s|
    ensures 0 <= r ==> s[r] == c
    ensures forall k :: r < k < |s| ==> s[k] != c
    decreases |s|
  {
    if |s| == 0 then -1
    else if s[|s| - 1] == c then |s| - 1
    else LastIndex(s[..|s| - 1], c)
  }

  lemma {:induction false} JoinSnoc(parts: seq<string>, x: string)
    ensures Join(parts + [x]) == if |parts| == 0 then x else Join(parts) + "\n" + x
    decreases |parts|
  {
    if |parts| == 0 {
      assert parts + [x] == [x];
    } else if |parts| == 1 {
      assert parts + [x] == [parts[0], x];
      assert [parts[0], x][1..] == [x];
    } else {
      assert (parts + [x])[1..] == parts[1..] + [x];
      JoinSnoc(parts[1..], x);
    }
  }

  lemma {:induction false} ConcatAppend(a: seq<string>, b: seq<string>)
    ensures Concat(a + b) == Concat(a) + Concat(b)
    decreases |a|
  {
    if |a| == 0 {
      assert a + b == b;
    } else {
      assert (a + b)[1..] == a[1..] + b;
      ConcatAppend(a[1..], b);
    }
  }

  lemma SplitLinesLine(x: string, rest: string)
    requires '\n' !in x
    ensures SplitLines(x + "\n" + rest) == [x] + SplitLines(rest)
  {
    var s := x + "\n" + rest;
    assert s[|x|] == '\n';
    assert forall k :: 0 <= k < |x| ==> s[k] == x[k];
    assert Index(s, '\n') == |x|;
    assert s[..|x|] == x && s[|x| + 1..] == rest;
  }

  /** Splitting undoes joining when no piece holds a newline: together with
      the `ensures Join(r) == s` of `SplitLines`, the two are inverses. */
  lemma {:induction false} SplitJoin(parts: seq<string>)
    requires |parts| >= 1
    requires forall k :: 0 <= k < |parts| ==> '\n' !in parts[k]
    ensures SplitLines(Join(parts)) == parts
    decreases |parts|
  {
    if |parts| == 1 {
      assert Index(parts[0], '\n') < 0;
    } else {
      SplitJoin(parts[1..]);
      SplitLinesLine(parts[0], Join(parts[1..]));
      assert [parts[0]] + parts[1..] == parts;
    }
  }
}
