/** The long-line pre-splitter, `splitLongLine`: one line is cut into
    pieces of at most `maxLen` bytes, at the last space that leaves a piece
    of at least `minLen` bytes, or hard at `maxLen` when there is no such
    space. */
module LongLines {
  import opened Text

  /** Where the first piece of `input` ends: at the last space of
      `input[..end]` when its index is at least `minLen`, else at `end`,
      where `end` is `maxLen` capped by the length of `input`. */
  function CutPoint(input: string, maxLen: int, minLen: int): (at: nat)
    requires 1 <= minLen <= maxLen && minLen <= |input|
    ensures minLen <= at <= |input| && at <= maxLen
  {
    var end := if maxLen > |input| then |input| else maxLen;
    var splitAt := LastIndex(input[..end], ' ');
    if splitAt < minLen then end else splitAt
  }

  /** The pieces `splitLongLine` returns, in order. */
  function Presplit(input: string, maxLen: int, minLen: int): (r: seq<string>)
    requires 1 <= minLen <= maxLen
    ensures |input| > 0 ==> 0 < |r|
    ensures |r| <= |input|
    decreases |input|
  {
    if |input| == 0 then []
    else if |input| < minLen then [input]
    else
      var at := CutPoint(input, maxLen, minLen);
      [input[..at]] + Presplit(input[at..], maxLen, minLen)
  }

  /** Gluing the pieces back together gives the input exactly. */
  lemma {:induction false} PresplitRoundTrip(input: string, maxLen: int, minLen: int)
    requires 1 <= minLen <= maxLen
    ensures Concat(Presplit(input, maxLen, minLen)) == input
    decreases |input|
  {
    if |input| >= minLen {
      var at := CutPoint(input, maxLen, minLen);
      PresplitRoundTrip(input[at..], maxLen, minLen);
      assert ([input[..at]] + Presplit(input[at..], maxLen, minLen))[1..] == Presplit(input[at..], maxLen, minLen);
      assert input[..at] + input[at..] == input;
    }
  }

  /** Empty input gives no pieces; input shorter than `minLen` comes back
      as one piece; every piece is non-empty and at most `maxLen` long, and
      every piece but the last is at least `minLen` long. */
  lemma {:induction false} PresplitBounds(input: string, maxLen: int, minLen: int)
    requires 1 <= minLen <= maxLen
    ensures var r := Presplit(input, maxLen, minLen);
      (|input| == 0 <==> r == []) &&
      (0 < |input| < minLen ==> r == [input]) &&
      (forall k :: 0 <= k < |r| ==> 0 < |r[k]| <= maxLen) &&
      (forall k :: 0 <= k < |r| - 1 ==> minLen <= |r[k]|)
    decreases |input|
  {
    if |input| >= minLen {
      var at := CutPoint(input, maxLen, minLen);
      PresplitBounds(input[at..], maxLen, minLen);
      var r := Presplit(input, maxLen, minLen);
      assert r[1..] == Presplit(input[at..], maxLen, minLen);
      forall k | 0 <= k < |r|
        ensures 0 < |r[k]| <= maxLen && (k < |r| - 1 ==> minLen <= |r[k]|)
      {
        if k > 0 {
          assert r[k] == r[1..][k - 1];
        }
      }
    }
  }

  /** Where a piece ends: when the input is at least `minLen` long, the
      first piece stops either just before a space at index `minLen` or
      later, with no space after it inside the first `maxLen` bytes, and
      that space opens the next piece; or it is `min(maxLen, |input|)` long
      and no space lies at index `minLen` or beyond inside that window. */
  lemma PresplitCut(input: string, maxLen: int, minLen: int)
    requires 1 <= minLen <= maxLen && minLen <= |input|
    ensures var r := Presplit(input, maxLen, minLen);
      var end := if maxLen < |input| then maxLen else |input|;
      var p := r[0];
      |r| >= 1 && p <= input &&
      ((|p| == end && forall j :: minLen <= j < end ==> input[j] != ' ') ||
       (minLen <= |p| < end && input[|p|] == ' ' && |r| >= 2 && |r[1]| > 0 && r[1][0] == ' ' &&
        forall j :: |p| < j < end ==> input[j] != ' '))
  {
    var at := CutPoint(input, maxLen, minLen);
    var r := Presplit(input, maxLen, minLen);
    var end := if maxLen < |input| then maxLen else |input|;
    var w := input[..end];
    var splitAt := LastIndex(w, ' ');
    assert r[0] == input[..at];
    if splitAt >= minLen {
      assert at == splitAt < end;
      var rest := input[at..];
      assert w[at] == ' ';
      RestOpensWithSpace(input, at);
      assert r[1..] == Presplit(rest, maxLen, minLen);
      PresplitBounds(rest, maxLen, minLen);
      assert r[1] == Presplit(rest, maxLen, minLen)[0];
      if |rest| >= minLen {
        assert r[1] == rest[..CutPoint(rest, maxLen, minLen)];
      }
      forall j | at < j < end
        ensures input[j] != ' '
      {
        assert w[j] == input[j];
      }
    } else {
      forall j | minLen <= j < end
        ensures input[j] != ' '
      {
        assert w[j] == input[j];
      }
    }
  }

  lemma RestOpensWithSpace(input: string, at: nat)
    requires at < |input| && input[at] == ' '
    ensures |input[at..]| >= 1 && input[at..][0] == ' '
  {
  }

  /** `splitLongLine(input)`, with the budget `maxLen` as a parameter and
      `minLen` derived from it as the source does (`0.5 * maxLen`, rounded
      down). */
  method SplitLongLine(input: string, maxLen: int) returns (result: seq<string>)
    requires maxLen >= 2
    ensures result == Presplit(input, maxLen, maxLen / 2)
    ensures Concat(result) == input
    ensures forall k :: 0 <= k < |result| ==> 0 < |result[k]| <= maxLen
    ensures forall k :: 0 <= k < |result| - 1 ==> maxLen / 2 <= |result[k]|
  {
    result := [];
    var minLen := maxLen / 2;
    var rest := input;
    var length := |rest|;
    while length > 0
      invariant length == |rest|
      invariant result + Presplit(rest, maxLen, minLen) == Presplit(input, maxLen, minLen)
      decreases length
    {
      if length < minLen {
        result := result + [rest];
        break;
      }
      var end := maxLen;
      if end > length {
        end := length;
      }
      var splitAt := LastIndex(rest[..end], ' ');
      if splitAt < minLen {
        splitAt := end;
      }
      assert splitAt == CutPoint(rest, maxLen, minLen);
      PresplitStep(result, rest, maxLen, minLen);
      result := result + [rest[..splitAt]];
      rest := rest[splitAt..];
      length := |rest|;
    }
    PresplitRoundTrip(input, maxLen, minLen);
    PresplitBounds(input, maxLen, minLen);
  }

  /** One pass of the loop in `SplitLongLine`: the piece it appends is the
      first piece of what is left. */
  lemma PresplitStep(done: seq<string>, rest: string, maxLen: int, minLen: int)
    requires 1 <= minLen <= maxLen && minLen <= |rest|
    ensures var at := CutPoint(rest, maxLen, minLen);
      done + Presplit(rest, maxLen, minLen) == (done + [rest[..at]]) + Presplit(rest[at..], maxLen, minLen)
  {
    var at := CutPoint(rest, maxLen, minLen);
    var tail := Presplit(rest[at..], maxLen, minLen);
    assert Presplit(rest, maxLen, minLen) == [rest[..at]] + tail;
    assert done + ([rest[..at]] + tail) == (done + [rest[..at]]) + tail;
  }
}
