/** What the chunk assembler guarantees, and what it does not. */
module ChunkerProps {
  import opened Text
  import opened Chunker

  /** How many lines toggle the code-block flag. */
  function FenceCount(lines: seq<string>): nat
  {
    if |lines| == 0 then 0 else (if IsFenceLine(lines[0]) then 1 else 0) + FenceCount(lines[1..])
  }

  /** Fence parity: after the lines, the flag has flipped once per fence
      line, so a run from the start ends inside a code block exactly when
      an odd number of lines are fence markers. */
  lemma {:induction false} FenceParity(a: Assembly, lines: seq<string>, maxSize: int)
    requires maxSize > 0 && Feed(a, lines, maxSize).Ok?
    ensures Feed(a, lines, maxSize).value.codeBlock == (a.codeBlock != (FenceCount(lines) % 2 == 1))
    decreases |lines|
  {
    if |lines| > 0 {
      var b := StepLine(a, lines[0], maxSize).value;
      FenceParity(b, lines[1..], maxSize);
    }
  }

  /** Lines that are empty once trailing spaces are trimmed leave an empty
      chunk untouched. */
  lemma {:induction false} BlankLinesKeepState(a: Assembly, lines: seq<string>, maxSize: int)
    requires maxSize > 0 && a.cur == ""
    requires forall k :: 0 <= k < |lines| ==> TrimRight(lines[k]) == ""
    ensures Feed(a, lines, maxSize) == Ok(a)
    decreases |lines|
  {
    if |lines| > 0 {
      assert "" + TrimRight(lines[0]) == "";
      assert StepLine(a, lines[0], maxSize) == Ok(a);
      BlankLinesKeepState(a, lines[1..], maxSize);
    }
  }

  lemma AllSpacesTrimEmpty(t: string)
    requires forall j :: 0 <= j < |t| ==> t[j] == ' '
    ensures TrimRight(t) == ""
  {
  }

  /** An empty message, or one made only of spaces and newlines, gives no
      chunk at all. */
  lemma BlankMessageNoChunks(message: string, maxSize: int)
    requires maxSize > 0
    requires forall j :: 0 <= j < |message| ==> message[j] == ' ' || message[j] == '\n'
    ensures Assemble(SplitLines(message), maxSize) == Ok([])
  {
    var lines := SplitLines(message);
    SplitLinesOfBlank(message);
    forall k | 0 <= k < |lines|
      ensures TrimRight(lines[k]) == ""
    {
      AllSpacesTrimEmpty(lines[k]);
    }
    BlankLinesKeepState(Start, lines, maxSize);
  }

  /** Outside code blocks the chunk being filled and every sealed chunk stay
      within `maxSize`. */
  ghost predicate WithinSize(a: Assembly, maxSize: int)
  {
    !a.codeBlock && |a.cur| <= maxSize && forall c :: c in a.chunks ==> |c| <= maxSize
  }

  lemma {:induction false} FillLongWithinSize(a: Assembly, line: string, i: nat, maxSize: int)
    requires 0 < maxSize && i <= |line| && WithinSize(a, maxSize)
    ensures FillLong(a, line, i, maxSize).Ok? && WithinSize(FillLong(a, line, i, maxSize).value, maxSize)
    decreases |line| - i, |a.cur|
  {
    if i < |line| {
      var (b, j) := FillStep(a, line, i, maxSize).value;
      FillLongWithinSize(b, line, j, maxSize);
    }
  }

  lemma {:induction false} FeedWithinSize(a: Assembly, lines: seq<string>, maxSize: int)
    requires maxSize > 0 && WithinSize(a, maxSize)
    requires forall k :: 0 <= k < |lines| ==> !IsFenceLine(lines[k])
    ensures Feed(a, lines, maxSize).Ok? && WithinSize(Feed(a, lines, maxSize).value, maxSize)
    decreases |lines|
  {
    if |lines| > 0 {
      var line := TrimRight(lines[0]);
      if |line| > maxSize {
        FillLongWithinSize(a, line, 0, maxSize);
      }
      var b := StepLine(a, lines[0], maxSize).value;
      FeedWithinSize(b, lines[1..], maxSize);
    }
  }

  /** Size bound: when no line is a fence marker the run never panics and
      every chunk is at most `maxSize` long. */
  lemma NoFenceChunksFit(lines: seq<string>, maxSize: int)
    requires maxSize > 0
    requires forall k :: 0 <= k < |lines| ==> !IsFenceLine(lines[k])
    ensures Assemble(lines, maxSize).Ok?
    ensures forall c :: c in Assemble(lines, maxSize).value ==> |c| <= maxSize
  {
    FeedWithinSize(Start, lines, maxSize);
  }

  /** With fences, a chunk being filled can run four bytes past `maxSize`
      (a reopening marker and its newline) and a sealed chunk seven (plus a
      closing marker). */
  ghost predicate WithinSlack(a: Assembly, maxSize: int)
  {
    |a.cur| <= maxSize + 4 && forall c :: c in a.chunks ==> |c| <= maxSize + 7
  }

  lemma {:induction false} FillLongWithinSlack(a: Assembly, line: string, i: nat, maxSize: int)
    requires 0 < maxSize && i <= |line| && WithinSlack(a, maxSize)
    ensures FillLong(a, line, i, maxSize).Ok? ==> WithinSlack(FillLong(a, line, i, maxSize).value, maxSize)
    decreases |line| - i, |a.cur|
  {
    if i < |line| && FillStep(a, line, i, maxSize).Ok? {
      var (b, j) := FillStep(a, line, i, maxSize).value;
      FillLongWithinSlack(b, line, j, maxSize);
    }
  }

  lemma {:induction false} FeedWithinSlack(a: Assembly, lines: seq<string>, maxSize: int)
    requires maxSize > 0 && WithinSlack(a, maxSize)
    ensures Feed(a, lines, maxSize).Ok? ==> WithinSlack(Feed(a, lines, maxSize).value, maxSize)
    decreases |lines|
  {
    if |lines| > 0 && StepLine(a, lines[0], maxSize).Ok? {
      var line := TrimRight(lines[0]);
      var a1 := if line == Fence then a.(codeBlock := !a.codeBlock) else a;
      if |line| > maxSize {
        FillLongWithinSlack(a1, line, 0, maxSize);
      }
      var b := StepLine(a, lines[0], maxSize).value;
      FeedWithinSlack(b, lines[1..], maxSize);
    }
  }

  /** The bound that does hold with fences: a run that does not panic
      emits chunks of at most `maxSize + 7` bytes. */
  lemma ChunksWithinSlack(lines: seq<string>, maxSize: int)
    requires maxSize > 0
    ensures Assemble(lines, maxSize).Ok? ==> forall c :: c in Assemble(lines, maxSize).value ==> |c| <= maxSize + 7
  {
    FeedWithinSlack(Start, lines, maxSize);
  }

  /** Every line trimmed of trailing spaces. */
  function TrimAll(lines: seq<string>): (r: seq<string>)
    ensures |r| == |lines|
  {
    if |lines| == 0 then [] else [TrimRight(lines[0])] + TrimAll(lines[1..])
  }

  /** The invariant behind reconstruction: the sealed chunks and the
      non-empty chunk being filled, joined by newlines, are the text read
      so far. */
  ghost predicate Rebuilds(a: Assembly, text: string)
  {
    !a.codeBlock && |a.cur| > 0 && Join(a.chunks + [a.cur]) == text
  }

  /** Lines with no fence marker, non-empty and shorter than `maxSize`
      once trimmed. */
  ghost predicate PlainShortLines(lines: seq<string>, maxSize: int)
  {
    forall k :: 0 <= k < |lines| ==> !IsFenceLine(lines[k]) && 0 < |TrimRight(lines[k])| < maxSize
  }

  lemma JoinSplitFirst(x: string, y: string, rest: seq<string>)
    ensures Join([x + "\n" + y] + rest) == Join([x] + ([y] + rest))
  {
    if |rest| > 0 {
      assert ([x + "\n" + y] + rest)[1..] == rest;
      assert ([x] + ([y] + rest))[1..] == [y] + rest;
      assert ([y] + rest)[1..] == rest;
    } else {
      assert [x] + ([y] + rest) == [x, y];
      assert [x, y][1..] == [y];
    }
  }

  lemma SealJoin(chunks: seq<string>, cur: string, line: string)
    ensures Join(chunks + [cur] + [line]) == Join(chunks + [cur]) + "\n" + line
  {
    JoinSnoc(chunks + [cur], line);
  }

  lemma GrowJoin(chunks: seq<string>, cur: string, line: string)
    ensures Join(chunks + [cur + "\n" + line]) == Join(chunks + [cur]) + "\n" + line
  {
    JoinSnoc(chunks, cur + "\n" + line);
    JoinSnoc(chunks, cur);
  }

  lemma StepRebuilds(a: Assembly, text: string, raw: string, maxSize: int)
    requires maxSize > 0 && Rebuilds(a, text) && PlainShortLines([raw], maxSize)
    ensures StepLine(a, raw, maxSize).Ok? && Rebuilds(StepLine(a, raw, maxSize).value, text + "\n" + TrimRight(raw))
  {
    assert [raw][0] == raw;
    var line := TrimRight(raw);
    FittingLineStep(a, raw, maxSize);
    if |a.cur| + |line| + 1 > maxSize {
      SealJoin(a.chunks, a.cur, line);
    } else {
      GrowJoin(a.chunks, a.cur, line);
    }
  }

  lemma {:induction false} FeedRebuilds(a: Assembly, text: string, lines: seq<string>, maxSize: int)
    requires maxSize > 0 && Rebuilds(a, text) && PlainShortLines(lines, maxSize)
    ensures Feed(a, lines, maxSize).Ok?
    ensures Rebuilds(Feed(a, lines, maxSize).value, Join([text] + TrimAll(lines)))
    decreases |lines|
  {
    if |lines| == 0 {
      assert [text] + TrimAll(lines) == [text];
    } else {
      var line := TrimRight(lines[0]);
      assert PlainShortLines([lines[0]], maxSize) by {
        assert [lines[0]][0] == lines[0];
      }
      StepRebuilds(a, text, lines[0], maxSize);
      var b := StepLine(a, lines[0], maxSize).value;
      assert PlainShortLines(lines[1..], maxSize) by {
        forall k | 0 <= k < |lines[1..]|
          ensures !IsFenceLine(lines[1..][k]) && 0 < |TrimRight(lines[1..][k])| < maxSize
        {
          assert lines[1..][k] == lines[k + 1];
        }
      }
      FeedRebuilds(b, text + "\n" + line, lines[1..], maxSize);
      assert TrimAll(lines) == [line] + TrimAll(lines[1..]);
      JoinSplitFirst(text, line, TrimAll(lines[1..]));
    }
  }

  /** Reconstruction: with no fence line and every trimmed line non-empty
      and shorter than `maxSize`, the chunks joined with newlines are
      exactly the trimmed lines joined with newlines. */
  lemma ChunksRebuildLines(lines: seq<string>, maxSize: int)
    requires maxSize > 0 && PlainShortLines(lines, maxSize)
    ensures Assemble(lines, maxSize).Ok?
    ensures Join(Assemble(lines, maxSize).value) == Join(TrimAll(lines))
  {
    if |lines| > 0 {
      var line := TrimRight(lines[0]);
      assert !IsFenceLine(lines[0]);
      var b := StepLine(Start, lines[0], maxSize).value;
      assert b == Assembly([], line, false);
      assert Join(b.chunks + [b.cur]) == line;
      assert PlainShortLines(lines[1..], maxSize) by {
        forall k | 0 <= k < |lines[1..]|
          ensures !IsFenceLine(lines[1..][k]) && 0 < |TrimRight(lines[1..][k])| < maxSize
        {
          assert lines[1..][k] == lines[k + 1];
        }
      }
      FeedRebuilds(b, line, lines[1..], maxSize);
      assert TrimAll(lines) == [line] + TrimAll(lines[1..]);
    }
  }

  /** A fitting line is joined to the chunk with one newline; the chunk is
      sealed first exactly when the line and its newline would overflow.
      When the flag is set at that point (after this line's own toggle) the
      sealed chunk is closed with a marker and the new one opens with one. */
  lemma FittingLineStep(a: Assembly, raw: string, maxSize: int)
    requires maxSize > 0 && |TrimRight(raw)| <= maxSize
    ensures var line := TrimRight(raw);
      var inside := a.codeBlock != (line == Fence);
      var b := StepLine(a, raw, maxSize).value;
      (|b.chunks| == |a.chunks| + 1 <==> |a.cur| + |line| + 1 > maxSize) &&
      (|a.cur| + |line| + 1 > maxSize && inside ==>
         b.chunks == a.chunks + [a.cur + Fence] && b.cur == Fence + "\n" + line) &&
      (|a.cur| + |line| + 1 > maxSize && !inside ==>
         b.chunks == a.chunks + [a.cur] && b.cur == line) &&
      (|a.cur| + |line| + 1 <= maxSize ==>
         b.chunks == a.chunks && b.cur == (if |a.cur| > 0 then a.cur + "\n" + line else line))
  {
  }

  /** A line longer than the room left is cut at exactly that room: the
      sealed chunk is the old chunk topped up to `maxSize` bytes. */
  lemma LongLineCutsAtRoom(a: Assembly, line: string, i: nat, maxSize: int)
    requires i < |line| && |a.cur| <= maxSize && |line| - i > maxSize - |a.cur|
    ensures var room := maxSize - |a.cur|;
      FillStep(a, line, i, maxSize) == Ok((a.(chunks := a.chunks + [a.cur + line[i..i + room]], cur := ""), i + room))
  {
  }

  /** When the rest of a long line fits the room left, it is written to the
      chunk with no separator, followed by a marker inside a code block. */
  lemma LongLineTail(a: Assembly, line: string, i: nat, maxSize: int)
    requires i < |line| && |line| - i <= maxSize - |a.cur|
    ensures FillStep(a, line, i, maxSize)
      == Ok((a.(cur := a.cur + line[i..] + (if a.codeBlock then Fence else "")), |line|))
  {
    var cur := a.cur + line[i..];
    assert |cur| > 0;
    assert cur + "" == cur;
    assert CloseTail(cur, a.codeBlock) == cur + (if a.codeBlock then Fence else "");
  }

  /** Termination needs `maxSize > 0`: with `maxSize == 0` a pass of the
      cutting loop over an empty chunk seals an empty chunk and leaves the
      position and the chunk as they were, so the loop repeats forever. */
  lemma ZeroSizeMakesNoProgress(a: Assembly, line: string, i: nat)
    requires i < |line| && a.cur == ""
    ensures FillStep(a, line, i, 0) == Ok((a.(chunks := a.chunks + [""]), i))
  {
  }

  /** A first line shorter than `maxSize` becomes the chunk being filled. */
  lemma FirstShortLine(x: string, maxSize: int)
    requires 0 < |x| < maxSize && x[|x| - 1] != ' ' && x != Fence
    ensures StepLine(Start, x, maxSize) == Ok(Assembly([], x, false))
  {
    assert TrimRight(x) == x;
    assert "" + x == x;
  }

  lemma SplitTwoLines(x: string, y: string)
    requires '\n' !in x && '\n' !in y
    ensures SplitLines(x + "\n" + y) == [x, y]
  {
    assert Join([x, y]) == x + "\n" + y by {
      assert [x, y][1..] == [y];
    }
    SplitJoin([x, y]);
  }

  /** A short line that fits after the chunk being filled is joined to it
      with a newline. */
  lemma SecondShortLine(x: string, y: string, maxSize: int)
    requires 0 < |x| && |x| + |y| + 1 <= maxSize && 0 < |y| && y[|y| - 1] != ' ' && y != Fence
    ensures StepLine(Assembly([], x, false), y, maxSize) == Ok(Assembly([], x + "\n" + y, false))
  {
    assert TrimRight(y) == y;
  }

  lemma AssembleTwoShortLines(x: string, y: string, maxSize: int)
    requires maxSize > 0 && |x| + |y| + 1 <= maxSize
    requires 0 < |x| && x[|x| - 1] != ' ' && x != Fence
    requires 0 < |y| && y[|y| - 1] != ' ' && y != Fence
    ensures Assemble([x, y], maxSize) == Ok([x + "\n" + y])
  {
    var b := Assembly([], x, false);
    FirstShortLine(x, maxSize);
    var c := Assembly([], x + "\n" + y, false);
    SecondShortLine(x, y, maxSize);
    assert [x, y][1..] == [y];
    assert Feed(Start, [x, y], maxSize) == Feed(b, [y], maxSize);
    assert Feed(b, [y], maxSize) == Ok(c);
    var none: seq<string> := [];
    assert none + [x + "\n" + y] == [x + "\n" + y];
  }

  /** Two short lines that fit together make one chunk, joined by a
      newline. */
  lemma TwoLinesOneChunk(x: string, y: string, maxSize: int)
    requires maxSize > 0 && |x| + |y| + 1 <= maxSize
    requires '\n' !in x && '\n' !in y
    requires 0 < |x| && x[|x| - 1] != ' ' && x != Fence
    requires 0 < |y| && y[|y| - 1] != ' ' && y != Fence
    ensures Assemble(SplitLines(x + "\n" + y), maxSize) == Ok([x + "\n" + y])
  {
    SplitTwoLines(x, y);
    AssembleTwoShortLines(x, y, maxSize);
  }

  /** A line of exactly `maxSize` bytes arriving on an empty chunk seals
      that empty chunk first: the run emits an empty chunk. */
  lemma ExactFitSealsEmptyChunk(x: string)
    requires |x| > 0 && x[|x| - 1] != ' ' && x != Fence
    ensures Assemble([x], |x|) == Ok(["", x])
  {
    assert TrimRight(x) == x;
    var none: seq<string> := [];
    assert none + [""] == [""];
    assert "" + x == x;
    assert StepLine(Start, x, |x|) == Ok(Assembly([""], x, false));
    assert Feed(Start, [x], |x|) == Feed(Assembly([""], x, false), [], |x|);
    assert [""] + [x] == ["", x];
  }

  /** Example: "hello\nworld" with `maxSize` 100 is one chunk. */
  lemma HelloWorld()
    ensures Assemble(SplitLines("hello" + "\n" + "world"), 100) == Ok(["hello" + "\n" + "world"])
  {
    TwoLinesOneChunk("hello", "world", 100);
  }

  /** Example: one 250-byte line with `maxSize` 100 gives chunks of 100,
      100 and 50 bytes, in order. */
  lemma LongLineThreeChunks(line: string)
    requires |line| == 250 && line[249] != ' '
    ensures Assemble([line], 100) == Ok([line[..100], line[100..200], line[200..]])
  {
    assert TrimRight(line) == line;
    var none: seq<string> := [];
    var s1 := Assembly([line[..100]], "", false);
    assert "" + line[0..100] == line[..100];
    assert none + [line[..100]] == [line[..100]];
    assert FillStep(Start, line, 0, 100) == Ok((s1, 100));
    var s2 := Assembly([line[..100], line[100..200]], "", false);
    assert "" + line[100..200] == line[100..200];
    assert [line[..100]] + [line[100..200]] == [line[..100], line[100..200]];
    assert FillStep(s1, line, 100, 100) == Ok((s2, 200));
    var s3 := Assembly([line[..100], line[100..200]], line[200..], false);
    assert "" + line[200..] == line[200..];
    assert FillStep(s2, line, 200, 100) == Ok((s3, 250));
    assert FillLong(s3, line, 250, 100) == Ok(s3);
    assert FillLong(s2, line, 200, 100) == Ok(s3);
    assert FillLong(s1, line, 100, 100) == Ok(s3);
    assert FillLong(Start, line, 0, 100) == Ok(s3);
    assert StepLine(Start, line, 100) == Ok(s3);
    assert Feed(Start, [line], 100) == Feed(s3, [], 100);
    assert [line[..100], line[100..200]] + [line[200..]] == [line[..100], line[100..200], line[200..]];
  }

  /** The long-line branch writes no newline before its text: after a
      short line `x`, a long line `y` tops the chunk up to `maxSize` bytes
      straight after `x`, so the first chunk is `x` glued to the head of
      `y`. */
  lemma LongLineNoSeparator(x: string, y: string, maxSize: int)
    requires 0 < |x| < maxSize < |y|
    requires x[|x| - 1] != ' ' && x != Fence && y[|y| - 1] != ' ' && y != Fence
    ensures Assemble([x, y], maxSize).Ok?
    ensures |Assemble([x, y], maxSize).value| > 0 && Assemble([x, y], maxSize).value[0] == x + y[..maxSize - |x|]
  {
    var b := Assembly([], x, false);
    FirstShortLine(x, maxSize);
    assert TrimRight(y) == y;
    var c := Assembly([x + y[..maxSize - |x|]], "", false);
    var none: seq<string> := [];
    assert none + [x + y[0..maxSize - |x|]] == [x + y[..maxSize - |x|]];
    var room: nat := maxSize - |x|;
    assert y[0..room] == y[..room];
    LongLineCutsAtRoom(b, y, 0, maxSize);
    assert b.(chunks := b.chunks + [b.cur + y[0..room]], cur := "") == c;
    assert FillStep(b, y, 0, maxSize) == Ok((c, room));
    FillLongWithinSize(c, y, room, maxSize);
    assert FillLong(b, y, 0, maxSize) == FillLong(c, y, room, maxSize);
    assert StepLine(b, y, maxSize) == FillLong(b, y, 0, maxSize);
    var d := StepLine(b, y, maxSize).value;
    assert [x, y][1..] == [y];
    assert Feed(Start, [x, y], maxSize) == Feed(b, [y], maxSize);
    assert Feed(b, [y], maxSize) == Feed(d, [], maxSize);
  }

  /** Opening a code block on an empty chunk: the marker line becomes the
      chunk and the flag is set. */
  lemma OpenOnEmpty(maxSize: int)
    requires maxSize >= 4
    ensures StepLine(Start, Fence, maxSize) == Ok(Assembly([], Fence, true))
  {
    assert TrimRight(Fence) == Fence;
    assert "" + Fence == Fence;
  }

  /** Example: with fences a chunk can be longer than `maxSize`; here the
      opening marker is sealed and closed at once, giving six bytes under a
      limit of four, and the reopened chunk ends at nine. */
  lemma OversizeChunkWithFences()
    ensures Assemble([Fence, "ab"], 4) == Ok([Fence + Fence, Fence + "\nab" + Fence])
  {
    assert TrimRight("ab") == "ab";
    var none: seq<string> := [];
    var b := Assembly([], Fence, true);
    OpenOnEmpty(4);
    var c := Assembly([Fence + Fence], Fence + "\nab", true);
    assert none + [Fence + Fence] == [Fence + Fence];
    assert Fence + "\n" + "ab" == Fence + "\nab";
    assert StepLine(b, "ab", 4) == Ok(c);
    assert [Fence, "ab"][1..] == ["ab"];
    assert Feed(Start, [Fence, "ab"], 4) == Feed(b, ["ab"], 4);
    assert Feed(b, ["ab"], 4) == Ok(c);
    assert [Fence + Fence] + [Fence + "\nab" + Fence] == [Fence + Fence, Fence + "\nab" + Fence];
  }

  /** Example: the flag is toggled before the seal decision, so a closing
      marker that forces a seal leaves the sealed chunk with an open code
      block and no closing marker. */
  lemma ClosingMarkerLeavesChunkOpen()
    ensures Assemble([Fence, "a", Fence], 5) == Ok([Fence + "\na", Fence])
  {
    assert TrimRight("a") == "a";
    var none: seq<string> := [];
    var b := Assembly([], Fence, true);
    OpenOnEmpty(5);
    var c := Assembly([], Fence + "\na", true);
    assert Fence + "\n" + "a" == Fence + "\na";
    assert StepLine(b, "a", 5) == Ok(c);
    var d := Assembly([Fence + "\na"], Fence, false);
    assert none + [Fence + "\na"] == [Fence + "\na"];
    assert "" + Fence == Fence;
    assert StepLine(c, Fence, 5) == Ok(d);
    assert [Fence, "a", Fence][1..] == ["a", Fence];
    assert ["a", Fence][1..] == [Fence];
    assert Feed(Start, [Fence, "a", Fence], 5) == Feed(b, ["a", Fence], 5);
    assert Feed(b, ["a", Fence], 5) == Feed(c, [Fence], 5);
    assert Feed(c, [Fence], 5) == Ok(d);
    assert [Fence + "\na"] + [Fence] == [Fence + "\na", Fence];
  }

  /** Example: a reopened chunk can already be longer than `maxSize`; a long
      line arriving then slices with a negative length and Go panics. */
  lemma LongLineAfterReopenPanics()
    ensures Assemble([Fence, "ab", "abcde"], 4).Err?
  {
    assert TrimRight("ab") == "ab";
    assert TrimRight("abcde") == "abcde";
    var none: seq<string> := [];
    var b := Assembly([], Fence, true);
    OpenOnEmpty(4);
    var c := Assembly([Fence + Fence], Fence + "\nab", true);
    assert none + [Fence + Fence] == [Fence + Fence];
    assert Fence + "\n" + "ab" == Fence + "\nab";
    assert StepLine(b, "ab", 4) == Ok(c);
    assert StepLine(c, "abcde", 4).Err?;
    assert [Fence, "ab", "abcde"][1..] == ["ab", "abcde"];
    assert ["ab", "abcde"][1..] == ["abcde"];
    assert Feed(Start, [Fence, "ab", "abcde"], 4) == Feed(b, ["ab", "abcde"], 4);
    assert Feed(b, ["ab", "abcde"], 4) == Feed(c, ["abcde"], 4);
    assert Feed(c, ["abcde"], 4).Err?;
  }
}
