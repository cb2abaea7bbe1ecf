/** The chunk assembler, `processRawMessage`: lines are packed into chunks
    joined by newlines; a line longer than `maxSize` is cut at whatever room
    the current chunk has left; a `codeBlock` flag, toggled by every line
    that is exactly a fence marker once trailing spaces are trimmed, decides
    whether synthetic markers close a chunk when it is sealed and reopen the
    next one.

    The functions below give one step of the run each (one pass of the
    inner cutting loop, one line, the whole line sequence); the method
    `AssembleLines` is the loop itself, proved to compute `Assemble`. */
module Chunker {
  import opened Text
  import opened Builders

  /** The Go runtime panic the assembler can run into. */
  datatype GoPanic = SliceBoundsOutOfRange

  datatype Result<T> = Ok(value: T) | Err(error: GoPanic)

  /** The state carried across the run: the sealed chunks, the text of the
      chunk being filled, and the code-block flag. */
  datatype Assembly = Assembly(chunks: seq<string>, cur: string, codeBlock: bool)

  const Start: Assembly := Assembly([], "", false)

  /** A line that toggles the code-block flag. */
  predicate IsFenceLine(raw: string)
  {
    TrimRight(raw) == Fence
  }

  /** The chunk text as sealed at a fitting line or at the end of the run:
      closed with a marker while inside a code block. */
  function Close(cur: string, codeBlock: bool): string
  {
    if codeBlock then cur + Fence else cur
  }

  /** After each pass of the cutting loop a non-empty chunk inside a code
      block gets a marker appended. */
  function CloseTail(cur: string, codeBlock: bool): string
  {
    if codeBlock && |cur| > 0 then cur + Fence else cur
  }

  /** One pass of the inner loop that cuts a long line, starting at byte
      `i`: either the rest of the line fits the room left in the chunk, or
      the chunk is filled up to `maxSize` bytes exactly and sealed. Slicing
      with a negative room is the Go panic. */
  function FillStep(a: Assembly, line: string, i: nat, maxSize: int): (r: Result<(Assembly, nat)>)
    requires i < |line|
    ensures r.Err? <==> |a.cur| > maxSize
    ensures r.Ok? ==>
      var (b, j) := r.value;
      b.codeBlock == a.codeBlock && i <= j <= |line| &&
      (b.chunks == a.chunks || (|b.chunks| == |a.chunks| + 1 && a.chunks <= b.chunks && |b.chunks[|a.chunks|]| == maxSize))
    ensures r.Ok? ==> (|r.value.0.chunks| > |a.chunks| <==> |line| - i > maxSize - |a.cur|)
    ensures r.Ok? && maxSize > 0 ==> r.value.1 > i || (r.value.1 == i && |r.value.0.cur| < |a.cur|)
  {
    var room := maxSize - |a.cur|;
    if |line| - i <= room then
      var cur := a.cur + line[i..];
      Ok((a.(cur := CloseTail(cur, a.codeBlock)), |line|))
    else if room < 0 then
      Err(SliceBoundsOutOfRange)
    else
      var sealed := a.cur + line[i..i + room];
      Ok((a.(chunks := a.chunks + [sealed], cur := CloseTail("", a.codeBlock)), i + room))
  }

  /** The inner loop `for i < len(line)`, from byte `i` to the end. */
  function FillLong(a: Assembly, line: string, i: nat, maxSize: int): (r: Result<Assembly>)
    requires 0 < maxSize && i <= |line|
    ensures r.Ok? ==> r.value.codeBlock == a.codeBlock && a.chunks <= r.value.chunks
    decreases |line| - i, |a.cur|
  {
    if i == |line| then Ok(a)
    else
      match FillStep(a, line, i, maxSize)
      case Err(e) => Err(e)
      case Ok((b, j)) => FillLong(b, line, j, maxSize)
  }

  /** One iteration of the loop over lines. */
  function StepLine(a: Assembly, raw: string, maxSize: int): (r: Result<Assembly>)
    requires maxSize > 0
    ensures r.Ok? ==> r.value.codeBlock == (a.codeBlock != IsFenceLine(raw)) && a.chunks <= r.value.chunks
    ensures |TrimRight(raw)| <= maxSize ==> r.Ok?
  {
    var line := TrimRight(raw);
    var a1 := if line == Fence then a.(codeBlock := !a.codeBlock) else a;
    if |line| > maxSize then
      FillLong(a1, line, 0, maxSize)
    else
      var a2 :=
        if |a1.cur| + |line| + 1 > maxSize then
          Assembly(a1.chunks + [Close(a1.cur, a1.codeBlock)], if a1.codeBlock then Fence else "", a1.codeBlock)
        else a1;
      Ok(a2.(cur := (if |a2.cur| > 0 then a2.cur + "\n" else a2.cur) + line))
  }

  /** The loop over lines, from state `a`. */
  function Feed(a: Assembly, lines: seq<string>, maxSize: int): (r: Result<Assembly>)
    requires maxSize > 0
    ensures r.Ok? ==> a.chunks <= r.value.chunks
    ensures (forall k :: 0 <= k < |lines| ==> |TrimRight(lines[k])| <= maxSize) ==> r.Ok?
    decreases |lines|
  {
    if |lines| == 0 then Ok(a)
    else
      match StepLine(a, lines[0], maxSize)
      case Err(e) => Err(e)
      case Ok(b) => Feed(b, lines[1..], maxSize)
  }

  /** After the loop: a non-empty current chunk is sealed, closed with a
      marker if the flag is still set. */
  function Finish(a: Assembly): (r: seq<string>)
    ensures a.chunks <= r && |r| <= |a.chunks| + 1
    ensures |r| == |a.chunks| + 1 <==> |a.cur| > 0
    ensures |a.cur| > 0 && a.codeBlock ==> r[|r| - 1] == a.cur + Fence
    ensures |a.cur| > 0 && !a.codeBlock ==> r[|r| - 1] == a.cur
  {
    if |a.cur| > 0 then a.chunks + [Close(a.cur, a.codeBlock)] else a.chunks
  }

  /** The chunks of a whole run, or the panic it hits. */
  function Assemble(lines: seq<string>, maxSize: int): (r: Result<seq<string>>)
    requires maxSize > 0
    ensures (forall k :: 0 <= k < |lines| ==> |TrimRight(lines[k])| <= maxSize) ==> r.Ok?
    ensures |lines| == 0 ==> r == Ok([])
  {
    match Feed(Start, lines, maxSize)
    case Err(e) => Err(e)
    case Ok(a) => Ok(Finish(a))
  }

  /** The inner loop of the assembler: cuts `line` into the builder,
      sealing full chunks onto `chunks`. */
  method CutLongLine(chunks: seq<string>, currentChunk: Builder, codeBlock: bool, line: string, maxSize: int)
    returns (r: Result<seq<string>>)
    requires maxSize > 0
    modifies currentChunk
    ensures r.Err? <==> FillLong(Assembly(chunks, old(currentChunk.text), codeBlock), line, 0, maxSize).Err?
    ensures r.Ok? ==> FillLong(Assembly(chunks, old(currentChunk.text), codeBlock), line, 0, maxSize)
                      == Ok(Assembly(r.value, currentChunk.text, codeBlock))
  {
    ghost var goal := FillLong(Assembly(chunks, currentChunk.text, codeBlock), line, 0, maxSize);
    var sealed := chunks;
    var i := 0;
    while i < |line|
      invariant 0 <= i <= |line|
      invariant FillLong(Assembly(sealed, currentChunk.text, codeBlock), line, i, maxSize) == goal
      decreases |line| - i, currentChunk.Len()
    {
      ghost var s0, i0 := Assembly(sealed, currentChunk.text, codeBlock), i;
      var remainingLineSpace := maxSize - currentChunk.Len();
      if |line[i..]| <= remainingLineSpace {
        currentChunk.WriteString(line[i..]);
        i := i + |line[i..]|;
      } else {
        if remainingLineSpace < 0 {
          assert FillStep(s0, line, i, maxSize).Err?;
          return Err(SliceBoundsOutOfRange);
        }
        currentChunk.WriteString(line[i..i + remainingLineSpace]);
        sealed := sealed + [currentChunk.text];
        currentChunk.Reset();
        i := i + remainingLineSpace;
      }
      if codeBlock && currentChunk.Len() > 0 {
        currentChunk.WriteString(Fence);
      }
      assert FillStep(s0, line, i0, maxSize) == Ok((Assembly(sealed, currentChunk.text, codeBlock), i));
    }
    r := Ok(sealed);
  }

  /** The assembler loop shared by `processRawMessage` and `splitMessage`. */
  method AssembleLines(lines: seq<string>, maxSize: int) returns (r: Result<seq<string>>)
    requires maxSize > 0
    ensures r == Assemble(lines, maxSize)
  {
    var chunks: seq<string> := [];
    var currentChunk := new Builder();
    var codeBlock := false;
    for k := 0 to |lines|
      invariant Feed(Assembly(chunks, currentChunk.text, codeBlock), lines[k..], maxSize) == Feed(Start, lines, maxSize)
    {
      ghost var a0 := Assembly(chunks, currentChunk.text, codeBlock);
      assert lines[k..][0] == lines[k] && lines[k..][1..] == lines[k + 1..];
      var line := TrimRight(lines[k]);
      if line == Fence {
        codeBlock := !codeBlock;
      }
      ghost var a1 := Assembly(chunks, currentChunk.text, codeBlock);
      assert a1 == if line == Fence then a0.(codeBlock := !a0.codeBlock) else a0;
      if |line| > maxSize {
        var cut := CutLongLine(chunks, currentChunk, codeBlock, line, maxSize);
        if cut.Err? {
          return Err(cut.error);
        }
        chunks := cut.value;
      } else {
        if currentChunk.Len() + |line| + 1 > maxSize {
          if codeBlock {
            currentChunk.WriteString(Fence);
          }
          chunks := chunks + [currentChunk.text];
          currentChunk.Reset();
          if codeBlock {
            currentChunk.WriteString(Fence);
          }
        }
        ghost var a2 := Assembly(chunks, currentChunk.text, codeBlock);
        assert a2 == if |a1.cur| + |line| + 1 > maxSize then
          Assembly(a1.chunks + [Close(a1.cur, a1.codeBlock)], if a1.codeBlock then Fence else "", a1.codeBlock)
          else a1;
        if currentChunk.Len() > 0 {
          currentChunk.WriteString("\n");
        }
        currentChunk.WriteString(line);
      }
      assert StepLine(a0, lines[k], maxSize) == Ok(Assembly(chunks, currentChunk.text, codeBlock));
    }
    assert lines[|lines|..] == [];
    if currentChunk.Len() > 0 {
      if codeBlock {
        currentChunk.WriteString(Fence);
      }
      chunks := chunks + [currentChunk.text];
    }
    r := Ok(chunks);
  }
}
