/** `splitMessage` and `addChunk`: the prefix is prepended, fence markers
    are put on lines of their own, very long lines are pre-split at spaces,
    and the result goes through the same assembler loop as
    `processRawMessage`; `addChunk` caps a chunk list at a maximum number of
    messages. */
module Splitter {
  import opened Text
  import opened Normalizer
  import opened LongLines
  import opened Chunker
  import opened Builders
  import ChunkerProps

  /** `slack.MaxMessageTextLength`. */
  const MaxMessageTextLength: int := 200

  /** The budget `splitLongLine` cuts with, `MaxMessageTextLength` squared,
      and the shortest piece it leaves when it cuts at a space. */
  const LongLineBudget: int := MaxMessageTextLength * MaxMessageTextLength
  const LongLineMinimum: int := LongLineBudget / 2

  /** The text `addChunk` appends in place of the chunk that goes one past
      the limit. */
  const TruncationNotice: string := "(message too long, truncated)"

  /** What one raw line becomes before assembly: itself when it fits
      `maxSize`, else the pieces `splitLongLine` cuts it into. */
  function Pieces(line: string, maxSize: int): (r: seq<string>)
    ensures maxSize >= 0 ==> |r| >= 1
    ensures forall k :: 0 <= k < |r| ==> |r[k]| <= maxSize || 0 < |r[k]| <= LongLineBudget
  {
    if |line| > maxSize then
      PresplitBounds(line, LongLineBudget, LongLineMinimum);
      Presplit(line, LongLineBudget, LongLineMinimum)
    else [line]
  }

  /** The pre-split line list: each raw line replaced by its pieces, in
      order. */
  function PresplitAll(raw: seq<string>, maxSize: int): (r: seq<string>)
    ensures maxSize >= 0 ==> |r| >= |raw|
  {
    if |raw| == 0 then [] else Pieces(raw[0], maxSize) + PresplitAll(raw[1..], maxSize)
  }

  /** A line that fits passes through unchanged; a longer one is replaced
      by at least one piece, and the pieces glued back together give the
      line. */
  lemma PiecesRoundTrip(line: string, maxSize: int)
    requires maxSize >= 0
    ensures |line| <= maxSize ==> Pieces(line, maxSize) == [line]
    ensures |Pieces(line, maxSize)| >= 1
    ensures Concat(Pieces(line, maxSize)) == line
  {
    if |line| > maxSize {
      PresplitRoundTrip(line, LongLineBudget, LongLineMinimum);
      PresplitBounds(line, LongLineBudget, LongLineMinimum);
    } else {
      assert [line][1..] == [];
    }
  }

  /** Pre-splitting works line by line: the pieces of two runs of lines are
      the pieces of the first followed by those of the second. */
  lemma {:induction false} PresplitAllAppend(a: seq<string>, b: seq<string>, maxSize: int)
    ensures PresplitAll(a + b, maxSize) == PresplitAll(a, maxSize) + PresplitAll(b, maxSize)
    decreases |a|
  {
    if |a| == 0 {
      assert a + b == b;
    } else {
      assert (a + b)[0] == a[0];
      assert (a + b)[1..] == a[1..] + b;
      PresplitAllAppend(a[1..], b, maxSize);
      var x, y, z := Pieces(a[0], maxSize), PresplitAll(a[1..], maxSize), PresplitAll(b, maxSize);
      assert x + (y + z) == (x + y) + z;
    }
  }

  lemma PresplitAllSnoc(raw: seq<string>, line: string, maxSize: int)
    ensures PresplitAll(raw + [line], maxSize) == PresplitAll(raw, maxSize) + Pieces(line, maxSize)
  {
    PresplitAllAppend(raw, [line], maxSize);
    assert [line][1..] == [];
    assert Pieces(line, maxSize) + [] == Pieces(line, maxSize);
  }

  /** When every raw line fits `maxSize`, pre-splitting changes nothing;
      in any case no line is lost. */
  lemma {:induction false} PresplitAllShortLines(raw: seq<string>, maxSize: int)
    requires maxSize >= 0
    ensures |PresplitAll(raw, maxSize)| >= |raw|
    ensures (forall k :: 0 <= k < |raw| ==> |raw[k]| <= maxSize) ==> PresplitAll(raw, maxSize) == raw
    decreases |raw|
  {
    if |raw| > 0 {
      var tail := raw[1..];
      PresplitAllShortLines(tail, maxSize);
      PiecesRoundTrip(raw[0], maxSize);
      if forall k :: 0 <= k < |raw| ==> |raw[k]| <= maxSize {
        assert forall k :: 0 <= k < |tail| ==> |tail[k]| <= maxSize by {
          forall k | 0 <= k < |tail|
            ensures |tail[k]| <= maxSize
          {
            assert tail[k] == raw[k + 1];
          }
        }
        assert [raw[0]] + tail == raw;
      }
    }
  }

  /** Gluing the pre-split lines together gives the raw lines glued
      together: only line boundaries are added. */
  lemma {:induction false} PresplitAllConcat(raw: seq<string>, maxSize: int)
    requires maxSize >= 0
    ensures Concat(PresplitAll(raw, maxSize)) == Concat(raw)
    decreases |raw|
  {
    if |raw| > 0 {
      PresplitAllConcat(raw[1..], maxSize);
      PiecesRoundTrip(raw[0], maxSize);
      ConcatAppend(Pieces(raw[0], maxSize), PresplitAll(raw[1..], maxSize));
    }
  }

  /** The first loop of `splitMessage`: every raw line that does not fit
      `maxSize` is replaced by the pieces `splitLongLine` cuts it into. */
  method PresplitLines(rawlines: seq<string>, maxSize: int) returns (lines: seq<string>)
    ensures lines == PresplitAll(rawlines, maxSize)
  {
    lines := [];
    for k := 0 to |rawlines|
      invariant lines == PresplitAll(rawlines[..k], maxSize)
    {
      var line := rawlines[k];
      var pieces := LinePieces(line, maxSize);
      assert rawlines[..k + 1] == rawlines[..k] + [line];
      PresplitAllSnoc(rawlines[..k], line, maxSize);
      lines := lines + pieces;
    }
    assert rawlines[..|rawlines|] == rawlines;
  }

  /** The body of that loop for one raw line. */
  method LinePieces(line: string, maxSize: int) returns (pieces: seq<string>)
    ensures pieces == Pieces(line, maxSize)
  {
    if |line| > maxSize {
      assert LongLineBudget == 40000 && LongLineMinimum == LongLineBudget / 2;
      pieces := SplitLongLine(line, LongLineBudget);
    } else {
      pieces := [line];
    }
  }

  /** `splitMessage(prefix, msg)`, with `maxSize` the chunk size the source
      derives from its configuration. */
  method SplitMessage(prefix: string, msg: string, maxSize: int) returns (r: Result<seq<string>>)
    requires maxSize > 0
    ensures r == Assemble(PresplitAll(SplitLines(Normalize(prefix + msg)), maxSize), maxSize)
    ensures r.Ok? ==> forall c :: c in r.value ==> |c| <= maxSize + 7
  {
    var message := Normalize(prefix + msg);
    var rawlines := SplitLines(message);
    var lines := PresplitLines(rawlines, maxSize);
    r := AssembleLines(lines, maxSize);
    ChunkerProps.ChunksWithinSlack(lines, maxSize);
  }

  /** The list `addChunk` builds from `chunks` and the builder's text, with
      `maxSplit` the configured `MaxMessageSplit`: below the limit the text
      is appended, at the limit the truncation notice is, and one past the
      limit nothing is. */
  function Capped(chunks: seq<string>, text: string, maxSplit: int): (r: seq<string>)
    ensures chunks <= r && |r| <= |chunks| + 1
    ensures |r| == |chunks| + 1 <==> |chunks| != maxSplit + 1
    ensures 0 <= maxSplit && |chunks| <= maxSplit + 1 ==> |r| <= maxSplit + 1
    ensures |chunks| == maxSplit ==> |r| == maxSplit + 1 && r[maxSplit] == TruncationNotice
    ensures |r| == |chunks| + 1 && |chunks| != maxSplit ==> r[|chunks|] == text
  {
    if |chunks| != maxSplit + 1 then
      if |chunks| == maxSplit then chunks + [TruncationNotice] else chunks + [text]
    else chunks
  }

  /** `addChunk`: the new list, and the builder emptied. */
  method AddChunk(chunks: seq<string>, chunk: Builder, maxSplit: int) returns (r: seq<string>)
    modifies chunk
    ensures r == Capped(chunks, old(chunk.text), maxSplit)
    ensures chunk.text == ""
  {
    if |chunks| != maxSplit + 1 {
      if |chunks| == maxSplit {
        r := chunks + [TruncationNotice];
      } else {
        r := chunks + [chunk.text];
      }
    } else {
      r := chunks;
    }
    chunk.Reset();
  }

  /** `addChunk` applied to each text in turn. */
  function AddAll(chunks: seq<string>, texts: seq<string>, maxSplit: int): (r: seq<string>)
    ensures chunks <= r
    ensures 0 <= maxSplit && |chunks| <= maxSplit + 1 ==> |r| <= maxSplit + 1
    ensures |chunks| < maxSplit + 1 ==> |r| == |chunks| + |texts| || |r| == maxSplit + 1
    decreases |texts|
  {
    if |texts| == 0 then chunks else AddAll(Capped(chunks, texts[0], maxSplit), texts[1..], maxSplit)
  }

  /** The list a cap of `maxSplit` should leave: everything when it fits,
      else the first `maxSplit` entries and the truncation notice. */
  function Truncated(all: seq<string>, maxSplit: nat): (r: seq<string>)
    ensures |r| <= maxSplit + 1
  {
    if |all| <= maxSplit then all else all[..maxSplit] + [TruncationNotice]
  }

  /** Once the notice has been added the list no longer changes. */
  lemma {:induction false} SaturatedStaysPut(chunks: seq<string>, texts: seq<string>, maxSplit: nat)
    requires |chunks| == maxSplit + 1
    ensures AddAll(chunks, texts, maxSplit) == chunks
    decreases |texts|
  {
    if |texts| > 0 {
      SaturatedStaysPut(chunks, texts[1..], maxSplit);
    }
  }

  /** Feeding texts one by one to `addChunk`, starting from a list within
      the limit, keeps the first `maxSplit` of all entries and puts the
      notice last when there were more; the list never grows past
      `maxSplit + 1`. */
  lemma {:induction false} AddAllTruncates(chunks: seq<string>, texts: seq<string>, maxSplit: nat)
    requires |chunks| <= maxSplit
    ensures AddAll(chunks, texts, maxSplit) == Truncated(chunks + texts, maxSplit)
    decreases |texts|
  {
    if |texts| > 0 {
      var next := Capped(chunks, texts[0], maxSplit);
      if |chunks| == maxSplit {
        assert next == chunks + [TruncationNotice];
        SaturatedStaysPut(next, texts[1..], maxSplit);
        assert (chunks + texts)[..maxSplit] == chunks;
      } else {
        assert next == chunks + [texts[0]];
        AddAllTruncates(next, texts[1..], maxSplit);
        assert next + texts[1..] == chunks + texts;
      }
    } else {
      assert chunks + texts == chunks;
    }
  }
}
