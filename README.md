# Slack message splitter, modelled in Dafny

This project models a Go message splitter for Slack. A long message,
possibly holding several fenced code blocks, is cut into chunks that each
fit in one Slack message. There are two entry points:

- `processRawMessage` splits the message on newlines and runs the chunk
  assembler.
- `splitMessage` first prepends a prefix. It then inserts newlines around
  ```` ``` ```` markers that are glued to other text (`normalizeBackticks`).
  One pass does not isolate every marker: in ```` ```x``` ```` only the
  first one is separated (`NotIdempotent`). It then pre-splits very long
  lines at spaces (`splitLongLine`). Finally it runs the same assembler
  loop.

The assembler does the following:

- It packs trimmed lines into chunks joined by newlines.
- It cuts an over-long line at whatever room the current chunk has left.
- It carries a code-block flag, toggled by every line that is exactly a
  marker. While the flag is set, a chunk sealed because a fitting line does
  not fit is closed with a marker, and the next chunk is reopened with one.
  A chunk sealed inside the long-line loop gets neither marker. Instead,
  each pass of that loop that leaves the chunk non-empty appends a marker
  after the text it wrote.

`addChunk` caps a chunk list at a configured number of messages.

Modules:

- `Text`: the parts of Go's `strings` package the code uses, over ASCII
  text. This covers `Split`, `Index`, `Join`, `TrimRight` and `LastIndex`.
- `Builders`: `strings.Builder`, a class whose text is written and reset.
- `Normalizer`: `normalizeBackticks`, written as the leftmost scan that
  Go's regular expression `.{0,1}```.{0,1}` performs, followed by the
  replacement callback.
- `LongLines`: `splitLongLine`, as the `Presplit` function and the loop
  `SplitLongLine` that is proved to compute it.
- `Chunker`: the assembler state (sealed chunks, chunk being filled, flag)
  and one function per step of the run. It has two methods:
  - `AssembleLines` is the outer loop over lines.
  - `CutLongLine` is the inner loop that cuts a long line.
  Both are proved to compute those functions.
- `ChunkerProps`: what the assembler guarantees, and examples of what it
  does not.
- `RawMessage` and `Splitter`: the two entry points and `addChunk`.

A Go runtime panic becomes the `Err` case of a `Result`. The chunk size
`maxSize` is an integer parameter. `maxSize > 0` is a precondition of the
assembler, and the callers in the source pass positive sizes. Below that
the Go code behaves as follows:

- With `maxSize < 0`, every line takes the long-line branch. An empty
  line writes nothing. A non-empty line panics on the negative slice bound
  of `line[i : i+remainingLineSpace]`.
- With `maxSize == 0`, every empty line seals an empty chunk, so the
  message `""` gives `[""]`. A non-empty line loops forever: each pass
  seals an empty chunk and does not advance (`ZeroSizeMakesNoProgress`).

Where the code differs from the behaviour its comments and names suggest,
the model follows the code:

- Chunks can be longer than `maxSize` inside code blocks.
  - `OversizeChunkWithFences` gives an example.
  - `ChunksWithinSlack` proves the bound that does hold: `maxSize + 7`.
  - `NoFenceChunksFit` proves `maxSize` holds when there are no fences.
- The normalizer is not idempotent (`NotIdempotent`).
- The callback's rule for an already isolated `"\n```\n"` is never reached,
  because `.` does not match a newline (`IsolatedRuleUnreachable`).
- A line of exactly `maxSize` bytes arriving on an empty chunk first seals
  that empty chunk, so an empty chunk is emitted
  (`ExactFitSealsEmptyChunk`).

## Model

| member | source | states |
|---|---|---|
| Text.SplitLines | split2.go:10 | `strings.Split(s, "\n")`: at least one piece, no piece holds a newline, and the pieces joined with newlines give `s` back |
| Text.Index | split2.go:10 | `strings.Index` as `strings.Split` uses it to find a newline: the first occurrence, or -1 when there is none |
| Text.SplitLinesOfBlank | split2.go:10-15 | text of spaces and newlines splits into lines of spaces only |
| Text.SplitJoin | testsplit.go:18 | splitting undoes joining when no piece holds a newline, so `Split` and `Join` are inverses |
| Text.TrimRight | split2.go:15 | `strings.TrimRight(line, " ")`: a prefix of the line that does not end in a space, with only spaces removed |
| Text.LastIndex | testsplit.go:137 | `strings.LastIndex`: the index of the last occurrence, or -1, with none after it |
| Builders.Builder.WriteString | split2.go:24 | the builder's text grows by exactly the written string |
| Builders.Builder.Reset | split2.go:29 | the builder's text becomes empty |
| Normalizer.MatchAt | testsplit.go:95 | the match at the front has one of the four shapes of `.{0,1}```.{0,1}`, and no longer prefix has one, which is the greedy leftmost match; there is none exactly when neither a marker nor a non-newline followed by a marker starts there |
| Normalizer.Rewrite | testsplit.go:99-119 | the callback result is non-empty and keeps the first and last characters of the match |
| Normalizer.Normalize | testsplit.go:93-120 | the normalized text is empty exactly when the input is, and starts with the input's first character |
| Normalizer.RewriteInsertsAtMostTwo | testsplit.go:99-118 | the callback keeps every character of a match and adds at most two newlines, none next to a newline |
| Normalizer.NormalizeOnlyInsertsNewlines | testsplit.go:91-120 | the output is the input with only newlines inserted, each between two non-newline characters, as the doc comment promises |
| Normalizer.NoMarkerUnchanged | testsplit.go:93-120 | text with no marker comes back unchanged |
| Normalizer.IsolatedRuleUnreachable | testsplit.go:100-102 | no match equals `"\n```\n"`, so the first callback rule never fires |
| Normalizer.ExampleBothSides | testsplit.go:106-117 | `"a```b"` becomes `"a\n```\nb"` |
| Normalizer.ExampleFourBackticks | testsplit.go:103-105 | `"a````b"` is unchanged, because the match holds four backticks |
| Normalizer.ExampleIsolated | testsplit.go:99-118 | `"\n```\n"` is unchanged |
| Normalizer.ExampleBareMarker | testsplit.go:108-117 | a bare marker is unchanged |
| Normalizer.NotIdempotent | testsplit.go:93-120 | `"```x```"` becomes `"```\nx```"` on a first pass and `"```\nx\n```"` on a second |
| LongLines.CutPoint | testsplit.go:133-140 | the cut lies between `minLen` and `min(maxLen, len)` |
| LongLines.Presplit | testsplit.go:122-146 | non-empty input gives at least one piece, and there are never more pieces than bytes |
| LongLines.PresplitRoundTrip | testsplit.go:128-145 | the pieces glued together give the input exactly |
| LongLines.PresplitBounds | testsplit.go:128-145 | empty input gives no pieces; input shorter than `minLen` is one piece; every piece is non-empty and at most `maxLen`; every piece but the last is at least `minLen` |
| LongLines.PresplitCut | testsplit.go:133-142 | the first piece ends at the last space in `input[:end]` at or beyond `minLen`, and that space opens the next piece; when there is no such space it ends at `end` |
| LongLines.SplitLongLine | testsplit.go:122-146 | the loop computes `Presplit` with `minLen = maxLen / 2` and so keeps the round trip and the bounds |
| Chunker.FillStep | split2.go:22-34 | one pass of the cutting loop: it panics exactly when the chunk is already over `maxSize`; otherwise it seals exactly when the rest of the line does not fit, and the sealed chunk is exactly `maxSize` long |
| Chunker.FillLong | split2.go:20-35 | the cutting loop keeps the flag and keeps the sealed chunks as a prefix |
| Chunker.StepLine | split2.go:15-51 | one line flips the flag exactly when it is a marker line, keeps the sealed chunks as a prefix, and never panics when the line fits |
| Chunker.Feed | split2.go:14-52 | the loop over lines keeps the sealed chunks as a prefix, and never panics when every trimmed line fits `maxSize` |
| Chunker.Finish | split2.go:53-58 | after the loop, exactly one more chunk when the current one is non-empty: the current chunk closed with a marker if the flag is set, the current chunk itself otherwise |
| Chunker.Assemble | split2.go:9-60 | a run never panics when every trimmed line fits `maxSize`, and no lines give no chunks |
| Chunker.CutLongLine | split2.go:20-35 | the inner loop computes `FillLong`, including its panic |
| Chunker.AssembleLines | split2.go:11-59 | the assembler loop computes `Assemble` |
| ChunkerProps.FenceParity | split2.go:13-18 | the final flag is the initial one flipped once per marker line, so it is set iff the number of marker lines is odd |
| ChunkerProps.BlankMessageNoChunks | split2.go:10-15 | a message of spaces and newlines only gives no chunk |
| ChunkerProps.NoFenceChunksFit | split2.go:19-51 | with no marker line, the run never panics and every chunk is at most `maxSize` |
| ChunkerProps.ChunksWithinSlack | split2.go:32-46 | with markers, every chunk of a run that does not panic is at most `maxSize + 7` |
| ChunkerProps.ChunksRebuildLines | split2.go:36-58 | with no marker line and every trimmed line non-empty and shorter than `maxSize`, the chunks joined with newlines are the trimmed lines joined with newlines |
| ChunkerProps.FittingLineStep | split2.go:37-51 | a fitting line is joined with one newline; the chunk is sealed first iff `len + line + 1 > maxSize`; with the flag set, the sealed chunk gets a closing marker and the new one starts with a marker |
| ChunkerProps.LongLineCutsAtRoom | split2.go:22-31 | a long line is cut at exactly the room left, and the sealed chunk is the old chunk plus that much of the line |
| ChunkerProps.LongLineTail | split2.go:23-25 | when the rest of a long line fits the room left, it is appended to the chunk with no separator, then a marker inside a code block, and the position moves to the end of the line |
| ChunkerProps.ZeroSizeMakesNoProgress | split2.go:20-31 | with `maxSize` 0, a pass over an empty chunk seals an empty chunk and leaves the position unchanged |
| ChunkerProps.AssembleTwoShortLines | split2.go:37-58 | two lines without markers that fit together are assembled into one chunk joined by a newline |
| ChunkerProps.TwoLinesOneChunk | split2.go:10-58 | a message of two lines that fit together gives one chunk equal to the message |
| ChunkerProps.HelloWorld | split2.go:9-60 | `"hello\nworld"` with `maxSize` 100 is the single chunk `"hello\nworld"` |
| ChunkerProps.LongLineThreeChunks | split2.go:19-31 | one 250-byte line with `maxSize` 100 gives chunks of 100, 100 and 50 bytes |
| ChunkerProps.LongLineNoSeparator | split2.go:22-24 | a long line is appended with no newline, so the first chunk is the short line glued to the head of the long one |
| ChunkerProps.ExactFitSealsEmptyChunk | split2.go:37-46 | a line of exactly `maxSize` bytes on an empty chunk makes the run emit an empty chunk first |
| ChunkerProps.OversizeChunkWithFences | split2.go:37-50 | with `maxSize` 4, a marker followed by `"ab"` gives chunks of 6 and 9 bytes |
| ChunkerProps.ClosingMarkerLeavesChunkOpen | split2.go:16-18 | the flag flips before the seal, so a closing marker that forces a seal leaves the sealed chunk without a closing marker |
| ChunkerProps.LongLineAfterReopenPanics | split2.go:27 | after a reopen makes the chunk longer than `maxSize`, a long line slices out of range |
| RawMessage.ProcessRawMessage | split2.go:9-60 | computes `Assemble` over the split lines; a run that does not panic emits chunks of at most `maxSize + 7` bytes; a blank message gives no chunk |
| Splitter.Pieces | testsplit.go:20-26 | what one raw line becomes: at least one line, each of which fits `maxSize` or is a non-empty piece of at most the long-line budget |
| Splitter.PresplitAll | testsplit.go:18-26 | pre-splitting never loses a line: there are at least as many lines after it as before |
| Splitter.PiecesRoundTrip | testsplit.go:20-26 | a line that fits passes through unchanged; a longer one becomes at least one piece, and the pieces glue back to the line |
| Splitter.PresplitAllAppend | testsplit.go:20-26 | pre-splitting works line by line and keeps the order |
| Splitter.PresplitAllShortLines | testsplit.go:20-26 | no line is lost, and lines that all fit pass through unchanged |
| Splitter.PresplitAllConcat | testsplit.go:20-26 | the pre-split lines glued together equal the raw lines glued together |
| Splitter.PresplitLines | testsplit.go:18-26 | the loop over raw lines computes `PresplitAll`: each line that does not fit is replaced by its `splitLongLine` pieces, the others are kept, in order |
| Splitter.SplitMessage | testsplit.go:12-78 | computes `Assemble` over the pre-split lines of the normalized, prefixed message; a run that does not panic emits chunks of at most `maxSize + 7` bytes |
| Splitter.Capped | testsplit.go:80-87 | keeps the old list as a prefix and adds exactly one entry unless the list already holds `maxSplit + 1`; below the limit that entry is the text; at the limit it is the truncation notice; from at most `maxSplit + 1` chunks the list stays within `maxSplit + 1` |
| Splitter.AddChunk | testsplit.go:80-89 | computes `Capped` and empties the builder |
| Splitter.AddAll | testsplit.go:80-89 | calls one after another keep the list as a prefix, never take a list within `maxSplit + 1` past it, and from below the limit add every text unless the limit is reached |
| Splitter.SaturatedStaysPut | testsplit.go:81 | once the list holds `maxSplit + 1` entries, further calls leave it as it is, so the notice stays last |
| Splitter.AddAllTruncates | testsplit.go:80-89 | calls one after another, from a list within the limit, keep the first `maxSplit` entries and put the notice last when there were more |

## Left out

- Debug printing and the two `main` demonstrations are I/O and sample data
  only.
- `replaceMentions`, `mentionRe` and the `userID` stub are not part of this
  model. They wrap Go's regular-expression engine and a user lookup that is
  a constant stub.
- Floating point: `maxSize` comes from `MaxSizeFactor * MaxMessageTextLength`
  and `minLen` from `0.5 * maxLen`. Both are integer values here, with
  `minLen = maxLen / 2`. That floor is exact for non-negative integers.
- Non-ASCII text: the model works on characters as bytes. Go's
  `string(s[0])` would re-encode a non-ASCII byte.
- Splitter.AddChunk: the Go function appends to its by-value slice
  parameter, so the caller never sees the appended entry. The model returns
  the new list instead. That Go slice aliasing is not captured.
- Chunker.AssembleLines: `maxSize > 0` is a precondition, so the model
  does not cover the sizes described above. For `maxSize < 0`, these are
  the panic on a non-empty line and the skipped empty lines. For
  `maxSize == 0`, they are the empty chunk per empty line and the endless
  loop on a non-empty line. The endless loop is shown only as one step
  without progress (`ZeroSizeMakesNoProgress`).
- The `slack` and `slackConnector` configuration structs are not modelled
  as structs. `MaxMessageSplit` and `maxSize` are parameters, and
  `MaxMessageTextLength` is the constant 200.
