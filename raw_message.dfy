/** `processRawMessage`: a message split on newlines and packed into chunks
    by the assembler loop. */
module RawMessage {
  import opened Text
  import opened Chunker
  import ChunkerProps

  /** The chunks for `message`, or the slice panic the Go code runs into.
      Whatever the message, a run that does not panic emits chunks of at
      most `maxSize + 7` bytes, and a message of spaces and newlines only
      gives no chunk at all. */
  method ProcessRawMessage(message: string, maxSize: int) returns (r: Result<seq<string>>)
    requires maxSize > 0
    ensures r == Assemble(SplitLines(message), maxSize)
    ensures r.Ok? ==> forall c :: c in r.value ==> |c| <= maxSize + 7
    ensures (forall j :: 0 <= j < |message| ==> message[j] == ' ' || message[j] == '\n') ==> r == Ok([])
  {
    var lines := SplitLines(message);
    r := AssembleLines(lines, maxSize);
    ChunkerProps.ChunksWithinSlack(lines, maxSize);
    if forall j :: 0 <= j < |message| ==> message[j] == ' ' || message[j] == '\n' {
      ChunkerProps.BlankMessageNoChunks(message, maxSize);
    }
  }
}
