/** From the disk to the parser at the other end. */
module FileDelivery {
  import opened Bytes
  import opened HttpParser
  import opened HttpChunks
  import opened HttpPrint
  import opened HttpReceive
  import opened HttpResponses
  import opened HttpWriter
  import opened FileSender

  /** The head maker of a response writer. */
  function HeadFor(r: Response, supports: bool): HeadMaker {
    (n, keepAlive, chunks) => ResponseHead(r, supports, n, keepAlive, chunks)
  }

  lemma PiecesSendable(data: bytes, max: nat)
    requires |data| <= LONG_MAX
    ensures Sendable(Pieces(data, max)) && Concat(Pieces(data, max)) == data
  {
    hide Pieces, Concat;
    PiecesCover(data, max);
  }

  /** File delivery, end to end: whatever the file, the piece size and the client, parsing
      what the sender has written yields the file, cut at max_content_length.  A client that
      gets framing or a length finds the end by itself and leaves what follows alone; one
      that does not support chunks finds it at the end of the connection, which the sender
      has marked for closing. */
  lemma FileArrives(g: Config, r: Response, supports: bool, keep: bool, max: nat, data: bytes, rest: bytes)
    requires !g.isRequest && Undelimited(r) && |data| <= LONG_MAX
    ensures var s := Concat(Wire(HeadFor(r, supports), supports, keep, max, data, true));
            if supports || NextSize(|data|, max) == |data| then
              var t := Run(g, NewParser(g, EMPTY_MESSAGE), s + rest);
              t.verdict == Done && t.rest == rest && Arrived(g, t.p, r, data)
            else
              var t := Run(g, NewParser(g, EMPTY_MESSAGE), s);
              t.verdict == More && AtEof(g, t.p).Received? && Arrived(g, AtEof(g, t.p).p, r, data)
  {
    hide Run, Wire, Undelimited, ResponseHead, Framed, Pieces, Concat, Arrived, AtEof;
    DeliveredBytes(HeadFor(r, supports), supports, keep, max, data);
    if NextSize(|data|, max) == |data| {
      SizedArrives(g, r, supports, keep, data, rest);
    } else if supports {
      PiecesSendable(data, max);
      ChunkedArrives(g, r, max, keep, Pieces(data, max), rest);
    } else {
      UnframedArrives(g, r, max, false, data);
    }
  }
}
