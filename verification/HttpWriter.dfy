/** HTTPWriter: payload content collected in buffers and sent whole or chunk by chunk. */
module HttpWriter {
  import opened Bytes
  import opened HttpParser
  import opened HttpChunks
  import opened HttpPrint

  /** What one send puts on the wire after the headers. */
  function Payload(chunked: bool, final: bool, body: bytes): bytes {
    if chunked then Frame(body) + (if final then FINAL_CHUNK else []) else body
  }

  class Writer {
    /** The message head, given the content length, whether the connection is kept alive
        and whether chunks are being sent. */
    const head: (nat, bool, bool) -> bytes
    const supportsChunks: bool
    var contentBuffers: seq<bytes>
    var stream: bytes
    var streamIsEmpty: bool
    var contentLength: nat
    var sendingChunks: bool
    var sentHeaders: bool
    var keepAlive: bool
    /** What has been handed to the connection, one entry for each send. */
    var writes: seq<bytes>

    constructor (head: (nat, bool, bool) -> bytes, supportsChunks: bool, keepAlive: bool)
      ensures Valid() && Body() == [] && !sendingChunks && !sentHeaders && writes == []
      ensures this.head == head && this.supportsChunks == supportsChunks && this.keepAlive == keepAlive
    {
      this.head, this.supportsChunks, this.keepAlive := head, supportsChunks, keepAlive;
      contentBuffers, stream, streamIsEmpty, contentLength := [], [], true, 0;
      sendingChunks, sentHeaders, writes := false, false, [];
    }

    /** The length counts what is in the buffers, and a stream marked empty is empty. */
    ghost predicate Valid()
      reads this
    {
      contentLength == |Concat(contentBuffers)| && (streamIsEmpty ==> stream == [])
    }

    /** The payload written since the last clear. */
    ghost function Body(): bytes
      reads this
    {
      Concat(contentBuffers) + stream
    }

    method Clear()
      modifies this`contentBuffers, this`stream, this`streamIsEmpty, this`contentLength
      ensures Valid() && Body() == []
    {
      contentBuffers, stream, streamIsEmpty, contentLength := [], [], true, 0;
    }

    /** flushContentStream */
    method Flush()
      requires Valid()
      modifies this`contentBuffers, this`stream, this`streamIsEmpty, this`contentLength
      ensures Valid() && Body() == old(Body()) && stream == []
    {
      if !streamIsEmpty {
        var text := stream;
        if text != [] {
          stream := [];
          contentLength := contentLength + |text|;
          AppendOne(contentBuffers, text);
          contentBuffers := contentBuffers + [text];
        }
        streamIsEmpty := true;
      }
    }

    /** write, for text */
    method WriteText(data: bytes)
      requires Valid()
      modifies this`stream, this`streamIsEmpty
      ensures Valid() && Body() == old(Body()) + data
    {
      assert Concat(contentBuffers) + (stream + data) == Concat(contentBuffers) + stream + data;
      stream := stream + data;
      streamIsEmpty := false;
    }

    /** write and writeNoCopy, for binary data */
    method Write(data: bytes)
      requires Valid()
      modifies this`contentBuffers, this`stream, this`streamIsEmpty, this`contentLength
      ensures Valid() && Body() == old(Body()) + data
    {
      if data != [] {
        Flush();
        AppendOne(contentBuffers, data);
        contentBuffers := contentBuffers + [data];
        contentLength := contentLength + |data|;
      } else {
        assert Body() + data == Body();
      }
    }

    /** The bytes the next send will hand over. */
    ghost function Next(final: bool): bytes
      reads this
    {
      (if sentHeaders then [] else head(|Body()|, keepAlive, sendingChunks))
      + Payload(supportsChunks && sendingChunks, final, Body())
    }

    /** prepareWriteBuffers */
    method PrepareWriteBuffers(final: bool) returns (buffers: seq<bytes>)
      requires Valid() && stream == []
      modifies this`sentHeaders
      ensures Concat(buffers) == old(Next(final)) && sentHeaders
    {
      hide Numeral;
      ghost var body := Concat(contentBuffers);
      assert Body() == body;
      buffers := [];
      if !sentHeaders {
        buffers := [head(contentLength, keepAlive, sendingChunks)];
        sentHeaders := true;
      }
      ghost var start := Concat(buffers);
      assert start == if old(sentHeaders) then [] else head(|body|, keepAlive, sendingChunks) by {
        if !old(sentHeaders) {
          OneBuffer(buffers[0]);
        }
      }
      if contentLength > 0 {
        if supportsChunks && sendingChunks {
          ChunkBuffers(buffers, Numeral(contentLength, 16), contentBuffers);
          buffers := buffers + [Numeral(contentLength, 16), CRLF];
          buffers := buffers + contentBuffers;
          buffers := buffers + [CRLF];
        } else {
          ConcatAppend(buffers, contentBuffers);
          buffers := buffers + contentBuffers;
        }
      }
      assert Concat(buffers) == start + Payload(supportsChunks && sendingChunks, false, body);
      if final && supportsChunks && sendingChunks {
        FinalBuffers(buffers);
        buffers := buffers + [[48], CRLF, CRLF];
      }
    }

    /** sendMoreData; the content buffers stay as they are until the writer is cleared. */
    method SendMoreData(final: bool)
      requires Valid()
      modifies this
      ensures Valid() && Body() == old(Body()) && sentHeaders && sendingChunks == old(sendingChunks)
      ensures writes == old(writes) + [old(Next(final))] && keepAlive == old(keepAlive)
    {
      Flush();
      var buffers := PrepareWriteBuffers(final);
      writes := writes + [Concat(buffers)];
    }

    /** send */
    method Send()
      requires Valid()
      modifies this
      ensures Valid() && Body() == old(Body()) && sentHeaders && sendingChunks == old(sendingChunks)
      ensures writes == old(writes) + [old(Next(false))] && keepAlive == old(keepAlive)
    {
      SendMoreData(false);
    }

    /** sendChunk: a client without chunk support learns the end from the connection. */
    method SendChunk()
      requires Valid()
      modifies this
      ensures Valid() && Body() == old(Body()) && sentHeaders && sendingChunks
      ensures keepAlive == (old(keepAlive) && supportsChunks)
      ensures writes == old(writes)
                        + [(if old(sentHeaders) then [] else head(|old(Body())|, keepAlive, true))
                           + Payload(supportsChunks, false, old(Body()))]
    {
      sendingChunks := true;
      if !supportsChunks {
        keepAlive := false;
      }
      SendMoreData(false);
    }

    /** sendFinalChunk */
    method SendFinalChunk()
      requires Valid()
      modifies this
      ensures Valid() && Body() == old(Body()) && sentHeaders && sendingChunks && keepAlive == old(keepAlive)
      ensures writes == old(writes)
                        + [(if old(sentHeaders) then [] else head(|old(Body())|, keepAlive, true))
                           + Payload(supportsChunks, true, old(Body()))]
    {
      sendingChunks := true;
      SendMoreData(true);
    }
  }

  lemma OneBuffer(a: bytes)
    ensures Concat([a]) == a
  {
    assert [a][1..] == [];
  }

  lemma AppendOne(xs: seq<bytes>, a: bytes)
    ensures Concat(xs + [a]) == Concat(xs) + a
  {
    ConcatAppend(xs, [a]);
    OneBuffer(a);
  }

  lemma ChunkBuffers(buffers: seq<bytes>, size: bytes, content: seq<bytes>)
    ensures Concat(buffers + [size, CRLF] + content + [CRLF])
            == Concat(buffers) + (size + CRLF + Concat(content) + CRLF)
  {
    ConcatAppend(buffers + [size, CRLF] + content, [CRLF]);
    ConcatAppend(buffers + [size, CRLF], content);
    ConcatAppend(buffers, [size, CRLF]);
    AppendOne([size], CRLF);
    OneBuffer(size);
    OneBuffer(CRLF);
    assert [size, CRLF] == [size] + [CRLF];
  }

  lemma FinalBuffers(buffers: seq<bytes>)
    ensures Concat(buffers + [[48], CRLF, CRLF]) == Concat(buffers) + FINAL_CHUNK
  {
    ConcatAppend(buffers, [[48], CRLF, CRLF]);
    AppendOne([[48], CRLF], CRLF);
    AppendOne([[48]], CRLF);
    OneBuffer([48]);
    assert [[48], CRLF, CRLF] == [[48], CRLF] + [CRLF] && [[48], CRLF] == [[48]] + [CRLF];
    assert [48] + CRLF + CRLF == FINAL_CHUNK;
  }

  /** What the chunks of the first pieces put on the wire, the head before the first. */
  function SentSoFar(head: bytes, pieces: seq<bytes>): bytes {
    if pieces == [] then [] else head + Frames(pieces)
  }

  lemma SentMore(writes: seq<bytes>, start: bytes, head: bytes, pieces: seq<bytes>, i: nat, tail: bytes)
    requires i < |pieces| && Concat(writes) == start + SentSoFar(head, pieces[..i])
    ensures Concat(writes + [(if i == 0 then head else []) + (Frame(pieces[i]) + tail)])
            == start + SentSoFar(head, pieces[..i + 1]) + tail
  {
    hide Frame, Frames, Concat;
    var frame := Frame(pieces[i]);
    AppendOne(writes, (if i == 0 then head else []) + (frame + tail));
    FramesAppend(pieces[..i], pieces[i]);
    assert pieces[..i + 1] == pieces[..i] + [pieces[i]];
    if i == 0 {
      assert pieces[..i] == [];
      assert Frames([]) == [] by { NoFrames(); }
      Associate(start, head, frame, tail);
    } else {
      assert [] + (frame + tail) == frame + tail;
      AssociateAll(start, head, Frames(pieces[..i]), frame, tail);
    }
  }

  lemma NoFrames()
    ensures Frames([]) == []
  {
  }

  lemma Associate(a: bytes, b: bytes, c: bytes, d: bytes)
    ensures (a + []) + (b + (c + d)) == a + (b + ([] + c)) + d
  {
  }

  lemma AssociateAll(a: bytes, b: bytes, c: bytes, d: bytes, e: bytes)
    ensures a + (b + c) + (d + e) == a + (b + (c + d)) + e
  {
  }

  /** The way a chunked message is sent: each piece is written and sent as a chunk, the
      writer is cleared in between, and the last piece goes with the final chunk; if there is
      no piece, the final chunk goes alone. */
  method SendPieces(w: Writer, pieces: seq<bytes>)
    requires w.Valid() && w.Body() == [] && !w.sentHeaders && w.supportsChunks
    modifies w
    ensures var first := if pieces == [] then 0 else |pieces[0]|;
            Concat(w.writes) == Concat(old(w.writes)) + (w.head(first, old(w.keepAlive), true) + Framed(pieces))
  {
    hide Frame, Frames, Concat, SentSoFar;
    ghost var start := Concat(w.writes);
    if pieces == [] {
      ghost var writes, head := w.writes, w.head(0, w.keepAlive, true);
      w.SendFinalChunk();
      FinalAlone(writes, head);
      return;
    }
    ghost var head := w.head(|pieces[0]|, w.keepAlive, true);
    assert Concat(w.writes) == start + SentSoFar(head, pieces[..0]) by { NothingSent(head, pieces, start); }
    for i := 0 to |pieces| - 1
      invariant w.Valid() && w.Body() == [] && w.keepAlive == old(w.keepAlive) && w.sentHeaders == (i > 0)
      invariant Concat(w.writes) == start + SentSoFar(head, pieces[..i])
    {
      SentMore(w.writes, start, head, pieces, i, []);
      PayloadMore(pieces[i]);
      w.Write(pieces[i]);
      assert [] + pieces[i] == pieces[i];
      w.SendChunk();
      w.Clear();
    }
    var n := |pieces| - 1;
    SentMore(w.writes, start, head, pieces, n, FINAL_CHUNK);
    w.Write(pieces[n]);
    assert [] + pieces[n] == pieces[n];
    w.SendFinalChunk();
    assert pieces[..n + 1] == pieces;
    AllSent(head, pieces, start);
  }

  lemma FinalAlone(writes: seq<bytes>, head: bytes)
    ensures Concat(writes + [head + Payload(true, true, [])]) == Concat(writes) + (head + Framed([]))
  {
    AppendOne(writes, head + Payload(true, true, []));
    assert Payload(true, true, []) == [] + FINAL_CHUNK == Framed([]);
  }

  lemma NothingSent(head: bytes, pieces: seq<bytes>, start: bytes)
    ensures start == start + SentSoFar(head, pieces[..0])
  {
  }

  lemma AllSent(head: bytes, pieces: seq<bytes>, start: bytes)
    requires pieces != []
    ensures start + SentSoFar(head, pieces) + FINAL_CHUNK == start + (head + Framed(pieces))
  {
  }

  lemma PayloadMore(piece: bytes)
    ensures Payload(true, false, piece) == Frame(piece) + []
  {
  }

  lemma {:induction false} FramesAppend(pieces: seq<bytes>, piece: bytes)
    ensures Frames(pieces + [piece]) == Frames(pieces) + Frame(piece)
    decreases |pieces|
  {
    if pieces == [] {
      assert [piece][1..] == [] && [] + [piece] == [piece];
    } else {
      assert (pieces + [piece])[1..] == pieces[1..] + [piece];
      FramesAppend(pieces[1..], piece);
    }
  }
}
