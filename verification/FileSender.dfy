/** DiskFileSender: a file sent in pieces, from memory or from the disk. */
module FileSender {
  import opened Wrappers
  import opened Bytes
  import opened HttpParser
  import opened HttpChunks
  import opened HttpPrint
  import opened HttpWriter

  // ---------------------------------------------------------------- what is to be sent

  /** How much of `n` remaining bytes goes into the next piece; a limit of 0 means none. */
  function NextSize(n: nat, max: nat): nat { if max > 0 && n > max then max else n }

  /** The file cut into pieces. */
  function Pieces(data: bytes, max: nat): seq<bytes>
    decreases |data|
  {
    if data == [] then []
    else var n := NextSize(|data|, max); [data[..n]] + Pieces(data[n..], max)
  }

  /** The pieces make up the file; none is empty or over the limit. */
  lemma {:induction false} PiecesCover(data: bytes, max: nat)
    ensures Concat(Pieces(data, max)) == data
    ensures forall i :: 0 <= i < |Pieces(data, max)| ==>
            0 < |Pieces(data, max)[i]| && (max > 0 ==> |Pieces(data, max)[i]| <= max)
    ensures forall i :: 0 <= i < |Pieces(data, max)| ==> |Pieces(data, max)[i]| <= |data|
    decreases |data|
  {
    if data != [] {
      var n := NextSize(|data|, max);
      PiecesCover(data[n..], max);
      assert data == data[..n] + data[n..];
      var tail := Pieces(data[n..], max);
      assert ([data[..n]] + tail)[1..] == tail;
    }
  }

  /** A head as the writer makes it. */
  type HeadMaker = (nat, bool, bool) -> bytes

  /** One write: the first carries the head, the last ends the body. */
  function WriteOf(head: HeadMaker, supports: bool, keep: bool, piece: bytes, first: bool, last: bool): bytes {
    if last then (if first then head(|piece|, keep, false) + piece else Payload(supports, true, piece))
    else (if first then head(|piece|, keep && supports, true) else []) + Payload(supports, false, piece)
  }

  /** The writes still to come when `data` is left; `first` until something has been sent. */
  function Wire(head: HeadMaker, supports: bool, keep: bool, max: nat, data: bytes, first: bool): seq<bytes>
    decreases |data|
  {
    var n := NextSize(|data|, max);
    [WriteOf(head, supports, keep, data[..n], first, n == |data|)]
    + if n == |data| then [] else Wire(head, supports, keep, max, data[n..], false)
  }

  datatype Sending = SendAll | SendChunk | SendFinalChunk

  /** The kinds of those writes. */
  function Kinds(max: nat, n: nat, first: bool): seq<Sending>
    decreases n
  {
    var k := NextSize(n, max);
    if k == n then [if first then SendAll else SendFinalChunk] else [SendChunk] + Kinds(max, n - k, false)
  }

  // ---------------------------------------------------------------- the sender

  datatype Outcome = NotSent | SentEmpty | SentPiece

  class DiskFileSender {
    /** The recorded size; the file in memory, if cached; the file on disk, if it can be opened. */
    const size: nat
    const cached: Option<bytes>
    const disk: Option<bytes>
    const maxChunk: nat
    const writer: Writer
    var isOpen: bool
    var streamPos: nat
    var contentBuf: array?<byte>
    var toSend: nat
    var bytesSent: nat
    var sendings: seq<Sending>

    constructor (size: nat, cached: Option<bytes>, disk: Option<bytes>, maxChunk: nat, writer: Writer)
      requires cached.Some? ==> |cached.value| == size
      requires writer.Valid() && writer.Body() == [] && !writer.sentHeaders && !writer.sendingChunks
      ensures Valid() && bytesSent == 0 && sendings == [] && contentBuf == null
      ensures this.size == size && this.cached == cached && this.disk == disk && this.maxChunk == maxChunk
              && this.writer == writer
    {
      this.size, this.cached, this.disk, this.maxChunk, this.writer := size, cached, disk, maxChunk, writer;
      isOpen, streamPos, contentBuf, toSend, bytesSent, sendings := false, 0, null, 0, 0, [];
    }

    /** The content buffer, sized for the first piece, holds every later one; the stream has
        been read as far as the file has been sent. */
    ghost predicate Valid()
      reads this, writer
    {
      && (cached.Some? ==> |cached.value| == size && !isOpen)
      && bytesSent <= size && (bytesSent > 0 ==> bytesSent < size)
      && (isOpen ==> disk.Some?) && (isOpen ==> streamPos == bytesSent) && (!isOpen ==> streamPos == 0)
      && (cached.None? && bytesSent > 0 ==> isOpen && contentBuf != null && streamPos <= |disk.value|)
      && (contentBuf != null ==> contentBuf.Length == NextSize(size, maxChunk))
      && writer.Valid() && writer.Body() == []
      && (writer.sentHeaders <==> bytesSent > 0) && (bytesSent > 0 ==> writer.sendingChunks)
      && (!writer.sentHeaders ==> !writer.sendingChunks)
    }

    /** The recorded number of bytes can be had. */
    predicate Readable() { size == 0 || cached.Some? || (disk.Some? && |disk.value| >= size) }

    /** The bytes to be delivered. */
    function Data(): (d: bytes)
      requires Readable() && (cached.Some? ==> |cached.value| == size)
      ensures |d| == size
    {
      if size == 0 then [] else if cached.Some? then cached.value else disk.value[..size]
    }

    /** The next block read from the file into the content buffer. */
    method ReadBlock() returns (ok: bool)
      requires Valid() && cached.None? && bytesSent < size && toSend == NextSize(size - bytesSent, maxChunk)
      modifies this`isOpen, this`streamPos, this`contentBuf, contentBuf
      ensures contentBuf == old(contentBuf) || fresh(contentBuf)
      ensures ok <==> disk.Some? && bytesSent + toSend <= |disk.value|
      ensures ok ==> isOpen && streamPos == bytesSent + toSend && contentBuf != null
                     && contentBuf.Length == NextSize(size, maxChunk)
                     && contentBuf[..toSend] == disk.value[bytesSent..bytesSent + toSend]
    {
      if !isOpen {
        if disk.None? {
          return false;
        }
        isOpen := true;
      }
      if contentBuf == null {
        contentBuf := new byte[toSend];
      }
      if streamPos + toSend > |disk.value| {
        return false;
      }
      forall i | 0 <= i < toSend {
        contentBuf[i] := disk.value[streamPos + i];
      }
      streamPos := streamPos + toSend;
      ok := true;
    }

    /** The block of data for the next piece, from memory or from the file. */
    method NextPiece() returns (piece: Option<bytes>)
      requires Valid() && bytesSent < size && toSend == NextSize(size - bytesSent, maxChunk)
      modifies this`isOpen, this`streamPos, this`contentBuf, contentBuf
      ensures contentBuf == old(contentBuf) || fresh(contentBuf)
      ensures piece.Some? <==> cached.Some? || (disk.Some? && bytesSent + toSend <= |disk.value|)
      ensures piece.Some? ==> piece.value == (if cached.Some? then cached.value
              else disk.value)[bytesSent..bytesSent + toSend]
      ensures piece.Some? && cached.None? ==>
                isOpen && streamPos == bytesSent + toSend && contentBuf != null
                    && contentBuf.Length == NextSize(size, maxChunk)
      ensures cached.Some? ==> isOpen == old(isOpen) && streamPos == old(streamPos) && contentBuf == old(contentBuf)
    {
      if cached.Some? {
        return Some(cached.value[bytesSent..bytesSent + toSend]);
      }
      var ok := ReadBlock();
      piece := if ok then Some(contentBuf[..toSend]) else None;
    }

    /** Between a write and its completion. */
    ghost predicate Sent()
      reads this, writer
    {
      && (cached.Some? ==> |cached.value| == size && !isOpen)
      && bytesSent < size && toSend == NextSize(size - bytesSent, maxChunk) && bytesSent + toSend <= size
      && (isOpen ==> disk.Some?) && (!isOpen ==> streamPos == 0)
      && (cached.None? ==> isOpen && contentBuf != null && streamPos <= |disk.value|)
      && (isOpen ==> streamPos == bytesSent + toSend)
      && (contentBuf != null ==> contentBuf.Length == NextSize(size, maxChunk))
      && writer.Valid() && writer.sentHeaders && (bytesSent + toSend < size ==> writer.sendingChunks)
    }

    /** The calls of send on the writer. */
    method SendPiece(piece: bytes)
      requires writer.Valid() && writer.Body() == [] && bytesSent < size && |piece| == toSend <= size - bytesSent
      requires writer.sentHeaders <==> bytesSent > 0
      requires writer.sendingChunks <==> bytesSent > 0
      modifies this`sendings, writer
      ensures writer.Valid() && writer.sentHeaders && (bytesSent + toSend < size ==> writer.sendingChunks)
      ensures var last := bytesSent + toSend == size;
              && writer.writes == old(writer.writes)
                                 + [WriteOf(writer.head, writer.supportsChunks, old(writer.keepAlive), piece,
                                     bytesSent == 0, last)]
              && writer.keepAlive == (old(writer.keepAlive) && (last || writer.supportsChunks))
              && sendings == old(sendings) + [if last then (if bytesSent == 0 then SendAll else SendFinalChunk)
                  else SendChunk]
    {
      hide Payload, Concat;
      assert [] + piece == piece;
      writer.Write(piece);
      if bytesSent + toSend >= size {
        if bytesSent > 0 {
          assert [] + Payload(writer.supportsChunks, true, piece) == Payload(writer.supportsChunks, true, piece);
          writer.SendFinalChunk();
          sendings := sendings + [SendFinalChunk];
        } else {
          PlainPayload(writer.supportsChunks, piece);
          writer.Send();
          sendings := sendings + [SendAll];
        }
      } else {
        writer.SendChunk();
        sendings := sendings + [SendChunk];
      }
    }

    /** send: one write, or none if the file cannot be read. */
    method Send() returns (outcome: Outcome)
      requires Valid()
      modifies this, writer, contentBuf
      ensures bytesSent == old(bytesSent) && (contentBuf == old(contentBuf) || fresh(contentBuf))
      ensures outcome.NotSent? ==> writer.writes == old(writer.writes) && sendings == old(sendings) && !Readable()
      ensures outcome.SentEmpty? <==> size <= bytesSent
      ensures outcome.SentEmpty? ==>
                && writer.writes == old(writer.writes) + [writer.head(0, old(writer.keepAlive), false)]
                && sendings == old(sendings) + [SendAll] && writer.keepAlive == old(writer.keepAlive)
      ensures outcome.SentPiece? ==>
                var last := bytesSent + toSend == size;
                && Sent() && bytesSent < size && toSend == NextSize(size - bytesSent, maxChunk)
                    && bytesSent + toSend <= size
                && sendings == old(sendings) + [if last then (if bytesSent == 0 then SendAll else SendFinalChunk)
                    else SendChunk]
                && writer.keepAlive == (old(writer.keepAlive) && (last || writer.supportsChunks))
                && (cached.Some? || (disk.Some? && bytesSent + toSend <= |disk.value|))
                && writer.writes == old(writer.writes)
                                   + [WriteOf(writer.head, writer.supportsChunks, old(writer.keepAlive),
                                              (if cached.Some? then cached.value
                                                  else disk.value)[bytesSent..bytesSent + toSend],
                                              bytesSent == 0, last)]
    {
      hide WriteOf, Concat;
      if size <= bytesSent {
        PlainPayload(writer.supportsChunks, []);
        writer.Send();
        assert writer.head(0, old(writer.keepAlive), false) + [] == writer.head(0, old(writer.keepAlive), false);
        sendings := sendings + [SendAll];
        return SentEmpty;
      }
      toSend := NextSize(size - bytesSent, maxChunk);
      var piece := NextPiece();
      if piece.None? {
        return NotSent;
      }
      SendPiece(piece.value);
      outcome := SentPiece;
    }

    /** handleWrite: after an error the connection will be closed; otherwise, unless the
        file is finished, the writer is cleared for the next piece. */
    method HandleWrite(error: bool) returns (again: bool)
      requires Sent()
      modifies this`bytesSent, writer
      ensures writer.writes == old(writer.writes)
      ensures error ==> !again && !writer.keepAlive && bytesSent == old(bytesSent)
      ensures !error ==>
                && bytesSent == old(bytesSent) + toSend && again == (bytesSent < size)
                && writer.keepAlive == old(writer.keepAlive)
      ensures again ==> Valid() && bytesSent > old(bytesSent)
    {
      again := false;
      if error {
        writer.keepAlive := false;
      } else {
        bytesSent := bytesSent + toSend;
        if bytesSent < size {
          again := true;
          writer.Clear();
        }
      }
    }

    /** The writes still to come. */
    ghost function ToCome(keep: bool): seq<bytes>
      requires Readable() && (cached.Some? ==> |cached.value| == size) && bytesSent <= size
      reads this
    {
      Wire(writer.head, writer.supportsChunks, keep, maxChunk, Data()[bytesSent..], bytesSent == 0)
    }

    /** A send and the completion of its write. */
    method Turn() returns (sent: bool, again: bool)
      requires Valid() && bytesSent < size
      modifies this, writer, contentBuf
      ensures contentBuf == old(contentBuf) || fresh(contentBuf)
      ensures !sent ==> !Readable() && !again
      ensures sent && !again ==> Readable() && bytesSent == size
      ensures sent && !again ==> writer.writes == old(writer.writes) + old(ToCome(writer.keepAlive))
      ensures again ==> Valid() && bytesSent > old(bytesSent)
      ensures sent ==>
                && bytesSent == old(bytesSent) + NextSize(old(size - bytesSent), maxChunk)
                    && again == (bytesSent < size)
                && writer.keepAlive == (old(writer.keepAlive) && (again ==> writer.supportsChunks))
      ensures again && Readable() ==>
                writer.writes + ToCome(writer.keepAlive) == old(writer.writes) + old(ToCome(writer.keepAlive))
      ensures sent ==> sendings + (if again then Kinds(maxChunk, size - bytesSent, false) else [])
                       == old(sendings) + Kinds(maxChunk, old(size - bytesSent), old(bytesSent) == 0)
    {
      hide Kinds, Wire, WriteOf, Concat, NextSize, Payload, Sent;
      ghost var writes, keep, at, kinds := writer.writes, writer.keepAlive, bytesSent, sendings;
      ghost var source := if cached.Some? then cached.value else if disk.Some? then disk.value else [];
      var outcome := Send();
      if outcome.NotSent? {
        return false, false;
      }
      KindsTurn(kinds, sendings, maxChunk, size - at, at == 0);
      again := HandleWrite(false);
      sent := true;
      if Readable() {
        SliceTail(source, size, at, toSend);
        assert Data()[at..][toSend..] == Data()[bytesSent..];
        WireTurn(writes, writer.writes, writer.head, writer.supportsChunks, keep, maxChunk, Data()[at..], at == 0,
                 source[at..at + toSend]);
      }
    }

    /** send, and send again from each completed write, until the file is finished: without
        write errors the run ends, and the file is delivered exactly if it can be read. */
    method Deliver() returns (ok: bool)
      requires Valid() && bytesSent == 0 && sendings == []
      modifies this, writer, contentBuf
      ensures ok == Readable()
      ensures ok ==> writer.writes == old(writer.writes)
                                     + Wire(writer.head, writer.supportsChunks, old(writer.keepAlive), maxChunk,
                                         Data(), true)
      ensures ok ==> sendings == Kinds(maxChunk, size, true)
      ensures ok && size > 0 ==> bytesSent == size
      ensures ok ==> writer.keepAlive
                     == (old(writer.keepAlive) && (writer.supportsChunks || NextSize(size, maxChunk) == size))
    {
      hide Kinds, Wire, WriteOf, Concat, NextSize;
      assert Readable() ==> Data()[0..] == Data();
      if size == 0 {
        NothingNext(maxChunk);
        ghost var writes, keep := writer.writes, writer.keepAlive;
        var _ := Send();
        KindsTurn([], sendings, maxChunk, 0, true);
        EmptyWrite(writer.head, writer.supportsChunks, keep);
        WireTurn(writes, writer.writes, writer.head, writer.supportsChunks, keep, maxChunk, [], true, []);
        return true;
      }
      assert [] + Kinds(maxChunk, size, true) == Kinds(maxChunk, size, true);
      var again := true;
      while again
        invariant contentBuf == old(contentBuf) || fresh(contentBuf)
        invariant again ==> Valid() && bytesSent < size
        invariant again && Readable() ==>
                    writer.writes + ToCome(writer.keepAlive) == old(writer.writes) + old(ToCome(writer.keepAlive))
        invariant again ==> sendings + Kinds(maxChunk, size - bytesSent, bytesSent == 0) == Kinds(maxChunk, size, true)
        invariant !again ==> Readable() && bytesSent == size && sendings == Kinds(maxChunk, size, true)
                             && writer.writes == old(writer.writes) + old(ToCome(writer.keepAlive))
        invariant again ==> writer.keepAlive == (old(writer.keepAlive) && (bytesSent > 0 ==> writer.supportsChunks))
        invariant again && bytesSent > 0 ==> NextSize(size, maxChunk) != size
        invariant !again ==>
                    writer.keepAlive
                    == (old(writer.keepAlive) && (writer.supportsChunks || NextSize(size, maxChunk) == size))
        decreases again, if again then size - bytesSent else 0
      {
        var sent;
        sent, again := Turn();
        if !sent {
          return false;
        }
      }
      ok := true;
    }
  }

  lemma NothingNext(max: nat)
    ensures NextSize(0, max) == 0
  {
  }

  lemma SliceTail(source: bytes, size: nat, at: nat, n: nat)
    requires at + n <= size <= |source|
    ensures source[..size][at..][..n] == source[at..at + n]
    ensures source[..size][at..][n..] == source[..size][at + n..]
  {
  }

  /** The effect of one write on what has been and what will be written. */
  lemma WireTurn(writes: seq<bytes>, writes': seq<bytes>, head: HeadMaker, supports: bool, keep: bool, max: nat,
      data: bytes,
                 first: bool, piece: bytes)
    requires piece == data[..NextSize(|data|, max)]
    requires writes' == writes + [WriteOf(head, supports, keep, piece, first, |piece| == |data|)]
    ensures var n := NextSize(|data|, max);
            if n == |data| then writes' == writes + Wire(head, supports, keep, max, data, first)
            else writes' + Wire(head, supports, keep && supports, max, data[n..], false)
                 == writes + Wire(head, supports, keep, max, data, first)
  {
    hide Wire, WriteOf;
    WireStep(head, supports, keep, max, data, first);
    var n := NextSize(|data|, max);
    var w := WriteOf(head, supports, keep, piece, first, |piece| == |data|);
    if n < |data| {
      var later := Wire(head, supports, keep && supports, max, data[n..], false);
      assert writes + ([w] + later) == writes + [w] + later;
    } else {
      assert [w] + [] == [w];
    }
  }

  lemma KindsTurn(kinds: seq<Sending>, kinds': seq<Sending>, max: nat, n: nat, first: bool)
    ensures var k := NextSize(n, max);
            && (k == n && kinds' == kinds + [if first then SendAll else SendFinalChunk] ==>
                kinds' + [] == kinds + Kinds(max, n, first))
            && (k < n && kinds' == kinds + [SendChunk] ==>
                kinds' + Kinds(max, n - k, false) == kinds + Kinds(max, n, first))
  {
    hide Kinds;
    KindsStep(max, n, first);
  }

  /** One write, then the others; chunks of one kind do not need the connection's lifetime. */
  lemma WireStep(head: HeadMaker, supports: bool, keep: bool, max: nat, data: bytes, first: bool)
    ensures var n := NextSize(|data|, max);
            Wire(head, supports, keep, max, data, first)
            == [WriteOf(head, supports, keep, data[..n], first, n == |data|)]
               + if n == |data| then [] else Wire(head, supports, keep && supports, max, data[n..], false)
  {
    var n := NextSize(|data|, max);
    if n < |data| {
      KeepUnused(head, supports, keep, keep && supports, max, data[n..]);
    }
  }

  lemma {:induction false} KeepUnused(head: HeadMaker, supports: bool, keep: bool, keep': bool, max: nat, data: bytes)
    ensures Wire(head, supports, keep, max, data, false) == Wire(head, supports, keep', max, data, false)
    decreases |data|
  {
    var n := NextSize(|data|, max);
    if n < |data| {
      KeepUnused(head, supports, keep, keep', max, data[n..]);
    }
  }

  lemma KindsStep(max: nat, n: nat, first: bool)
    ensures var k := NextSize(n, max);
            Kinds(max, n, first) == if k == n then [if first then SendAll else SendFinalChunk]
                else [SendChunk] + Kinds(max, n - k, false)
  {
  }

  lemma EmptyWrite(head: HeadMaker, supports: bool, keep: bool)
    ensures WriteOf(head, supports, keep, [], true, true) == head(0, keep, false)
  {
  }

  // ---------------------------------------------------------------- what arrives

  lemma ConcatFirst(a: bytes, xs: seq<bytes>)
    ensures Concat([a] + xs) == a + Concat(xs)
  {
    assert ([a] + xs)[1..] == xs;
  }

  lemma FramesFirst(a: bytes, xs: seq<bytes>)
    ensures Frames([a] + xs) == Frame(a) + Frames(xs)
  {
    assert ([a] + xs)[1..] == xs;
  }

  lemma PiecesStep(data: bytes, max: nat)
    ensures data == [] ==> Pieces(data, max) == []
    ensures data != [] ==> var n := NextSize(|data|, max); Pieces(data, max) == [data[..n]] + Pieces(data[n..], max)
  {
  }

  /** The writes after the first, put together. */
  lemma {:induction false} LaterWrites(head: HeadMaker, supports: bool, keep: bool, max: nat, data: bytes)
    requires data != []
    ensures Concat(Wire(head, supports, keep, max, data, false))
            == if supports then Framed(Pieces(data, max)) else data
    decreases |data|
  {
    hide Frame, Frames, Concat, Wire, Pieces;
    var n := NextSize(|data|, max);
    var now, later := data[..n], data[n..];
    var w := WriteOf(head, supports, keep, now, false, n == |data|);
    WireStep(head, supports, keep, max, data, false);
    PiecesStep(data, max);
    PiecesStep(later, max);
    FramesFirst(now, Pieces(later, max));
    if n == |data| {
      assert now == data && later == [];
      NoFrames();
      OneBuffer(w);
      assert [w] + [] == [w];
      assert Frame(now) + [] == Frame(now);
    } else {
      var tail := Wire(head, supports, keep && supports, max, later, false);
      LaterWrites(head, supports, keep && supports, max, later);
      ConcatFirst(w, tail);
      if supports {
        FrameFirst(Frame(now), Frames(Pieces(later, max)), w);
      } else {
        assert [] + now + later == data;
      }
    }
  }

  lemma FrameFirst(a: bytes, b: bytes, first: bytes)
    requires first == [] + (a + [])
    ensures first + (b + FINAL_CHUNK) == a + b + FINAL_CHUNK
  {
  }

  /** What a delivery puts on the wire: a file that fits into one piece goes as it is, after
      a head that knows its size; a larger one goes in chunks, one for each piece, or without
      framing to a client that does not support chunks, over a connection then closed. */
  lemma DeliveredBytes(head: HeadMaker, supports: bool, keep: bool, max: nat, data: bytes)
    ensures Concat(Wire(head, supports, keep, max, data, true))
            == if NextSize(|data|, max) == |data| then head(|data|, keep, false) + data
               else head(max, keep && supports, true) + if supports then Framed(Pieces(data, max)) else data
  {
    hide Frame, Frames, Concat, Wire, Pieces;
    var n := NextSize(|data|, max);
    var now, later := data[..n], data[n..];
    var w := WriteOf(head, supports, keep, now, true, n == |data|);
    WireStep(head, supports, keep, max, data, true);
    if n == |data| {
      assert now == data;
      OneBuffer(w);
      assert [w] + [] == [w];
    } else {
      var tail := Wire(head, supports, keep && supports, max, later, false);
      LaterWrites(head, supports, keep && supports, max, later);
      ConcatFirst(w, tail);
      PiecesStep(data, max);
      FramesFirst(now, Pieces(later, max));
      if supports {
        HeadFirst(head(max, keep, true), Frame(now), Frames(Pieces(later, max)), w);
      } else {
        assert head(max, false, true) + now + later == head(max, false, true) + data;
      }
    }
  }

  lemma HeadFirst(h: bytes, a: bytes, b: bytes, first: bytes)
    requires first == h + (a + [])
    ensures first + (b + FINAL_CHUNK) == h + (a + b + FINAL_CHUNK)
  {
  }

  /** Exactly one of the sends ends the message, and it is the last: the whole file at once,
      or the final chunk after at least one other chunk. */
  lemma {:induction false} OneTerminatingSend(max: nat, n: nat, first: bool)
    ensures var ks := Kinds(max, n, first);
            && |ks| > 0 && (forall i :: 0 <= i < |ks| ==> (ks[i].SendChunk? <==> i < |ks| - 1))
            && (ks[|ks| - 1].SendAll? <==> first && |ks| == 1)
    decreases n
  {
    var k := NextSize(n, max);
    if k < n {
      OneTerminatingSend(max, n - k, false);
    }
  }

  lemma PlainPayload(supports: bool, piece: bytes)
    ensures Payload(supports && false, false, piece) == piece
  {
  }
}
