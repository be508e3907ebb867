/** Chunk framing as HTTPWriter prints it, and parseChunks reading it back. */
module HttpChunks {
  import opened Bytes
  import opened HttpParser
  import opened HttpSegments
  import opened HttpPhases

  /** parseChunks may be interrupted anywhere. */
  lemma {:induction false} ChunkRunSplits(max: nat, k: Chunk, a: bytes, b: bytes)
    requires ChunkOk(k)
    ensures var r := ChunkRun(max, k, a);
            ChunkRun(max, k, a + b)
            == if r.verdict.More? then (var t := ChunkRun(max, r.k, b); t.(n := |a| + t.n)) else r
    decreases |a|
  {
    hide ChunkStep;
    if a == [] {
      assert a + b == b;
    } else {
      assert (a + b)[0] == a[0] && (a + b)[1..] == a[1..] + b;
      var out := ChunkStep(max, k, a[0]);
      if out.CMore? {
        ChunkRunSplits(max, out.k, a[1..], b);
      }
    }
  }

  /** The state after `n` more bytes of chunk data, with the given chunk cache. */
  function AfterData(k: Chunk, n: nat, cache: bytes): Chunk {
    k.(got := k.got + n, cache := cache, state := if k.got + n == k.size then CrAfterData else Data)
  }

  lemma DataByte(max: nat, k: Chunk, c: byte)
    requires ChunkOk(k) && k.state.Data? && k.got < k.size && |k.cache| <= max
    ensures ChunkStep(max, k, c) == CMore(AfterData(k, 1, Take(k.cache + [c], max)))
  {
  }

  lemma TakeTake(cache: bytes, c: byte, s: bytes, max: nat)
    requires |cache| <= max
    ensures Take(Take(cache + [c], max) + s, max) == Take(cache + ([c] + s), max)
  {
    assert cache + ([c] + s) == cache + [c] + s;
  }

  /** Data within one chunk goes into the cache, as far as the limit allows. */
  lemma {:induction false} DataRun(max: nat, k: Chunk, s: bytes)
    requires ChunkOk(k) && k.state.Data? && s != [] && k.got + |s| <= k.size && |k.cache| <= max
    ensures ChunkRun(max, k, s) == ChunkResult(AfterData(k, |s|, Take(k.cache + s, max)), |s|, More)
    decreases |s|
  {
    hide ChunkStep, Take;
    var c, tail := s[0], s[1..];
    DataByte(max, k, c);
    var k1 := AfterData(k, 1, Take(k.cache + [c], max));
    assert s == [c] + tail;
    assert |Take(k.cache + [c], max)| <= max by { TakeFits(k.cache + [c], max); }
    if tail == [] {
      assert ChunkRun(max, k1, tail) == ChunkResult(k1, 0, More);
      assert s == [c];
    } else {
      DataRun(max, k1, tail);
      TakeTake(k.cache, c, tail, max);
    }
  }

  lemma TakeFits(s: bytes, max: nat)
    ensures |Take(s, max)| <= max
  {
  }

  // ---------------------------------------------------------------- framing

  /** One chunk: its length in hexadecimal, the data, and line ends; nothing for no data. */
  function Frame(piece: bytes): bytes {
    if piece == [] then [] else Numeral(|piece|, 16) + CRLF + piece + CRLF
  }

  /** The zero-length chunk that ends the body. */
  const FINAL_CHUNK: bytes := [48, CR, LF, CR, LF]

  function Frames(pieces: seq<bytes>): bytes {
    if pieces == [] then [] else Frame(pieces[0]) + Frames(pieces[1..])
  }

  /** A whole chunked body. */
  function Framed(pieces: seq<bytes>): bytes { Frames(pieces) + FINAL_CHUNK }

  /** The bytes `s` bring the chunk parser from `k` to `k'`. */
  predicate Leads(max: nat, k: Chunk, s: bytes, k': Chunk) {
    ChunkOk(k) && ChunkRun(max, k, s) == ChunkResult(k', |s|, More)
  }

  lemma LeadsTwo(max: nat, k: Chunk, a: bytes, k1: Chunk, b: bytes, k2: Chunk)
    requires Leads(max, k, a, k1) && Leads(max, k1, b, k2)
    ensures Leads(max, k, a + b, k2)
  {
    hide ChunkRun;
    ChunkRunSplits(max, k, a, b);
  }

  lemma LeadsOne(max: nat, k: Chunk, c: byte, k': Chunk)
    requires ChunkOk(k) && ChunkStep(max, k, c) == CMore(k')
    ensures Leads(max, k, [c], k')
  {
    hide ChunkStep;
    assert [c][1..] == [];
    assert ChunkRun(max, k', []) == ChunkResult(k', 0, More);
  }

  lemma {:induction false} LeadsDigits(max: nat, k: Chunk, s: bytes)
    requires ChunkOk(k) && k.state.SizeStart? && s != [] && forall i :: 0 <= i < |s| ==> IsHexDigit(s[i])
    ensures Leads(max, k, s, k.(digits := s, state := Size))
    decreases |s|
  {
    hide Leads;
    var n := |s| - 1;
    var t, c := s[..n], s[n];
    assert s == t + [c];
    var k' := k.(digits := s, state := Size);
    if t == [] {
      assert s == [c];
      LeadsOne(max, k, c, k');
    } else {
      var k1 := k.(digits := t, state := Size);
      LeadsDigits(max, k, t);
      LeadsOne(max, k1, c, k');
      LeadsTwo(max, k, t, k1, [c], k');
    }
  }

  lemma HexRoundTrip(n: nat)
    requires n <= LONG_MAX
    ensures ParseHex(Numeral(n, 16)) == n
  {
    hide Numeral, NumeralValue;
    NumeralRoundTrip(n, 16);
  }

  /** The size line of a chunk. */
  lemma LeadsSize(max: nat, k: Chunk, n: nat)
    requires ChunkOk(k) && k.state.SizeStart? && n <= LONG_MAX
    ensures Leads(max, k, Numeral(n, 16) + CRLF,
                  k.(digits := Numeral(n, 16), size := n, got := 0, state := if n == 0 then FinalCr else Data))
  {
    hide Leads, Numeral, NumeralValue, ParseHex;
    var s := Numeral(n, 16);
    HexRoundTrip(n);
    var k1 := k.(digits := s, state := Size);
    var k2 := k1.(state := LfAfterSize);
    var k3 := k2.(size := n, got := 0, state := if n == 0 then FinalCr else Data);
    LeadsDigits(max, k, s);
    LeadsOne(max, k1, CR, k2);
    LeadsTwo(max, k, s, k1, [CR], k2);
    LeadsOne(max, k2, LF, k3);
    LeadsTwo(max, k, s + [CR], k2, [LF], k3);
    assert s + CRLF == s + [CR] + [LF];
  }

  /** The state between chunks, after some data has been collected. */
  predicate Between(k: Chunk, cache: bytes) { ChunkOk(k) && k.state.SizeStart? && k.cache == cache }

  /** The state after a chunk with data. */
  function AfterChunk(k: Chunk, piece: bytes, cache: bytes): Chunk {
    k.(digits := Numeral(|piece|, 16), size := |piece|, got := |piece|, cache := cache, state := SizeStart)
  }

  /** A whole chunk adds its data to the cache. */
  lemma LeadsChunk(max: nat, k: Chunk, piece: bytes)
    requires ChunkOk(k) && k.state.SizeStart? && |k.cache| <= max && 0 < |piece| <= LONG_MAX
    ensures Leads(max, k, Frame(piece), AfterChunk(k, piece, Take(k.cache + piece, max)))
  {
    hide Leads, Numeral, Take;
    var cache := Take(k.cache + piece, max);
    var size := Numeral(|piece|, 16);
    var k1 := k.(digits := size, size := |piece|, got := 0, state := Data);
    var k2 := AfterData(k1, |piece|, cache);
    var k3 := k2.(state := LfAfterData);
    var k4 := AfterChunk(k, piece, cache);
    LeadsSize(max, k, |piece|);
    assert Leads(max, k1, piece, k2) by { DataRun(max, k1, piece); DataLeads(max, k1, piece, k2); }
    LeadsTwo(max, k, size + CRLF, k1, piece, k2);
    LeadsOne(max, k2, CR, k3);
    LeadsTwo(max, k, size + CRLF + piece, k2, [CR], k3);
    LeadsOne(max, k3, LF, k4);
    LeadsTwo(max, k, size + CRLF + piece + [CR], k3, [LF], k4);
    assert Frame(piece) == size + CRLF + piece + [CR] + [LF];
  }

  lemma DataLeads(max: nat, k: Chunk, s: bytes, k': Chunk)
    requires ChunkOk(k) && ChunkRun(max, k, s) == ChunkResult(k', |s|, More)
    ensures Leads(max, k, s, k')
  {
  }

  lemma TakeJoins(cache: bytes, a: bytes, b: bytes, max: nat)
    ensures Take(Take(cache + a, max) + b, max) == Take(cache + (a + b), max)
    ensures Take(cache + [], max) == Take(cache, max)
  {
    assert cache + (a + b) == cache + a + b;
    assert cache + [] == cache;
  }

  lemma LeadsNowhere(max: nat, k: Chunk)
    requires ChunkOk(k)
    ensures Leads(max, k, [], k)
  {
  }

  predicate Sendable(pieces: seq<bytes>) { forall i :: 0 <= i < |pieces| ==> |pieces[i]| <= LONG_MAX }

  /** Any number of chunks, empty pieces included. */
  lemma {:induction false} LeadsChunks(max: nat, k: Chunk, pieces: seq<bytes>) returns (k': Chunk)
    requires ChunkOk(k) && k.state.SizeStart? && |k.cache| <= max && Sendable(pieces)
    ensures Leads(max, k, Frames(pieces), k') && Between(k', Take(k.cache + Concat(pieces), max))
    decreases |pieces|
  {
    hide Leads, Take, Frame;
    if pieces == [] {
      k' := k;
      LeadsNowhere(max, k);
      TakeJoins(k.cache, [], [], max);
      TakeAll(k.cache, max);
    } else {
      var piece, tail := pieces[0], pieces[1..];
      if piece == [] {
        assert Frame(piece) == [] by { NothingFramed(); }
        assert Frames(pieces) == Frames(tail) && Concat(pieces) == Concat(tail);
        k' := LeadsChunks(max, k, tail);
      } else {
        var k1 := AfterChunk(k, piece, Take(k.cache + piece, max));
        LeadsChunk(max, k, piece);
        TakeFits(k.cache + piece, max);
        k' := LeadsChunks(max, k1, tail);
        LeadsTwo(max, k, Frame(piece), k1, Frames(tail), k');
        TakeJoins(k.cache, piece, Concat(tail), max);
      }
    }
  }

  lemma NothingFramed()
    ensures Frame([]) == []
  {
  }

  lemma TakeAll(s: bytes, max: nat)
    requires |s| <= max
    ensures Take(s, max) == s
  {
  }

  lemma EndsBody(max: nat, k: Chunk, rest: bytes)
    requires ChunkOk(k) && k.state.SizeStart?
    ensures var r := ChunkRun(max, k, FINAL_CHUNK + rest);
            r.verdict == Done && r.n == 5 && r.k.cache == k.cache
  {
    hide ChunkRun, Numeral, NumeralValue;
    assert [48] == Numeral(0, 16) by { ZeroNumeral(); }
    var k1 := k.(digits := [48], size := 0, got := 0, state := FinalCr);
    var k2 := k1.(state := FinalLf);
    LeadsSize(max, k, 0);
    LeadsOne(max, k1, CR, k2);
    LeadsTwo(max, k, [48] + CRLF, k1, [CR], k2);
    assert FINAL_CHUNK + rest == ([48] + CRLF + [CR]) + ([LF] + rest);
    ChunkRunSplits(max, k, [48] + CRLF + [CR], [LF] + rest);
    LastByteEnds(max, k2, [LF] + rest);
  }

  lemma ZeroNumeral()
    ensures Numeral(0, 16) == [48]
  {
  }

  lemma LastByteEnds(max: nat, k: Chunk, s: bytes)
    requires ChunkOk(k) && k.state.FinalLf? && s != [] && s[0] == LF
    ensures ChunkRun(max, k, s) == ChunkResult(k, 1, Done)
  {
  }

  /** Chunked round trip, for parseChunks: any list of pieces, framed, is accepted; the
      parser stops right after the final chunk and has collected the concatenated pieces,
      cut at max_content_length. */
  lemma ChunksRoundTrip(max: nat, k: Chunk, pieces: seq<bytes>, rest: bytes)
    requires ChunkOk(k) && k.state.SizeStart? && |k.cache| <= max && Sendable(pieces)
    ensures var r := ChunkRun(max, k, Framed(pieces) + rest);
            && r.verdict == Done && r.n == |Framed(pieces)|
            && r.k.cache == Take(k.cache + Concat(pieces), max)
  {
    hide ChunkRun, Take, Frames;
    var k1 := LeadsChunks(max, k, pieces);
    assert Framed(pieces) + rest == Frames(pieces) + (FINAL_CHUNK + rest);
    ChunkRunSplits(max, k, Frames(pieces), FINAL_CHUNK + rest);
    EndsBody(max, k1, rest);
  }

  /** Chunked round trip, for parse: the message is complete, its content is the
      concatenated pieces cut at max_content_length, and what follows is left over. */
  lemma ChunkedBody(g: Config, p: Parser, pieces: seq<bytes>, rest: bytes)
    requires Ok(p) && Marked(p) && p.state.Chunks? && p.chunk.state.SizeStart? && p.chunk.cache == []
             && Sendable(pieces)
    ensures var t := Run(g, p, Framed(pieces) + rest);
            && t.verdict == Done && t.rest == rest
            && t.p.msg.content == Take(Concat(pieces), g.maxContent) && t.p.msg.contentLength == |t.p.msg.content|
            && t.p.state.End? && t.p.msg.isValid && t.p.head == p.head && t.p.msg.code == p.msg.code
                && t.p.msg.reason == p.msg.reason
            && t.p.msg.cookies == p.msg.cookies
            && t.p.used == p.used + |Framed(pieces)|
  {
    hide Run, ChunkRun, Framed, Take, Finished;
    var s := Framed(pieces) + rest;
    RunIsChunkRun(g, p, s);
    ChunksRoundTrip(g.maxContent, p.chunk, pieces, rest);
    assert [] + Concat(pieces) == Concat(pieces);
    var r := ChunkRun(g.maxContent, p.chunk, s);
    assert s[r.n..] == rest;
    var m := Joined(r.k, p.msg);
    FinishedContent(g, p.head, m);
    BytesConserved(g, p, s);
    FinishedValid(g, p.head, m);
  }
}
