/** Exactly which byte strings parseChunks accepts as a body, in whatever spelling. */
module HttpChunkSyntax {
  import opened Bytes
  import opened HttpParser
  import opened HttpSegments
  import opened HttpPhases
  import opened HttpChunks

  // ---------------------------------------------------------------- the grammar

  predicate IsSpaceOrEnd(c: byte) { IsBlank(c) || c == CR || c == LF }

  /** A chunk as it may be written: white space and empty lines, the size, blanks, data. */
  datatype Piece = Piece(lead: bytes, digits: bytes, pad: bytes, data: bytes)

  /** The digits are hexadecimal and give the length of the data. */
  predicate PieceOk(p: Piece) {
    && (forall i :: 0 <= i < |p.lead| ==> IsSpaceOrEnd(p.lead[i]))
        && (forall i :: 0 <= i < |p.pad| ==> IsBlank(p.pad[i]))
    && p.digits != [] && (forall i :: 0 <= i < |p.digits| ==> IsHexDigit(p.digits[i]))
    && |p.data| == ParseHex(p.digits)
  }

  function PieceText(p: Piece): bytes { p.lead + p.digits + p.pad + CRLF + p.data + CRLF }

  /** A body ends with its only chunk of size zero. */
  predicate BodyOk(ps: seq<Piece>) {
    ps != [] && PieceOk(ps[0]) && if ps[0].data == [] then |ps| == 1 else BodyOk(ps[1..])
  }

  function BodyText(ps: seq<Piece>): bytes { if ps == [] then [] else PieceText(ps[0]) + BodyText(ps[1..]) }

  function BodyData(ps: seq<Piece>): bytes { if ps == [] then [] else ps[0].data + BodyData(ps[1..]) }

  // ---------------------------------------------------------------- every such body is accepted

  lemma {:induction false} LeadsLead(max: nat, k: Chunk, s: bytes)
    requires ChunkOk(k) && k.state.SizeStart? && forall i :: 0 <= i < |s| ==> IsSpaceOrEnd(s[i])
    ensures Leads(max, k, s, k)
    decreases |s|
  {
    hide Leads;
    if s == [] {
      LeadsNowhere(max, k);
    } else {
      assert IsSpaceOrEnd(s[0]);
      LeadsOne(max, k, s[0], k);
      LeadsLead(max, k, s[1..]);
      LeadsTwo(max, k, [s[0]], k, s[1..], k);
      assert [s[0]] + s[1..] == s;
    }
  }

  lemma {:induction false} LeadsPad(max: nat, k: Chunk, s: bytes)
    requires ChunkOk(k) && (k.state.Size? || k.state.CrAfterSize?) && forall i :: 0 <= i < |s| ==> IsBlank(s[i])
    ensures Leads(max, k, s, if s == [] then k else k.(state := CrAfterSize))
    decreases |s|
  {
    hide Leads;
    if s == [] {
      LeadsNowhere(max, k);
    } else {
      assert IsBlank(s[0]);
      var k1 := k.(state := CrAfterSize);
      LeadsOne(max, k, s[0], k1);
      LeadsPad(max, k1, s[1..]);
      LeadsTwo(max, k, [s[0]], k1, s[1..], k1);
      assert [s[0]] + s[1..] == s;
    }
  }

  /** The size line, with all that may stand around the size. */
  lemma LeadsSizeLine(max: nat, k: Chunk, p: Piece)
    requires ChunkOk(k) && k.state.SizeStart? && PieceOk(p)
    ensures Leads(max, k, p.lead + p.digits + p.pad + CRLF,
                  k.(digits := p.digits, size := |p.data|, got := 0, state := if p.data == [] then FinalCr else Data))
  {
    hide Leads, ParseHex;
    var k1 := k.(digits := p.digits, state := Size);
    var k2 := if p.pad == [] then k1 else k1.(state := CrAfterSize);
    var k3 := k2.(state := LfAfterSize);
    var k4 := k.(digits := p.digits, size := |p.data|, got := 0, state := if p.data == [] then FinalCr else Data);
    LeadsLead(max, k, p.lead);
    LeadsDigits(max, k, p.digits);
    LeadsTwo(max, k, p.lead, k, p.digits, k1);
    LeadsPad(max, k1, p.pad);
    var a := p.lead + p.digits + p.pad;
    LeadsTwo(max, k, p.lead + p.digits, k1, p.pad, k2);
    LeadsOne(max, k2, CR, k3);
    LeadsTwo(max, k, a, k2, [CR], k3);
    LeadsOne(max, k3, LF, k4);
    LeadsTwo(max, k, a + [CR], k3, [LF], k4);
    assert a + CRLF == a + [CR] + [LF];
  }

  /** A chunk with data adds the data to the cache. */
  lemma LeadsPiece(max: nat, k: Chunk, p: Piece)
    requires ChunkOk(k) && k.state.SizeStart? && |k.cache| <= max && PieceOk(p) && p.data != []
    ensures Leads(max, k, PieceText(p), k.(digits := p.digits, size := |p.data|, got := |p.data|,
                                           cache := Take(k.cache + p.data, max)))
  {
    hide Leads, ParseHex, Take, PieceOk;
    var line := p.lead + p.digits + p.pad + CRLF;
    LeadsSizeLine(max, k, p);
    SizeLineOk(max, k, p);
    var k1 := k.(digits := p.digits, size := |p.data|, got := 0, state := Data);
    var k2 := AfterData(k1, |p.data|, Take(k.cache + p.data, max));
    var k3, k4 := k2.(state := LfAfterData), k2.(state := SizeStart);
    assert Leads(max, k1, p.data, k2) by { DataRun(max, k1, p.data); DataLeads(max, k1, p.data, k2); }
    LeadsTwo(max, k, line, k1, p.data, k2);
    LeadsOne(max, k2, CR, k3);
    LeadsTwo(max, k, line + p.data, k2, [CR], k3);
    LeadsOne(max, k3, LF, k4);
    LeadsTwo(max, k, line + p.data + [CR], k3, [LF], k4);
    assert PieceText(p) == line + p.data + [CR] + [LF];
  }

  lemma SizeLineOk(max: nat, k: Chunk, p: Piece)
    requires ChunkOk(k) && PieceOk(p)
    ensures ChunkOk(k.(digits := p.digits, size := |p.data|, got := 0, state := Data))
  {
  }

  lemma EndsPiece(max: nat, k: Chunk, p: Piece, rest: bytes)
    requires ChunkOk(k) && k.state.SizeStart? && PieceOk(p) && p.data == []
    ensures var r := ChunkRun(max, k, PieceText(p) + rest);
            r.verdict == Done && r.n == |PieceText(p)| && r.k.cache == k.cache
  {
    hide ChunkRun, ParseHex, PieceOk;
    var line := p.lead + p.digits + p.pad + CRLF;
    LeadsSizeLine(max, k, p);
    SizeLineOk(max, k, p);
    var k1 := k.(digits := p.digits, size := 0, got := 0, state := FinalCr);
    var k2 := k1.(state := FinalLf);
    LeadsOne(max, k1, CR, k2);
    LeadsTwo(max, k, line, k1, [CR], k2);
    assert PieceText(p) + rest == (line + [CR]) + ([LF] + rest);
    ChunkRunSplits(max, k, line + [CR], [LF] + rest);
    LastByteEnds(max, k2, [LF] + rest);
  }

  /** Every body of the grammar is accepted, whatever follows, and its data collected. */
  lemma {:induction false} BodyAccepted(max: nat, k: Chunk, ps: seq<Piece>, rest: bytes)
    requires ChunkOk(k) && k.state.SizeStart? && |k.cache| <= max && BodyOk(ps)
    ensures var r := ChunkRun(max, k, BodyText(ps) + rest);
            r.verdict == Done && r.n == |BodyText(ps)| && r.k.cache == Take(k.cache + BodyData(ps), max)
    decreases |ps|
  {
    hide ChunkRun, Take, PieceOk, PieceText;
    var p, tail := ps[0], ps[1..];
    if p.data == [] {
      assert tail == [] && BodyText(ps) == PieceText(p) && BodyData(ps) == [];
      EndsPiece(max, k, p, rest);
      assert k.cache + [] == k.cache;
      TakeAll(k.cache, max);
    } else {
      var k1 := k.(digits := p.digits, size := |p.data|, got := |p.data|, cache := Take(k.cache + p.data, max));
      LeadsPiece(max, k, p);
      SizeLineOk(max, k, p);
      TakeFits(k.cache + p.data, max);
      BodyAccepted(max, k1, tail, rest);
      TakeJoins(k.cache, p.data, BodyData(tail), max);
      assert BodyText(ps) + rest == PieceText(p) + (BodyText(tail) + rest);
      ChunkRunSplits(max, k, PieceText(p), BodyText(tail) + rest);
    }
  }

  // ---------------------------------------------------------------- nothing else is

  /** What the parser has read of the current chunk, `data` being its data so far: without
      the white space. */
  function Read(k: Chunk, data: bytes): bytes {
    match k.state
    case SizeStart => []
    case Size | CrAfterSize => k.digits
    case LfAfterSize => k.digits + [CR]
    case Data | CrAfterData => k.digits + CRLF + data
    case LfAfterData => k.digits + CRLF + data + [CR]
    case FinalCr => k.digits + CRLF
    case FinalLf => k.digits + CRLF + [CR]
  }

  /** The counters are right for a chunk of which `data` has been read. */
  predicate InPiece(k: Chunk, data: bytes) {
    && ChunkOk(k) && (k.state.SizeStart? || k.digits != [])
    && match k.state
       case Data => |data| == k.got < k.size == ParseHex(k.digits)
       case CrAfterData | LfAfterData => |data| == k.got == k.size == ParseHex(k.digits) > 0
       case FinalCr | FinalLf => ParseHex(k.digits) == 0
       case _ => true
  }

  /** The body `ps` begins with the chunk being read. */
  predicate Continues(k: Chunk, ps: seq<Piece>) {
    && BodyOk(ps)
    && (!k.state.SizeStart? ==> ps[0].lead == [])
    && (!k.state.SizeStart? && !k.state.Size? ==> ps[0].digits == k.digits)
  }

  /** A body with its first piece exchanged. */
  lemma FirstExchanged(ps: seq<Piece>, q: Piece)
    requires BodyOk(ps) && PieceOk(q) && q.data == ps[0].data
    ensures BodyOk([q] + ps[1..]) && BodyText([q] + ps[1..]) == PieceText(q) + BodyText(ps[1..])
  {
    hide PieceOk, PieceText;
    assert ([q] + ps[1..])[1..] == ps[1..];
  }

  lemma LeadGrows(p: Piece, c: byte)
    requires PieceOk(p) && IsSpaceOrEnd(c)
    ensures PieceOk(p.(lead := [c] + p.lead)) && PieceText(p.(lead := [c] + p.lead)) == [c] + PieceText(p)
  {
    hide ParseHex;
    assert [c] + p.lead + p.digits + p.pad + CRLF + p.data + CRLF
           == [c] + (p.lead + p.digits + p.pad + CRLF + p.data + CRLF);
  }

  lemma PadGrows(p: Piece, c: byte)
    requires PieceOk(p) && IsBlank(c) && p.lead == []
    ensures PieceOk(p.(pad := [c] + p.pad))
    ensures PieceText(p) == p.digits + (p.pad + CRLF + p.data + CRLF)
    ensures PieceText(p.(pad := [c] + p.pad)) == p.digits + [c] + (p.pad + CRLF + p.data + CRLF)
  {
    hide ParseHex;
  }

  /** White space before a size belongs to the piece... */
  lemma LeadTakesIn(c: byte, ps: seq<Piece>) returns (qs: seq<Piece>)
    requires BodyOk(ps) && IsSpaceOrEnd(c)
    ensures BodyOk(qs) && BodyText(qs) == [c] + BodyText(ps)
  {
    hide PieceOk, PieceText;
    var p := ps[0];
    qs := [p.(lead := [c] + p.lead)] + ps[1..];
    LeadGrows(p, c);
    FirstExchanged(ps, p.(lead := [c] + p.lead));
    assert [c] + PieceText(p) + BodyText(ps[1..]) == [c] + (PieceText(p) + BodyText(ps[1..]));
  }

  /** ... and so does a blank after it. */
  lemma PadTakesIn(digits: bytes, c: byte, ps: seq<Piece>, rest: bytes) returns (qs: seq<Piece>)
    requires BodyOk(ps) && IsBlank(c) && ps[0].lead == [] && ps[0].digits == digits && BodyText(ps) == digits + rest
    ensures BodyOk(qs) && qs[0].lead == [] && qs[0].digits == digits && BodyText(qs) == digits + [c] + rest
  {
    hide PieceOk, PieceText;
    var p := ps[0];
    qs := [p.(pad := [c] + p.pad)] + ps[1..];
    var t, after := p.pad + CRLF + p.data + CRLF, BodyText(ps[1..]);
    PadGrows(p, c);
    FirstExchanged(ps, p.(pad := [c] + p.pad));
    SameTail(digits, t + after, rest) by {
      assert digits + (t + after) == digits + t + after;
    }
    assert digits + [c] + t + after == digits + [c] + (t + after);
  }

  lemma SameTail(a: bytes, s: bytes, t: bytes)
    requires a + s == a + t
    ensures s == t
  {
    assert (a + s)[|a|..] == s && (a + t)[|a|..] == t;
  }

  /** Whatever completes the current chunk and the body after it is of the grammar. */
  lemma {:induction false} Accepted(max: nat, k: Chunk, data: bytes, s: bytes) returns (ps: seq<Piece>)
    requires InPiece(k, data) && ChunkRun(max, k, s).verdict.Done?
    ensures Continues(k, ps) && BodyText(ps) == Read(k, data) + s[..ChunkRun(max, k, s).n]
    decreases |s|
  {
    hide ChunkStep, Read, Continues, InPiece, BodyText;
    var c, tail := s[0], s[1..];
    assert ChunkOk(k) by { PieceChunkOk(k, data); }
    var out := ChunkStep(max, k, c);
    if out.CMore? {
      StepInPiece(max, k, data, c);
      var qs := Accepted(max, out.k, DataAfter(k, data, c), tail);
      var m := ChunkRun(max, out.k, tail).n;
      ps := StepBack(max, k, data, c, qs, tail[..m]);
      assert Read(k, data) + [c] + tail[..m] == Read(k, data) + s[..m + 1];
    } else {
      ps := LastPiece(max, k, data, c);
      assert s[..1] == [c];
    }
  }

  lemma PieceChunkOk(k: Chunk, data: bytes)
    requires InPiece(k, data)
    ensures ChunkOk(k)
  {
  }

  function DataAfter(k: Chunk, data: bytes, c: byte): bytes {
    if k.state.Data? then data + [c] else if k.state.LfAfterSize? then [] else data
  }

  lemma StepInPiece(max: nat, k: Chunk, data: bytes, c: byte)
    requires InPiece(k, data) && ChunkStep(max, k, c).CMore?
    ensures InPiece(ChunkStep(max, k, c).k, DataAfter(k, data, c))
  {
    hide ParseHex;
  }

  lemma LastPiece(max: nat, k: Chunk, data: bytes, c: byte) returns (ps: seq<Piece>)
    requires InPiece(k, data) && ChunkStep(max, k, c).CDone?
    ensures Continues(k, ps) && BodyText(ps) == Read(k, data) + [c]
  {
    hide ParseHex;
    var p := Piece([], k.digits, [], []);
    ps := [p];
    assert ps[1..] == [];
    assert PieceText(p) == k.digits + CRLF + CRLF;
  }

  lemma WholePiece(k: Chunk, data: bytes, qs: seq<Piece>) returns (ps: seq<Piece>)
    requires InPiece(k, data) && k.state.LfAfterData? && BodyOk(qs)
    ensures Continues(k, ps) && BodyText(ps) == k.digits + CRLF + data + CRLF + BodyText(qs)
  {
    hide ParseHex;
    var p := Piece([], k.digits, [], data);
    ps := [p] + qs;
    assert ps[0] == p && ps[1..] == qs;
    assert PieceText(p) == k.digits + CRLF + data + CRLF;
  }

  /** If the rest of the body is of the grammar after one more byte, it is so before. */
  lemma StepBack(max: nat, k: Chunk, data: bytes, c: byte, qs: seq<Piece>, rest: bytes) returns (ps: seq<Piece>)
    requires InPiece(k, data) && ChunkStep(max, k, c).CMore?
    requires var k1 := ChunkStep(max, k, c).k;
             Continues(k1, qs) && BodyText(qs) == Read(k1, DataAfter(k, data, c)) + rest
    ensures Continues(k, ps) && BodyText(ps) == Read(k, data) + [c] + rest
  {
    hide ParseHex, BodyOk, BodyText, ChunkOk;
    var k1 := ChunkStep(max, k, c).k;
    if k.state.SizeStart? && k1.state.SizeStart? {
      ps := LeadTakesIn(c, qs);
    } else if k1.state.CrAfterSize? {
      ps := PadTakesIn(k.digits, c, qs, rest);
    } else if k.state.LfAfterData? {
      ps := WholePiece(k, data, qs);
      assert k.digits + CRLF + data + CRLF + rest == Read(k, data) + [c] + rest;
    } else {
      ps := qs;
      SameRead(max, k, data, c);
    }
  }

  lemma SameRead(max: nat, k: Chunk, data: bytes, c: byte)
    requires InPiece(k, data) && ChunkStep(max, k, c).CMore? && !k.state.LfAfterData?
    requires var k1 := ChunkStep(max, k, c).k; !k1.state.SizeStart? && !k1.state.CrAfterSize?
    ensures var k1 := ChunkStep(max, k, c).k; Read(k1, DataAfter(k, data, c)) == Read(k, data) + [c]
  {
    hide ParseHex;
  }

  /** parseChunks accepts a body exactly if it is of the grammar: for every byte string, it
      stops after the first n bytes, having found the end, if and only if these are the text
      of such a body; and then it has collected the data, cut at max_content_length. */
  lemma AcceptsExactly(max: nat, k: Chunk, s: bytes, n: nat)
    requires ChunkOk(k) && k.state.SizeStart? && |k.cache| <= max && n <= |s|
    ensures (ChunkRun(max, k, s).verdict.Done? && ChunkRun(max, k, s).n == n)
            <==> exists ps :: BodyOk(ps) && BodyText(ps) == s[..n]
    ensures forall ps :: BodyOk(ps) && BodyText(ps) == s[..n] ==>
              ChunkRun(max, k, s).k.cache == Take(k.cache + BodyData(ps), max)
  {
    hide ChunkRun, BodyOk, BodyText, Take;
    if ChunkRun(max, k, s).verdict.Done? && ChunkRun(max, k, s).n == n {
      var ps := Accepted(max, k, [], s);
      assert BodyText(ps) == s[..n];
    }
    forall ps | BodyOk(ps) && BodyText(ps) == s[..n]
      ensures ChunkRun(max, k, s).verdict.Done? && ChunkRun(max, k, s).n == n
      ensures ChunkRun(max, k, s).k.cache == Take(k.cache + BodyData(ps), max)
    {
      BodyAccepted(max, k, ps, s[n..]);
      assert s == s[..n] + s[n..];
    }
  }
}
