/** The verdict of the parser on how complete the data of a message is. */
module HttpIntegrity {
  import opened Bytes
  import HttpForms
  import opened HttpParser
  import opened HttpSegments
  import opened HttpMissing

  predicate IsData(x: Input) { x.Received? && x.s != [] }

  predicate AnyLost(xs: seq<Input>) { exists i :: 0 <= i < |xs| && xs[i].Lost? }

  /** Some bytes came after some gap. */
  predicate DataAfterLoss(xs: seq<Input>) { exists i, j :: 0 <= i < j < |xs| && xs[i].Lost? && IsData(xs[j]) }

  /** What a message is marked with: complete; or with gaps and data after one; or cut short. */
  function Judged(xs: seq<Input>, complete: bool): DataStatus {
    if DataAfterLoss(xs) then StatusPartial
    else if AnyLost(xs) || !complete then StatusTruncated
    else StatusOk
  }

  /** The flags of the message stand for what has happened. */
  predicate Told(p: Parser, xs: seq<Input>) {
    p.msg.missing == AnyLost(xs) && p.msg.dataAfterMissing == DataAfterLoss(xs)
  }

  // ---------------------------------------------------------------- one input

  /** After the bytes `s`. */
  predicate Flagged(p: Parser, data: bool, q: Parser, v: Verdict) {
    && q.msg.missing == p.msg.missing && q.msg.dataAfterMissing == (p.msg.dataAfterMissing || (p.msg.missing && data))
    && (!v.More? ==> q.msg.status == StatusFor(q.msg, v.Done?))
  }

  lemma HeadersCompleteFlags(g: Config, p: Parser)
    ensures var (q, v) := HeadersComplete(g, p); Flagged(p, false, q, v)
  {
    hide HttpForms.ParseQuery, AllCookies, SaysChunked, BodyOf;
  }

  lemma EndFlags(g: Config, p: Parser)
    ensures Flagged(p, false, Complete(g, p).0, Done) && Flagged(p, false, Failed(p).0, Error)
    ensures Complete(g, p).1 == Done && Failed(p).1 == Error
  {
    hide HttpForms.ParseQuery;
  }

  lemma HeaderByteFlags(g: Config, p: Parser, c: byte)
    requires Ok(p) && p.state.Headers?
    ensures var (q, used, v) := HeaderByte(g, p, c); Flagged(p, false, q, v)
  {
    hide HeadStep, HeadersComplete, Complete, Failed;
    EndFlags(g, p);
    var out := HeadStep(g, p.head, c);
    if out.HDone? {
      HeadersCompleteFlags(g, p.(head := out.h, used := p.used + if out.used then 1 else 0));
    }
  }

  lemma StepFlags(g: Config, p: Parser, c: byte)
    requires Ok(p)
    ensures var (q, used, v) := Step(g, p, c); Flagged(p, true, q, v)
  {
    hide HeaderByte, ChunkStep, Complete, Failed;
    var q := if p.msg.missing then p.(msg := p.msg.(dataAfterMissing := true)) else p;
    match p.state
    case Start | Headers => HeaderByteFlags(g, q.(state := Headers), c);
    case Chunks =>
      EndFlags(g, q);
      EndFlags(g, q.(used := p.used + 1, msg := Joined(p.chunk, q.msg)));
    case ContentNoLength =>
    case _ =>
      EndFlags(g, q);
      EndFlags(g, Store(g, q, c));
  }

  lemma {:induction false} RunFlags(g: Config, p: Parser, s: bytes)
    requires Ok(p)
    ensures Flagged(p, s != [], Run(g, p, s).p, Run(g, p, s).verdict)
    decreases |s|, InHead(p)
  {
    hide Step;
    if s != [] {
      StepFlags(g, p, s[0]);
      var (q, used, v) := Step(g, p, s[0]);
      if v.More? {
        RunFlags(g, q, if used then s[1..] else s);
      }
    }
  }

  lemma MissingFlags(g: Config, p: Parser, n: nat)
    requires Ok(p)
    ensures var (q, v) := Missing(g, p, n); Flagged(p.(msg := p.msg.(missing := true)), false, q, v)
  {
    hide HttpForms.ParseQuery;
  }

  // ---------------------------------------------------------------- any series of inputs

  lemma OneMore(xs: seq<Input>, x: Input)
    ensures AnyLost(xs + [x]) == (AnyLost(xs) || x.Lost?)
    ensures DataAfterLoss(xs + [x]) == (DataAfterLoss(xs) || (AnyLost(xs) && IsData(x)))
  {
    var ys := xs + [x];
    assert ys[|xs|] == x && forall i :: 0 <= i < |xs| ==> ys[i] == xs[i];
    if AnyLost(xs) {
      var i :| 0 <= i < |xs| && xs[i].Lost?;
      assert ys[i].Lost?;
    }
    if DataAfterLoss(xs) {
      var i, j :| 0 <= i < j < |xs| && xs[i].Lost? && IsData(xs[j]);
      assert ys[i].Lost? && IsData(ys[j]);
    }
  }

  /** What the parser makes of one input. */
  function Given(g: Config, p: Parser, x: Input): (Parser, Verdict)
    requires Ok(p)
  {
    match x
    case Received(s) => (Run(g, p, s).p, Run(g, p, s).verdict)
    case Lost(n) => Missing(g, p, n)
  }

  lemma GivenTold(g: Config, p: Parser, past: seq<Input>, x: Input)
    requires Ok(p) && Told(p, past)
    ensures var (q, v) := Given(g, p, x);
            Told(q, past + [x]) && (!v.More? ==> q.msg.status == StatusFor(q.msg, v.Done?))
  {
    hide Run, Missing, AnyLost, DataAfterLoss;
    OneMore(past, x);
    match x
    case Received(s) => RunFlags(g, p, s);
    case Lost(n) => MissingFlags(g, p, n);
  }

  lemma {:induction false} ReachesTold(g: Config, p: Parser, past: seq<Input>, xs: seq<Input>, q: Parser)
    requires Ok(p) && Told(p, past) && Reaches(g, p, xs, q)
    ensures Ok(q) && Told(q, past + xs)
    decreases |xs|
  {
    hide Run, Missing, Told;
    if xs == [] {
      assert past + xs == past;
    } else {
      GivenTold(g, p, past, xs[0]);
      assert past + [xs[0]] + xs[1..] == past + xs;
      ReachesTold(g, Given(g, p, xs[0]).0, past + [xs[0]], xs[1..], q);
    }
  }

  /** For every series of bytes and gaps given to a new parser, the one that ends the message
      leaves it marked as complete if nothing has been lost, as partial exactly if some bytes
      came after a gap, and as truncated otherwise. */
  lemma StatusIsRight(g: Config, xs: seq<Input>, p: Parser, x: Input)
    requires Reaches(g, NewParser(g, EMPTY_MESSAGE), xs, p)
    ensures Ok(p)
    ensures var (q, v) := Given(g, p, x);
            !v.More? ==> q.msg.status == Judged(xs + [x], v.Done?)
  {
    hide Reaches, Given, AnyLost, DataAfterLoss;
    var start := NewParser(g, EMPTY_MESSAGE);
    assert Told(start, []) by { NothingYet(); }
    ReachesTold(g, start, [], xs, p);
    assert [] + xs == xs;
    GivenTold(g, p, xs, x);
    assert DataAfterLoss(xs + [x]) ==> AnyLost(xs + [x]) by { LostFirst(xs + [x]); }
  }

  /** A gap before the body ends the message with an error, marked by what came before. */
  lemma GapInHeadFails(g: Config, xs: seq<Input>, p: Parser, n: nat)
    requires Reaches(g, NewParser(g, EMPTY_MESSAGE), xs, p) && (p.state.Start? || p.state.Headers?)
    ensures Ok(p) && var (q, v) := Missing(g, p, n); v == Error && q.msg.status == Judged(xs + [Lost(n)], false)
  {
    hide Reaches, Judged;
    StatusIsRight(g, xs, p, Lost(n));
  }

  lemma LostFirst(xs: seq<Input>)
    ensures DataAfterLoss(xs) ==> AnyLost(xs)
  {
  }

  lemma NothingYet()
    ensures !AnyLost([]) && !DataAfterLoss([])
  {
  }
}
