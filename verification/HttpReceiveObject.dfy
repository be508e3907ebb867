/** HTTPMessage::receive as written: read, parse, read more, on connection and parser objects. */
module HttpReceiveObject {
  import opened Bytes
  import opened HttpParser
  import opened HttpSegments
  import opened HttpPhases
  import opened HttpPrint
  import opened HttpReceive
  import opened HttpParserObject

  /** TCPConnection, as far as receive uses it. */
  class ConnectionObject {
    var lifecycle: Lifecycle
    var saved: bytes
    var incoming: seq<bytes>

    function Abs(): Connection
      reads this
    {
      Connection(lifecycle, saved, incoming)
    }

    /** read_some: an empty result is the end of the input. */
    method ReadSome() returns (data: bytes)
      modifies this`incoming
      ensures if old(incoming) == [] || old(incoming[0]) == [] then data == [] && incoming == old(incoming)
              else data == old(incoming[0]) && incoming == old(incoming[1..])
    {
      if incoming == [] || incoming[0] == [] {
        data := [];
      } else {
        data, incoming := incoming[0], incoming[1..];
      }
    }
  }

  /** How a receipt shows in the objects. */
  ghost predicate Shows(out: Receipt, ok: bool, p: Parser, c: Connection) {
    match out
    case NotReceived => !ok
    case Received(q, d) => ok && p == q && c.lifecycle == d.lifecycle && (d.lifecycle.Pipelined? ==> c.saved == d.saved)
                           && (d.lifecycle.Close? || c.incoming == d.incoming)
  }

  /** The end of a message whose body has no known length. */
  method CheckPrematureEof(parser: ParserObject, msg: MessageObject) returns (premature: bool)
    requires parser.Valid(msg) && Terminated(msg.content)
    modifies parser, msg
    ensures premature == !old(parser.state).ContentNoLength?
    ensures !premature ==> var p := old(parser.Abs(msg));
                           parser.Abs(msg) == Complete(parser.g, p.(msg := Joined(p.chunk, p.msg))).0
  {
    hide Complete;
    if !parser.state.ContentNoLength? {
      return true;
    }
    ghost var p := parser.Abs(msg);
    msg.ConcatenateChunks(parser.chunk.cache);
    assert parser.Abs(msg) == p.(msg := Joined(p.chunk, p.msg));
    ghost var q := parser.Abs(msg);
    parser.Finish(msg);
    premature := false;
  }

  /** receive */
  method ReceiveMessage(g: Config, conn: ConnectionObject)
    returns (parser: ParserObject, msg: MessageObject, ok: bool)
    requires conn.lifecycle.Pipelined? ==> conn.saved != []
    modifies conn
    ensures fresh(parser) && fresh(msg)
    ensures conn.lifecycle.Pipelined? ==> conn.saved != []
    ensures Shows(Receive(g, old(conn.Abs())), ok, parser.Abs(msg), conn.Abs())
  {
    hide Run, Complete, Joined;
    msg := new MessageObject();
    parser := new ParserObject(g);
    var data;
    if conn.lifecycle.Pipelined? {
      data := conn.saved;
    } else {
      data := conn.ReadSome();
      if data == [] {
        return parser, msg, false;
      }
    }
    parser.SetReadBuffer(data);
    ok := ParseLoop(g, conn, parser, msg);
  }

  /** The loop of receive, and the lifecycle it leaves the connection in. */
  method ParseLoop(g: Config, conn: ConnectionObject, parser: ParserObject, msg: MessageObject) returns (ok: bool)
    requires parser.Valid(msg) && parser.pos == 0 && parser.g == g && parser.buffer != []
    requires conn.lifecycle.Pipelined? ==> conn.saved != []
    requires Terminated(msg.content)
    modifies conn, parser, msg, msg.content
    ensures conn.lifecycle.Pipelined? ==> conn.saved != []
    ensures Shows(ReceiveLoop(g, old(parser.Abs(msg)), old(parser.buffer), old(conn.incoming)), ok, parser.Abs(msg),
            conn.Abs())
  {
    hide Run, Complete, Joined, KeepsAlive, Terminated, Held;
    ghost var out := ReceiveLoop(g, parser.Abs(msg), parser.buffer, conn.incoming);
    var rc;
    while true
      invariant parser.Valid(msg) && parser.pos == 0 && parser.buffer != []
      invariant ReceiveLoop(g, parser.Abs(msg), parser.buffer, conn.incoming) == out
      invariant conn.lifecycle.Pipelined? ==> conn.saved != []
      invariant (msg.content == old(msg.content) || fresh(msg.content)) && Terminated(msg.content)
      decreases |conn.incoming|
    {
      assert parser.buffer[0..] == parser.buffer;
      rc := parser.Parse(msg);
      if !rc.More? {
        break;
      }
      var data := conn.ReadSome();
      if data == [] {
        var premature := CheckPrematureEof(parser, msg);
        if !premature {
          conn.lifecycle := Close;
        }
        return !premature;
      }
      parser.SetReadBuffer(data);
    }
    if rc.Error? {
      return false;
    }
    if KeepsAlive(parser.head) {
      if parser.pos == |parser.buffer| {
        conn.lifecycle := KeepAlive;
      } else {
        conn.lifecycle, conn.saved := Pipelined, parser.buffer[parser.pos..];
      }
    } else {
      conn.lifecycle := Close;
    }
    ok := true;
  }
}
