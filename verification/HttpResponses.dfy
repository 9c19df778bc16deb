/** What a client of each of the three HTTP servers reads: the status, how many bytes will follow, and those bytes. */
module HttpResponses {
  import opened CStrings
  import opened Decimal
  import opened Chunking
  import opened HttpReader
  import Coroutines = CoroutineServer
  import CoroutineTheorems
  import Pthreads = PthreadServer
  import TcpServer
  import opened TcpSegments

  /** A head of three or four lines, written out. */
  lemma Three(a: string, b: string, c: string, body: string)
    ensures Message([a, b, c], body) == (a + "\r\n") + (b + "\r\n") + (c + "\r\n") + "\r\n" + body
  {
    Regroup(c, "\r\n" + body);
    var tail := c + ("\r\n" + ("\r\n" + body));
    assert Message([c], body) == tail by { assert [c][1..] == []; }
    assert Message([b, c], body) == b + ("\r\n" + tail) by { assert [b, c][1..] == [c]; }
    assert [a, b, c][1..] == [b, c];
    Regroup(b, tail);
    Regroup(a, b + ("\r\n" + tail));
    hide Message;
    assert (a + "\r\n") + ((b + "\r\n") + ((c + "\r\n") + ("\r\n" + body)))
      == (a + "\r\n") + (b + "\r\n") + (c + "\r\n") + "\r\n" + body;
  }

  lemma Four(a: string, b: string, c: string, d: string, body: string)
    ensures Message([a, b, c, d], body) == (a + "\r\n") + (b + "\r\n") + (c + "\r\n") + (d + "\r\n") + "\r\n" + body
  {
    Three(b, c, d, body);
    assert [a, b, c, d][1..] == [b, c, d];
    assert Message([a, b, c, d], body) == a + ("\r\n" + Message([b, c, d], body));
    hide Message;
    assert a + ("\r\n" + ((b + "\r\n") + (c + "\r\n") + (d + "\r\n") + "\r\n" + body))
      == (a + "\r\n") + (b + "\r\n") + (c + "\r\n") + (d + "\r\n") + "\r\n" + body;
  }

  lemma Regroup(a: string, b: string)
    ensures a + ("\r\n" + b) == (a + "\r\n") + b
  {
  }

  function LengthOf(n: nat): string { "Content-Length: " + PrintNat(n) }

  lemma LiteralLines()
    ensures OneLine("HTTP/1.1 200 OK") && OneLine("Connection: close")
    ensures OneLine("Content-Type: text/html") && OneLine("Content-Type: text/plain")
    ensures "HTTP/1.1 200 OK" + "\r\n" == "HTTP/1.1 200 OK\r\n"
    ensures "Connection: close" + "\r\n" == "Connection: close\r\n"
    ensures "Content-Type: text/html" + "\r\n" == "Content-Type: text/html\r\n"
    ensures "Content-Type: text/plain" + "\r\n" == "Content-Type: text/plain\r\n"
  {
  }

  lemma Joined(a: string, name: string, digits: string, end: string)
    ensures a + name + digits + end == a + ((name + digits) + end)
  {
  }

  /** The length second, and two more lines. */
  lemma CoroutineHead(file: string)
    ensures Coroutines.Header(|file|) + file ==
      Message(["HTTP/1.1 200 OK", LengthOf(|file|), "Content-Type: text/html", "Connection: close"], file)
  {
    var digits := PrintNat(|file|);
    CoroutineHeader(|file|);
    LiteralLines();
    hide OneLine, Message, Coroutines.Header;
    Four("HTTP/1.1 200 OK", LengthOf(|file|), "Content-Type: text/html", "Connection: close", file);
    Joined("HTTP/1.1 200 OK\r\n", "Content-Length: ", digits, "\r\n");
  }

  lemma CoroutineHeader(n: nat)
    ensures Coroutines.Header(n) == "HTTP/1.1 200 OK\r\n" + "Content-Length: " + PrintNat(n) + "\r\n"
      + "Content-Type: text/html\r\n" + "Connection: close\r\n" + "\r\n"
  {
  }

  lemma PthreadHead(file: string)
    ensures Pthreads.HeaderText(|file|) + file ==
      Message(["HTTP/1.1 200 OK", LengthOf(|file|), "Content-Type: text/html"], file)
  {
    var digits := PrintNat(|file|);
    PthreadHeader(|file|);
    LiteralLines();
    hide OneLine, Message, Pthreads.HeaderText;
    Three("HTTP/1.1 200 OK", LengthOf(|file|), "Content-Type: text/html", file);
    Joined("HTTP/1.1 200 OK\r\n", "Content-Length: ", digits, "\r\n");
  }

  lemma PthreadHeader(n: nat)
    ensures Pthreads.HeaderText(n) == "HTTP/1.1 200 OK\r\n" + "Content-Length: " + PrintNat(n) + "\r\n"
      + "Content-Type: text/html\r\n" + "\r\n"
  {
  }

  lemma TcpHead(data: string)
    ensures TcpServer.Headers(|data|) + data ==
      Message(["HTTP/1.1 200 OK", "Content-Type: text/plain", LengthOf(|data|), "Connection: close"], data)
  {
    var digits := PrintNat(|data|);
    TcpHeader(|data|);
    LiteralLines();
    hide OneLine, Message, TcpServer.Headers;
    Four("HTTP/1.1 200 OK", "Content-Type: text/plain", LengthOf(|data|), "Connection: close", data);
    Joined("HTTP/1.1 200 OK\r\n" + "Content-Type: text/plain\r\n", "Content-Length: ", digits, "\r\n");
  }

  lemma TcpHeader(n: nat)
    ensures TcpServer.Headers(n) == "HTTP/1.1 200 OK\r\n" + "Content-Type: text/plain\r\n" + "Content-Length: "
      + PrintNat(n) + "\r\n" + "Connection: close\r\n" + "\r\n"
  {
  }

  // ---- reading the fields ----

  lemma DifferentNames(n: nat)
    ensures !("Content-Length: " <= "HTTP/1.1 200 OK") && !("Content-Length: " <= "Content-Type: text/plain")
    ensures !("Content-Type: " <= "HTTP/1.1 200 OK") && !("Content-Type: " <= LengthOf(n))
    ensures !("Connection: " <= "HTTP/1.1 200 OK") && !("Connection: " <= LengthOf(n))
    ensures !("Connection: " <= "Content-Type: text/plain") && !("Connection: " <= "Content-Type: text/html")
  {
    Differ("Content-Length: ", "HTTP/1.1 200 OK", 0);
    Differ("Content-Length: ", "Content-Type: text/plain", 8);
    Differ("Content-Type: ", "HTTP/1.1 200 OK", 0);
    Differ("Content-Type: ", LengthOf(n), 8);
    Differ("Connection: ", "HTTP/1.1 200 OK", 0);
    Differ("Connection: ", LengthOf(n), 3);
    Differ("Connection: ", "Content-Type: text/plain", 3);
    Differ("Connection: ", "Content-Type: text/html", 3);
  }

  /** The field in line `i`, whose name is followed by a colon and a space. */
  lemma FieldIs(lines: seq<string>, body: string, name: string, tag: string, i: nat, value: string)
    requires Lines(lines) && tag == name + ": " && i < |lines| && lines[i] == tag + value
    requires forall j :: 0 <= j < i ==> !(tag <= lines[j])
    ensures Field(Message(lines, body), name) == Present(value)
  {
    assert lines[i][|name| + 2..] == value;
    hide *;
    FieldOfMessage(lines, body, name, i);
  }

  lemma NoField(lines: seq<string>, body: string, name: string, tag: string)
    requires Lines(lines) && tag == name + ": "
    requires forall j :: 0 <= j < |lines| ==> !(tag <= lines[j])
    ensures Field(Message(lines, body), name) == Absent
  {
    hide *;
    FieldOfMessage(lines, body, name, |lines|);
  }

  lemma Labels()
    ensures "Content-Type" + ": " == "Content-Type: " && "Connection" + ": " == "Connection: "
    ensures "Content-Type: text/html" == "Content-Type: " + "text/html"
    ensures "Content-Type: text/plain" == "Content-Type: " + "text/plain"
    ensures "Connection: close" == "Connection: " + "close"
  {
  }

  lemma CoroutineRead(body: string, s: string, lines: seq<string>)
    requires lines == ["HTTP/1.1 200 OK", LengthOf(|body|), "Content-Type: text/html", "Connection: close"]
    requires s == Message(lines, body)
    ensures Lines(lines) && Understood(s, body)
  {
    LiteralLines();
    LengthLine(|body|);
    DifferentNames(|body|);
    hide OneLine, Understood, Message, LengthOf;
    assert Lines(lines) && lines[1] == "Content-Length: " + PrintNat(|body|);
    HeadUnderstood(lines, body, 1);
  }

  lemma CoroutineType(body: string, s: string, lines: seq<string>)
    requires lines == ["HTTP/1.1 200 OK", LengthOf(|body|), "Content-Type: text/html", "Connection: close"]
    requires s == Message(lines, body) && Lines(lines)
    ensures Field(s, "Content-Type") == Present("text/html")
  {
    DifferentNames(|body|);
    Labels();
    hide *;
    FieldIs(lines, body, "Content-Type", "Content-Type: ", 2, "text/html");
  }

  lemma CoroutineConnection(body: string, s: string, lines: seq<string>)
    requires lines == ["HTTP/1.1 200 OK", LengthOf(|body|), "Content-Type: text/html", "Connection: close"]
    requires s == Message(lines, body) && Lines(lines)
    ensures Field(s, "Connection") == Present("close")
  {
    DifferentNames(|body|);
    Labels();
    hide *;
    FieldIs(lines, body, "Connection", "Connection: ", 3, "close");
  }

  /** What a client of the coroutine server understands of header and file. */
  lemma CoroutineResponse(file: string)
    ensures var s := Coroutines.Header(|file|) + file;
      && Understood(s, file)
      && Field(s, "Content-Type") == Present("text/html") && Field(s, "Connection") == Present("close")
  {
    var lines := ["HTTP/1.1 200 OK", LengthOf(|file|), "Content-Type: text/html", "Connection: close"];
    CoroutineHead(file);
    hide *;
    CoroutineRead(file, Coroutines.Header(|file|) + file, lines);
    CoroutineType(file, Coroutines.Header(|file|) + file, lines);
    CoroutineConnection(file, Coroutines.Header(|file|) + file, lines);
  }

  lemma PthreadRead(body: string, s: string, lines: seq<string>)
    requires lines == ["HTTP/1.1 200 OK", LengthOf(|body|), "Content-Type: text/html"]
    requires s == Message(lines, body)
    ensures Lines(lines) && Understood(s, body)
  {
    LiteralLines();
    LengthLine(|body|);
    DifferentNames(|body|);
    hide OneLine, Understood, Message, LengthOf;
    assert Lines(lines) && lines[1] == "Content-Length: " + PrintNat(|body|);
    HeadUnderstood(lines, body, 1);
  }

  lemma PthreadType(body: string, s: string, lines: seq<string>)
    requires lines == ["HTTP/1.1 200 OK", LengthOf(|body|), "Content-Type: text/html"]
    requires s == Message(lines, body) && Lines(lines)
    ensures Field(s, "Content-Type") == Present("text/html")
  {
    DifferentNames(|body|);
    Labels();
    hide *;
    FieldIs(lines, body, "Content-Type", "Content-Type: ", 2, "text/html");
  }

  lemma PthreadConnection(body: string, s: string, lines: seq<string>)
    requires lines == ["HTTP/1.1 200 OK", LengthOf(|body|), "Content-Type: text/html"]
    requires s == Message(lines, body) && Lines(lines)
    ensures Field(s, "Connection") == Absent
  {
    DifferentNames(|body|);
    Labels();
    hide *;
    NoField(lines, body, "Connection", "Connection: ");
  }

  /** What a client of the pthread server does; it is not told that the connection will be closed. */
  lemma PthreadResponse(file: string)
    ensures var s := Pthreads.HeaderText(|file|) + file;
      && Understood(s, file)
      && Field(s, "Content-Type") == Present("text/html") && Field(s, "Connection") == Absent
  {
    var lines := ["HTTP/1.1 200 OK", LengthOf(|file|), "Content-Type: text/html"];
    PthreadHead(file);
    hide *;
    PthreadRead(file, Pthreads.HeaderText(|file|) + file, lines);
    PthreadType(file, Pthreads.HeaderText(|file|) + file, lines);
    PthreadConnection(file, Pthreads.HeaderText(|file|) + file, lines);
  }

  lemma TcpRead(body: string, s: string, lines: seq<string>)
    requires lines == ["HTTP/1.1 200 OK", "Content-Type: text/plain", LengthOf(|body|), "Connection: close"]
    requires s == Message(lines, body)
    ensures Lines(lines) && Understood(s, body)
  {
    LiteralLines();
    LengthLine(|body|);
    DifferentNames(|body|);
    hide OneLine, Understood, Message, LengthOf;
    assert Lines(lines) && lines[2] == "Content-Length: " + PrintNat(|body|);
    HeadUnderstood(lines, body, 2);
  }

  lemma TcpType(body: string, s: string, lines: seq<string>)
    requires lines == ["HTTP/1.1 200 OK", "Content-Type: text/plain", LengthOf(|body|), "Connection: close"]
    requires s == Message(lines, body) && Lines(lines)
    ensures Field(s, "Content-Type") == Present("text/plain")
  {
    DifferentNames(|body|);
    Labels();
    hide *;
    FieldIs(lines, body, "Content-Type", "Content-Type: ", 1, "text/plain");
  }

  lemma TcpConnection(body: string, s: string, lines: seq<string>)
    requires lines == ["HTTP/1.1 200 OK", "Content-Type: text/plain", LengthOf(|body|), "Connection: close"]
    requires s == Message(lines, body) && Lines(lines)
    ensures Field(s, "Connection") == Present("close")
  {
    DifferentNames(|body|);
    Labels();
    hide *;
    FieldIs(lines, body, "Connection", "Connection: ", 3, "close");
  }

  /** What a client that has got all segments of the hand-made server does. */
  lemma TcpResponse(data: string)
    ensures var s := TcpServer.Headers(|data|) + data;
      && Understood(s, data)
      && Field(s, "Content-Type") == Present("text/plain") && Field(s, "Connection") == Present("close")
  {
    var lines := ["HTTP/1.1 200 OK", "Content-Type: text/plain", LengthOf(|data|), "Connection: close"];
    TcpHead(data);
    hide *;
    TcpRead(data, TcpServer.Headers(|data|) + data, lines);
    TcpType(data, TcpServer.Headers(|data|) + data, lines);
    TcpConnection(data, TcpServer.Headers(|data|) + data, lines);
  }

  // ---- over the runs ----

  /** Over every run of the coroutine server, a finished client has read status 200, the length of the file, and after
      the empty line exactly the file. */
  lemma CoroutineClientUnderstands(file: string, steps: seq<Coroutines.Step>, c: nat)
    requires Coroutines.IsRun(Coroutines.Init(file), steps)
    requires c < |Coroutines.After(Coroutines.Init(file), steps).clients|
    requires Coroutines.After(Coroutines.Init(file), steps).clients[c].frame == Coroutines.Finished
    ensures Understood(
      Concat(CoroutineTheorems.Pieces(Coroutines.After(Coroutines.Init(file), steps).clients[c].stream)), file)
  {
    hide *;
    CoroutineTheorems.StreamsFollowScript(file, steps, c);
    CoroutineResponse(file);
  }

  /** The same for the pthread server, unless the accept loop ended while a thread had a piece left to send. */
  lemma PthreadClientUnderstands(file: string, steps: seq<Pthreads.Step>, c: nat)
    requires Pthreads.IsRun(Pthreads.Init(file), steps) && |file| < 0x1_0000_0000_0000_0000
    requires Pthreads.EndsSafely(Pthreads.Init(file), steps)
    requires c < |Pthreads.After(Pthreads.Init(file), steps).clients|
    requires Pthreads.After(Pthreads.Init(file), steps).clients[c].point == Pthreads.Done
    ensures Understood(Concat(Pthreads.After(Pthreads.Init(file), steps).clients[c].stream), file)
  {
    hide *;
    Pthreads.StreamsFollowScript(file, steps, c);
    DoneMeans(file, Pthreads.After(Pthreads.Init(file), steps).clients[c]);
    Pthreads.HeaderIsWhole(|file|);
    PthreadResponse(file);
  }

  lemma DoneMeans(file: string, client: Pthreads.Client)
    requires Pthreads.Follows(file, client) && client.point == Pthreads.Done
    ensures Concat(client.stream) == Pthreads.Header(|file|) + file
  {
    hide Concat, Pthreads.Header, Script;
  }

  /** Reading bytes off as far as there are any. */
  lemma ReadOff(delivered: seq<Segment>, base: int, payload: string, got: string)
    requires forall q :: base <= q < base + |payload| ==> ByteAt(delivered, q) == Got(payload[q - base])
    requires forall q :: !(base <= q < base + |payload|) ==> ByteAt(delivered, q) == Lost
    requires forall q :: base <= q < base + |got| ==> ByteAt(delivered, q) == Got(got[q - base])
    requires ByteAt(delivered, base + |got|) == Lost
    ensures got == payload
  {
    hide ByteAt;
    assert ByteAt(delivered, base + |payload|) == Lost;
    assert |got| == |payload|;
    forall i | 0 <= i < |got|
      ensures got[i] == payload[i]
    {
      assert ByteAt(delivered, base + i) == Got(got[i]) == Got(payload[i]);
    }
  }

  lemma TcpClientReads(t: TcpServer.Trace, s0: nat, payload: string, delivered: seq<Segment>, got: string)
    requires t.Served?
    requires forall s :: s in delivered <==>
      (TcpServer.Data(s, TcpServer.RequestEnd(t)) in TcpServer.SessionPackets(t, s0, payload))
    requires forall q :: s0 + 1 <= q < s0 + 1 + |got| ==> ByteAt(delivered, q) == Got(got[q - (s0 + 1)])
    requires ByteAt(delivered, s0 + 1 + |got|) == Lost
    ensures got == payload
  {
    hide *;
    TcpServer.SessionDelivers(t, s0, payload, delivered);
    ReadOff(delivered, s0 + 1, payload, got);
  }

  lemma TcpUnderstood(data: string)
    ensures Understood(TcpServer.Headers(|data|) + data, data)
  {
    hide *;
    TcpResponse(data);
  }

  /** And for the hand-made server: whatever happens to the packets of a served session on the way, a client that has
      got each data packet and reads on from number s0 + 1 as far as there are bytes has read status 200, the length of
      the data, and the data. */
  lemma TcpClientUnderstands(t: TcpServer.Trace, s0: nat, data: string, delivered: seq<Segment>, got: string)
    requires t.Served?
    requires forall s :: s in delivered <==>
      (TcpServer.Data(s, TcpServer.RequestEnd(t)) in TcpServer.SessionPackets(t, s0, TcpServer.Headers(|data|) + data))
    requires forall q :: s0 + 1 <= q < s0 + 1 + |got| ==> ByteAt(delivered, q) == Got(got[q - (s0 + 1)])
    requires ByteAt(delivered, s0 + 1 + |got|) == Lost
    ensures Understood(got, data)
  {
    hide *;
    TcpClientReads(t, s0, TcpServer.Headers(|data|) + data, delivered, got);
    TcpUnderstood(data);
  }
}
