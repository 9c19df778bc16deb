/** The IoT message parser: MQTT and HTTP splitting on C strings in fixed buffers. */
module IotParser {
  import opened CStrings

  /** A string cut at its first space. */
  datatype Parts = Whole | Parts(head: string, tail: string)

  function Split(s: string): Parts {
    var i := Find(s, ' ');
    if i == |s| then Whole else Parts(s[..i], s[i + 1..])
  }

  /** Cutting inverts joining, in both directions. */
  lemma SplitJoined(s: string, head: string, tail: string)
    ensures Split(s) == Parts(head, tail) <==> ' ' !in head && s == head + [' '] + tail
  {
    if ' ' !in head && s == head + [' '] + tail {
      FindUnique(head, ' ', tail);
    }
    var i := Find(s, ' ');
    if i < |s| {
      assert s == s[..i] + [' '] + s[i + 1..];
    }
  }

  // ---- MQTT: "mqtt" topic ' ' payload ----

  class MqttMessage {
    const topic: array<char>
    const payload: array<char>

    constructor ()
      ensures topic.Length == 64 && payload.Length == 256 && fresh(topic) && fresh(payload)
      ensures topic[..] == seq(64, _ => NUL) && payload[..] == seq(256, _ => NUL)
    {
      topic := new char[64](_ => NUL);
      payload := new char[256](_ => NUL);
    }
  }

  /** `strncpy` of characters without NUL, and the terminator the parser writes after it. */
  method CopyPrefix(dst: array<char>, src: string, n: nat)
    requires n <= |src| && n < dst.Length && NUL !in src
    modifies dst
    ensures Text(dst[..]) == src[..n]
  {
    ghost var was := dst[..];
    for i := 0 to n
      invariant dst[..i] == src[..i]
    {
      dst[i] := src[i];
    }
    dst[n] := NUL;
    assert dst[..] == src[..n] + [NUL] + dst[n + 1..];
    TextOf(src[..n], dst[n + 1..]);
  }

  /** Fills in both parts, or leaves the message as it is when there is no space. The parts have to fit. */
  method ParseMqttTopic(input: string, msg: MqttMessage)
    requires |input| >= 4 && NUL !in input && msg.topic != msg.payload
    requires var p := Split(input[4..]);
      p.Parts? ==> |p.head| < msg.topic.Length && |p.tail| < msg.payload.Length
    modifies msg.topic, msg.payload
    ensures match Split(input[4..])
      case Whole => msg.topic[..] == old(msg.topic[..]) && msg.payload[..] == old(msg.payload[..])
      case Parts(topic, payload) => Text(msg.topic[..]) == topic && Text(msg.payload[..]) == payload
  {
    var rest := input[4..];
    var spacePos := Find(rest, ' ');
    if spacePos < |rest| {
      CopyPrefix(msg.topic, rest, spacePos);
      CopyText(msg.payload, rest[spacePos + 1..]);
    }
  }

  // ---- HTTP: method ' ' path ' ' body ----

  datatype Http = Nothing | MethodOnly(verb: string) | Http(verb: string, path: string, body: string)

  function ParseHttp(input: string): Http {
    match Split(input)
    case Whole => Nothing
    case Parts(verb, rest) =>
      match Split(rest)
      case Whole => MethodOnly(verb)
      case Parts(path, body) => Http(verb, path, body)
  }

  class HttpMessage {
    const verb: array<char>
    const path: array<char>
    const body: array<char>

    constructor ()
      ensures verb.Length == 8 && path.Length == 64 && body.Length == 256
      ensures fresh(verb) && fresh(path) && fresh(body)
    {
      verb := new char[8](_ => NUL);
      path := new char[64](_ => NUL);
      body := new char[256](_ => NUL);
    }

    predicate Fits(p: Http) {
      && verb != path && verb != body && path != body
      && (p.MethodOnly? || p.Http? ==> |p.verb| < verb.Length)
      && (p.Http? ==> |p.path| < path.Length && |p.body| < body.Length)
    }
  }

  /** The C string at position `from` of a buffer. */
  method ReadText(a: array<char>, from: nat, ghost text: string, ghost rest: seq<char>) returns (s: string)
    requires from <= a.Length && a[from..] == text + [NUL] + rest && NUL !in text
    ensures s == text
  {
    var i := from;
    while a[i] != NUL
      invariant from <= i <= from + |text| < a.Length
      decreases a.Length - i
    {
      assert a[from..][i - from] == a[i];
      i := i + 1;
    }
    assert a[from..][i - from] == a[i];
    s := a[from..i];
    assert s == a[from..][..i - from] == text;
  }

  /** Finds the first space of the C string at `from` and overwrites it with a terminator. */
  method Cut(copy: array<char>, from: nat, ghost s: string) returns (end: int)
    requires from <= copy.Length && copy[from..] == s + [NUL] && NUL !in s
    modifies copy
    ensures Split(s).Whole? ==> end == -1 && copy[..] == old(copy[..])
    ensures Split(s).Parts? ==> end == from + |Split(s).head| < copy.Length
    ensures Split(s).Parts? ==> copy[from..] == Split(s).head + [NUL] + Split(s).tail + [NUL]
    ensures copy[..from] == old(copy[..from])
  {
    TextOf(s, []);
    assert s + [NUL] + [] == s + [NUL];
    end := StrChr(copy, from, ' ');
    if end >= 0 {
      ghost var was := copy[from..];
      Overwritten(s);
      hide Find, Text;
      copy[end] := NUL;
      assert copy[from..] == was[end - from := NUL];
    }
  }

  lemma Overwritten(s: string)
    requires Split(s).Parts?
    ensures |Split(s).head| < |s|
    ensures (s + [NUL])[|Split(s).head| := NUL] == Split(s).head + [NUL] + Split(s).tail + [NUL]
  {
  }

  /** Cuts off the part before the first space and copies it to `dst`, when there is a space. */
  method TakePart(copy: array<char>, from: nat, dst: array<char>, ghost s: string) returns (end: int)
    requires from <= copy.Length && copy[from..] == s + [NUL] && NUL !in s && copy != dst
    requires Split(s).Parts? ==> |Split(s).head| < dst.Length
    modifies copy, dst
    ensures Split(s).Whole? ==> end == -1 && dst[..] == old(dst[..])
    ensures Split(s).Parts? ==> from <= end < copy.Length
    ensures Split(s).Parts? ==> copy[end + 1..] == Split(s).tail + [NUL] && NUL !in Split(s).tail
    ensures Split(s).Parts? ==> Text(dst[..]) == Split(s).head
  {
    end := Cut(copy, from, s);
    if end >= 0 {
      ghost var head, tail := Split(s).head, Split(s).tail;
      assert copy[from..] == head + [NUL] + (tail + [NUL]);
      var text := ReadText(copy, from, head, tail + [NUL]);
      CopyText(dst, text);
      assert copy[end + 1..] == copy[from..][|head| + 1..];
    }
  }

  /** Works on a private copy in which it overwrites the two separators; `input` is a value and stays as it is.
      Without a second space only the method is filled in. */
  method ParseHttpRequest(input: string, msg: HttpMessage)
    requires NUL !in input && msg.Fits(ParseHttp(input))
    modifies msg.verb, msg.path, msg.body
    ensures match ParseHttp(input)
      case Nothing =>
        msg.verb[..] == old(msg.verb[..]) && msg.path[..] == old(msg.path[..]) && msg.body[..] == old(msg.body[..])
      case MethodOnly(verb) =>
        Text(msg.verb[..]) == verb && msg.path[..] == old(msg.path[..]) && msg.body[..] == old(msg.body[..])
      case Http(verb, path, body) =>
        Text(msg.verb[..]) == verb && Text(msg.path[..]) == path && Text(msg.body[..]) == body
  {
    var first := Split(input);
    assert first.Parts? ==> |first.head| < msg.verb.Length;
    assert first.Parts? && Split(first.tail).Parts? ==>
      |Split(first.tail).head| < msg.path.Length && |Split(first.tail).tail| < msg.body.Length;
    hide *;
    var copy := new char[|input| + 1];
    StrCpy(copy, input);
    assert copy[0..] == copy[..] == input + [NUL];
    var methodEnd := TakePart(copy, 0, msg.verb, input);
    if methodEnd >= 0 {
      ghost var rest := first.tail;
      var pathEnd := TakePart(copy, methodEnd + 1, msg.path, rest);
      if pathEnd >= 0 {
        ghost var last := Split(rest).tail;
        assert last + [NUL] + [] == last + [NUL];
        var body := ReadText(copy, pathEnd + 1, last, []);
        CopyText(msg.body, body);
      }
    }
    HttpCases(input);
  }

  lemma HttpCases(input: string)
    ensures ParseHttp(input) ==
      if Split(input).Whole? then Nothing
      else if Split(Split(input).tail).Whole? then MethodOnly(Split(input).head)
      else Http(Split(input).head, Split(Split(input).tail).head, Split(Split(input).tail).tail)
  {
  }

  /** The parts of a request joined by single spaces come back, and only so. */
  lemma HttpSplitsJoined(input: string, verb: string, path: string, body: string)
    ensures ParseHttp(input) == Http(verb, path, body)
      <==> ' ' !in verb && ' ' !in path && input == verb + [' '] + path + [' '] + body
  {
    var rest := path + [' '] + body;
    assert verb + [' '] + rest == verb + [' '] + path + [' '] + body;
    SplitJoined(input, verb, rest);
    SplitJoined(rest, path, body);
    if ParseHttp(input) == Http(verb, path, body) {
      var tail := Split(input).tail;
      SplitJoined(input, verb, tail);
      SplitJoined(tail, path, body);
    }
  }
}
