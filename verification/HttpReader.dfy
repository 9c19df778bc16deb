/** What the client of an HTTP server reads off its connection, and what the three servers of the repository tell it. */
module HttpReader {
  import opened CStrings
  import opened Decimal
  import JsonField

  const CRLF := "\r\n"

  /** The first line, without its end; all of it when no line ends. */
  function Line(s: string): string {
    var i := FindText(s, "\r\n", 0);
    if i < 0 then s else s[..i]
  }

  /** What follows the first line. */
  function AfterLine(s: string): (rest: string)
    ensures s != [] ==> |rest| < |s|
  {
    var i := FindText(s, "\r\n", 0);
    if i < 0 then [] else s[i + 2..]
  }

  /** What follows the first empty line. */
  function Body(s: string): string {
    var i := FindText(s, "\r\n\r\n", 0);
    if i < 0 then [] else s[i + 4..]
  }

  datatype Value = Absent | Present(text: string)

  /** The value of the first field with this name, before the first empty line. */
  function Field(s: string, name: string): Value
    decreases |s|
  {
    if Line(s) == [] then Absent
    else if name + ": " <= Line(s) then Present(Line(s)[|name| + 2..])
    else Field(AfterLine(s), name)
  }

  /** A client whose `long` goes up to `max` reads the number `n` off the field `name`. */
  predicate Reads(s: string, name: string, n: nat, max: nat) {
    var v := Field(s, name);
    v.Present? && JsonField.Strtol(v.text, max) == JsonField.Parsed(n, |v.text|)
  }

  // ---- reading line by line ----

  predicate OneLine(l: string) { l != [] && '\r' !in l }

  lemma NotThere(s: string, needle: string, k: nat)
    requires needle != [] && k < |s| && s[k] != needle[0]
    ensures !OccursAt(s, needle, k)
  {
    if k + |needle| <= |s| {
      assert s[k..k + |needle|][0] == s[k];
    }
  }

  lemma FindsAt(s: string, needle: string, k: nat)
    requires OccursAt(s, needle, k) && forall j: nat :: j < k ==> !OccursAt(s, needle, j)
    ensures FindText(s, needle, 0) == k
  {
  }

  /** Reading one line off the beginning. */
  lemma FirstLine(l: string, rest: string)
    requires '\r' !in l
    ensures Line(l + ("\r\n" + rest)) == l && AfterLine(l + ("\r\n" + rest)) == rest
  {
    var s := l + ("\r\n" + rest);
    assert s[|l|..|l| + 2] == "\r\n";
    forall j: nat | j < |l|
      ensures !OccursAt(s, "\r\n", j)
    {
      assert s[j] == l[j];
      NotThere(s, "\r\n", j);
    }
    FindsAt(s, "\r\n", |l|);
    assert s[|l| + 2..] == rest;
  }

  lemma Shifted(a: string, s: string, needle: string, k: nat)
    ensures OccursAt(a + s, needle, |a| + k) <==> OccursAt(s, needle, k)
  {
    if k + |needle| <= |s| {
      assert (a + s)[|a| + k..|a| + k + |needle|] == s[k..k + |needle|];
    }
  }

  /** An empty line after `l` ends the head. */
  lemma BodyHere(l: string, body: string)
    requires '\r' !in l
    ensures Body(l + ("\r\n" + ("\r\n" + body))) == body
  {
    var s := l + ("\r\n" + ("\r\n" + body));
    assert s[|l|..|l| + 4] == "\r\n\r\n";
    forall j: nat | j < |l|
      ensures !OccursAt(s, "\r\n\r\n", j)
    {
      assert s[j] == l[j];
      NotThere(s, "\r\n\r\n", j);
    }
    FindsAt(s, "\r\n\r\n", |l|);
    assert s[|l| + 4..] == body;
  }

  /** The end of the head does not begin in a line that another one follows. */
  lemma NotInLine(l: string, rest: string, j: nat)
    requires '\r' !in l && rest != [] && rest[0] != '\r' && j < |l| + 2
    ensures !OccursAt((l + "\r\n") + rest, "\r\n\r\n", j)
  {
    var s := (l + "\r\n") + rest;
    if j < |l| {
      assert s[j] == l[j];
      NotThere(s, "\r\n\r\n", j);
    } else if j == |l| {
      assert s[j + 2] == rest[0];
      SecondLine(s, j);
    } else {
      assert s[j] == '\n';
      NotThere(s, "\r\n\r\n", j);
    }
  }

  lemma Behind(l: string, rest: string, k: nat)
    requires k <= |rest|
    ensures (l + "\r\n") + rest == l + ("\r\n" + rest)
    ensures ((l + "\r\n") + rest)[|l + "\r\n"| + k..] == rest[k..]
  {
  }

  /** Any other line is part of the head. */
  lemma BodyLater(l: string, rest: string)
    requires '\r' !in l && rest != [] && rest[0] != '\r' && FindText(rest, "\r\n\r\n", 0) >= 0
    ensures FindText(l + ("\r\n" + rest), "\r\n\r\n", 0) >= 0
    ensures Body(l + ("\r\n" + rest)) == Body(rest)
  {
    var head, end := l + "\r\n", "\r\n\r\n";
    var s, k := head + rest, FindText(rest, end, 0);
    Behind(l, rest, k + 4);
    hide OccursAt;
    Shifted(head, rest, end, k);
    forall j: nat | j < |head| + k
      ensures !OccursAt(s, end, j)
    {
      if j < |head| {
        NotInLine(l, rest, j);
      } else {
        Shifted(head, rest, end, j - |head|);
      }
    }
    FindsAt(s, end, |head| + k);
  }

  lemma SecondLine(s: string, j: nat)
    requires j + 2 < |s| && s[j + 2] != '\r'
    ensures !OccursAt(s, "\r\n\r\n", j)
  {
    if j + 4 <= |s| {
      assert s[j..j + 4][2] == s[j + 2];
    }
  }

  // ---- heads made of lines ----

  /** The lines, each with its end, an empty line, and the body. */
  function Message(lines: seq<string>, body: string): string {
    if lines == [] then "\r\n" + body else lines[0] + ("\r\n" + Message(lines[1..], body))
  }

  predicate Lines(lines: seq<string>) { forall i :: 0 <= i < |lines| ==> OneLine(lines[i]) }

  lemma {:induction false} BodyOfMessage(lines: seq<string>, body: string)
    requires Lines(lines) && lines != []
    ensures Body(Message(lines, body)) == body && FindText(Message(lines, body), "\r\n\r\n", 0) >= 0
    ensures Line(Message(lines, body)) == lines[0]
  {
    hide FindText, Body, Line;
    var l, rest := lines[0], lines[1..];
    assert OneLine(l);
    FirstLine(l, Message(rest, body));
    if rest == [] {
      BodyHere(l, body);
      HasEnd(l, "\r\n" + body, body);
    } else {
      BodyOfMessage(rest, body);
      assert OneLine(rest[0]) && Message(rest, body)[0] == rest[0][0];
      BodyLater(l, Message(rest, body));
    }
  }

  lemma HasEnd(l: string, rest: string, body: string)
    requires rest == "\r\n" + body
    ensures FindText(l + ("\r\n" + rest), "\r\n\r\n", 0) >= 0
  {
    var s := l + ("\r\n" + rest);
    assert s[|l|..|l| + 4] == "\r\n\r\n";
    assert OccursAt(s, "\r\n\r\n", |l|);
  }

  /** The first line of that name is found, and no other. */
  lemma {:induction false} FieldOfMessage(lines: seq<string>, body: string, name: string, i: nat)
    requires Lines(lines) && i <= |lines| && (i < |lines| ==> name + ": " <= lines[i])
    requires forall j :: 0 <= j < i ==> !(name + ": " <= lines[j])
    ensures Field(Message(lines, body), name)
      == if i < |lines| then Present(lines[i][|name| + 2..]) else Absent
    decreases |lines|
  {
    hide Line, AfterLine;
    if lines == [] {
      assert Message(lines, body) == [] + ("\r\n" + body);
      FirstLine([], body);
    } else {
      assert OneLine(lines[0]);
      FirstLine(lines[0], Message(lines[1..], body));
      if i > 0 {
        FieldOfMessage(lines[1..], body, name, i - 1);
      }
    }
  }

  // ---- what the servers tell their clients ----

  /** A response with status 200 whose client learns the length of `body` before it reads exactly `body`. */
  ghost predicate Understood(s: string, body: string) {
    && Line(s) == "HTTP/1.1 200 OK" && Body(s) == body
    && forall max: nat :: |body| <= max ==> Reads(s, "Content-Length", |body|, max)
  }

  lemma Differ(a: string, b: string, k: nat)
    requires k < |a| && k < |b| && a[k] != b[k]
    ensures !(a <= b)
  {
  }

  lemma LengthLine(n: nat)
    ensures OneLine("Content-Length: " + PrintNat(n)) && "Content-Length: " <= "Content-Length: " + PrintNat(n)
    ensures ("Content-Length: " + PrintNat(n))[16..] == PrintNat(n)
  {
    var digits := PrintNat(n);
    assert forall i :: 0 <= i < |digits| ==> IsDigit(digits[i]);
  }

  lemma LengthRead(n: nat, max: nat)
    requires n <= max
    ensures JsonField.Strtol(PrintNat(n), max) == JsonField.Parsed(n, |PrintNat(n)|)
  {
    JsonField.ParsePrinted(n, [], max);
    assert Print(n) + [] == PrintNat(n);
  }

  /** The same for every head that has the status first and one line with the length. */
  lemma HeadUnderstood(lines: seq<string>, body: string, i: nat)
    requires Lines(lines) && i < |lines| && lines[0] == "HTTP/1.1 200 OK"
    requires lines[i] == "Content-Length: " + PrintNat(|body|)
    requires forall j :: 0 <= j < i ==> !("Content-Length: " <= lines[j])
    ensures Understood(Message(lines, body), body)
  {
    var name := "Content-Length";
    assert name + ": " == "Content-Length: " && |name| + 2 == 16;
    LengthLine(|body|);
    BodyOfMessage(lines, body);
    FieldOfMessage(lines, body, name, i);
    hide *;
    forall max: nat | |body| <= max
      ensures Reads(Message(lines, body), name, |body|, max)
    {
      LengthRead(|body|, max);
      ReadsPrinted(Message(lines, body), name, |body|, max);
    }
    UnderstoodIs(Message(lines, body), body);
  }

  lemma ReadsPrinted(s: string, name: string, n: nat, max: nat)
    requires Field(s, name) == Present(PrintNat(n))
    requires JsonField.Strtol(PrintNat(n), max) == JsonField.Parsed(n, |PrintNat(n)|)
    ensures Reads(s, name, n, max)
  {
  }

  lemma UnderstoodIs(s: string, body: string)
    requires Line(s) == "HTTP/1.1 200 OK" && Body(s) == body
    requires forall max: nat :: |body| <= max ==> Reads(s, "Content-Length", |body|, max)
    ensures Understood(s, body)
  {
    hide Reads, Line, Body;
  }
}
