/** The NOTIFY message of an event: its text, and what a receiver reads from it. */
module NotifyMessage {
  import opened Wrappers
  import opened SeqTools

  /** What one NOTIFY message says. */
  datatype Event = Event(path: string, host: string, body: string, key: nat)

  const CRLF := "\r\n"

  function Lines(lines: seq<string>): (r: string)
    ensures lines != [] ==> r != ""
  {
    if lines == [] then "" else lines[0] + (CRLF + Lines(lines[1..]))
  }

  function PathOf(e: Event): string {
    if e.path != "" then e.path else "/"
  }

  function Fields(sid: string, e: Event): seq<(string, string)> {
    [("Host", e.host),
     ("Content-Type", "text/xml; charset=\"utf-8\""),
     ("Content-Length", Decimal(|e.body| + 2)),
     ("NT", "upnp:event"),
     ("NTS", "upnp:propchange"),
     ("SID", sid),
     ("SEQ", Decimal(e.key)),
     ("Connection", "close"),
     ("Cache-Control", "no-cache")]
  }

  function FieldLines(fields: seq<(string, string)>): seq<string> {
    if fields == [] then [] else [fields[0].0 + (": " + fields[0].1)] + FieldLines(fields[1..])
  }

  function RequestLine(e: Event): string {
    "NOTIFY " + (PathOf(e) + " HTTP/1.1")
  }

  function MessageLines(sid: string, e: Event): seq<string> {
    [RequestLine(e)] + (FieldLines(Fields(sid, e)) + ["", e.body])
  }

  /** The text of the message. */
  function Text(sid: string, e: Event): (r: string)
    ensures r != ""
  {
    Lines(MessageLines(sid, e))
  }

  // ---------- the receiver ----------

  /** Where the first line ends. */
  function LineEnd(s: string): (r: nat)
    ensures r <= |s|
  {
    if |s| < 2 then |s| else if s[0] == '\r' && s[1] == '\n' then 0 else 1 + LineEnd(s[1..])
  }

  function FirstLine(s: string): string {
    s[..LineEnd(s)]
  }

  function OtherLines(s: string): (r: string)
    ensures s != "" ==> |r| < |s|
  {
    if LineEnd(s) + 2 <= |s| then s[LineEnd(s) + 2..] else ""
  }

  /** The value of a header: what follows its name, in the lines up to the first empty one. */
  function Header(s: string, name: string): Option<string>
    decreases |s|
  {
    if s == "" || FirstLine(s) == "" then None
    else if name + ": " <= FirstLine(s) then Some(FirstLine(s)[|name| + 2..])
    else Header(OtherLines(s), name)
  }

  /** What follows the first empty line. */
  function Content(s: string): string
    decreases |s|
  {
    if s == "" then "" else if FirstLine(s) == "" then OtherLines(s) else Content(OtherLines(s))
  }

  predicate Unbroken(s: string) {
    forall k :: 0 <= k < |s| ==> s[k] != '\r'
  }

  lemma {:induction false} LineEndIs(line: string, rest: string)
    requires Unbroken(line)
    ensures LineEnd(line + (CRLF + rest)) == |line|
  {
    var s := line + (CRLF + rest);
    if line == "" {
      assert s[0] == '\r' && s[1] == '\n';
    } else {
      assert s[0] == line[0];
      assert s[1..] == line[1..] + (CRLF + rest);
      LineEndIs(line[1..], rest);
    }
  }

  lemma LineRead(line: string, rest: string)
    requires Unbroken(line)
    ensures var s := line + (CRLF + rest); s != "" && FirstLine(s) == line && OtherLines(s) == rest
  {
    LineEndIs(line, rest);
    var s := line + (CRLF + rest);
    assert s[..|line|] == line && s[|line| + 2..] == rest;
  }

  /** A header that is not in the first line. */
  lemma HeaderSkips(line: string, rest: string, name: string)
    requires Unbroken(line) && line != "" && !(name + ": " <= line)
    ensures Header(line + (CRLF + rest), name) == Header(rest, name)
  {
    hide FirstLine, OtherLines, CRLF;
    LineRead(line, rest);
  }

  lemma HeaderHere(name: string, value: string, rest: string)
    requires Unbroken(name + ": " + value)
    ensures Header(name + ": " + value + (CRLF + rest), name) == Some(value)
  {
    hide FirstLine, OtherLines, CRLF, Unbroken;
    var line := name + ": " + value;
    LineRead(line, rest);
    assert line[..|name| + 2] == name + ": " && line[|name| + 2..] == value;
  }

  lemma ContentSkips(line: string, rest: string)
    requires Unbroken(line)
    ensures Content(line + (CRLF + rest)) == if line == "" then rest else Content(rest)
  {
    hide FirstLine, OtherLines, CRLF;
    LineRead(line, rest);
  }

  // ---------- reading headers off a list of lines ----------

  /** The lines up to the first empty one have no line breaks in them. */
  predicate HeadersUnbroken(lines: seq<string>) {
    lines == [] || (Unbroken(lines[0]) && (lines[0] == "" || HeadersUnbroken(lines[1..])))
  }

  function FindHeader(lines: seq<string>, name: string): Option<string> {
    if lines == [] || lines[0] == "" then None
    else if name + ": " <= lines[0] then Some(lines[0][|name| + 2..])
    else FindHeader(lines[1..], name)
  }

  function LinesBehind(lines: seq<string>): seq<string> {
    if lines == [] then [] else if lines[0] == "" then lines[1..] else LinesBehind(lines[1..])
  }

  lemma {:induction false} LinesRead(lines: seq<string>, name: string)
    requires HeadersUnbroken(lines)
    ensures Header(Lines(lines), name) == FindHeader(lines, name)
    ensures Content(Lines(lines)) == Lines(LinesBehind(lines))
  {
    if lines != [] {
      hide FirstLine, OtherLines, CRLF, Unbroken;
      LineRead(lines[0], Lines(lines[1..]));
      if lines[0] != "" {
        LinesRead(lines[1..], name);
      }
    }
  }

  // ---------- header fields ----------

  /** The name of a header field. */
  predicate PlainName(n: string) {
    n != "" && forall k :: 0 <= k < |n| ==> n[k] != ':' && n[k] != ' ' && n[k] != '\r'
  }

  predicate PlainFields(fields: seq<(string, string)>) {
    forall k :: 0 <= k < |fields| ==> PlainName(fields[k].0) && Unbroken(fields[k].1)
  }

  function Field(fields: seq<(string, string)>, name: string): Option<string> {
    if fields == [] then None
    else if fields[0].0 == name then Some(fields[0].1)
    else Field(fields[1..], name)
  }

  lemma {:induction false} FieldAt(fields: seq<(string, string)>, k: nat)
    requires k < |fields| && forall i :: 0 <= i < k ==> fields[i].0 != fields[k].0
    ensures Field(fields, fields[k].0) == Some(fields[k].1)
    decreases k
  {
    if k > 0 {
      FieldAt(fields[1..], k - 1);
    }
  }

  /** A line belongs to the field that it names. */
  lemma SameName(name: string, other: string, value: string)
    requires PlainName(name) && PlainName(other)
    ensures var line := other + (": " + value);
            && line != "" && (name + ": " <= line <==> name == other)
            && (name == other ==> line[|name| + 2..] == value)
  {
    var line, start := other + (": " + value), name + ": ";
    assert line[|other|] == ':' && start[|name|] == ':';
    assert line == (other + ": ") + value;
    assert |name| < |other| ==> line[|name|] == other[|name|] != ':';
    assert |other| < |name| ==> start[|other|] == name[|other|] != ':';
    if start <= line {
      assert forall k :: 0 <= k < |start| ==> start[k] == line[k];
      assert name == start[..|name|] == line[..|name|] == other;
    }
  }

  lemma FieldUnbroken(name: string, value: string)
    requires PlainName(name) && Unbroken(value)
    ensures Unbroken(name + (": " + value))
  {
  }

  lemma {:induction false} FieldsFound(fields: seq<(string, string)>, name: string, body: string)
    requires PlainFields(fields) && PlainName(name)
    ensures var lines := FieldLines(fields) + ["", body];
            && FindHeader(lines, name) == Field(fields, name)
            && HeadersUnbroken(lines) && LinesBehind(lines) == [body]
  {
    hide PlainName, Unbroken;
    var end := ["", body];
    if fields == [] {
      assert [] + end == end && end[1..] == [body];
      EmptyUnbroken();
    } else {
      var (line, rest) := (fields[0].0 + (": " + fields[0].1), FieldLines(fields[1..]));
      FieldsFound(fields[1..], name, body);
      SameName(name, fields[0].0, fields[0].1);
      FieldUnbroken(fields[0].0, fields[0].1);
      assert ([line] + rest) + end == [line] + (rest + end);
      assert ([line] + (rest + end))[1..] == rest + end;
    }
  }

  lemma EmptyUnbroken()
    ensures Unbroken("")
  {
  }

  // ---------- the message ----------

  predicate PlainEvent(sid: string, e: Event) {
    Unbroken(sid) && Unbroken(e.path) && Unbroken(e.host)
  }

  lemma DecimalUnbroken(n: nat)
    ensures Unbroken(Decimal(n))
  {
    DecimalDigits(n);
  }

  lemma Names()
    ensures PlainName("Host") && PlainName("Content-Type") && PlainName("Content-Length") && PlainName("NT")
    ensures PlainName("NTS") && PlainName("SID") && PlainName("SEQ") && PlainName("Connection")
    ensures PlainName("Cache-Control")
  {
  }

  lemma Values()
    ensures Unbroken("text/xml; charset=\"utf-8\"") && Unbroken("upnp:event") && Unbroken("upnp:propchange")
    ensures Unbroken("close") && Unbroken("no-cache")
  {
  }

  lemma FieldsPlain(sid: string, e: Event)
    requires PlainEvent(sid, e)
    ensures PlainFields(Fields(sid, e))
  {
    hide PlainName, Unbroken;
    Names();
    Values();
    DecimalUnbroken(|e.body| + 2);
    DecimalUnbroken(e.key);
  }

  lemma RequestLineIs(e: Event, name: string)
    requires Unbroken(e.path) && PlainName(name)
    ensures RequestLine(e) != "" && Unbroken(RequestLine(e)) && !(name + ": " <= RequestLine(e))
  {
    var (line, start) := (RequestLine(e), name + ": ");
    assert line[..7] == "NOTIFY " && line[..7][6] == line[6] == ' ';
    assert |name| > 6 ==> start[6] == name[6] != line[6];
    assert |name| <= 6 ==> start[|name|] == ':' != line[..7][|name|] == line[|name|];
  }

  /** Any header, the request line and the content of a message. */
  lemma Received(sid: string, e: Event, name: string)
    requires PlainEvent(sid, e) && PlainName(name)
    ensures var m := Text(sid, e);
            && FirstLine(m) == RequestLine(e) && Header(m, name) == Field(Fields(sid, e), name)
            && Content(m) == e.body + CRLF
  {
    hide Fields, FieldLines, PlainName, PlainFields, FindHeader, Field, FirstLine, OtherLines, Header, Content, CRLF;
    hide RequestLine, Unbroken, Lines, HeadersUnbroken, LinesBehind;
    var rest := FieldLines(Fields(sid, e)) + ["", e.body];
    var lines := [RequestLine(e)] + rest;
    assert lines == MessageLines(sid, e) && lines[1..] == rest;
    FieldsPlain(sid, e);
    FieldsFound(Fields(sid, e), name, e.body);
    RequestLineIs(e, name);
    Behind(lines, name);
    LinesRead(lines, name);
    LinesFirst(lines);
    LineRead(RequestLine(e), Lines(rest));
    OneLine(e.body);
  }

  lemma Behind(lines: seq<string>, name: string)
    requires lines != [] && lines[0] != "" && Unbroken(lines[0]) && !(name + ": " <= lines[0])
    requires HeadersUnbroken(lines[1..])
    ensures HeadersUnbroken(lines) && FindHeader(lines, name) == FindHeader(lines[1..], name)
    ensures LinesBehind(lines) == LinesBehind(lines[1..])
  {
  }

  lemma LinesFirst(lines: seq<string>)
    requires lines != []
    ensures Lines(lines) == lines[0] + (CRLF + Lines(lines[1..]))
  {
  }

  lemma OneLine(line: string)
    ensures Lines([line]) == line + CRLF
  {
    assert [line][1..] == [] && CRLF + "" == CRLF;
    assert Lines([]) == "";
  }

  /** What a receiver reads from a message: the event key, the subscription, the request line, the host,
      and a length that is that of what follows the headers. */
  lemma MessageRead(sid: string, e: Event)
    requires PlainEvent(sid, e)
    ensures var m := Text(sid, e);
            && FirstLine(m) == "NOTIFY " + (if e.path == "" then "/" else e.path) + " HTTP/1.1"
            && Header(m, "Host") == Some(e.host)
            && Header(m, "SID") == Some(sid)
            && Header(m, "SEQ") == Some(Decimal(e.key))
            && Header(m, "Content-Length") == Some(Decimal(|Content(m)|))
            && Content(m) == e.body + CRLF
  {
    hide FirstLine, Header, Content, PlainName, PlainEvent, Text, Field;
    Names();
    Received(sid, e, "Host");
    Received(sid, e, "SID");
    Received(sid, e, "SEQ");
    Received(sid, e, "Content-Length");
    FieldAt(Fields(sid, e), 0);
    FieldAt(Fields(sid, e), 2);
    FieldAt(Fields(sid, e), 5);
    FieldAt(Fields(sid, e), 6);
    assert RequestLine(e) == "NOTIFY " + PathOf(e) + " HTTP/1.1";
  }

  /** The headers that are the same in every message. */
  lemma FixedHeaders(sid: string, e: Event)
    requires PlainEvent(sid, e)
    ensures var m := Text(sid, e);
            && Header(m, "Content-Type") == Some("text/xml; charset=\"utf-8\"")
            && Header(m, "NT") == Some("upnp:event") && Header(m, "NTS") == Some("upnp:propchange")
            && Header(m, "Connection") == Some("close") && Header(m, "Cache-Control") == Some("no-cache")
  {
    hide FirstLine, Header, Content, PlainName, PlainEvent, Text, Field;
    Names();
    Received(sid, e, "Content-Type");
    Received(sid, e, "NT");
    Received(sid, e, "NTS");
    Received(sid, e, "Connection");
    Received(sid, e, "Cache-Control");
    FieldAt(Fields(sid, e), 1);
    FieldAt(Fields(sid, e), 3);
    FieldAt(Fields(sid, e), 4);
    FieldAt(Fields(sid, e), 7);
    FieldAt(Fields(sid, e), 8);
  }
}
