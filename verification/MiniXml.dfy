/** The minimal XML parser: what it reports for a buffer, and the cursor loops that report it. */
module MiniXml {
  import opened Wrappers
  import opened SeqTools

  /** A reported substring of the buffer. */
  datatype Span = Span(off: nat, len: nat)

  /** The calls made to starteltfunc, attfunc, datafunc and endeltfunc. */
  datatype Event =
    | StartElt(name: Span)
    | Attribute(name: Span, text: Span)
    | CharData(text: Span)
    | EndElt(name: Span)

  /** What one parsing step reports, and where it goes on; None when the buffer is exhausted. */
  datatype Step = Step(events: seq<Event>, next: Option<nat>)

  /** The conditions on which the scanning loops stop. */
  datatype Stop = KeyEnd | TokenEnd | NonWhite | Is(c: char)

  predicate IsWhite(c: char) {
    c == ' ' || c == '\t' || c == '\r' || c == '\n'
  }

  predicate Stops(c: char, s: Stop) {
    match s
    case KeyEnd => c == '=' || IsWhite(c)
    case TokenEnd => IsWhite(c) || c == '>' || c == '/'
    case NonWhite => !IsWhite(c)
    case Is(d) => c == d
  }

  ghost predicate Inside(b: string, s: Span) {
    s.off + s.len <= |b|
  }

  ghost predicate EventInside(b: string, e: Event) {
    match e
    case StartElt(n) => Inside(b, n)
    case Attribute(n, t) => Inside(b, n) && Inside(b, t)
    case CharData(t) => Inside(b, t)
    case EndElt(n) => Inside(b, n)
  }

  ghost predicate AllInside(b: string, es: seq<Event>) {
    forall e :: e in es ==> EventInside(b, e)
  }

  /** The first position from i on where the scan stops, |b| if there is none. */
  function Find(b: string, i: nat, s: Stop): (r: nat)
    requires i <= |b|
    ensures i <= r <= |b|
    ensures forall k :: i <= k < r ==> !Stops(b[k], s)
    ensures r < |b| ==> Stops(b[r], s)
    decreases |b| - i
  {
    if i == |b| || Stops(b[i], s) then i else Find(b, i + 1, s)
  }

  /** The first occurrence of a three-character terminator that is followed by something. */
  function FindStr(b: string, i: nat, pat: string): (r: nat)
    requires i <= |b| && |pat| == 3
    ensures i <= r <= |b|
    ensures r < |b| ==> r + 3 < |b| && At(b, r, pat)
    ensures forall k :: i <= k < r && k + 3 < |b| ==> !At(b, k, pat)
    decreases |b| - i
  {
    if i + 3 >= |b| then |b| else if At(b, i, pat) then i else FindStr(b, i + 1, pat)
  }

  /** The attribute list from pos up to the '/' or '>' that ends it. */
  function Attributes(b: string, pos: nat): (r: Step)
    requires pos <= |b|
    ensures r.next.Some? ==> pos <= r.next.value < |b| && b[r.next.value] in "/>"
    ensures AllInside(b, r.events)
    decreases |b| - pos
  {
    if pos == |b| then Step([], None)
    else if b[pos] == '/' || b[pos] == '>' then Step([], Some(pos))
    else if IsWhite(b[pos]) then Attributes(b, pos + 1)
    else
      var a := OneAttribute(b, pos);
      if a.next.None? then a
      else
        var rest := Attributes(b, a.next.value);
        Step(a.events + rest.events, rest.next)
  }

  function OneAttribute(b: string, pos: nat): (r: Step)
    requires pos < |b| && !IsWhite(b[pos]) && b[pos] != '/' && b[pos] != '>'
    ensures r.next.Some? ==> pos < r.next.value <= |b|
    ensures r.next.None? ==> r.events == []
    ensures AllInside(b, r.events)
  {
    match ValueStart(b, pos)
    case None => Step([], None)
    case Some(v) =>
      var quoted := b[v] == '\'' || b[v] == '\"';
      var start := if quoted then v + 1 else v;
      var end := Find(b, start, if quoted then Is(b[v]) else TokenEnd);
      if end == |b| then Step([], None)
      else Step([Attribute(Span(pos, Find(b, pos, KeyEnd) - pos), Span(start, end - start))], Some(end + 1))
  }

  /** Where the value starts: behind the first '=' after the key and the white space there. */
  function ValueStart(b: string, pos: nat): (r: Option<nat>)
    requires pos < |b|
    ensures r.Some? ==> pos <= Find(b, pos, KeyEnd) < r.value < |b|
  {
    var eq := Find(b, Find(b, pos, KeyEnd), Is('='));
    if eq + 1 >= |b| then None
    else
      var v := Find(b, eq + 1, NonWhite);
      if v == |b| then None else Some(v)
  }

  /** The element name that ends at the first token end from x on; a ':' that is not the first
      character starts the name again behind it. */
  function Name(b: string, start: nat, x: nat): (r: Option<Span>)
    requires start <= x <= |b|
    ensures r.Some? ==> start <= r.value.off && x <= r.value.off + r.value.len < |b|
                        && Stops(b[r.value.off + r.value.len], TokenEnd)
    decreases |b| - x
  {
    if x == |b| then None
    else if Stops(b[x], TokenEnd) then Some(Span(start, x - start))
    else if x + 1 < |b| && b[x + 1] == ':' then (if x + 2 <= |b| then Name(b, x + 2, x + 2) else None)
    else Name(b, start, x + 1)
  }

  /** The character data that starts at `data`, right behind the '>' of a start tag. */
  function Content(b: string, data: nat): (r: Step)
    requires data <= |b|
    ensures r.next.Some? ==> data <= r.next.value < |b|
    ensures AllInside(b, r.events)
  {
    var w := Find(b, data, NonWhite);
    if w == |b| then Step([], None)
    else if w + 12 <= |b| && At(b, w, "<![CDATA[") then
      var e := FindStr(b, w + 9, "]]>");
      if e == |b| then Step([], None)
      else
        var lt := Find(b, e, Is('<'));
        Step(if e > w + 9 then [CharData(Span(w + 9, e - (w + 9)))] else [],
             if lt == |b| then None else Some(lt))
    else
      var e := Find(b, w, Is('<'));
      if e == |b| || (e > w && e + 1 == |b|) then Step([], None)
      else Step(if e > data && e + 1 < |b| && b[e + 1] == '/' then [CharData(Span(data, e - data))] else [],
                Some(e))
  }

  /** What follows an element name: attributes, then data unless the tag closes itself. */
  function StartTag(b: string, name: Span): (r: Step)
    requires name.off + name.len < |b|
    ensures r.next.Some? ==> name.off + name.len <= r.next.value < |b|
    ensures AllInside(b, r.events)
  {
    var a := Attributes(b, name.off + name.len);
    var es := [StartElt(name)] + a.events;
    if a.next.None? || b[a.next.value] == '/' then Step(es, a.next)
    else
      var c := Content(b, a.next.value + 1);
      Step(es + c.events, c.next)
  }

  function EndTag(b: string, start: nat): (r: Step)
    requires start <= |b|
    ensures r.next.Some? ==> start < r.next.value <= |b|
    ensures AllInside(b, r.events)
  {
    var g := Find(b, start, Is('>'));
    if g == |b| then Step([], None) else Step([EndElt(Span(start, g - start))], Some(g + 1))
  }

  /** One round of the main loop at position pos. */
  function One(b: string, pos: nat): (r: Step)
    requires pos + 1 < |b|
    ensures r.next.Some? ==> pos < r.next.value <= |b|
    ensures AllInside(b, r.events)
  {
    if At(b, pos, "<!--") then
      var e := FindStr(b, pos + 4, "-->");
      Step([], if e == |b| then None else Some(e + 3))
    else if b[pos] == '<' && b[pos + 1] != '?' then
      match Name(b, pos + 1, pos + 1)
      case None => Step([], None)
      case Some(name) =>
        var x := name.off + name.len;
        if name.len > 0 then StartTag(b, name)
        else if b[x] == '/' then EndTag(b, x + 1)
        else Step([], Some(x))
    else Step([], Some(pos + 1))
  }

  /** Everything that is reported from position pos on. */
  function Events(b: string, pos: nat): (r: seq<Event>)
    requires pos <= |b|
    ensures AllInside(b, r)
    decreases |b| - pos
  {
    if pos + 1 >= |b| then []
    else
      var s := One(b, pos);
      s.events + if s.next.None? then [] else Events(b, s.next.value)
  }

  // ---------- unquoted attribute values ----------

  /** The end of the unquoted value of the attribute at pos; None if there is no such value. */
  function UnquotedEnd(b: string, pos: nat): (r: Option<nat>)
    requires pos < |b|
    ensures r.Some? ==> pos < r.value < |b| && Stops(b[r.value], TokenEnd)
  {
    match ValueStart(b, pos)
    case None => None
    case Some(v) =>
      var end := Find(b, v, TokenEnd);
      if b[v] == '\'' || b[v] == '\"' || end == |b| then None else Some(end)
  }

  /** Behind an unquoted value the list goes on with the character that ends the value if and only if that
      is white space; a '/' or '>' there is skipped, and with it the end of the tag. */
  lemma UnquotedValue(b: string, pos: nat)
    requires pos < |b| && !IsWhite(b[pos]) && b[pos] != '/' && b[pos] != '>' && UnquotedEnd(b, pos).Some?
    ensures var end := UnquotedEnd(b, pos).value;
            var rest := Attributes(b, end);
            Attributes(b, pos) == Step(OneAttribute(b, pos).events + rest.events, rest.next) <==> IsWhite(b[end])
  {
    hide AllInside, EventInside, Find, ValueStart;
    var end := UnquotedEnd(b, pos).value;
    assert OneAttribute(b, pos).next == Some(end + 1);
    if IsWhite(b[end]) {
      assert Attributes(b, end) == Attributes(b, end + 1);
    } else {
      assert Attributes(b, end) == Step([], Some(end));
      assert Attributes(b, pos).next == Attributes(b, end + 1).next;
    }
  }

  /** For instance: the start tag does not end. */
  lemma UnquotedExample()
    ensures Attributes("<a k=v>", 3) == Step([Attribute(Span(3, 1), Span(5, 1))], None)
    ensures Attributes("<a k=v >", 3) == Step([Attribute(Span(3, 1), Span(5, 1))], Some(7))
  {
    hide AllInside, EventInside;
    var b, c := "<a k=v>", "<a k=v >";
    assert Find(b, 3, KeyEnd) == 4 && Find(b, 4, Is('=')) == 4 && Find(b, 5, NonWhite) == 5
        && Find(b, 5, TokenEnd) == 6;
    assert Find(c, 3, KeyEnd) == 4 && Find(c, 4, Is('=')) == 4 && Find(c, 5, NonWhite) == 5
        && Find(c, 5, TokenEnd) == 6;
    var e := Attribute(Span(3, 1), Span(5, 1));
    assert OneAttribute(b, 3) == Step([e], Some(7)) && Attributes(b, 7) == Step([], None);
    assert OneAttribute(c, 3) == Step([e], Some(7)) && Attributes(c, 7) == Step([], Some(7));
    assert [e] + [] == [e];
  }

  lemma NoTagInTail(b: string, x: nat)
    requires x + 3 == |b| && At(b, x, "]]>")
    ensures Find(b, x, Is('<')) == |b|
  {
    assert b[x..x + 3][0] == ']' && b[x..x + 3][1] == ']' && b[x..x + 3][2] == '>';
  }

  class XmlParser {
    const b: string        // xmlstart .. xmlend
    var xml: nat           // the cursor
    var events: seq<Event> // the callbacks made so far

    ghost predicate Valid()
      reads this
    {
      xml <= |b|
    }

    constructor (b: string)
      ensures this.b == b && xml == 0 && events == []
    {
      this.b, xml, events := b, 0, [];
    }

    /** parseatt: true when the end of the buffer is reached. */
    method ParseAtt() returns (ended: bool)
      requires Valid()
      modifies this
      ensures Valid()
      ensures var r := Attributes(b, old(xml));
              && events == old(events) + r.events
              && (ended <==> r.next.None?)
              && (!ended ==> xml == r.next.value)
    {
      hide OneAttribute, AllInside, EventInside, Find;
      ghost var goal := Attributes(b, xml);
      while xml < |b|
        invariant Valid()
        invariant var r := Attributes(b, xml);
                  && events + r.events == old(events) + goal.events
                  && r.next == goal.next
        decreases |b| - xml
      {
        if b[xml] == '/' || b[xml] == '>' {
          return false;
        }
        if !IsWhite(b[xml]) {
          ghost var before, from := events, xml;
          var stop := ParseOneAtt();
          if stop {
            return true;
          }
          Assoc(before, OneAttribute(b, from).events, Attributes(b, xml + 1).events);
        }
        xml := xml + 1;
      }
      return true;
    }

    /** The scanning loops: moves the cursor to the first character where the scan stops. */
    method Scan(s: Stop) returns (ended: bool)
      requires Valid()
      modifies this`xml
      ensures Valid() && xml == Find(b, old(xml), s) && (ended <==> xml == |b|)
    {
      ghost var start := xml;
      while xml < |b| && !Stops(b[xml], s)
        invariant Valid() && Find(b, start, s) == Find(b, xml, s)
        decreases |b| - xml
      {
        xml := xml + 1;
      }
      return xml >= |b|;
    }

    /** One pass of parseatt's loop body up to the last character of the attribute. */
    method ParseOneAtt() returns (ended: bool)
      requires xml < |b| && !IsWhite(b[xml]) && b[xml] != '/' && b[xml] != '>'
      modifies this
      ensures Valid()
      ensures var r := OneAttribute(b, old(xml));
              && events == old(events) + r.events
              && (ended <==> r.next.None?)
              && (!ended ==> xml + 1 == r.next.value)
    {
      hide Find, AllInside, EventInside, Stops, IsWhite, ValueStart;
      var attname := xml;
      var attnamelen;
      ended, attnamelen := ParseAttName();
      if ended {
        return;
      }
      var sep := b[xml];
      var attvalue: nat;
      if sep == '\'' || sep == '\"' {
        xml := xml + 1;
        attvalue := xml;
        ended := Scan(Is(sep));
      } else {
        attvalue := xml;
        ended := Scan(TokenEnd);
      }
      if ended {
        return;
      }
      events := events + [Attribute(Span(attname, attnamelen), Span(attvalue, xml - attvalue))];
    }

    /** Moves from the start of an attribute name to the start of its value. */
    method ParseAttName() returns (ended: bool, attnamelen: nat)
      requires xml < |b|
      modifies this`xml
      ensures Valid()
      ensures ended <==> ValueStart(b, old(xml)).None?
      ensures !ended ==> ValueStart(b, old(xml)) == Some(xml) && attnamelen == Find(b, old(xml), KeyEnd) - old(xml)
    {
      hide Find, Stops, IsWhite;
      attnamelen := 0;
      var attname := xml;
      ended := Scan(KeyEnd);
      if ended {
        return;
      }
      attnamelen := xml - attname;
      ended := Scan(Is('='));
      if ended {
        return;
      }
      xml := xml + 1;
      ended := Scan(NonWhite);
    }

    /** Skips a comment; the cursor is on its '<'. */
    method SkipComment() returns (ended: bool)
      requires At(b, xml, "<!--")
      modifies this`xml
      ensures Valid()
      ensures var e := FindStr(b, old(xml) + 4, "-->");
              if e == |b| then ended else !ended && xml == e + 3
    {
      xml := xml + 4;
      ghost var start := xml;
      if xml + 3 >= |b| {
        return true;
      }
      while b[xml..xml + 3] != "-->"
        invariant start <= xml && xml + 3 < |b|
        invariant FindStr(b, start, "-->") == FindStr(b, xml, "-->")
        decreases |b| - xml
      {
        xml := xml + 1;
        if xml + 3 >= |b| {
          return true;
        }
      }
      xml := xml + 3;
      return false;
    }

    /** The element name behind a '<', without its namespace. */
    method ParseName() returns (ended: bool, elementname: nat, i: nat)
      requires xml < |b|
      modifies this`xml
      ensures Valid()
      ensures ended <==> Name(b, old(xml), old(xml)).None?
      ensures !ended ==>
        xml < |b| && Name(b, old(xml), old(xml)) == Some(Span(elementname, i)) && xml == elementname + i
    {
      i, elementname := 0, xml;
      while !IsWhite(b[xml]) && b[xml] != '>' && b[xml] != '/'
        invariant xml < |b| && xml == elementname + i
        invariant Name(b, elementname, xml) == Name(b, old(xml), old(xml))
        decreases |b| - xml
      {
        i, xml := i + 1, xml + 1;
        if xml >= |b| {
          return true, elementname, i;
        }
        if b[xml] == ':' {
          xml := xml + 1;
          i, elementname := 0, xml;
          if xml >= |b| {
            return true, elementname, i;
          }
        }
      }
      return false, elementname, i;
    }

    /** Character data or a CDATA section; the cursor is right behind a '>'. */
    method ParseContent() returns (ended: bool)
      requires Valid()
      modifies this
      ensures Valid()
      ensures var r := Content(b, old(xml));
              && events == old(events) + r.events
              && (ended <==> r.next.None?)
              && (!ended ==> xml == r.next.value)
    {
      hide Find, FindStr, AllInside, EventInside;
      var data := xml;
      ended := Scan(NonWhite);
      if ended {
        return;
      }
      if |b| >= xml + 12 && b[xml..xml + 9] == "<![CDATA[" {
        ended := ParseCdata(xml);
      } else {
        ended := ScanData();
        if ended {
          return;
        }
        if xml > data && xml + 1 < |b| && b[xml + 1] == '/' {
          events := events + [CharData(Span(data, xml - data))];
        }
      }
    }

    /** Finds the '<' that ends character data; a later one must not be the last character. */
    method ScanData() returns (ended: bool)
      requires xml < |b|
      modifies this`xml
      ensures Valid()
      ensures var e := Find(b, old(xml), Is('<'));
              && (ended <==> e == |b| || (e > old(xml) && e + 1 == |b|))
              && (!ended ==> xml == e)
    {
      ghost var w := xml;
      while b[xml] != '<'
        invariant w <= xml < |b| && (xml > w ==> xml + 1 < |b|)
        invariant Find(b, w, Is('<')) == Find(b, xml, Is('<'))
        decreases |b| - xml
      {
        xml := xml + 1;
        if xml + 1 >= |b| {
          return true;
        }
      }
      return false;
    }

    method ParseCdata(w: nat) returns (ended: bool)
      requires xml == w && w + 12 <= |b|
      modifies this
      ensures Valid()
      ensures var e := FindStr(b, w + 9, "]]>");
              var lt := Find(b, e, Is('<'));
              && (e == |b| ==> ended && events == old(events))
              && (e < |b| ==>
                  && events == old(events) + (if e > w + 9 then [CharData(Span(w + 9, e - (w + 9)))] else [])
                  && (ended <==> lt == |b|)
                  && (!ended ==> xml == lt))
    {
      hide Find, FindStr, AllInside, EventInside, At, Stops;
      xml := xml + 9;
      var data := xml;
      ended := ScanCdata();
      if ended {
        return;
      }
      if xml > data {
        events := events + [CharData(Span(data, xml - data))];
      }
      ended := Scan(Is('<'));
    }

    /** Finds the "]]>" that ends a CDATA section.  One that is the last thing in the buffer
        counts only right at the start, where the section is empty and nothing follows. */
    method ScanCdata() returns (ended: bool)
      requires xml + 3 <= |b|
      modifies this`xml
      ensures Valid()
      ensures ended ==> FindStr(b, old(xml), "]]>") == |b|
      ensures !ended && xml + 3 < |b| ==> xml == FindStr(b, old(xml), "]]>")
      ensures !ended && xml + 3 >= |b| ==>
        && xml == old(xml)
        && FindStr(b, xml, "]]>") == |b|
        && Find(b, xml, Is('<')) == |b|
    {
      hide Find, Stops;
      var data := xml;
      while b[xml..xml + 3] != "]]>"
        invariant data <= xml && xml + 3 <= |b|
        invariant xml > data ==> xml + 3 < |b|
        invariant FindStr(b, data, "]]>") == FindStr(b, xml, "]]>")
        decreases |b| - xml
      {
        xml := xml + 1;
        if xml + 3 >= |b| {
          return true;
        }
      }
      if xml + 3 >= |b| {
        NoTagInTail(b, xml);
      }
      return false;
    }

    /** The rest of an end tag; the cursor is on its '/'. */
    method ParseEndTag() returns (ended: bool)
      requires xml < |b|
      modifies this
      ensures Valid()
      ensures var r := EndTag(b, old(xml) + 1);
              && events == old(events) + r.events
              && (ended <==> r.next.None?)
              && (!ended ==> xml == r.next.value)
    {
      hide Find, AllInside, EventInside;
      xml := xml + 1;
      var elementname := xml;
      ended := Scan(Is('>'));
      if ended {
        return;
      }
      events := events + [EndElt(Span(elementname, xml - elementname))];
      xml := xml + 1;
    }

    /** One round of the main loop: a comment, a tag, or a skipped character. */
    method ParseOne() returns (ended: bool)
      requires xml + 1 < |b|
      modifies this
      ensures Valid()
      ensures var r := One(b, old(xml));
              && events == old(events) + r.events
              && (ended <==> r.next.None?)
              && (!ended ==> xml == r.next.value)
    {
      hide Attributes, Content, EndTag, Name, Find, FindStr, AllInside, EventInside;
      if xml + 4 <= |b| && b[xml..xml + 4] == "<!--" {
        ended := SkipComment();
      } else if b[xml] == '<' && b[xml + 1] != '?' {
        xml := xml + 1;
        var stop, elementname, i := ParseName();
        if stop {
          return true;
        }
        if i > 0 {
          events := events + [StartElt(Span(elementname, i))];
          stop := ParseAtt();
          if stop {
            return true;
          }
          if b[xml] != '/' {
            xml := xml + 1;
            ended := ParseContent();
          } else {
            return false;
          }
        } else if b[xml] == '/' {
          ended := ParseEndTag();
        } else {
          return false;
        }
      } else {
        xml := xml + 1;
        return false;
      }
    }

    /** parsexml */
    method ParseXml()
      modifies this
      ensures events == old(events) + Events(b, 0)
      ensures Valid() && AllInside(b, Events(b, 0))
    {
      hide One, AllInside, EventInside;
      xml := 0;
      ghost var goal := events + Events(b, 0);
      while xml + 1 < |b|
        invariant Valid() && events + Events(b, xml) == goal
        decreases |b| - xml
      {
        ghost var before, s := events, One(b, xml);
        var ended := ParseOne();
        Assoc(before, s.events, if ended then [] else Events(b, xml));
        if ended {
          return;
        }
      }
    }
  }
}
