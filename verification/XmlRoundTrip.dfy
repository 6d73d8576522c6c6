/** Parsing undoes printing: the parser reports, for a printed description, the pre-order trace of
    the document it was printed from. */
module XmlRoundTrip {
  import opened Wrappers
  import opened SeqTools
  import opened DescTree
  import DescGen
  import X = MiniXml

  /** A document with its attributes taken apart. */
  datatype Doc = Text(name: string, text: string) | Element(name: string, atts: seq<(string, string)>,
      children: seq<Doc>)

  /** What the client of the parser is told. */
  datatype Call = Start(name: string) | Att(key: string, text: string) | Data(text: string) | End(name: string)

  function AttString(atts: seq<(string, string)>): string {
    if atts == [] then "" else " " + atts[0].0 + "=\"" + atts[0].1 + "\"" + AttString(atts[1..])
  }

  function ToTree(d: Doc): Tree {
    match d
    case Text(name, text) => Leaf(name, text)
    case Element(name, atts, children) => Node(name + AttString(atts), ToTrees(children))
  }

  function ToTrees(ds: seq<Doc>): (r: seq<Tree>)
    ensures |r| == |ds|
  {
    if ds == [] then [] else [ToTree(ds[0])] + ToTrees(ds[1..])
  }

  /** The attributes that are printed: the root element also gets its configId. */
  function FullAtts(name: string, atts: seq<(string, string)>, o: Options): seq<(string, string)> {
    if name == "root" && atts != [] then atts + [("configId", o.configId)] else atts
  }

  function AttCalls(atts: seq<(string, string)>): seq<Call> {
    if atts == [] then [] else [Att(atts[0].0, atts[0].1)] + AttCalls(atts[1..])
  }

  /** Where the part behind the last ':' of the first k characters begins. */
  function LocalStart(n: string, k: nat): (r: nat)
    requires k <= |n|
    ensures r <= k && (r > 0 ==> n[r - 1] == ':') && forall j :: r <= j < k ==> n[j] != ':'
  {
    if k == 0 || n[k - 1] == ':' then k else LocalStart(n, k - 1)
  }

  /** A name without its namespace prefix. */
  function Local(n: string): string {
    n[LocalStart(n, |n|)..]
  }

  /** The pre-order trace; a leaf without text is not printed.  Start tags are reported without
      namespace prefix, end tags with it. */
  function Trace(d: Doc, o: Options): seq<Call> {
    match d
    case Text(name, text) =>
      if text == "" then []
      else [Start(Local(name)), Data((if text[0] == '/' then o.urlPrefix else "") + text), End(name)]
    case Element(name, atts, children) =>
      [Start(Local(name))] + AttCalls(FullAtts(name, atts, o)) + TraceAll(children, o) + [End(name)]
  }

  function TraceAll(ds: seq<Doc>, o: Options): seq<Call> {
    if ds == [] then [] else Trace(ds[0], o) + TraceAll(ds[1..], o)
  }

  /** A name with any number of namespace prefixes, none of them empty. */
  ghost predicate PlainName(n: string) {
    && n != "" && n[0] != '!' && n[0] != '?'
    && (forall k :: 0 <= k < |n| ==> ' ' < n[k] && n[k] as int < 128 && n[k] != '<' && n[k] != '>' && n[k] != '/')
    && (forall k :: 0 <= k < |n| && n[k] == ':' ==> 0 < k < |n| - 1 && n[k - 1] != ':')
  }

  ghost predicate PlainKey(n: string) {
    && (n != "" ==> n[0] != '/' && n[0] != '>')
    && forall k :: 0 <= k < |n| ==> n[k] != '=' && !X.IsWhite(n[k])
  }

  ghost predicate Without(s: string, c: char) {
    forall k :: 0 <= k < |s| ==> s[k] != c
  }

  ghost predicate PlainAtts(atts: seq<(string, string)>) {
    forall k :: 0 <= k < |atts| ==> PlainKey(atts[k].0) && Without(atts[k].1, '\"')
  }

  ghost predicate Plain(d: Doc) {
    match d
    case Text(name, text) => PlainName(name) && Without(text, '<')
    case Element(name, atts, children) => PlainName(name) && PlainAtts(atts) && PlainAll(children)
  }

  ghost predicate PlainAll(ds: seq<Doc>) {
    ds == [] || (Plain(ds[0]) && PlainAll(ds[1..]))
  }

  ghost predicate PlainOptions(o: Options) {
    o.Valid() && Without(o.urlPrefix, '<') && Without(o.configId, '\"')
  }

  /** The text of a reported span. */
  function Sub(b: string, s: X.Span): string {
    if s.off + s.len <= |b| then b[s.off..s.off + s.len] else ""
  }

  function ToCall(b: string, e: X.Event): Call {
    match e
    case StartElt(n) => Start(Sub(b, n))
    case Attribute(n, t) => Att(Sub(b, n), Sub(b, t))
    case CharData(t) => Data(Sub(b, t))
    case EndElt(n) => End(Sub(b, n))
  }

  function Calls(b: string, es: seq<X.Event>): seq<Call> {
    if es == [] then [] else [ToCall(b, es[0])] + Calls(b, es[1..])
  }

  lemma {:induction false} CallsConcat(b: string, x: seq<X.Event>, y: seq<X.Event>)
    ensures Calls(b, x + y) == Calls(b, x) + Calls(b, y)
  {
    hide ToCall;
    if x == [] {
      assert x + y == y && [] + Calls(b, y) == Calls(b, y);
    } else {
      TailAppend(x, y);
      CallsConcat(b, x[1..], y);
      Assoc([ToCall(b, x[0])], Calls(b, x[1..]), Calls(b, y));
    }
  }

  lemma CallsOne(b: string, e: X.Event)
    ensures Calls(b, [e]) == [ToCall(b, e)]
  {
    assert [e][1..] == [];
  }

  lemma CallsCons(b: string, e: X.Event, es: seq<X.Event>)
    ensures Calls(b, [e] + es) == [ToCall(b, e)] + Calls(b, es)
  {
    CallsOne(b, e);
    CallsConcat(b, [e], es);
  }

  /** Calls made from position p on. */
  function From(b: string, p: nat): seq<Call>
    requires p <= |b|
  {
    Calls(b, X.Events(b, p))
  }

  /** One round of the parser's main loop, in terms of calls. */
  lemma OneRound(b: string, p: nat)
    requires p + 1 < |b|
    ensures var s := X.One(b, p);
            From(b, p) == Calls(b, s.events) + if s.next.None? then [] else From(b, s.next.value)
  {
    var s := X.One(b, p);
    CallsConcat(b, s.events, if s.next.None? then [] else X.Events(b, s.next.value));
  }

  // ---------- positions ----------

  lemma AtChar(b: string, p: nat, s: string, k: nat)
    requires At(b, p, s) && k < |s|
    ensures p + k < |b| && b[p + k] == s[k]
  {
    assert b[p..p + |s|][k] == b[p + k];
  }

  lemma SubAt(b: string, p: nat, s: string)
    requires At(b, p, s)
    ensures Sub(b, X.Span(p, |s|)) == s && p + |s| <= |b|
  {
  }

  /** A scan that starts inside a known piece of text without stop characters ends right behind it. */
  lemma ScanOver(b: string, p: nat, s: string, stop: X.Stop)
    requires At(b, p, s) && p + |s| < |b|
    requires forall k :: 0 <= k < |s| ==> !X.Stops(s[k], stop)
    requires X.Stops(b[p + |s|], stop)
    ensures X.Find(b, p, stop) == p + |s|
  {
    forall k | p <= k < p + |s|
      ensures !X.Stops(b[k], stop)
    {
      AtChar(b, p, s, k - p);
    }
  }

  /** The span of the local part of a name at p. */
  function LocalSpan(p: nat, name: string): X.Span {
    X.Span(p + LocalStart(name, |name|), |Local(name)|)
  }

  lemma LocalStartIs(n: string, s: nat)
    requires s <= |n| && (s > 0 ==> n[s - 1] == ':') && forall j :: s <= j < |n| ==> n[j] != ':'
    ensures LocalStart(n, |n|) == s
  {
  }

  /** The scan at x is inside the part of the name that begins at s. */
  lemma {:induction false} NameOver(b: string, p: nat, s: nat, x: nat, name: string)
    requires PlainName(name) && At(b, p, name) && p + |name| < |b| && X.Stops(b[p + |name|], X.TokenEnd)
    requires s <= |name| && p + s <= x <= p + |name| && (s > 0 ==> name[s - 1] == ':')
    requires forall j :: s <= j <= x - p && j < |name| ==> name[j] != ':'
    ensures X.Name(b, p + s, x) == Some(LocalSpan(p, name))
    decreases p + |name| - x
  {
    hide PlainName, LocalSpan, At, X.Stops;
    if x < p + |name| {
      AtChar(b, p, name, x - p);
      PlainChar(name, x - p);
      if x + 1 < p + |name| {
        AtChar(b, p, name, x + 1 - p);
        PlainChar(name, x + 1 - p);
        if name[x + 1 - p] == ':' {
          NameOver(b, p, x + 2 - p, x + 2, name);
        } else {
          NameOver(b, p, s, x + 1, name);
        }
      } else {
        NoColon(b[x + 1]);
        NameOver(b, p, s, x + 1, name);
      }
    } else {
      LocalSpanIs(p, name, s);
    }
  }

  lemma PlainChar(name: string, k: nat)
    requires PlainName(name) && k < |name|
    ensures !X.Stops(name[k], X.TokenEnd)
    ensures name[k] == ':' ==> 0 < k < |name| - 1 && name[k + 1] != ':'
  {
  }

  lemma NoColon(c: char)
    ensures X.Stops(c, X.TokenEnd) ==> c != ':'
  {
  }

  lemma LocalSpanIs(p: nat, name: string, s: nat)
    requires s <= |name| && (s > 0 ==> name[s - 1] == ':') && forall j :: s <= j < |name| ==> name[j] != ':'
    ensures LocalSpan(p, name) == X.Span(p + s, |name| - s)
  {
    LocalStartIs(name, s);
  }

  /** What a namespace prefix is good for: only the name behind it is reported. */
  lemma PrefixedName(b: string, p: nat, pre: string, name: string)
    requires PlainName(pre + ":" + name) && Without(name, ':') && At(b, p, pre + ":" + name)
    requires p + |pre| + 1 + |name| < |b| && X.Stops(b[p + |pre| + 1 + |name|], X.TokenEnd)
    ensures X.Name(b, p, p) == Some(X.Span(p + |pre| + 1, |name|)) && Local(pre + ":" + name) == name
  {
    hide PlainName, Local, LocalStart, At, X.Name, X.Stops;
    var full := pre + ":" + name;
    LocalBehind(pre, name);
    FirstChar(b, p, full);
    NameOver(b, p, 0, p, full);
  }

  lemma LocalBehind(pre: string, name: string)
    requires Without(name, ':')
    ensures var full := pre + ":" + name; LocalStart(full, |full|) == |pre| + 1 && Local(full) == name
  {
    hide LocalStart;
    var full := pre + ":" + name;
    assert full[|pre|] == ':' && full[|pre| + 1..] == name;
    assert forall j :: |pre| < j < |full| ==> full[j] == name[j - |pre| - 1];
    LocalStartIs(full, |pre| + 1);
  }

  // ---------- attributes ----------

  lemma OneAttOver(b: string, p: nat, k: string, v: string)
    requires PlainKey(k) && Without(v, '\"')
    requires At(b, p, k + ("=\"" + (v + "\"")))
    ensures p < |b| && !X.IsWhite(b[p]) && b[p] != '/' && b[p] != '>'
    ensures var r := X.OneAttribute(b, p);
            && r.next == Some(p + |k| + |v| + 3)
            && Calls(b, r.events) == [Att(k, v)]
  {
    hide At, X.Find, X.EventInside, Calls, Sub;
    var q := p + |k|;
    AttPositions(b, p, k, v);
    assert X.ValueStart(b, p) == Some(q + 1);
    CallsOne(b, X.Attribute(X.Span(p, |k|), X.Span(q + 2, |v|)));
  }

  lemma AttChars(b: string, p: nat, k: string, v: string)
    requires At(b, p, k + ("=\"" + (v + "\"")))
    ensures var q := p + |k|;
            && At(b, p, k) && At(b, q + 2, v) && q + |v| + 3 <= |b|
            && b[q] == '=' && b[q + 1] == '\"' && b[q + 2 + |v|] == '\"'
  {
    hide At;
    var q := p + |k|;
    AtSplit(b, p, k, "=\"" + (v + "\""));
    AtSplit(b, q, "=\"", v + "\"");
    AtSplit(b, q + 2, v, "\"");
    AtChar(b, q, "=\"", 0);
    AtChar(b, q, "=\"", 1);
    AtChar(b, q + 2 + |v|, "\"", 0);
  }

  lemma AttPositions(b: string, p: nat, k: string, v: string)
    requires PlainKey(k) && Without(v, '\"')
    requires At(b, p, k + ("=\"" + (v + "\"")))
    ensures var q := p + |k|;
            && q + |v| + 3 <= |b|
            && !X.IsWhite(b[p]) && b[p] != '/' && b[p] != '>'
            && X.Find(b, p, X.KeyEnd) == q && X.Find(b, q, X.Is('=')) == q
            && b[q + 1] == '\"' && X.Find(b, q + 1, X.NonWhite) == q + 1
            && X.Find(b, q + 2, X.Is('\"')) == q + 2 + |v|
            && Sub(b, X.Span(p, |k|)) == k && Sub(b, X.Span(q + 2, |v|)) == v
  {
    hide At, X.AllInside, Sub;
    var q := p + |k|;
    AttChars(b, p, k, v);
    ScanOver(b, p, k, X.KeyEnd);
    ScanOver(b, q + 2, v, X.Is('\"'));
    SubAt(b, p, k);
    SubAt(b, q + 2, v);
    if k != "" {
      AtChar(b, p, k, 0);
    }
  }

  /** The attribute list up to the character that ends the tag. */
  lemma {:induction false} AttributesOver(b: string, p: nat, atts: seq<(string, string)>, stop: string)
    requires (stop == ">" || stop == "/") && PlainAtts(atts) && At(b, p, AttString(atts) + stop)
    ensures p + |AttString(atts)| < |b| && b[p + |AttString(atts)|] == stop[0]
    ensures var r := X.Attributes(b, p);
            && r.next == Some(p + |AttString(atts)|)
            && Calls(b, r.events) == AttCalls(atts)
    decreases |atts|
  {
    hide *;
    if atts == [] {
      NoAttributes(b, p, stop);
    } else {
      var k, v := atts[0].0, atts[0].1;
      var one := k + ("=\"" + (v + "\""));
      var rest := AttString(atts[1..]) + stop;
      AttStringCons(atts, stop);
      AttsCons(atts);
      AtSplit(b, p, " ", one + rest);
      AtSplit(b, p + 1, one, rest);
      AtChar(b, p, " ", 0);
      OneAttOver(b, p + 1, k, v);
      AttributesOver(b, p + 1 + |one|, atts[1..], stop);
      AttributesStep(b, p);
      CallsConcat(b, X.OneAttribute(b, p + 1).events, X.Attributes(b, p + 1 + |one|).events);
    }
  }

  lemma NoAttributes(b: string, p: nat, stop: string)
    requires (stop == ">" || stop == "/") && At(b, p, AttString([]) + stop)
    ensures AttString([]) == "" && AttCalls([]) == [] && p < |b| && b[p] == stop[0]
    ensures X.Attributes(b, p) == X.Step([], Some(p)) && Calls(b, []) == []
  {
    hide At;
    assert AttString([]) + stop == stop;
    AtChar(b, p, stop, 0);
  }

  lemma AttsCons(atts: seq<(string, string)>)
    requires atts != [] && PlainAtts(atts)
    ensures PlainKey(atts[0].0) && Without(atts[0].1, '\"') && PlainAtts(atts[1..])
    ensures AttCalls(atts) == [Att(atts[0].0, atts[0].1)] + AttCalls(atts[1..])
  {
    hide PlainKey, Without;
  }

  lemma AttStringCons(atts: seq<(string, string)>, stop: string)
    requires atts != []
    ensures AttString(atts) + stop
         == " " + ((atts[0].0 + ("=\"" + (atts[0].1 + "\""))) + (AttString(atts[1..]) + stop))
    ensures |AttString(atts)| == |atts[0].0| + |atts[0].1| + 4 + |AttString(atts[1..])|
  {
    AttGlue(atts[0].0, atts[0].1, AttString(atts[1..]), stop);
  }

  lemma AttGlue(k: string, v: string, rest: string, stop: string)
    ensures " " + k + "=\"" + v + "\"" + rest + stop == " " + ((k + ("=\"" + (v + "\""))) + (rest + stop))
  {
    hide *;
    Assoc(" " + k, "=\"", v);
    Assoc(" " + k, "=\"" + v, "\"");
    Assoc("=\"", v, "\"");
    Assoc(" ", k, "=\"" + (v + "\""));
    Assoc(" " + (k + ("=\"" + (v + "\""))), rest, stop);
    Assoc(" ", k + ("=\"" + (v + "\"")), rest + stop);
  }

  /** A space, then one attribute. */
  lemma AttributesStep(b: string, p: nat)
    requires p + 1 < |b| && b[p] == ' ' && !X.IsWhite(b[p + 1]) && b[p + 1] != '/' && b[p + 1] != '>'
    requires X.OneAttribute(b, p + 1).next.Some?
    ensures var a := X.OneAttribute(b, p + 1);
            var rest := X.Attributes(b, a.next.value);
            X.Attributes(b, p) == X.Step(a.events + rest.events, rest.next)
  {
    hide X.AllInside, X.OneAttribute;
    assert X.Attributes(b, p) == X.Attributes(b, p + 1);
  }

  lemma {:induction false} AttStringSnoc(atts: seq<(string, string)>, k: string, v: string)
    ensures AttString(atts + [(k, v)]) == AttString(atts) + (" " + k + "=\"" + v + "\"")
  {
    if atts == [] {
      assert (atts + [(k, v)])[1..] == [];
      assert AttString([]) == "";
    } else {
      assert (atts + [(k, v)])[0] == atts[0];
      assert (atts + [(k, v)])[1..] == atts[1..] + [(k, v)];
      AttStringSnoc(atts[1..], k, v);
    }
  }

  lemma RootPrefix(name: string, atts: seq<(string, string)>)
    requires PlainName(name)
    ensures "root " <= name + AttString(atts) <==> name == "root" && atts != []
  {
    var tag := name + AttString(atts);
    assert forall j :: 0 <= j < |name| ==> tag[j] == name[j];
    assert atts != [] ==> tag[|name|] == ' ';
    if "root " <= tag {
      assert tag[..5] == "root ";
      assert tag[0] == 'r' && tag[1] == 'o' && tag[2] == 'o' && tag[3] == 't' && tag[4] == ' ';
      assert name == tag[..|name|];
    }
  }

  lemma PrintedStartTag(name: string, atts: seq<(string, string)>, o: Options)
    requires PlainName(name)
    ensures StartTag(name + AttString(atts), o) == "<" + (name + (AttString(FullAtts(name, atts, o)) + ">"))
    ensures TagName(name + AttString(atts)) == name
  {
    hide AttString, PlainName, TagName;
    RootPrefix(name, atts);
    NameOfTag(name, atts);
    AttStringSnoc(atts, "configId", o.configId);
    StartTagGlue(name, AttString(atts), "");
    StartTagGlue(name, AttString(atts), " configId=\"" + o.configId + "\"");
    ConfigGlue(o.configId);
  }

  lemma NameOfTag(name: string, atts: seq<(string, string)>)
    requires PlainName(name)
    ensures TagName(name + AttString(atts)) == name
  {
    var tag := name + AttString(atts);
    assert forall j :: 0 <= j < |name| ==> tag[j] == name[j];
    TagNameIsPrefix(tag, |name|);
    assert tag[..|name|] == name;
  }

  lemma StartTagGlue(name: string, atts: string, config: string)
    ensures "<" + (name + atts) + config + ">" == "<" + (name + ((atts + config) + ">"))
    ensures atts + "" == atts
  {
  }

  lemma ConfigGlue(id: string)
    ensures " configId=\"" + id + "\"" == " " + "configId" + "=\"" + id + "\""
  {
  }

  // ---------- tags ----------

  lemma NotComment(b: string, p: nat)
    requires p + 1 < |b| && b[p + 1] != '!'
    ensures !At(b, p, "<!--")
  {
    if At(b, p, "<!--") {
      AtChar(b, p, "<!--", 1);
    }
  }

  /** A name behind '<' at p. */
  lemma TagStart(b: string, p: nat, name: string)
    requires PlainName(name) && At(b, p, "<" + name) && p + 1 + |name| < |b|
    requires X.Stops(b[p + 1 + |name|], X.TokenEnd)
    ensures X.One(b, p) == X.StartTag(b, LocalSpan(p + 1, name))
    ensures Sub(b, LocalSpan(p + 1, name)) == Local(name)
    ensures var span := LocalSpan(p + 1, name); span.off + span.len == p + 1 + |name|
  {
    hide At, X.Name, X.One, X.StartTag, X.Stops, Sub, PlainName, LocalSpan, Local;
    AtSplit(b, p, "<", name);
    AtChar(b, p, "<", 0);
    FirstChar(b, p + 1, name);
    NameOver(b, p + 1, 0, p + 1, name);
    LocalText(b, p + 1, name);
    NotComment(b, p);
    OneStart(b, p, LocalSpan(p + 1, name));
  }

  lemma OneStart(b: string, p: nat, span: X.Span)
    requires p + 1 < |b| && b[p] == '<' && b[p + 1] != '?' && !At(b, p, "<!--")
    requires X.Name(b, p + 1, p + 1) == Some(span) && span.len > 0
    ensures X.One(b, p) == X.StartTag(b, span)
  {
    hide At, X.Name, X.StartTag;
  }

  lemma FirstChar(b: string, p: nat, name: string)
    requires PlainName(name) && At(b, p, name)
    ensures b[p] == name[0] != ':' && b[p] != '!' && b[p] != '?'
  {
    AtChar(b, p, name, 0);
  }

  lemma LocalInside(name: string)
    requires PlainName(name)
    ensures LocalStart(name, |name|) < |name|
  {
    assert name[|name| - 1] != ':';
  }

  lemma LocalText(b: string, p: nat, name: string)
    requires PlainName(name) && At(b, p, name)
    ensures var span := LocalSpan(p, name);
            span.len > 0 && span.off + span.len == p + |name| && Sub(b, span) == Local(name)
  {
    hide At, Sub, PlainName, LocalStart;
    var k := LocalStart(name, |name|);
    LocalInside(name);
    assert name[..k] + name[k..] == name;
    AtSplit(b, p, name[..k], name[k..]);
    SubAt(b, p + k, name[k..]);
  }

  /** A start tag that is followed by another tag. */
  lemma StartTagOver(b: string, p: nat, name: string, atts: seq<(string, string)>)
    requires PlainName(name) && PlainAtts(atts)
    requires At(b, p, "<" + (name + (AttString(atts) + ">")))
    requires var q := p + |name| + |AttString(atts)| + 2;
             q + 1 < |b| && b[q] == '<' && b[q + 1] != '!'
    ensures From(b, p) == [Start(Local(name))] + AttCalls(atts) + From(b, p + |name| + |AttString(atts)| + 2)
  {
    var x := p + 1 + |name|;
    var q := x + |AttString(atts)| + 1;
    hide *;
    StartTagOne(b, p, name, atts);
    var a := X.Attributes(b, x);
    CallsCons(b, X.StartElt(LocalSpan(p + 1, name)), a.events);
    OneRound(b, p);
  }

  lemma StartTagOne(b: string, p: nat, name: string, atts: seq<(string, string)>)
    requires PlainName(name) && PlainAtts(atts)
    requires At(b, p, "<" + (name + (AttString(atts) + ">")))
    requires var q := p + |name| + |AttString(atts)| + 2;
             q + 1 < |b| && b[q] == '<' && b[q + 1] != '!'
    ensures var (x, e) := (p + 1 + |name|, X.StartElt(LocalSpan(p + 1, name)));
            && x <= |b|
            && X.One(b, p) == X.Step([e] + X.Attributes(b, x).events, Some(x + |AttString(atts)| + 1))
            && Calls(b, X.Attributes(b, x).events) == AttCalls(atts)
            && ToCall(b, e) == Start(Local(name))
  {
    hide At, X.Attributes, X.EventInside, X.Content, X.One, Sub, Calls, AttString, PlainName, PlainAtts;
    hide LocalSpan, Local;
    var x := p + 1 + |name|;
    var q := x + |AttString(atts)| + 1;
    TagParts(b, p, name, AttString(atts) + ">");
    AttributesOver(b, x, atts, ">");
    AfterName(b, x, atts, ">");
    TagStart(b, p, name);
    ContentAtTag(b, q);
    var es := [X.StartElt(LocalSpan(p + 1, name))] + X.Attributes(b, x).events;
    assert es + [] == es;
  }

  lemma TagParts(b: string, p: nat, name: string, rest: string)
    requires At(b, p, "<" + (name + rest))
    ensures At(b, p, "<" + name) && At(b, p + 1, name) && At(b, p + 1 + |name|, rest)
  {
    AtSplit(b, p, "<", name + rest);
    assert "<" + (name + rest) == ("<" + name) + rest;
    AtSplit(b, p, "<" + name, rest);
    AtSplit(b, p + 1, name, rest);
  }

  lemma AfterName(b: string, x: nat, atts: seq<(string, string)>, stop: string)
    requires (stop == ">" || stop == "/") && At(b, x, AttString(atts) + stop)
    ensures x < |b| && X.Stops(b[x], X.TokenEnd)
  {
    AtChar(b, x, AttString(atts) + stop, 0);
  }

  lemma ContentAtTag(b: string, q: nat)
    requires q + 1 < |b| && b[q] == '<' && b[q + 1] != '!'
    ensures X.Content(b, q) == X.Step([], Some(q))
  {
    assert X.Find(b, q, X.NonWhite) == q;
    assert X.Find(b, q, X.Is('<')) == q;
    if At(b, q, "<![CDATA[") {
      AtChar(b, q, "<![CDATA[", 1);
    }
  }

  lemma EndTagOver(b: string, p: nat, name: string)
    requires PlainName(name) && At(b, p, EndTag(name))
    ensures p + |EndTag(name)| <= |b|
    ensures From(b, p) == [End(name)] + From(b, p + |EndTag(name)|)
  {
    hide *;
    EndTagOne(b, p, name);
    CallsOne(b, X.EndElt(X.Span(p + 2, |name|)));
    OneRound(b, p);
  }

  lemma EndTagOne(b: string, p: nat, name: string)
    requires PlainName(name) && At(b, p, EndTag(name))
    ensures |EndTag(name)| == |name| + 3 && p + |name| + 3 <= |b|
    ensures X.One(b, p) == X.Step([X.EndElt(X.Span(p + 2, |name|))], Some(p + |name| + 3))
    ensures ToCall(b, X.EndElt(X.Span(p + 2, |name|))) == End(name)
  {
    hide At, X.EventInside, X.Find, Sub;
    EndTagPositions(b, p, name);
    NotComment(b, p);
    assert X.Name(b, p + 1, p + 1) == Some(X.Span(p + 1, 0));
  }

  lemma EndTagPositions(b: string, p: nat, name: string)
    requires PlainName(name) && At(b, p, EndTag(name))
    ensures |EndTag(name)| == |name| + 3 && p + |name| + 3 <= |b|
    ensures b[p] == '<' && b[p + 1] == '/' && X.Find(b, p + 2, X.Is('>')) == p + 2 + |name|
    ensures Sub(b, X.Span(p + 2, |name|)) == name
  {
    hide At, Sub;
    assert EndTag(name) == "</" + (name + ">");
    AtSplit(b, p, "</", name + ">");
    AtSplit(b, p + 2, name, ">");
    AtChar(b, p, "</", 0);
    AtChar(b, p, "</", 1);
    AtChar(b, p + 2 + |name|, ">", 0);
    SubAt(b, p + 2, name);
    ScanOver(b, p + 2, name, X.Is('>'));
  }

  function LeafString(name: string, text: string): string {
    "<" + (name + (">" + (text + EndTag(name))))
  }

  /** A start tag without attributes, its text, and its end tag. */
  lemma LeafOver(b: string, p: nat, name: string, text: string)
    requires PlainName(name) && Without(text, '<') && text != ""
    requires At(b, p, LeafString(name, text))
    ensures From(b, p)
         == [Start(Local(name)), Data(text), End(name)] + From(b, p + |name| + 2 + |text| + |EndTag(name)|)
  {
    hide *;
    var x := p + 1 + |name|;
    var start := X.StartElt(LocalSpan(p + 1, name));
    var data := X.CharData(X.Span(x + 1, |text|));
    LeafStart(b, p, name, text);
    LeafFrom(b, p, x + 1 + |text|, start, data, name, text);
  }

  lemma LeafFrom(b: string, p: nat, e: nat, start: X.Event, data: X.Event, name: string, text: string)
    requires p + 1 < |b| && e <= |b| && X.One(b, p) == X.Step([start] + [data], Some(e))
    requires ToCall(b, start) == Start(Local(name)) && ToCall(b, data) == Data(text)
    requires PlainName(name) && At(b, e, EndTag(name))
    ensures From(b, p) == [Start(Local(name)), Data(text), End(name)] + From(b, e + |EndTag(name)|)
  {
    hide *;
    LeafCalls(b, start, data, name, text);
    OneRound(b, p);
    EndTagOver(b, e, name);
    LeafGlue(Start(Local(name)), Data(text), End(name), From(b, e + |EndTag(name)|));
  }

  lemma LeafCalls(b: string, start: X.Event, data: X.Event, name: string, text: string)
    requires ToCall(b, start) == Start(Local(name)) && ToCall(b, data) == Data(text)
    ensures Calls(b, [start] + [data]) == [Start(Local(name))] + [Data(text)]
  {
    CallsCons(b, start, [data]);
    CallsOne(b, data);
  }

  lemma LeafGlue(s: Call, d: Call, e: Call, rest: seq<Call>)
    ensures [s] + [d] + ([e] + rest) == [s, d, e] + rest
  {
  }

  lemma LeafStart(b: string, p: nat, name: string, text: string)
    requires PlainName(name) && Without(text, '<') && text != ""
    requires At(b, p, LeafString(name, text))
    ensures var x := p + 1 + |name|;
            var (start, data) := (X.StartElt(LocalSpan(p + 1, name)), X.CharData(X.Span(x + 1, |text|)));
            && x + 1 + |text| <= |b|
            && p + 1 < |b| && X.One(b, p) == X.Step([start] + [data], Some(x + 1 + |text|))
            && ToCall(b, start) == Start(Local(name)) && ToCall(b, data) == Data(text)
            && At(b, x + 1 + |text|, EndTag(name))
  {
    hide At, X.EventInside, X.Content, X.One, Sub, PlainName, Without, EndTag, LocalSpan, Local;
    var x := p + 1 + |name|;
    var e := x + 1 + |text|;
    TagParts(b, p, name, ">" + (text + EndTag(name)));
    AtSplit(b, x, ">", text + EndTag(name));
    AtSplit(b, x + 1, text, EndTag(name));
    AtChar(b, x, ">", 0);
    EndTagChars(b, e, name);
    SubAt(b, x + 1, text);
    ContentIsText(b, x + 1, text);
    BareStart(b, p, name);
  }

  lemma EndTagChars(b: string, e: nat, name: string)
    requires At(b, e, EndTag(name))
    ensures e + 1 < |b| && b[e] == '<' && b[e + 1] == '/'
  {
    AtChar(b, e, EndTag(name), 0);
    AtChar(b, e, EndTag(name), 1);
  }

  lemma ContentIsText(b: string, q: nat, text: string)
    requires Without(text, '<') && text != "" && At(b, q, text)
    requires q + |text| + 1 < |b| && b[q + |text|] == '<' && b[q + |text| + 1] == '/'
    ensures X.Content(b, q) == X.Step([X.CharData(X.Span(q, |text|))], Some(q + |text|))
  {
    var e := q + |text|;
    ScanOver(b, q, text, X.Is('<'));
    var w := X.Find(b, q, X.NonWhite);
    assert X.Stops(b[e], X.NonWhite);
    assert X.Find(b, w, X.Is('<')) == e;
    NoCdata(b, w, e);
  }

  // ---------- documents ----------

  /** Whatever follows a start tag begins with '<' and not with "<!". */
  lemma {:induction false} BeginsWithTag(ds: seq<Doc>, o: Options, name: string)
    requires PlainAll(ds)
    ensures var s := RenderAll(ToTrees(ds), o) + EndTag(name);
            |s| >= 2 && s[0] == '<' && s[1] != '!'
  {
    var s := RenderAll(ToTrees(ds), o) + EndTag(name);
    if ds == [] {
      assert s == "" + EndTag(name) && EndTag(name)[0] == '<' && EndTag(name)[1] == '/';
    } else {
      var first := Render(ToTree(ds[0]), o);
      assert ToTrees(ds)[1..] == ToTrees(ds[1..]);
      BeginsWithTag(ds[1..], o, name);
      if first == "" {
        assert s == RenderAll(ToTrees(ds[1..]), o) + EndTag(name);
      } else {
        BeginsWithName(ds[0], o);
        assert s[0] == first[0] && s[1] == first[1];
      }
    }
  }

  lemma BeginsWithName(d: Doc, o: Options)
    requires Plain(d)
    ensures var s := Render(ToTree(d), o);
            s != "" ==> |s| >= 2 && s[0] == '<' && s[1] == d.name[0]
  {
    match d
    case Text(name, text) =>
      if text != "" {
        assert Render(ToTree(d), o)[0] == '<';
        assert Render(ToTree(d), o)[1] == name[0];
      }
    case Element(name, atts, children) =>
      hide RenderAll, ToTrees, AttString, PlainAtts, PlainAll, EndTag, TagName;
      var start := StartTag(name + AttString(atts), o);
      assert Render(ToTree(d), o) == start + RenderAll(ToTrees(children), o) + EndTag(TagName(name + AttString(atts)));
      assert start[0] == '<' && start[1] == name[0];
  }

  lemma {:induction false} DocOver(b: string, p: nat, d: Doc, o: Options)
    requires Plain(d) && PlainOptions(o) && At(b, p, Render(ToTree(d), o))
    ensures From(b, p) == Trace(d, o) + From(b, p + |Render(ToTree(d), o)|)
    decreases d, 1
  {
    hide *;
    match d {
      case Text(name, text) =>
        PlainText(d);
        TextOver(b, p, name, text, o);
      case Element(name, atts, children) =>
        ElementOver(b, p, d, o);
    }
  }

  lemma TextOver(b: string, p: nat, name: string, text: string, o: Options)
    requires PlainName(name) && Without(text, '<') && PlainOptions(o)
    requires At(b, p, Render(Leaf(name, text), o))
    ensures From(b, p) == Trace(Text(name, text), o) + From(b, p + |Render(Leaf(name, text), o)|)
  {
    hide At, From, PlainName;
    if text != "" {
      var full := UrlPrefix(text, o) + text;
      TextRendering(name, text, o);
      hide *;
      LeafOver(b, p, name, full);
    }
  }

  lemma TextRendering(name: string, text: string, o: Options)
    requires Without(text, '<') && text != "" && PlainOptions(o)
    ensures var full := UrlPrefix(text, o) + text;
            && Render(Leaf(name, text), o) == LeafString(name, full)
            && Trace(Text(name, text), o) == [Start(Local(name)), Data(full), End(name)]
            && full != "" && Without(full, '<')
            && |Render(Leaf(name, text), o)| == |name| + 2 + |full| + |EndTag(name)|
  {
  }

  lemma ElementRendering(name: string, atts: seq<(string, string)>, children: seq<Doc>, o: Options)
    requires PlainName(name) && PlainAtts(atts) && PlainOptions(o)
    ensures PlainAtts(FullAtts(name, atts, o))
    ensures var d := Element(name, atts, children);
            && Render(ToTree(d), o)
               == "<" + (name + (AttString(FullAtts(name, atts, o)) + ">"))
                  + (RenderAll(ToTrees(children), o) + EndTag(name))
            && Trace(d, o)
               == [Start(Local(name))] + AttCalls(FullAtts(name, atts, o)) + TraceAll(children, o) + [End(name)]
  {
    hide RenderAll, ToTrees, AttString, EndTag, TagName, StartTag, AttCalls, TraceAll, PlainName;
    PrintedStartTag(name, atts, o);
    Assoc(StartTag(name + AttString(atts), o), RenderAll(ToTrees(children), o), EndTag(name));
    assert PlainKey("configId");
  }

  lemma {:induction false} ElementOver(b: string, p: nat, d: Doc, o: Options)
    requires Plain(d) && PlainOptions(o) && At(b, p, Render(ToTree(d), o)) && d.Element?
    ensures From(b, p) == Trace(d, o) + From(b, p + |Render(ToTree(d), o)|)
    decreases d, 0
  {
    hide *;
    PlainParts(d);
    var Element(name, atts, children) := d;
    var full := FullAtts(name, atts, o);
    var start := "<" + (name + (AttString(full) + ">"));
    var inner := RenderAll(ToTrees(children), o);
    var q := p + |start|;
    ElementRendering(name, atts, children, o);
    AtSplit(b, p, start, inner + EndTag(name));
    BeginsWithTag(children, o, name);
    AtChar(b, q, inner + EndTag(name), 0);
    AtChar(b, q, inner + EndTag(name), 1);
    AtSplit(b, q, inner, EndTag(name));
    StartTagOver(b, p, name, full);
    DocsOver(b, q, children, o);
    EndTagOver(b, q + |inner|, name);
    TraceGlue([Start(Local(name))] + AttCalls(full), TraceAll(children, o), [End(name)],
              From(b, q + |inner| + |EndTag(name)|));
  }

  lemma PlainText(d: Doc)
    requires Plain(d) && d.Text?
    ensures PlainName(d.name) && Without(d.text, '<') && ToTree(d) == Leaf(d.name, d.text)
  {
  }

  lemma PlainParts(d: Doc)
    requires Plain(d) && d.Element?
    ensures PlainName(d.name) && PlainAtts(d.atts) && PlainAll(d.children)
  {
  }

  lemma TraceGlue(a: seq<Call>, t: seq<Call>, e: seq<Call>, rest: seq<Call>)
    ensures a + (t + (e + rest)) == (a + t + e) + rest
    ensures t + (e + rest) == (t + e) + rest
  {
  }

  lemma {:induction false} DocsOver(b: string, p: nat, ds: seq<Doc>, o: Options)
    requires PlainAll(ds) && PlainOptions(o) && At(b, p, RenderAll(ToTrees(ds), o))
    ensures From(b, p) == TraceAll(ds, o) + From(b, p + |RenderAll(ToTrees(ds), o)|)
    decreases ds
  {
    hide At, From, Trace, ToTree, Render, PlainOptions;
    if ds == [] {
      assert RenderAll(ToTrees(ds), o) == "";
    } else {
      DocsParts(ds, o);
      hide *;
      var first, rest := Render(ToTree(ds[0]), o), RenderAll(ToTrees(ds[1..]), o);
      AtSplit(b, p, first, rest);
      DocOver(b, p, ds[0], o);
      DocsOver(b, p + |first|, ds[1..], o);
      TraceGlue([], Trace(ds[0], o), TraceAll(ds[1..], o), From(b, p + |first| + |rest|));
    }
  }

  lemma DocsParts(ds: seq<Doc>, o: Options)
    requires ds != [] && PlainAll(ds)
    ensures Plain(ds[0]) && PlainAll(ds[1..])
    ensures RenderAll(ToTrees(ds), o) == Render(ToTree(ds[0]), o) + RenderAll(ToTrees(ds[1..]), o)
    ensures TraceAll(ds, o) == Trace(ds[0], o) + TraceAll(ds[1..], o)
  {
    hide Render, Trace, Plain;
    assert ToTrees(ds)[0] == ToTree(ds[0]) && ToTrees(ds)[1..] == ToTrees(ds[1..]);
  }

  // ---------- the header ----------

  const XMLVER := "<?xml version=\"1.0\"?>\r\n"

  lemma {:induction false} HeaderOver(b: string, p: nat)
    requires At(b, 0, XMLVER) && p <= |XMLVER|
    ensures From(b, p) == From(b, |XMLVER|)
    decreases |XMLVER| - p
  {
    if p < |XMLVER| && p + 1 < |b| {
      AtChar(b, 0, XMLVER, p);
      if p + 1 < |XMLVER| {
        AtChar(b, 0, XMLVER, p + 1);
      }
      assert XMLVER[p] == '<' ==> p == 0;
      if At(b, p, "<!--") {
        AtChar(b, p, "<!--", 0);
        AtChar(b, p, "<!--", 1);
      }
      OneRound(b, p);
      HeaderOver(b, p + 1);
    }
  }

  /** Parsing undoes printing, for a whole document behind the XML declaration. */
  lemma ParsingUndoesPrinting(ds: seq<Doc>, o: Options)
    requires PlainAll(ds) && PlainOptions(o)
    ensures From(XMLVER + RenderAll(ToTrees(ds), o), 0) == TraceAll(ds, o)
  {
    hide *;
    var body := RenderAll(ToTrees(ds), o);
    var b := XMLVER + body;
    AtStart(b);
    AtSplit(b, 0, XMLVER, body);
    HeaderOver(b, 0);
    DocsOver(b, |XMLVER|, ds, o);
    NothingLeft(b);
    assert TraceAll(ds, o) + [] == TraceAll(ds, o);
  }

  // ---------- other forms ----------

  predicate White(s: string) {
    forall k :: 0 <= k < |s| ==> s[k] == ' ' || s[k] == '\t' || s[k] == '\r' || s[k] == '\n'
  }

  /** Either quote may be used, and white space around the equal sign. */
  lemma QuotedAttribute(b: string, p: nat, k: string, pre: string, post: string, quote: char, v: string)
    requires PlainKey(k) && White(pre) && White(post) && (quote == '\'' || quote == '\"') && Without(v, quote)
    requires k == "" ==> pre == ""
    requires At(b, p, k + (pre + ("=" + (post + ([quote] + (v + [quote]))))))
    ensures p < |b| && !X.IsWhite(b[p]) && b[p] != '/' && b[p] != '>'
    ensures var (r, q) := (X.OneAttribute(b, p), p + |k| + |pre| + 1 + |post|);
            && r.next == Some(q + |v| + 2)
            && Calls(b, r.events) == [Att(k, v)]
  {
    hide At, X.Find, X.OneAttribute, X.ValueStart, Calls, Sub, White, Without, PlainKey;
    var q := p + |k| + |pre| + 1 + |post|;
    QuotedChars(b, p, k, pre, post, quote, v);
    KeyScan(b, p, k, pre);
    ValueAt(b, p, k, pre, post, quote);
    ValueScan(b, q + 1, v, quote);
    QuotedStep(b, p, |k|, q, |v|);
    SubAt(b, p, k);
    SubAt(b, q + 1, v);
    CallsOne(b, X.Attribute(X.Span(p, |k|), X.Span(q + 1, |v|)));
  }

  lemma ValueAt(b: string, p: nat, k: string, pre: string, post: string, quote: char)
    requires White(post) && (quote == '\'' || quote == '\"')
    requires var e := p + |k| + |pre|;
             && At(b, e + 1, post) && e + 1 + |post| < |b| && b[e + 1 + |post|] == quote
             && X.Find(b, p, X.KeyEnd) == p + |k| && X.Find(b, p + |k|, X.Is('=')) == e
    ensures X.ValueStart(b, p) == Some(p + |k| + |pre| + 1 + |post|)
  {
    hide At, X.Find, White;
    WhiteScan(b, p + |k| + |pre| + 1, post, quote);
  }

  lemma QuotedStep(b: string, p: nat, key: nat, q: nat, len: nat)
    requires p < |b| && !X.IsWhite(b[p]) && b[p] != '/' && b[p] != '>'
    requires X.ValueStart(b, p) == Some(q) && X.Find(b, p, X.KeyEnd) == p + key
    requires q + 1 + len < |b| && (b[q] == '\'' || b[q] == '\"') && X.Find(b, q + 1, X.Is(b[q])) == q + 1 + len
    ensures X.OneAttribute(b, p)
            == X.Step([X.Attribute(X.Span(p, key), X.Span(q + 1, len))], Some(q + len + 2))
  {
    hide X.Find, X.ValueStart, X.EventInside;
  }

  lemma QuotedChars(b: string, p: nat, k: string, pre: string, post: string, quote: char, v: string)
    requires At(b, p, k + (pre + ("=" + (post + ([quote] + (v + [quote]))))))
    ensures var e := p + |k| + |pre|;
            var q := e + 1 + |post|;
            && At(b, p, k) && At(b, p + |k|, pre) && At(b, e + 1, post) && At(b, q + 1, v)
            && q + |v| + 2 <= |b| && b[e] == '=' && b[q] == quote && b[q + 1 + |v|] == quote
  {
    hide At;
    var e, value := p + |k| + |pre|, post + ([quote] + (v + [quote]));
    AtSplit(b, p, k, pre + ("=" + value));
    AtSplit(b, p + |k|, pre, "=" + value);
    AtSplit(b, e, "=", value);
    AtChar(b, e, "=", 0);
    ValueChars(b, e + 1, post, quote, v);
  }

  lemma ValueChars(b: string, p: nat, post: string, quote: char, v: string)
    requires At(b, p, post + ([quote] + (v + [quote])))
    ensures var q := p + |post|;
            && At(b, p, post) && At(b, q + 1, v)
            && q + |v| + 2 <= |b| && b[q] == quote && b[q + 1 + |v|] == quote
  {
    hide At;
    var q := p + |post|;
    AtSplit(b, p, post, [quote] + (v + [quote]));
    AtSplit(b, q, [quote], v + [quote]);
    AtSplit(b, q + 1, v, [quote]);
    AtChar(b, q, [quote], 0);
    AtChar(b, q + 1 + |v|, [quote], 0);
  }

  lemma KeyScan(b: string, p: nat, k: string, pre: string)
    requires PlainKey(k) && White(pre) && (k == "" ==> pre == "") && At(b, p, k) && At(b, p + |k|, pre)
    requires p + |k| + |pre| < |b| && b[p + |k| + |pre|] == '='
    ensures !X.IsWhite(b[p]) && b[p] != '/' && b[p] != '>'
    ensures X.Find(b, p, X.KeyEnd) == p + |k| && X.Find(b, p + |k|, X.Is('=')) == p + |k| + |pre|
  {
    hide At;
    if pre != "" {
      AtChar(b, p + |k|, pre, 0);
    }
    if k != "" {
      AtChar(b, p, k, 0);
    }
    ScanOver(b, p, k, X.KeyEnd);
    ScanOver(b, p + |k|, pre, X.Is('='));
  }

  lemma WhiteScan(b: string, p: nat, post: string, quote: char)
    requires White(post) && At(b, p, post) && p + |post| < |b| && b[p + |post|] == quote
    requires quote == '\'' || quote == '\"'
    ensures X.Find(b, p, X.NonWhite) == p + |post|
  {
    hide At;
    ScanOver(b, p, post, X.NonWhite);
  }

  lemma ValueScan(b: string, p: nat, v: string, quote: char)
    requires Without(v, quote) && At(b, p, v) && p + |v| < |b| && b[p + |v|] == quote
    ensures X.Find(b, p, X.Is(quote)) == p + |v|
  {
    hide At;
    ScanOver(b, p, v, X.Is(quote));
  }

  /** An element without content, <name/>, is reported as started and never as ended. */
  lemma EmptyElementOver(b: string, p: nat, name: string, atts: seq<(string, string)>)
    requires PlainName(name) && PlainAtts(atts) && At(b, p, "<" + (name + (AttString(atts) + "/>")))
    ensures From(b, p) == [Start(Local(name))] + AttCalls(atts) + From(b, p + |name| + |AttString(atts)| + 3)
  {
    hide *;
    var x := p + 1 + |name|;
    var q := x + |AttString(atts)|;
    EmptyElementOne(b, p, name, atts);
    CallsCons(b, X.StartElt(LocalSpan(p + 1, name)), X.Attributes(b, x).events);
    OneRound(b, p);
    NothingReported(b, q);
    NothingReported(b, q + 1);
  }

  lemma EmptyElementOne(b: string, p: nat, name: string, atts: seq<(string, string)>)
    requires PlainName(name) && PlainAtts(atts) && At(b, p, "<" + (name + (AttString(atts) + "/>")))
    ensures var (x, e) := (p + 1 + |name|, X.StartElt(LocalSpan(p + 1, name)));
            var q := x + |AttString(atts)|;
            && p + 1 < |b| && q + 2 <= |b| && b[q] == '/' && b[q + 1] == '>'
            && X.One(b, p) == X.Step([e] + X.Attributes(b, x).events, Some(q))
            && Calls(b, X.Attributes(b, x).events) == AttCalls(atts)
            && ToCall(b, e) == Start(Local(name))
  {
    hide At, X.Attributes, X.EventInside, X.Content, X.One, Sub, Calls, AttString, PlainName, PlainAtts;
    hide LocalSpan, Local;
    var x := p + 1 + |name|;
    var q := x + |AttString(atts)|;
    TagParts(b, p, name, AttString(atts) + "/>");
    assert AttString(atts) + "/>" == (AttString(atts) + "/") + ">";
    AtSplit(b, x, AttString(atts) + "/", ">");
    AtChar(b, q + 1, ">", 0);
    AttributesOver(b, x, atts, "/");
    AfterName(b, x, atts, "/");
    TagStart(b, p, name);
  }

  lemma OneSkips(b: string, q: nat)
    requires q + 1 < |b| && b[q] != '<'
    ensures X.One(b, q) == X.Step([], Some(q + 1))
  {
    hide At, X.Name, X.StartTag, X.EndTag, X.FindStr, X.Stops;
    if At(b, q, "<!--") {
      AtChar(b, q, "<!--", 0);
    }
  }

  /** Characters outside of tags are passed over. */
  lemma NothingReported(b: string, q: nat)
    requires q < |b| && b[q] != '<'
    ensures From(b, q) == From(b, q + 1)
  {
    hide *;
    if q + 1 < |b| {
      NoCalls(b);
      OneSkips(b, q);
      OneRound(b, q);
    } else {
      LastChar(b, q);
      NothingLeft(b);
    }
  }

  lemma LastChar(b: string, q: nat)
    requires q + 1 == |b|
    ensures From(b, q) == []
  {
  }

  /** Text in front of another element is not reported. */
  lemma MixedOver(b: string, p: nat, name: string, atts: seq<(string, string)>, text: string)
    requires PlainName(name) && PlainAtts(atts) && Without(text, '<')
    requires At(b, p, "<" + (name + ((AttString(atts) + ">") + text)))
    requires var q := p + |name| + |AttString(atts)| + 2 + |text|;
             q + 1 < |b| && b[q] == '<' && b[q + 1] != '!' && b[q + 1] != '/'
    ensures From(b, p) == [Start(Local(name))] + AttCalls(atts) + From(b, p + |name| + |AttString(atts)| + 2 + |text|)
  {
    hide *;
    MixedOne(b, p, name, atts, text);
    CallsCons(b, X.StartElt(LocalSpan(p + 1, name)), X.Attributes(b, p + 1 + |name|).events);
    OneRound(b, p);
  }

  lemma MixedOne(b: string, p: nat, name: string, atts: seq<(string, string)>, text: string)
    requires PlainName(name) && PlainAtts(atts) && Without(text, '<')
    requires At(b, p, "<" + (name + ((AttString(atts) + ">") + text)))
    requires var q := p + |name| + |AttString(atts)| + 2 + |text|;
             q + 1 < |b| && b[q] == '<' && b[q + 1] != '!' && b[q + 1] != '/'
    ensures var (x, e) := (p + 1 + |name|, X.StartElt(LocalSpan(p + 1, name)));
            && x <= |b|
            && X.One(b, p) == X.Step([e] + X.Attributes(b, x).events, Some(x + |AttString(atts)| + 1 + |text|))
            && Calls(b, X.Attributes(b, x).events) == AttCalls(atts)
            && ToCall(b, e) == Start(Local(name))
  {
    hide At, X.Attributes, X.EventInside, X.Content, X.One, Sub, Calls, AttString, PlainName, PlainAtts, Without;
    hide LocalSpan, Local;
    var x := p + 1 + |name|;
    TagParts(b, p, name, (AttString(atts) + ">") + text);
    AtSplit(b, x, AttString(atts) + ">", text);
    AttributesOver(b, x, atts, ">");
    AfterName(b, x, atts, ">");
    TagStart(b, p, name);
    ContentIsMixed(b, x + |AttString(atts)| + 1, text);
    var es := [X.StartElt(LocalSpan(p + 1, name))] + X.Attributes(b, x).events;
    assert es + [] == es;
  }

  lemma ContentIsMixed(b: string, q: nat, text: string)
    requires Without(text, '<') && At(b, q, text)
    requires q + |text| + 1 < |b| && b[q + |text|] == '<' && b[q + |text| + 1] != '/' && b[q + |text| + 1] != '!'
    ensures X.Content(b, q) == X.Step([], Some(q + |text|))
  {
    var e := q + |text|;
    ScanOver(b, q, text, X.Is('<'));
    var w := X.Find(b, q, X.NonWhite);
    assert X.Stops(b[e], X.NonWhite);
    assert X.Find(b, w, X.Is('<')) == e;
    NoCdata(b, w, e);
  }

  lemma NoCdata(b: string, w: nat, e: nat)
    requires w <= e < |b| - 1 && X.Find(b, w, X.Is('<')) == e && b[e + 1] != '!'
    ensures !At(b, w, "<![CDATA[")
  {
    if At(b, w, "<![CDATA[") {
      AtChar(b, w, "<![CDATA[", 0);
      AtChar(b, w, "<![CDATA[", 1);
    }
  }

  // ---------- CDATA and comments ----------

  /** The marker does not occur in the text, nor begin in it. */
  ghost predicate EndsWithMarker(text: string, marker: string) {
    forall k :: 0 <= k < |text| ==> !At(text + marker, k, marker)
  }

  lemma NoMarkerAt(text: string, marker: string, i: nat)
    requires EndsWithMarker(text, marker) && i < |text|
    ensures !At(text + marker, i, marker)
  {
  }

  lemma MarkerAt(b: string, p: nat, whole: string, i: nat, marker: string)
    requires |marker| == 3 && At(b, p, whole) && At(b, p + i, marker) && i + 3 <= |whole|
    ensures At(whole, i, marker)
  {
    AtChar(b, p, whole, i);
    AtChar(b, p, whole, i + 1);
    AtChar(b, p, whole, i + 2);
    AtChar(b, p + i, marker, 0);
    AtChar(b, p + i, marker, 1);
    AtChar(b, p + i, marker, 2);
    assert whole[i..i + 3] == marker;
  }

  lemma NotYet(b: string, p: nat, i: nat, text: string, marker: string)
    requires |marker| == 3 && At(b, p, text + marker) && EndsWithMarker(text, marker) && i < |text|
    ensures !At(b, p + i, marker)
  {
    hide EndsWithMarker, At;
    NoMarkerAt(text, marker, i);
    if At(b, p + i, marker) {
      MarkerAt(b, p, text + marker, i, marker);
    }
  }

  lemma {:induction false} MarkerFound(b: string, p: nat, i: nat, text: string, marker: string)
    requires |marker| == 3 && At(b, p, text + marker) && EndsWithMarker(text, marker) && i <= |text|
    requires p + |text| + 3 < |b|
    ensures X.FindStr(b, p + i, marker) == p + |text|
    decreases |text| - i
  {
    hide EndsWithMarker, At;
    if i < |text| {
      NotYet(b, p, i, text, marker);
      MarkerFound(b, p, i + 1, text, marker);
    } else {
      AtSplit(b, p, text, marker);
    }
  }

  const CDATA := "<![CDATA["

  /** A CDATA section is reported as what is between its marks, if there is anything; white space in front
      of it and text behind it are not. */
  lemma CdataOver(b: string, p: nat, name: string, pre: string, text: string, post: string)
    requires PlainName(name) && White(pre) && EndsWithMarker(text, "]]>") && Without(post, '<')
    requires At(b, p, "<" + (name + (">" + (pre + (CDATA + ((text + "]]>") + (post + EndTag(name))))))))
    ensures var q := p + |name| + 2 + |pre| + 12 + |text| + |post| + |EndTag(name)|;
            From(b, p) == [Start(Local(name))] + (if text == "" then [] else [Data(text)]) + [End(name)] + From(b, q)
  {
    hide *;
    var (w, d) := (p + |name| + 2 + |pre|, if text == "" then [] else [Data(text)]);
    var e := w + 12 + |text| + |post|;
    CdataStart(b, p, name, pre, text, post);
    OneRound(b, p);
    EndTagOver(b, e, name);
    CdataCalls(b, X.StartElt(LocalSpan(p + 1, name)), X.CharData(X.Span(w + 9, |text|)), name, text);
    Assoc([Start(Local(name))] + d, [End(name)], From(b, e + |EndTag(name)|));
  }

  lemma CdataCalls(b: string, start: X.Event, data: X.Event, name: string, text: string)
    requires ToCall(b, start) == Start(Local(name)) && ToCall(b, data) == Data(text)
    ensures Calls(b, [start] + (if text == "" then [] else [data]))
         == [Start(Local(name))] + (if text == "" then [] else [Data(text)])
  {
    hide Local;
    NoCalls(b);
    CallsCons(b, start, if text == "" then [] else [data]);
    CallsOne(b, data);
  }

  lemma CdataStart(b: string, p: nat, name: string, pre: string, text: string, post: string)
    requires PlainName(name) && White(pre) && EndsWithMarker(text, "]]>") && Without(post, '<')
    requires At(b, p, "<" + (name + (">" + (pre + (CDATA + ((text + "]]>") + (post + EndTag(name))))))))
    ensures var w := p + |name| + 2 + |pre|;
            var (start, data) := (X.StartElt(LocalSpan(p + 1, name)), X.CharData(X.Span(w + 9, |text|)));
            var e := w + 12 + |text| + |post|;
            && p + 1 < |b| && e <= |b|
            && X.One(b, p) == X.Step([start] + (if text == "" then [] else [data]), Some(e))
            && ToCall(b, start) == Start(Local(name)) && ToCall(b, data) == Data(text)
            && At(b, e, EndTag(name))
  {
    hide At, X.Content, X.One, Sub, PlainName, EndTag, LocalSpan, Local, EndsWithMarker, CDATA, White, Without;
    var x := p + 1 + |name|;
    var w := x + 1 + |pre|;
    var inner := (text + "]]>") + (post + EndTag(name));
    TagParts(b, p, name, ">" + (pre + (CDATA + inner)));
    AtSplit(b, x, ">", pre + (CDATA + inner));
    AtChar(b, x, ">", 0);
    AtSplit(b, x + 1, pre, CDATA + inner);
    CdataContent(b, w, text, post, EndTag(name));
    EndTagChars(b, w + 12 + |text| + |post|, name);
    CdataStop(b, x + 1, pre, text, post);
    BareStart(b, p, name);
  }

  /** A start tag without attributes. */
  lemma BareStart(b: string, p: nat, name: string)
    requires PlainName(name) && At(b, p, "<" + name) && p + 1 + |name| < |b| && b[p + 1 + |name|] == '>'
    ensures var (start, c) := (X.StartElt(LocalSpan(p + 1, name)), X.Content(b, p + 2 + |name|));
            X.One(b, p) == X.Step([start] + c.events, c.next) && ToCall(b, start) == Start(Local(name))
  {
    hide At, X.Content, X.One, Sub, PlainName, LocalSpan, Local;
    TagStart(b, p, name);
    assert X.Attributes(b, p + 1 + |name|) == X.Step([], Some(p + 1 + |name|));
    var start := X.StartElt(LocalSpan(p + 1, name));
    assert [start] + [] == [start];
  }

  /** The pieces of a CDATA section at w, which is followed by `post` and `rest`. */
  lemma CdataContent(b: string, w: nat, text: string, post: string, rest: string)
    requires At(b, w, CDATA + ((text + "]]>") + (post + rest))) && EndsWithMarker(text, "]]>")
    ensures At(b, w, CDATA) && |CDATA| == 9 && At(b, w + 9, text + "]]>") && At(b, w + 9, text)
    ensures At(b, w + 12 + |text|, post) && At(b, w + 12 + |text| + |post|, rest)
    ensures w + 12 + |text| + |post| <= |b|
    ensures Sub(b, X.Span(w + 9, |text|)) == text
  {
    hide EndsWithMarker;
    AtSplit(b, w, CDATA, (text + "]]>") + (post + rest));
    AtSplit(b, w + 9, text + "]]>", post + rest);
    AtSplit(b, w + 12 + |text|, post, rest);
    AtSplit(b, w + 9, text, "]]>");
    SubAt(b, w + 9, text);
  }

  lemma CdataStop(b: string, d: nat, pre: string, text: string, post: string)
    requires White(pre) && EndsWithMarker(text, "]]>") && Without(post, '<') && At(b, d, pre)
    requires var w := d + |pre|;
             && At(b, w, CDATA) && At(b, w + 9, text + "]]>") && At(b, w + 12 + |text|, post)
             && w + 12 + |text| + |post| < |b| && b[w + 12 + |text| + |post|] == '<'
    ensures var w := d + |pre|;
            X.Content(b, d) == X.Step(if text == "" then [] else [X.CharData(X.Span(w + 9, |text|))],
                                      Some(w + 12 + |text| + |post|))
  {
    hide At, EndsWithMarker, X.Find, X.FindStr, White, Without;
    var w := d + |pre|;
    var e := w + 9 + |text|;
    AtChar(b, w, CDATA, 0);
    WhiteOver(b, d, pre);
    MarkerFound(b, w + 9, 0, text, "]]>");
    AtSplit(b, w + 9, text, "]]>");
    BehindCdata(b, e, post);
  }

  lemma WhiteOver(b: string, d: nat, pre: string)
    requires White(pre) && At(b, d, pre) && d + |pre| < |b| && b[d + |pre|] == '<'
    ensures X.Find(b, d, X.NonWhite) == d + |pre|
  {
    hide At;
    ScanOver(b, d, pre, X.NonWhite);
  }

  lemma BehindCdata(b: string, e: nat, post: string)
    requires At(b, e, "]]>") && At(b, e + 3, post) && Without(post, '<')
    requires e + 3 + |post| < |b| && b[e + 3 + |post|] == '<'
    ensures X.Find(b, e, X.Is('<')) == e + 3 + |post|
  {
    hide At;
    ScanOver(b, e + 3, post, X.Is('<'));
    AtChar(b, e, "]]>", 0);
    AtChar(b, e, "]]>", 1);
    AtChar(b, e, "]]>", 2);
  }

  /** A comment is not reported. */
  lemma CommentOver(b: string, p: nat, text: string)
    requires At(b, p, "<!--" + (text + "-->")) && EndsWithMarker(text, "-->")
    ensures p + 7 + |text| <= |b| && From(b, p) == From(b, p + 7 + |text|)
  {
    hide *;
    CommentOne(b, p, text);
    OneRound(b, p);
    NoCalls(b);
    NothingLeft(b);
  }

  lemma NoCalls(b: string)
    ensures Calls(b, []) == [] && forall rest: seq<Call> :: [] + rest == rest
  {
  }

  lemma CommentOne(b: string, p: nat, text: string)
    requires At(b, p, "<!--" + (text + "-->")) && EndsWithMarker(text, "-->")
    ensures p + 7 + |text| <= |b|
    ensures var e := p + 7 + |text|; X.One(b, p) == X.Step([], if e < |b| then Some(e) else None)
  {
    hide EndsWithMarker, At, X.FindStr;
    AtSplit(b, p, "<!--", text + "-->");
    AtIs(b, p + 4, text + "-->");
    if p + 7 + |text| < |b| {
      MarkerFound(b, p + 4, 0, text, "-->");
    } else {
      NoMarker(b, p + 4, 0, text, "-->");
    }
  }

  /** A mark at the very end of the buffer is not found. */
  lemma {:induction false} NoMarker(b: string, p: nat, i: nat, text: string, marker: string)
    requires |marker| == 3 && At(b, p, text + marker) && EndsWithMarker(text, marker) && i <= |text|
    requires p + |text| + 3 == |b|
    ensures X.FindStr(b, p + i, marker) == |b|
    decreases |text| - i
  {
    hide EndsWithMarker, At;
    if i < |text| {
      NotYet(b, p, i, text, marker);
      NoMarker(b, p, i + 1, text, marker);
    }
  }

  /** A comment between two documents changes no call. */
  lemma CommentBetween(before: seq<Doc>, text: string, after: seq<Doc>, o: Options)
    requires PlainAll(before) && PlainAll(after) && PlainOptions(o) && EndsWithMarker(text, "-->")
    ensures var (first, second) := (RenderAll(ToTrees(before), o), RenderAll(ToTrees(after), o));
            From(XMLVER + (first + (("<!--" + (text + "-->")) + second)), 0)
            == TraceAll(before, o) + TraceAll(after, o)
  {
    hide *;
    var first, comment, second := RenderAll(ToTrees(before), o), "<!--" + (text + "-->"), RenderAll(ToTrees(after), o);
    var b := XMLVER + (first + (comment + second));
    var p := |XMLVER| + |first|;
    AtStart(b);
    AtSplit(b, 0, XMLVER, first + (comment + second));
    AtSplit(b, |XMLVER|, first, comment + second);
    AtSplit(b, p, comment, second);
    HeaderOver(b, 0);
    DocsOver(b, |XMLVER|, before, o);
    CommentOver(b, p, text);
    DocsOver(b, p + |comment|, after, o);
    NothingLeft(b);
    assert TraceAll(after, o) + [] == TraceAll(after, o);
  }

  lemma AtStart(b: string)
    ensures At(b, 0, b)
  {
    assert b[0..|b|] == b;
  }

  lemma NothingLeft(b: string)
    ensures From(b, |b|) == []
  {
  }

  // ---------- the IGD version 1 view ----------

  predicate IsHiddenDoc(d: Doc, o: Options) {
    d.Element? && d.children != [] && d.children[0].Text? && d.children[0].text in o.hidden
  }

  function Igd1Doc(d: Doc, o: Options): seq<Doc> {
    if IsHiddenDoc(d, o) then []
    else match d
      case Text(name, text) => [Text(name, Igd1Text(text, o))]
      case Element(name, atts, children) => [Element(name, atts, Igd1Docs(children, o))]
  }

  function Igd1Docs(ds: seq<Doc>, o: Options): seq<Doc> {
    if ds == [] then [] else Igd1Doc(ds[0], o) + Igd1Docs(ds[1..], o)
  }

  function ViewDocs(ds: seq<Doc>, o: Options, forceIgd1: bool): seq<Doc> {
    if forceIgd1 then Igd1Docs(ds, o) else ds
  }

  lemma {:induction false} ToTreesConcat(a: seq<Doc>, b: seq<Doc>)
    ensures ToTrees(a + b) == ToTrees(a) + ToTrees(b)
  {
    hide ToTree;
    if a == [] {
      assert a + b == b && [] + ToTrees(b) == ToTrees(b);
    } else {
      TailAppend(a, b);
      ToTreesConcat(a[1..], b);
      Assoc([ToTree(a[0])], ToTrees(a[1..]), ToTrees(b));
    }
  }

  lemma {:induction false} PlainAllConcat(a: seq<Doc>, b: seq<Doc>)
    requires PlainAll(a) && PlainAll(b)
    ensures PlainAll(a + b)
  {
    if a == [] {
      assert a + b == b;
    } else {
      PlainAllConcat(a[1..], b);
      assert (a + b)[0] == a[0] && (a + b)[1..] == a[1..] + b;
    }
  }

  /** Downgrading commutes with taking the attributes apart, and keeps documents plain. */
  lemma {:induction false} Igd1Commutes(d: Doc, o: Options)
    requires Plain(d)
    ensures Igd1(ToTree(d), o) == ToTrees(Igd1Doc(d, o)) && PlainAll(Igd1Doc(d, o))
    decreases d, 0
  {
    hide ToTrees, PlainAll, PlainName, PlainAtts, IsHidden, IsHiddenDoc, AttString;
    HiddenCommutes(d, o);
    NoDocs();
    match d {
      case Text(name, text) =>
        OneDoc(Text(name, Igd1Text(text, o)));
        TextStaysPlain(text, o);
      case Element(name, atts, children) =>
        Igd1AllCommutes(children, o);
        OneDoc(Element(name, atts, Igd1Docs(children, o)));
    }
  }

  lemma NoDocs()
    ensures ToTrees([]) == [] && PlainAll([])
  {
  }

  lemma OneDoc(d: Doc)
    ensures ToTrees([d]) == [ToTree(d)] && (PlainAll([d]) <==> Plain(d))
  {
    assert [d][1..] == [];
  }

  lemma TextStaysPlain(text: string, o: Options)
    requires Without(text, '<')
    ensures Without(Igd1Text(text, o), '<')
  {
  }

  lemma HiddenCommutes(d: Doc, o: Options)
    ensures IsHidden(ToTree(d), o) <==> IsHiddenDoc(d, o)
  {
    if d.Element? && d.children != [] {
      assert ToTrees(d.children)[0] == ToTree(d.children[0]);
    }
  }

  lemma {:induction false} Igd1AllCommutes(ds: seq<Doc>, o: Options)
    requires PlainAll(ds)
    ensures Igd1All(ToTrees(ds), o) == ToTrees(Igd1Docs(ds, o)) && PlainAll(Igd1Docs(ds, o))
    decreases ds
  {
    if ds != [] {
      assert ToTrees(ds)[0] == ToTree(ds[0]) && ToTrees(ds)[1..] == ToTrees(ds[1..]);
      Igd1Commutes(ds[0], o);
      Igd1AllCommutes(ds[1..], o);
      ToTreesConcat(Igd1Doc(ds[0], o), Igd1Docs(ds[1..], o));
      PlainAllConcat(Igd1Doc(ds[0], o), Igd1Docs(ds[1..], o));
    }
  }

  /** What is printed in either mode is parsed back to the trace of the corresponding document. */
  lemma ParsingUndoesView(d: Doc, o: Options, forceIgd1: bool)
    requires Plain(d) && PlainOptions(o)
    ensures From(XMLVER + Printed([ToTree(d)], o, forceIgd1), 0) == TraceAll(ViewDocs([d], o, forceIgd1), o)
  {
    assert [d][1..] == [] && PlainAll([d]);
    assert ToTrees([d]) == [ToTree(d)];
    Igd1AllCommutes([d], o);
    ParsingUndoesPrinting(ViewDocs([d], o, forceIgd1), o);
  }

  /** genRootDesc followed by parsexml on its result. */
  method DescribeAndParse(p: seq<DescGen.XMLElt>, o: Options, forceIgd1: bool, ghost d: Doc)
    returns (out: DescGen.StringBuffer, parser: X.XmlParser)
    requires |p| <= 0xffff && DescGen.WellFormed(p, 0, forceIgd1)
    requires Depth(DescGen.TreeAt(p, 0, forceIgd1)) <= DescGen.STACK_SIZE
    requires DescGen.TreeAt(p, 0, forceIgd1) == ToTree(d) && Plain(d) && PlainOptions(o)
    ensures !out.lost ==> Calls(parser.b, parser.events) == TraceAll(ViewDocs([d], o, forceIgd1), o)
  {
    hide Plain, DescGen.WellFormed, DescGen.TreeAt, ToTree, Printed, Calls, X.Events, X.AllInside;
    out := new DescGen.StringBuffer(2048, XMLVER);
    DescGen.GenXml(out, p, o, forceIgd1);
    parser := new X.XmlParser(out.str[..out.len]);
    parser.ParseXml();
    assert [] + X.Events(parser.b, 0) == X.Events(parser.b, 0);
    ParsingUndoesView(d, o, forceIgd1);
  }

  /** The same with the settings of the daemon: its URNs, the random URL part and the configId. */
  method DescribeRoot(p: seq<DescGen.XMLElt>, urlPrefix: string, configId: nat, forceIgd1: bool, ghost d: Doc)
    returns (out: DescGen.StringBuffer, parser: X.XmlParser)
    requires |p| <= 0xffff && DescGen.WellFormed(p, 0, forceIgd1)
    requires Depth(DescGen.TreeAt(p, 0, forceIgd1)) <= DescGen.STACK_SIZE
    requires DescGen.TreeAt(p, 0, forceIgd1) == ToTree(d) && Plain(d) && Without(urlPrefix, '<')
    ensures !out.lost ==>
      var o := StandardOptions(urlPrefix, Decimal(configId));
      Calls(parser.b, parser.events) == TraceAll(ViewDocs([d], o, forceIgd1), o)
  {
    hide Plain, DescGen.WellFormed, DescGen.TreeAt, ToTree, Calls, ViewDocs, TraceAll, Decimal;
    DecimalDigits(configId);
    out, parser := DescribeAndParse(p, StandardOptions(urlPrefix, Decimal(configId)), forceIgd1, d);
  }
}
