/** The recursive view of a UPnP description document: trees, their XML rendering, and the
    IGD version 1 view of an IGD version 2 tree. */
module DescTree {
  import opened SeqTools

  /** `Leaf(n, s)` is the table entry {"/n", s}; `Node(tag, ts)` an entry with children.  A tag
      is an element name that may be followed by attributes. */
  datatype Tree = Leaf(name: string, text: string) | Node(tag: string, children: seq<Tree>)

  /** Compile-time and global settings that the generator reads.
      - urlPrefix: put before every text that starts with '/' ("" without RANDOMIZE_URLS)
      - configId: the decimal value of upnp_configid
      - versioned: the URNs whose last character becomes '1' in the IGD version 1 view
      - hidden: the service types that the IGD version 1 view omits */
  datatype Options = Options(urlPrefix: string, configId: string, versioned: set<string>, hidden: set<string>)
  {
    ghost predicate Valid() {
      forall s :: s in versioned ==> |s| > 0 && s[0] == 'u'
    }
  }

  const DEVICE_TYPE_IGD := "urn:schemas-upnp-org:device:InternetGatewayDevice:2"
  const DEVICE_TYPE_WAN := "urn:schemas-upnp-org:device:WANDevice:2"
  const DEVICE_TYPE_WANC := "urn:schemas-upnp-org:device:WANConnectionDevice:2"
  const SERVICE_TYPE_WANIPC := "urn:schemas-upnp-org:service:WANIPConnection:2"

  const IGD_V2_SERVICES := {
    "urn:schemas-upnp-org:service:DeviceProtection:1",
    "urn:schemas-upnp-org:service:WANIPv6FirewallControl:1"
  }

  function StandardOptions(urlPrefix: string, configId: string): (o: Options)
    ensures o.Valid()
  {
    assert DEVICE_TYPE_IGD[0] == DEVICE_TYPE_WAN[0] == DEVICE_TYPE_WANC[0] == SERVICE_TYPE_WANIPC[0] == 'u';
    Options(urlPrefix, configId,
            {DEVICE_TYPE_IGD, DEVICE_TYPE_WAN, DEVICE_TYPE_WANC, SERVICE_TYPE_WANIPC}, IGD_V2_SERVICES)
  }

  /** What the daemon's settings do to texts in the IGD version 1 view: the four device and service types
      get version 1, everything else stays. */
  lemma StandardView(urlPrefix: string, configId: string, text: string)
    ensures var o := StandardOptions(urlPrefix, configId);
            && Igd1Text("urn:schemas-upnp-org:device:InternetGatewayDevice:2", o)
               == "urn:schemas-upnp-org:device:InternetGatewayDevice:1"
            && Igd1Text("urn:schemas-upnp-org:device:WANDevice:2", o) == "urn:schemas-upnp-org:device:WANDevice:1"
            && Igd1Text("urn:schemas-upnp-org:device:WANConnectionDevice:2", o)
               == "urn:schemas-upnp-org:device:WANConnectionDevice:1"
            && Igd1Text("urn:schemas-upnp-org:service:WANIPConnection:2", o)
               == "urn:schemas-upnp-org:service:WANIPConnection:1"
            && (text !in o.versioned ==> Igd1Text(text, o) == text)
  {
  }

  /** The name part of a tag: everything before the first character that is not above ' '.
      Characters are compared as signed bytes, so codes from 128 on end the name as well. */
  function TagName(tag: string): string {
    if tag == "" || !IsNameChar(tag[0]) then "" else [tag[0]] + TagName(tag[1..])
  }

  predicate IsNameChar(c: char) {
    ' ' < c && c as int < 128
  }

  lemma {:induction false} TagNameIsPrefix(tag: string, k: nat)
    requires k <= |tag| && forall j :: 0 <= j < k ==> IsNameChar(tag[j])
    requires k == |tag| || !IsNameChar(tag[k])
    ensures TagName(tag) == tag[..k]
  {
    if k > 0 {
      TagNameIsPrefix(tag[1..], k - 1);
      assert tag[..k] == [tag[0]] + tag[1..][..k - 1];
    }
  }

  function StartTag(tag: string, o: Options): string {
    "<" + tag + (if "root " <= tag then " configId=\"" + o.configId + "\"" else "") + ">"
  }

  function EndTag(name: string): string {
    "</" + name + ">"
  }

  lemma EndTagParts(before: string, name: string)
    ensures before + "</" + name + ['>'] == before + EndTag(name)
  {
  }

  function UrlPrefix(text: string, o: Options): string {
    if text != "" && text[0] == '/' then o.urlPrefix else ""
  }

  function Render(t: Tree, o: Options): string {
    match t
    case Leaf(name, text) =>
      if text == "" then "" else "<" + name + ">" + UrlPrefix(text, o) + text + EndTag(name)
    case Node(tag, children) =>
      StartTag(tag, o) + RenderAll(children, o) + EndTag(TagName(tag))
  }

  function RenderAll(ts: seq<Tree>, o: Options): string {
    if ts == [] then "" else Render(ts[0], o) + RenderAll(ts[1..], o)
  }

  /** The IGD version 1 view: hidden services disappear, versioned URNs end in '1'. */
  function Igd1Text(s: string, o: Options): string {
    if s in o.versioned && s != "" then s[..|s| - 1] + "1" else s
  }

  predicate IsHidden(t: Tree, o: Options) {
    t.Node? && t.children != [] && t.children[0].Leaf? && t.children[0].text in o.hidden
  }

  function Igd1(t: Tree, o: Options): seq<Tree> {
    if IsHidden(t, o) then []
    else match t
      case Leaf(name, text) => [Leaf(name, Igd1Text(text, o))]
      case Node(tag, children) => [Node(tag, Igd1All(children, o))]
  }

  function Igd1All(ts: seq<Tree>, o: Options): seq<Tree> {
    if ts == [] then [] else Igd1(ts[0], o) + Igd1All(ts[1..], o)
  }

  /** What is to be printed for a list of trees. */
  function View(ts: seq<Tree>, o: Options, forceIgd1: bool): seq<Tree> {
    if forceIgd1 then Igd1All(ts, o) else ts
  }

  function Printed(ts: seq<Tree>, o: Options, forceIgd1: bool): string {
    RenderAll(View(ts, o, forceIgd1), o)
  }

  function Max(a: nat, b: nat): nat {
    if a < b then b else a
  }

  /** Nesting depth of inner elements. */
  function Depth(t: Tree): nat {
    match t
    case Leaf(_, _) => 0
    case Node(_, children) => 1 + DepthAll(children)
  }

  function DepthAll(ts: seq<Tree>): nat {
    if ts == [] then 0 else Max(Depth(ts[0]), DepthAll(ts[1..]))
  }

  /** Number of visits a stack-based walk needs. */
  function Weight(t: Tree): nat {
    match t
    case Leaf(_, _) => 1
    case Node(_, children) => 2 + WeightAll(children)
  }

  function WeightAll(ts: seq<Tree>): nat {
    if ts == [] then 0 else Weight(ts[0]) + WeightAll(ts[1..])
  }

  lemma {:induction false} RenderAllConcat(a: seq<Tree>, b: seq<Tree>, o: Options)
    ensures RenderAll(a + b, o) == RenderAll(a, o) + RenderAll(b, o)
  {
    if a == [] {
      assert a + b == b;
    } else {
      RenderAllConcat(a[1..], b, o);
      assert (a + b)[0] == a[0] && (a + b)[1..] == a[1..] + b;
      Assoc(Render(a[0], o), RenderAll(a[1..], o), RenderAll(b, o));
    }
  }

  lemma RenderOne(t: Tree, o: Options)
    ensures RenderAll([t], o) == Render(t, o)
  {
    assert [t][0] == t && [t][1..] == [];
    assert RenderAll([t], o) == Render(t, o) + "";
  }

  lemma Igd1AllOne(t: Tree, o: Options)
    ensures Igd1All([t], o) == Igd1(t, o)
  {
    assert [t][0] == t && [t][1..] == [];
  }

  /** Printing is compositional in both modes. */
  lemma PrintedCons(t: Tree, ts: seq<Tree>, o: Options, forceIgd1: bool)
    ensures Printed([t] + ts, o, forceIgd1) == Printed([t], o, forceIgd1) + Printed(ts, o, forceIgd1)
  {
    if forceIgd1 {
      assert ([t] + ts)[0] == t && ([t] + ts)[1..] == ts;
      Igd1AllOne(t, o);
      RenderAllConcat(Igd1(t, o), Igd1All(ts, o), o);
    } else {
      RenderAllConcat([t], ts, o);
    }
  }

  lemma PrintedLeaf(name: string, text: string, o: Options, forceIgd1: bool)
    ensures Printed([Leaf(name, text)], o, forceIgd1)
         == Render(Leaf(name, if forceIgd1 then Igd1Text(text, o) else text), o)
  {
    Igd1AllOne(Leaf(name, text), o);
    RenderOne(Leaf(name, if forceIgd1 then Igd1Text(text, o) else text), o);
  }

  lemma PrintedNode(t: Tree, o: Options, forceIgd1: bool)
    requires t.Node?
    ensures Printed([t], o, forceIgd1) ==
      if forceIgd1 && IsHidden(t, o) then ""
      else StartTag(t.tag, o) + Printed(t.children, o, forceIgd1) + EndTag(TagName(t.tag))
  {
    Igd1AllOne(t, o);
    RenderOne(Node(t.tag, View(t.children, o, forceIgd1)), o);
  }
}

/** The element table and its stack-based traversal (genXML). */
module DescGen {
  import opened SeqTools
  import opened Wrappers
  import opened DescTree

  /** `Children(first, count)` stands for the integer that INITHELPER packs into the pointer. */
  datatype Data = Null | Text(text: string) | Children(first: nat, count: nat)

  datatype XMLElt = XMLElt(eltname: Option<string>, data: Data)

  const STACK_SIZE := 16

  predicate IsLeafName(name: string) {
    name != "" && name[0] == '/'
  }

  function DataText(d: Data): string {
    if d.Text? then d.text else ""
  }

  predicate IsLeafAt(p: seq<XMLElt>, i: nat) {
    i < |p| && p[i].eltname.Some? && IsLeafName(p[i].eltname.value)
  }

  /** What genXML expects of the entry at index i and of everything below it. */
  ghost predicate WellFormed(p: seq<XMLElt>, i: nat, forceIgd1: bool)
    decreases |p| - i
  {
    i < |p| && p[i].eltname.Some? &&
    if IsLeafName(p[i].eltname.value) then !p[i].data.Children?
    else
      p[i].data.Children? &&
      var first, count := p[i].data.first, p[i].data.count;
      && i < first && count > 0 && first + count <= |p|
      && (forall c :: first <= c < first + count ==> WellFormed(p, c, forceIgd1))
      // the IGD version 1 filter reads the text of a first child that is a leaf
      && (forceIgd1 && IsLeafAt(p, first) ==> p[first].data.Text?)
  }

  ghost predicate WellFormedRange(p: seq<XMLElt>, lo: nat, hi: nat, forceIgd1: bool) {
    forall c :: lo <= c < hi ==> WellFormed(p, c, forceIgd1)
  }

  /** The tree that a table encodes. */
  ghost function TreeAt(p: seq<XMLElt>, i: nat, f: bool): Tree
    requires WellFormed(p, i, f)
    decreases |p| - i, 0
  {
    var name := p[i].eltname.value;
    if IsLeafName(name) then Leaf(name[1..], DataText(p[i].data))
    else Node(name, TreesAt(p, p[i].data.first, p[i].data.first + p[i].data.count, f))
  }

  ghost function TreesAt(p: seq<XMLElt>, lo: nat, hi: nat, f: bool): seq<Tree>
    requires WellFormedRange(p, lo, hi, f)
    requires hi <= |p|
    decreases |p| - lo, 1
  {
    if hi <= lo then [] else [TreeAt(p, lo, f)] + TreesAt(p, lo + 1, hi, f)
  }

  /** The growing output string: `len` characters of `str` are in use. */
  class StringBuffer {
    var str: array<char>
    var len: nat
    ghost var lost: bool  // some reallocation failed

    ghost predicate Valid()
      reads this
    {
      len < str.Length
    }

    ghost function Contents(): string
      reads this, str
      requires Valid()
    {
      str[..len]
    }

    constructor (capacity: nat, initial: string)
      requires |initial| < capacity
      ensures Valid() && !lost && Contents() == initial && fresh(str)
    {
      var a := new char[capacity](_ => '\0');
      for k := 0 to |initial|
        invariant a[..k] == initial[..k]
      {
        a[k] := initial[k];
      }
      assert initial[..|initial|] == initial;
      str, len, lost := a, |initial|, false;
    }

    /** realloc: either nothing changes, or the contents move to a larger block. */
    method Realloc(newlen: nat) returns (ok: bool)
      requires Valid() && newlen > str.Length
      modifies this
      ensures Valid() && len == old(len) && Contents() == old(Contents())
      ensures ok ==> fresh(str) && str.Length == newlen && lost == old(lost)
      ensures !ok ==> str == old(str) && lost
    {
      ok := *;
      if !ok {
        lost := true;
        return;
      }
      var a := new char[newlen](_ => '\0');
      for k := 0 to len
        invariant len == old(len) && str == old(str) && lost == old(lost)
        invariant a[..k] == old(str[..len])[..k]
        invariant str[..len] == old(str[..len])
      {
        a[k] := str[k];
      }
      str := a;
    }

    method AppendChar(c: char)
      requires Valid()
      modifies this, str
      ensures Valid() && (str == old(str) || fresh(str))
      ensures !lost ==> Contents() == old(Contents()) + [c]
      ensures (old(lost) ==> lost) && old(len) <= len
    {
      if str.Length <= len + 1 {
        var ok := Realloc(str.Length + 256);
        if !ok {
          return;
        }
      }
      str[len] := c;
      len := len + 1;
    }

    method AppendStr(s: string)
      requires Valid()
      modifies this, str
      ensures Valid() && (str == old(str) || fresh(str))
      ensures !lost ==> Contents() == old(Contents()) + s
      ensures (old(lost) ==> lost) && old(len) <= len
    {
      if str.Length <= len + |s| {
        var newlen := if |s| < 256 then str.Length + 256 else str.Length + |s| + 1;
        var ok := Realloc(newlen);
        if !ok {
          return;
        }
      }
      forall k | 0 <= k < |s| {
        str[len + k] := s[k];
      }
      len := len + |s|;
    }

    method OverwriteLast(c: char)
      requires Valid() && len > 0
      modifies str
      ensures Valid() && |old(Contents())| > 0
      ensures Contents() == old(Contents())[..|old(Contents())| - 1] + [c]
    {
      str[len - 1] := c;
    }

    /** The closing tag is written character by character up to the end of the name. */
    method AppendEndTag(tag: string)
      requires Valid()
      modifies this, str
      ensures Valid() && (str == old(str) || fresh(str))
      ensures !lost ==> Contents() == old(Contents()) + EndTag(TagName(tag))
      ensures (old(lost) ==> lost) && old(len) <= len
    {
      hide *;
      AppendChar('<');
      AppendChar('/');
      ghost var start := old(Contents());
      ghost var before := start + "</";
      assert start + ['<'] + ['/'] == before;
      var k := 0;
      while k < |tag| && IsNameChar(tag[k])
        invariant k <= |tag| && forall j :: 0 <= j < k ==> IsNameChar(tag[j])
        invariant Valid() && (str == old(str) || fresh(str)) && (old(lost) ==> lost) && old(len) <= len
        invariant !lost ==> Contents() == before + tag[..k]
      {
        AppendChar(tag[k]);
        assert before + tag[..k + 1] == before + tag[..k] + [tag[k]];
        k := k + 1;
      }
      TagNameIsPrefix(tag, k);
      AppendChar('>');
      EndTagParts(start, tag[..k]);
    }
  }

  /** An entry of the traversal stack: children i..j-1 of the element `eltname`, child i being
      the current one. */
  datatype Frame = Frame(i: nat, j: nat, eltname: string)

  ghost predicate FrameOk(p: seq<XMLElt>, fr: Frame, depth: nat, f: bool) {
    && fr.i < fr.j <= |p|
    && WellFormedRange(p, fr.i, fr.j, f)
    && DepthAll(TreesAt(p, fr.i, fr.j, f)) + depth <= STACK_SIZE
  }

  ghost predicate StackOk(p: seq<XMLElt>, st: seq<Frame>, f: bool) {
    forall k :: 0 <= k < |st| ==> FrameOk(p, st[k], k + 1, f)
  }

  /** What remains to be printed once the current child of every frame is done. */
  ghost function Rest(p: seq<XMLElt>, st: seq<Frame>, o: Options, f: bool): string
    requires StackOk(p, st, f)
  {
    if st == [] then ""
    else
      var fr := st[|st| - 1];
      Printed(TreesAt(p, fr.i + 1, fr.j, f), o, f) + EndTag(TagName(fr.eltname)) + Rest(p, st[..|st| - 1], o, f)
  }

  ghost function Work(p: seq<XMLElt>, st: seq<Frame>, f: bool): nat
    requires StackOk(p, st, f)
  {
    if st == [] then 0
    else
      var fr := st[|st| - 1];
      WeightAll(TreesAt(p, fr.i + 1, fr.j, f)) + 1 + Work(p, st[..|st| - 1], f)
  }

  /** Cons and snoc equations for the functions above. */
  lemma TreesAtCons(p: seq<XMLElt>, lo: nat, hi: nat, o: Options, f: bool)
    requires lo < hi <= |p| && WellFormedRange(p, lo, hi, f)
    ensures WellFormedRange(p, lo + 1, hi, f)
    ensures var t, ts := TreeAt(p, lo, f), TreesAt(p, lo + 1, hi, f);
            && TreesAt(p, lo, hi, f) == [t] + ts
            && WeightAll(TreesAt(p, lo, hi, f)) == Weight(t) + WeightAll(ts)
            && DepthAll(TreesAt(p, lo, hi, f)) == Max(Depth(t), DepthAll(ts))
            && Printed(TreesAt(p, lo, hi, f), o, f) == Printed([t], o, f) + Printed(ts, o, f)
  {
    var t, ts := TreeAt(p, lo, f), TreesAt(p, lo + 1, hi, f);
    assert ([t] + ts)[0] == t && ([t] + ts)[1..] == ts;
    PrintedCons(t, ts, o, f);
  }

  lemma StackSnoc(p: seq<XMLElt>, st: seq<Frame>, fr: Frame, o: Options, f: bool)
    requires StackOk(p, st, f) && FrameOk(p, fr, |st| + 1, f)
    ensures StackOk(p, st + [fr], f)
    ensures Work(p, st + [fr], f) == WeightAll(TreesAt(p, fr.i + 1, fr.j, f)) + 1 + Work(p, st, f)
    ensures Rest(p, st + [fr], o, f)
         == Printed(TreesAt(p, fr.i + 1, fr.j, f), o, f) + EndTag(TagName(fr.eltname)) + Rest(p, st, o, f)
  {
    assert (st + [fr])[..|st|] == st;
  }

  /** The children of a node make a frame that fits the remaining depth. */
  lemma ChildrenFrame(p: seq<XMLElt>, i: nat, above: nat, f: bool)
    requires WellFormed(p, i, f) && TreeAt(p, i, f).Node? && Depth(TreeAt(p, i, f)) + above <= STACK_SIZE
    ensures var (name, first, last) := (p[i].eltname.value, p[i].data.first, p[i].data.first + p[i].data.count);
            && FrameOk(p, Frame(first, last, name), above + 1, f)
            && first < last <= |p|
            && WellFormed(p, first, f) && WellFormedRange(p, first, last, f)
            && TreeAt(p, i, f) == Node(name, TreesAt(p, first, last, f))
            && Weight(TreeAt(p, i, f)) == 2 + WeightAll(TreesAt(p, first, last, f))
            && Depth(TreeAt(p, first, f)) + above + 1 <= STACK_SIZE
  {
    var first := p[i].data.first;
    assert TreeAt(p, i, f).children[0] == TreeAt(p, first, f);
  }

  /** Pushing a frame for the children of a node, then printing the first child. */
  lemma PushFrame(p: seq<XMLElt>, i: nat, st: seq<Frame>, fr: Frame, o: Options, f: bool)
    requires WellFormed(p, i, f) && TreeAt(p, i, f).Node? && StackOk(p, st, f)
    requires Depth(TreeAt(p, i, f)) + |st| <= STACK_SIZE
    requires fr == Frame(p[i].data.first, p[i].data.first + p[i].data.count, p[i].eltname.value)
    requires !(f && IsHidden(TreeAt(p, i, f), o))
    ensures StackOk(p, st + [fr], f)
    ensures WellFormed(p, fr.i, f) && Depth(TreeAt(p, fr.i, f)) + |st| + 1 <= STACK_SIZE
    ensures Weight(TreeAt(p, fr.i, f)) + Work(p, st + [fr], f) < Weight(TreeAt(p, i, f)) + Work(p, st, f)
    ensures Printed([TreeAt(p, i, f)], o, f) + Rest(p, st, o, f)
         == StartTag(fr.eltname, o) + (Printed([TreeAt(p, fr.i, f)], o, f) + Rest(p, st + [fr], o, f))
  {
    hide *;
    var t := TreeAt(p, i, f);
    ChildrenFrame(p, i, |st|, f);
    TreesAtCons(p, fr.i, fr.j, o, f);
    StackSnoc(p, st, fr, o, f);
    PrintedNode(t, o, f);
    PushEquation(Printed([t], o, f), StartTag(t.tag, o), Printed(TreesAt(p, fr.i, fr.j, f), o, f),
                 Printed([TreeAt(p, fr.i, f)], o, f), Printed(TreesAt(p, fr.i + 1, fr.j, f), o, f),
                 EndTag(TagName(t.tag)), Rest(p, st, o, f), Rest(p, st + [fr], o, f));
  }

  lemma PushEquation(node: string, start: string, children: string, head: string, tail: string, end: string,
                     rest: string, rest': string)
    requires node == start + children + end && children == head + tail && rest' == tail + end + rest
    ensures node + rest == start + (head + rest')
  {
  }

  lemma NextEquation(children: string, head: string, tail: string, end: string, rest: string, now: string, next: string)
    requires children == head + tail && now == children + end + rest && next == tail + end + rest
    ensures now == head + next
  {
  }

  lemma NextFrameOk(p: seq<XMLElt>, fr: Frame, depth: nat, f: bool)
    requires FrameOk(p, fr, depth, f) && fr.i + 1 < fr.j
    ensures FrameOk(p, fr.(i := fr.i + 1), depth, f)
    ensures WellFormed(p, fr.i + 1, f) && Depth(TreeAt(p, fr.i + 1, f)) + depth <= STACK_SIZE
  {
    var t, ts := TreeAt(p, fr.i, f), TreesAt(p, fr.i + 1, fr.j, f);
    assert ([t] + ts)[1..] == ts && ts[0] == TreeAt(p, fr.i + 1, f);
  }

  /** Moving to the next child of the top frame. */
  lemma NextChild(p: seq<XMLElt>, st: seq<Frame>, fr: Frame, o: Options, f: bool)
    requires StackOk(p, st, f) && FrameOk(p, fr, |st| + 1, f) && fr.i + 1 < fr.j
    ensures var fr' := fr.(i := fr.i + 1);
            && StackOk(p, st + [fr], f) && StackOk(p, st + [fr'], f)
            && WellFormed(p, fr.i + 1, f)
            && Depth(TreeAt(p, fr.i + 1, f)) + |st| + 1 <= STACK_SIZE
            && Weight(TreeAt(p, fr.i + 1, f)) + Work(p, st + [fr'], f) == Work(p, st + [fr], f)
            && Rest(p, st + [fr], o, f) == Printed([TreeAt(p, fr.i + 1, f)], o, f) + Rest(p, st + [fr'], o, f)
  {
    var fr' := fr.(i := fr.i + 1);
    NextFrameOk(p, fr, |st| + 1, f);
    hide *;
    TreesAtCons(p, fr.i + 1, fr.j, o, f);
    StackSnoc(p, st, fr, o, f);
    StackSnoc(p, st, fr', o, f);
    NextEquation(Printed(TreesAt(p, fr.i + 1, fr.j, f), o, f), Printed([TreeAt(p, fr.i + 1, f)], o, f),
                 Printed(TreesAt(p, fr.i + 2, fr.j, f), o, f), EndTag(TagName(fr.eltname)), Rest(p, st, o, f),
                 Rest(p, st + [fr], o, f), Rest(p, st + [fr'], o, f));
  }

  /** Closing the top frame after its last child. */
  lemma PopFrame(p: seq<XMLElt>, st: seq<Frame>, fr: Frame, o: Options, f: bool)
    requires StackOk(p, st, f) && FrameOk(p, fr, |st| + 1, f) && fr.i + 1 == fr.j
    ensures StackOk(p, st + [fr], f) && Work(p, st, f) < Work(p, st + [fr], f)
    ensures Rest(p, st + [fr], o, f) == EndTag(TagName(fr.eltname)) + Rest(p, st, o, f)
  {
    StackSnoc(p, st, fr, o, f);
    assert Printed(TreesAt(p, fr.i + 1, fr.j, f), o, f) == "";
    hide *;
    assert "" + EndTag(TagName(fr.eltname)) == EndTag(TagName(fr.eltname));
  }

  lemma SplitsWhole(a: string, b: string, total: string)
    ensures total == a + b ==> Splits(total, a, b + "")
    ensures Splits(total, a, "") ==> total == a
  {
  }

  lemma EmptyStack(p: seq<XMLElt>, o: Options, f: bool)
    ensures StackOk(p, [], f) && Rest(p, [], o, f) == "" && Work(p, [], f) == 0
  {
  }

  lemma SplitStack(p: seq<XMLElt>, st: seq<Frame>, fr: Frame, f: bool)
    requires StackOk(p, st + [fr], f)
    ensures StackOk(p, st, f) && FrameOk(p, fr, |st| + 1, f) && fr.i < fr.j
  {
    assert forall k :: 0 <= k < |st| ==> st[k] == (st + [fr])[k];
    assert (st + [fr])[|st|] == fr;
  }

  method AppendTag(out: StringBuffer, inside: string)
    requires out.Valid()
    modifies out, out.str
    ensures out.Valid() && (out.str == old(out.str) || fresh(out.str)) && (old(out.lost) ==> out.lost)
    ensures old(out.len) <= out.len
    ensures !out.lost ==> out.Contents() == old(out.Contents()) + ("<" + inside + ">")
  {
    hide *;
    ghost var before := old(out.Contents());
    out.AppendChar('<');
    out.AppendStr(inside);
    out.AppendChar('>');
    assert before + ['<'] + inside + ['>'] == before + ("<" + inside + ">");
  }

  /** A leaf; in the IGD version 1 view the last character of a versioned URN is overwritten. */
  method AppendLeaf(out: StringBuffer, eltname: string, text: string, o: Options, forceIgd1: bool)
    requires out.Valid() && o.Valid() && IsLeafName(eltname) && out.len > 0
    modifies out, out.str
    ensures out.Valid() && (out.str == old(out.str) || fresh(out.str)) && (old(out.lost) ==> out.lost)
    ensures old(out.len) <= out.len
    ensures !out.lost ==>
      out.Contents() == old(out.Contents()) + Printed([Leaf(eltname[1..], text)], o, forceIgd1)
  {
    hide *;
    ghost var shown := if forceIgd1 then Igd1Text(text, o) else text;
    LeafParts(eltname, text, shown, o, forceIgd1);
    ghost var before, tag, url := old(out.Contents()), "<" + eltname[1..] + ">", UrlPrefix(text, o);
    if text == "" {
      assert before + "" == before;
    } else {
      AppendTag(out, eltname[1..]);
      if text[0] == '/' {
        out.AppendStr(o.urlPrefix);
      } else {
        assert before + tag + "" == before + tag;
      }
      ghost var start := before + tag + url;
      assert !out.lost ==> out.Contents() == start;
      out.AppendStr(text);
      if forceIgd1 && text[0] == 'u' && text in o.versioned {
        out.OverwriteLast('1');
        assert !out.lost ==> out.Contents() == start + shown by {
          assert (start + text)[..|start + text| - 1] + ['1'] == start + shown;
        }
      }
      assert !out.lost ==> out.Contents() == start + shown;
      AppendTag(out, eltname);
      Glue(before, tag, url, shown, "<" + eltname + ">");
    }
  }

  lemma Glue(a: string, b: string, c: string, d: string, e: string)
    ensures a + b + c + d + e == a + (b + c + d + e)
  {
  }

  lemma LeafParts(eltname: string, text: string, shown: string, o: Options, forceIgd1: bool)
    requires o.Valid() && IsLeafName(eltname)
    requires shown == if forceIgd1 then Igd1Text(text, o) else text
    ensures eltname != ""
    ensures if forceIgd1 && text in o.versioned then text != "" && text[0] == 'u' && shown == text[..|text| - 1] + ['1']
            else shown == text
    ensures UrlPrefix(text, o) == if text != "" && text[0] == '/' then o.urlPrefix else ""
    ensures Printed([Leaf(eltname[1..], text)], o, forceIgd1) ==
      if text == "" then "" else "<" + eltname[1..] + ">" + UrlPrefix(text, o) + shown + ("<" + eltname + ">")
  {
    PrintedLeaf(eltname[1..], text, o, forceIgd1);
    assert "<" + eltname + ">" == EndTag(eltname[1..]);
  }

  method AppendStartTag(out: StringBuffer, tag: string, o: Options)
    requires out.Valid()
    modifies out, out.str
    ensures out.Valid() && (out.str == old(out.str) || fresh(out.str)) && (old(out.lost) ==> out.lost)
    ensures old(out.len) <= out.len
    ensures !out.lost ==> out.Contents() == old(out.Contents()) + StartTag(tag, o)
  {
    hide *;
    out.AppendChar('<');
    out.AppendStr(tag);
    if "root " <= tag {
      out.AppendStr(" configId=");
      out.AppendStr("\"" + o.configId + "\"");
    }
    out.AppendChar('>');
    StartTagParts(old(out.Contents()), tag, o);
  }

  lemma StartTagParts(before: string, tag: string, o: Options)
    ensures "root " <= tag ==>
      before + ['<'] + tag + " configId=" + ("\"" + o.configId + "\"") + ['>'] == before + StartTag(tag, o)
    ensures !("root " <= tag) ==> before + ['<'] + tag + ['>'] == before + StartTag(tag, o)
  {
    var config := "\"" + o.configId + "\"";
    if "root " <= tag {
      assert StartTag(tag, o) == ['<'] + tag + " configId=" + config + ['>'];
      Glue(before, ['<'], tag, " configId=", config);
      Assoc(before, ['<'] + tag + " configId=" + config, ['>']);
    } else {
      assert StartTag(tag, o) == ['<'] + tag + ['>'];
    }
  }

  /** The unstack loop: closes finished elements and moves to the next child, if any. */
  method Unstack(out: StringBuffer, pile: array<Frame>, top0: int,
                 ghost p: seq<XMLElt>, ghost o: Options, ghost f: bool, ghost total: string)
    returns (top: int, i: nat)
    requires out.Valid() && pile.Length == STACK_SIZE && -1 <= top0 < STACK_SIZE
    requires StackOk(p, pile[..top0 + 1], f)
    requires !out.lost ==> Splits(total, out.Contents(), Rest(p, pile[..top0 + 1], o, f))
    requires pile as object != out.str
    modifies out, out.str, pile
    ensures out.Valid() && (out.str == old(out.str) || fresh(out.str)) && (old(out.lost) ==> out.lost)
    ensures old(out.len) <= out.len
    ensures -1 <= top <= top0 && StackOk(p, pile[..top + 1], f)
    ensures top >= 0 ==> WellFormed(p, i, f) && pile[top].i == i && Depth(TreeAt(p, i, f)) + top + 1 <= STACK_SIZE
    ensures top >= 0 ==> Weight(TreeAt(p, i, f)) + Work(p, pile[..top + 1], f) <= old(Work(p, pile[..top0 + 1], f))
    ensures !out.lost ==>
      Splits(total, out.Contents(),
                if top < 0 then "" else Printed([TreeAt(p, i, f)], o, f) + Rest(p, pile[..top + 1], o, f))
  {
    hide *;
    top, i := top0, 0;
    while top >= 0
      invariant out.Valid() && (out.str == old(out.str) || fresh(out.str)) && (old(out.lost) ==> out.lost)
      invariant old(out.len) <= out.len
      invariant -1 <= top <= top0 && StackOk(p, pile[..top + 1], f)
      invariant Work(p, pile[..top + 1], f) <= old(Work(p, pile[..top0 + 1], f))
      invariant !out.lost ==> Splits(total, out.Contents(), Rest(p, pile[..top + 1], o, f))
      decreases top
    {
      ghost var st, fr := pile[..top], pile[top];
      assert pile[..top + 1] == st + [fr];
      SplitStack(p, st, fr, f);
      ghost var written := out.Contents();
      i := pile[top].i + 1;
      if i == pile[top].j {
        PopFrame(p, st, fr, o, f);
        out.AppendEndTag(pile[top].eltname);
        top := top - 1;
        assert pile[..top + 1] == st;
        if !out.lost {
          SplitsMove(total, written, EndTag(TagName(fr.eltname)), Rest(p, st, o, f));
        }
      } else {
        NextChild(p, st, fr, o, f);
        pile[top] := pile[top].(i := i);
        assert pile[..top + 1] == st + [fr.(i := i)];
        return;
      }
    }
    assert pile[..top + 1] == [];
    EmptyStack(p, o, f);
  }

  /** genXML: unless a reallocation fails, exactly the rendering of the table's tree is appended,
      or of its IGD version 1 view. */
  /** The start tag of a node with children, which goes on the stack. */
  method Enter(out: StringBuffer, pile: array<Frame>, top: int, fr: Frame,
               ghost p: seq<XMLElt>, ghost i: nat, o: Options, ghost f: bool, ghost total: string)
    requires out.Valid() && pile.Length == STACK_SIZE && -1 <= top < STACK_SIZE && pile as object != out.str
    requires StackOk(p, pile[..top + 1], f) && WellFormed(p, i, f) && TreeAt(p, i, f).Node?
    requires Depth(TreeAt(p, i, f)) + top + 1 <= STACK_SIZE && Depth(TreeAt(p, i, f)) > 0
    requires i < |p| && p[i].eltname.Some? && p[i].data.Children?
    requires fr == Frame(p[i].data.first, p[i].data.first + p[i].data.count, p[i].eltname.value)
    requires !(f && IsHidden(TreeAt(p, i, f), o))
    requires !out.lost ==>
      Splits(total, out.Contents(), Printed([TreeAt(p, i, f)], o, f) + Rest(p, pile[..top + 1], o, f))
    modifies out, out.str, pile
    ensures out.Valid() && (out.str == old(out.str) || fresh(out.str)) && (old(out.lost) ==> out.lost)
    ensures old(out.len) <= out.len && top + 1 < STACK_SIZE && StackOk(p, pile[..top + 2], f)
    ensures WellFormed(p, fr.i, f) && Depth(TreeAt(p, fr.i, f)) + top + 2 <= STACK_SIZE
    ensures Weight(TreeAt(p, fr.i, f)) + Work(p, pile[..top + 2], f)
          < Weight(TreeAt(p, i, f)) + old(Work(p, pile[..top + 1], f))
    ensures !out.lost ==>
      Splits(total, out.Contents(), Printed([TreeAt(p, fr.i, f)], o, f) + Rest(p, pile[..top + 2], o, f))
  {
    hide *;
    ghost var st, written := pile[..top + 1], out.Contents();
    PushFrame(p, i, st, fr, o, f);
    AppendStartTag(out, fr.eltname, o);
    assert pile[..top + 1] == st;
    pile[top + 1] := fr;
    assert pile[..top + 2] == st + [fr];
    if !out.lost {
      SplitsMove(total, written, StartTag(fr.eltname, o), Printed([TreeAt(p, fr.i, f)], o, f) + Rest(p, st +
          [fr], o, f));
    }
  }

  method GenXml(out: StringBuffer, p: seq<XMLElt>, o: Options, forceIgd1: bool)
    requires out.Valid() && o.Valid() && out.len > 0
    requires |p| <= 0xffff && WellFormed(p, 0, forceIgd1)
    requires Depth(TreeAt(p, 0, forceIgd1)) <= STACK_SIZE
    modifies out, out.str
    ensures out.Valid() && (old(out.lost) ==> out.lost)
    ensures !out.lost ==>
      out.Contents() == old(out.Contents()) + Printed([TreeAt(p, 0, forceIgd1)], o, forceIgd1)
  {
    hide *;
    var pile := new Frame[STACK_SIZE](_ => Frame(0, 0, ""));
    var top: int := -1;
    var i: nat := 0;
    ghost var f := forceIgd1;
    ghost var total := old(out.Contents()) + Printed([TreeAt(p, 0, f)], o, f);
    assert pile[..top + 1] == [];
    EmptyStack(p, o, f);
    SplitsWhole(old(out.Contents()), Printed([TreeAt(p, 0, f)], o, f), total);
    while true
      invariant out.Valid() && (out.str == old(out.str) || fresh(out.str)) && (old(out.lost) ==> out.lost)
      invariant fresh(pile) && out.len > 0
      invariant -1 <= top < STACK_SIZE && StackOk(p, pile[..top + 1], f)
      invariant WellFormed(p, i, f) && Depth(TreeAt(p, i, f)) + top + 1 <= STACK_SIZE
      invariant !out.lost ==>
        Splits(total, out.Contents(), Printed([TreeAt(p, i, f)], o, f) + Rest(p, pile[..top + 1], o, f))
      decreases Weight(TreeAt(p, i, f)) + Work(p, pile[..top + 1], f)
    {
      ghost var st, written := pile[..top + 1], out.Contents();
      ReadEntry(p, i, o, f);
      var eltname := p[i].eltname.value;
      if IsLeafName(eltname) {
        AppendLeaf(out, eltname, DataText(p[i].data), o, forceIgd1);
        assert pile[..top + 1] == st;
        if !out.lost {
          SplitsMove(total, written, Printed([TreeAt(p, i, f)], o, f), Rest(p, st, o, f));
        }
        top, i := Unstack(out, pile, top, p, o, f, total);
        if top < 0 {
          SplitsWhole(out.Contents(), "", total);
          return;
        }
      } else {
        var first, last := p[i].data.first, p[i].data.first + p[i].data.count;
        if forceIgd1 && IsLeafAt(p, first) && DataText(p[first].data) in o.hidden {
          PrintedNode(TreeAt(p, i, f), o, f);
          assert "" + Rest(p, st, o, f) == Rest(p, st, o, f);
          top, i := Unstack(out, pile, top, p, o, f, total);
          if top < 0 {
            SplitsWhole(out.Contents(), "", total);
            return;
          }
        } else {
          Enter(out, pile, top, Frame(first, last, eltname), p, i, o, f, total);
          top, i := top + 1, first;
        }
      }
    }
  }

  /** What one table entry tells the traversal. */
  lemma ReadEntry(p: seq<XMLElt>, i: nat, o: Options, f: bool)
    requires WellFormed(p, i, f)
    ensures i < |p| && p[i].eltname.Some? && Weight(TreeAt(p, i, f)) > 0
    ensures IsLeafName(p[i].eltname.value) ==>
      TreeAt(p, i, f) == Leaf(p[i].eltname.value[1..], DataText(p[i].data)) && p[i].eltname.value != ""
    ensures !IsLeafName(p[i].eltname.value) ==>
      && TreeAt(p, i, f).Node?
      && TreeAt(p, i, f).tag == p[i].eltname.value
      && p[i].data.Children?
      && p[i].data.first < |p|
      && Depth(TreeAt(p, i, f)) > 0
      && (f ==> (IsHidden(TreeAt(p, i, f), o) <==>
                 IsLeafAt(p, p[i].data.first) && DataText(p[p[i].data.first].data) in o.hidden))
  {
    if !IsLeafName(p[i].eltname.value) {
      var first, last := p[i].data.first, p[i].data.first + p[i].data.count;
      assert WellFormed(p, first, f);
      assert TreesAt(p, first, last, f) == [TreeAt(p, first, f)] + TreesAt(p, first + 1, last, f);
    }
  }
}
