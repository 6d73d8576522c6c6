/** Requests on the minissdpd socket: parsing, processing, and pipelining several in one read. */
module SsdpRequest {
  import opened Wrappers
  import opened CodeLength
  import opened SeqTools
  import opened SsdpDatabase
  import opened SsdpOutput
  import opened SsdpResponse

  const GET_VERSION: Byte := 0
  const SEARCH_TYPE: Byte := 1
  const SEARCH_USN: Byte := 2
  const SEARCH_ALL: Byte := 3
  const SUBMIT: Byte := 4
  const NOTIF: Byte := 5

  datatype Request =
    | GetVersion
    | Search(query: Query)
    | SubmitRequest(service: Service)
    | SwitchToNotify
    | Unknown

  /** A request and the number of bytes it takes, or a reason to close the connection. */
  datatype Parsed = Bad | Good(request: Request, consumed: nat)

  predicate Printable(s: Text) {
    forall k :: 0 <= k < |s| ==> 0x20 <= s[k] < 0x7f
  }

  /** DECODELENGTH_CHECKLIMIT, then the check that the announced string is there. */
  function ReadField(b: seq<Byte>, p: nat): (r: Option<(Text, nat)>)
    requires p <= |b|
    ensures r.Some? ==> p <= r.value.1 <= |b|
    ensures r.Some? && p < |b| ==> p < r.value.1
    ensures r.Some? ==> p + |r.value.0| <= r.value.1
  {
    var (l, q) := DecodeFrom(b, p, 0);
    if l > |b| - q then None else Some((b[q..q + l], q + l))
  }

  function ReadPrintable(b: seq<Byte>, p: nat): (r: Option<(Text, nat)>)
    requires p <= |b|
    ensures r.Some? ==> p + |r.value.0| <= r.value.1 <= |b|
  {
    match ReadField(b, p)
    case None => None
    case Some((s, q)) => if Printable(s) then Some((s, q)) else None
  }

  /** The fields of a SUBMIT request behind its service type. */
  function ParseSubmit(b: seq<Byte>, st: Text, p: nat): (r: Parsed)
    requires p <= |b|
    ensures r.Good? ==> p <= r.consumed <= |b|
    ensures r.Good? ==> r.request.SubmitRequest? && r.request.service.st == st
    ensures r.Good? ==> p + |r.request.service.usn| + |r.request.service.location| <= r.consumed
  {
    if !Printable(st) || p == |b| then Bad
    else match ReadPrintable(b, p)
      case None => Bad
      case Some((usn, p1)) =>
        match ReadPrintable(b, p1)
        case None => Bad
        case Some((server, p2)) =>
          match ReadPrintable(b, p2)
          case None => Bad
          case Some((location, p3)) => Good(SubmitRequest(Service(st, usn, server, location)), p3)
  }

  function Parse(b: seq<Byte>): (r: Parsed)
    requires |b| > 0
    ensures r.Good? ==> 1 <= r.consumed <= |b|
  {
    var kind := b[0];
    match ReadField(b, 1)
    case None => Bad
    case Some((s, p)) =>
      if s == [] && kind != SEARCH_ALL && kind != GET_VERSION && kind != NOTIF then Bad
      else if kind == GET_VERSION then Good(GetVersion, p)
      else if kind == SEARCH_TYPE then Good(Search(ByType(s)), p)
      else if kind == SEARCH_USN then Good(Search(ByUsn(s)), p)
      else if kind == SEARCH_ALL then Good(Search(Everything), p)
      else if kind == SUBMIT then ParseSubmit(b, s, p)
      else if kind == NOTIF then Good(SwitchToNotify, p)
      else Good(Unknown, p - |s|)   // the string is not skipped
  }

  const VERSION: Text := [0x31, 0x2e, 0x36, 0x2e, 0x30]   // "1.6.0"

  /** What a request changes in the lists, and what is sent back. */
  function EffectOf(db: Db, r: Request): Db {
    if r.SubmitRequest? then Step(db, Submit(r.service)) else db
  }

  const NOTIF_NEW: Byte := 1
  const NOTIF_REMOVE: Byte := 3

  /** What there is to tell about an event. */
  datatype News = News(kind: Byte, key: Key, entry: Entry)

  function NewsOf(db: Db, op: Op): Option<News> {
    match op
    case Update(h, mem) =>
      if Lookup(db.devices, h.Key()).None? && mem then Some(News(NOTIF_NEW, h.Key(), OfDevice(h))) else None
    case Remove(nt, usn) =>
      var key := DeviceKey(nt, usn);
      if Lookup(db.devices, key).Some? then
        Some(News(NOTIF_REMOVE, key, OfDevice(Lookup(db.devices, key).value)))
      else None
    case Submit(s) => if IsNew(db, s) then Some(News(NOTIF_NEW, s.Key(), OfService(s))) else None
  }

  /** A notification on the wire. */
  function NoteBytes(n: News): seq<Byte> {
    [255, n.kind, 1] + (Coded(n.entry.location) + Coded(n.entry.nt) + Coded(n.entry.usn))
  }

  /** What every client that asked for notifications is told about an event. */
  function Telling(db: Db, op: Op): seq<Byte> {
    match NewsOf(db, op)
    case None => []
    case Some(n) => NoteBytes(n)
  }

  /** What a client hears of a request because it asked for notifications. */
  function Echo(db: Db, r: Request, notify: bool): seq<Byte> {
    if notify && r.SubmitRequest? then Telling(db, Submit(r.service)) else []
  }

  /** What the requester hears; its own submissions are no exception. */
  function AnswerTo(db: Db, r: Request, now: int, notify: bool): seq<Byte> {
    match r
    case GetVersion => Prefixed(VERSION)
    case Search(q) => SsdpResponse.Response(Chosen(db.devices, db.services, q, now))
    case SubmitRequest(_) => Echo(db, r, notify)
    case SwitchToNotify => [0]
    case Unknown => [0]
  }

  // ---------- the server ----------

  /** containsForbiddenChars */
  method ContainsForbiddenChars(s: Text) returns (r: bool)
    ensures r <==> !Printable(s)
    ensures r <==> exists k :: 0 <= k < |s| && (s[k] < 0x20 || s[k] > 0x7e)
  {
    var i := 0;
    while i < |s|
      invariant i <= |s| && forall k :: 0 <= k < i ==> 0x20 <= s[k] < 0x7f
    {
      if s[i] < 0x20 || s[i] >= 0x7f {
        return true;
      }
      i := i + 1;
    }
    return false;
  }

  method TakeField(b: seq<Byte>, start: nat) returns (ok: bool, s: Text, p: nat)
    requires start <= |b|
    ensures p <= |b| && (ok <==> ReadField(b, start).Some?)
    ensures ok ==> ReadField(b, start) == Some((s, p))
  {
    var l;
    l, p := DecodeLength(b, start);
    if l > |b| - p {
      return false, [], p;
    }
    return true, b[p..p + l], p + l;
  }

  method TakePrintable(b: seq<Byte>, start: nat) returns (ok: bool, s: Text, p: nat)
    requires start <= |b|
    ensures p <= |b| && (ok <==> ReadPrintable(b, start).Some?)
    ensures ok ==> ReadPrintable(b, start) == Some((s, p))
  {
    ok, s, p := TakeField(b, start);
    if ok {
      var bad := ContainsForbiddenChars(s);
      ok := !bad;
    }
  }

  /** The MINISSDPD_SUBMIT branch up to the look-up; any allocation may fail. */
  method TakeSubmit(b: seq<Byte>, st: Text, start: nat) returns (ok: bool, newserv: Service, p: nat)
    requires start <= |b|
    ensures ok ==> ParseSubmit(b, st, start) == Good(SubmitRequest(newserv), p)
  {
    hide ReadPrintable, Printable;
    newserv, p := Service(st, [], [], []), start;
    var bad := ContainsForbiddenChars(st);
    if bad || p >= |b| {
      return false, newserv, p;
    }
    var usn, server, location;
    ok, usn, p := TakePrintable(b, p);
    if !ok {
      return;
    }
    ok, server, p := TakePrintable(b, p);
    if !ok {
      return;
    }
    ok, location, p := TakePrintable(b, p);
    if !ok {
      return;
    }
    var memory: bool := *;
    return memory, Service(st, usn, server, location), p;
  }

  const READ_SIZE: nat := 2048

  /** The notification is put together in a buffer that is large enough for all that one read or one
      packet can hold. */
  method BuildNote(n: News) returns (note: seq<Byte>)
    requires Size(n.entry) <= READ_SIZE
    ensures note == NoteBytes(n) && |note| <= BUFFER_SIZE
  {
    hide Prefixed, Coded;
    var rbuf := new Byte[BUFFER_SIZE](_ => 0);
    rbuf[0], rbuf[1], rbuf[2] := 255, n.kind, 0;
    var rp := PutEntry(rbuf, 3, n.entry);
    rbuf[2] := rbuf[2] + 1;
    note := rbuf[..rp];
    CodedIsPrefixed(n.entry.location);
    CodedIsPrefixed(n.entry.nt);
    CodedIsPrefixed(n.entry.usn);
    assert note == [255, n.kind, 1] + EncodeEntry(n.entry);
  }

  /** sendNotifications for one piece of news, or nothing at all. */
  method Tell(clients: seq<ReqElem>, news: Option<News>)
    requires Separate(clients) && (news.Some? ==> Size(news.value.entry) <= READ_SIZE)
    modifies clients, Buffers(clients)
    ensures Separate(clients)
    ensures forall c :: c in clients ==>
      && (c.outputBuffer == old(c.outputBuffer) || fresh(c.outputBuffer))
      && c.isNotify == old(c.isNotify)
      && Received(old(c.Stream()), c.Stream(), if c.isNotify && news.Some? then NoteBytes(news.value) else [],
                  old(c.cuts), c.cuts)
  {
    hide Separate, Partial, NoteBytes, ReqElem.Stream, ReqElem.Pending, ReqElem.Valid;
    AllDifferent(clients);
    if news.Some? {
      var note := BuildNote(news.value);
      SendNotifications(clients, note);
    } else {
      forall c | c in clients
        ensures Received(c.Stream(), c.Stream(), [], c.cuts, c.cuts)
      {
        NothingAdded(c.Stream(), [], c.cuts);
      }
    }
  }

  /** The end of a SUBMIT request: the service is stored, and a new one is announced to all. */
  method Submitted(clients: seq<ReqElem>, db: Database, s: Service)
    requires Separate(clients) && Size(OfService(s)) <= READ_SIZE
    modifies clients, Buffers(clients), db
    ensures Separate(clients) && db.View() == EffectOf(old(db.View()), SubmitRequest(s))
    ensures forall c :: c in clients ==>
      && (c.outputBuffer == old(c.outputBuffer) || fresh(c.outputBuffer))
      && c.isNotify == old(c.isNotify)
      && Received(old(c.Stream()), c.Stream(), Echo(old(db.View()), SubmitRequest(s), c.isNotify), old(c.cuts), c.cuts)
  {
    hide Separate, Received, NoteBytes, SsdpDatabase.Step, IsNew, ReqElem.Stream, ReqElem.Pending, ReqElem.Valid;
    AllDifferent(clients);
    var isNew := db.SubmitService(s);
    Tell(clients, if isNew then Some(News(NOTIF_NEW, s.Key(), OfService(s))) else None);
  }

  /** The MINISSDPD_SUBMIT branch of processRequestSub. */
  method ProcessSubmit(clients: seq<ReqElem>, db: Database, b: seq<Byte>, st: Text, start: nat) returns (r: int)
    requires Separate(clients) && |st| <= start <= |b| <= READ_SIZE
    modifies clients, Buffers(clients), db
    ensures Separate(clients)
    ensures forall c :: c in clients ==> c.outputBuffer == old(c.outputBuffer) || fresh(c.outputBuffer)
    ensures r < 0 ==> db.View() == old(db.View()) && forall c :: c in clients ==>
      unchanged(c) && c.Stream() == old(c.Stream())
    ensures r >= 0 ==>
      var parsed := ParseSubmit(b, st, start);
      && parsed.Good? && r == parsed.consumed && db.View() == EffectOf(old(db.View()), parsed.request)
      && forall c :: c in clients ==>
           && c.isNotify == old(c.isNotify)
           && Received(old(c.Stream()), c.Stream(), Echo(old(db.View()), parsed.request, c.isNotify), old(c.cuts),
               c.cuts)
  {
    hide ParseSubmit, Separate, Received, Echo, EffectOf, ReqElem.Stream, ReqElem.Pending, ReqElem.Valid;
    AllDifferent(clients);
    var ok, newserv, p := TakeSubmit(b, st, start);
    if !ok {
      return -1;
    }
    Submitted(clients, db, newserv);
    return p;
  }

  /** processRequestSub: -1, or the number of bytes that the request took.  The requester hears the
      answer, and every other client what it asked to hear. */
  method ProcessRequestSub(clients: seq<ReqElem>, req: ReqElem, db: Database, b: seq<Byte>, now: int) returns (r: int)
    requires Separate(clients) && req in clients && 0 < |b| <= READ_SIZE
    modifies clients, Buffers(clients), db
    ensures Separate(clients)
    ensures forall c :: c in clients ==> c.outputBuffer == old(c.outputBuffer) || fresh(c.outputBuffer)
    ensures r < 0 ==>
      && db.View() == old(db.View()) && req.isNotify == old(req.isNotify) && req.cuts == old(req.cuts)
      && (forall c :: c in clients && c != req ==> unchanged(c) && c.Stream() == old(c.Stream()))
      && Partial(old(req.Stream()), req.Stream(),
                 if Parse(b).Good? then AnswerTo(old(db.View()), Parse(b).request, now, old(req.isNotify)) else [])
    ensures r >= 0 ==>
      && Parse(b).Good? && 1 <= r <= |b| && r == Parse(b).consumed
      && db.View() == EffectOf(old(db.View()), Parse(b).request)
      && req.isNotify == (old(req.isNotify) || Parse(b).request == SwitchToNotify)
      && (!Parse(b).request.SubmitRequest? ==> req.cuts == old(req.cuts))
      && Received(old(req.Stream()), req.Stream(),
               AnswerTo(old(db.View()), Parse(b).request, now, old(req.isNotify)), old(req.cuts), req.cuts)
      && forall c :: c in clients && c != req ==>
           && c.isNotify == old(c.isNotify)
           && Received(old(c.Stream()), c.Stream(), Echo(old(db.View()), Parse(b).request, c.isNotify), old(c.cuts),
               c.cuts)
  {
    hide ReadField, Chosen, SsdpResponse.Response, Prefixed, SsdpDatabase.Step, ParseSubmit, Separate, Partial,
        Received;
    hide ReqElem.Stream, ReqElem.Pending, ReqElem.Valid, Telling;
    AllDifferent(clients);
    ghost var state, before := db.View(), req.Stream();
    var kind := b[0];
    var ok, s, p := TakeField(b, 1);
    if !ok || (s == [] && kind != SEARCH_ALL && kind != GET_VERSION && kind != NOTIF) {
      NothingAdded(before, [], 0);
      return -1;
    }
    var answer: seq<Byte>;
    if kind == GET_VERSION {
      answer := Prefixed(VERSION);
    } else if kind == SEARCH_TYPE || kind == SEARCH_USN || kind == SEARCH_ALL {
      var q := if kind == SEARCH_TYPE then ByType(s) else if kind == SEARCH_USN then ByUsn(s) else Everything;
      answer := BuildResponse(db.devices, db.services, q, now);
    } else if kind == SUBMIT {
      r := ProcessSubmit(clients, db, b, s, p);
      NothingAdded(before, if Parse(b).Good? then AnswerTo(state, Parse(b).request, now, old(req.isNotify)) else [], 0);
      return;
    } else {
      answer := [0];
    }
    var w := ReplyTo(clients, req, answer);
    if w < 0 {
      return -1;
    }
    if kind == NOTIF {
      MarkNotify(clients, req);
    } else if kind > NOTIF {
      p := p - |s|;
    }
    return p;
  }

  // ---------- pipelining ----------

  /** The requests that one read delivers, in order; None if a request is bad. */
  function Requests(b: seq<Byte>): Option<seq<Request>>
    decreases |b|
  {
    if b == [] then Some([])
    else match Parse(b)
      case Bad => None
      case Good(r, n) =>
        match Requests(b[n..])
        case None => None
        case Some(rs) => Some([r] + rs)
  }

  /** The requests up to the first bad one. */
  function Leading(b: seq<Byte>): seq<Request>
    decreases |b|
  {
    if b == [] || Parse(b).Bad? then [] else [Parse(b).request] + Leading(b[Parse(b).consumed..])
  }

  lemma {:induction false} AllLeading(b: seq<Byte>)
    requires Requests(b).Some?
    ensures Requests(b).value == Leading(b)
    decreases |b|
  {
    hide Parse;
    if b != [] {
      AllLeading(b[Parse(b).consumed..]);
    }
  }

  function Effects(db: Db, rs: seq<Request>): Db
    decreases |rs|
  {
    if rs == [] then db else Effects(EffectOf(db, rs[0]), rs[1..])
  }

  /** Whether the requester hears notifications after the requests. */
  predicate Listens(notify: bool, rs: seq<Request>) {
    notify || SwitchToNotify in rs
  }

  function Answers(db: Db, rs: seq<Request>, now: int, notify: bool): seq<Byte>
    decreases |rs|
  {
    if rs == [] then []
    else AnswerTo(db, rs[0], now, notify) + Answers(EffectOf(db, rs[0]), rs[1..], now, notify
        || rs[0] == SwitchToNotify)
  }

  /** What another client hears. */
  function Echoes(db: Db, rs: seq<Request>, notify: bool): seq<Byte>
    decreases |rs|
  {
    if rs == [] then [] else Echo(db, rs[0], notify) + Echoes(EffectOf(db, rs[0]), rs[1..], notify)
  }

  lemma {:induction false} EffectsSnoc(db: Db, rs: seq<Request>, r: Request)
    ensures Effects(db, rs + [r]) == EffectOf(Effects(db, rs), r)
    decreases |rs|
  {
    hide EffectOf;
    if rs == [] {
      assert ([] + [r])[1..] == [];
    } else {
      TailAppend(rs, [r]);
      EffectsSnoc(EffectOf(db, rs[0]), rs[1..], r);
    }
  }

  lemma {:induction false} AnswersSnoc(db: Db, rs: seq<Request>, r: Request, now: int, notify: bool)
    ensures Answers(db, rs + [r], now, notify) == Answers(db, rs, now, notify) +
      AnswerTo(Effects(db, rs), r, now, Listens(notify, rs))
    decreases |rs|
  {
    hide EffectOf, AnswerTo;
    if rs == [] {
      assert ([] + [r])[1..] == [];
      var a := AnswerTo(db, r, now, notify);
      assert a + [] == a && [] + a == a;
    } else {
      TailAppend(rs, [r]);
      var notify' := notify || rs[0] == SwitchToNotify;
      AnswersSnoc(EffectOf(db, rs[0]), rs[1..], r, now, notify');
      assert Listens(notify, rs) == Listens(notify', rs[1..]);
      Assoc(AnswerTo(db, rs[0], now, notify), Answers(EffectOf(db, rs[0]), rs[1..], now, notify'),
            AnswerTo(Effects(db, rs), r, now, Listens(notify, rs)));
    }
  }

  lemma {:induction false} EchoesSnoc(db: Db, rs: seq<Request>, r: Request, notify: bool)
    ensures Echoes(db, rs + [r], notify) == Echoes(db, rs, notify) + Echo(Effects(db, rs), r, notify)
    decreases |rs|
  {
    hide EffectOf, Echo;
    if rs == [] {
      assert ([] + [r])[1..] == [];
      var a := Echo(db, r, notify);
      assert a + [] == a && [] + a == a;
    } else {
      TailAppend(rs, [r]);
      EchoesSnoc(EffectOf(db, rs[0]), rs[1..], r, notify);
      Assoc(Echo(db, rs[0], notify), Echoes(EffectOf(db, rs[0]), rs[1..], notify), Echo(Effects(db, rs), r, notify));
    }
  }

  /** out is the answers to the requests in order, of which notifications may have been cut short. */
  ghost predicate Written(db: Db, rs: seq<Request>, now: int, notify: bool, out: seq<Byte>)
    decreases |rs|
  {
    if rs == [] then out == []
    else
      var done, last := rs[..|rs| - 1], rs[|rs| - 1];
      exists k :: 0 <= k <= |out| && Written(db, done, now, notify, out[..k]) &&
                  Piece(AnswerTo(Effects(db, done), last, now, Listens(notify, done)), out[k..], last.SubmitRequest?)
  }

  ghost predicate Piece(answer: seq<Byte>, out: seq<Byte>, mayBeCut: bool) {
    out == answer || (mayBeCut && out <= answer)
  }

  /** How the output grows with one more request. */
  lemma WrittenSnoc(db: Db, rs: seq<Request>, r: Request, now: int, notify: bool, out: seq<Byte>, piece: seq<Byte>)
    requires Written(db, rs, now, notify, out)
    requires Piece(AnswerTo(Effects(db, rs), r, now, Listens(notify, rs)), piece, r.SubmitRequest?)
    ensures Written(db, rs + [r], now, notify, out + piece)
  {
    hide AnswerTo, Effects, Piece;
    var all, rs' := out + piece, rs + [r];
    assert rs'[..|rs'| - 1] == rs && all[..|out|] == out && all[|out|..] == piece;
  }

  lemma ReceivedPiece(before: seq<Byte>, after: seq<Byte>, answer: seq<Byte>, cuts: nat, cuts': nat)
    returns (piece: seq<Byte>)
    requires Received(before, after, answer, cuts, cuts')
    ensures cuts <= cuts' && after == before + piece && Piece(answer, piece, cuts' != cuts) && (cuts' == cuts ==>
      piece == answer)
  {
    if cuts' == cuts {
      piece := answer;
    } else {
      var k :| 0 <= k <= |answer| && after == before + answer[..k];
      piece := answer[..k];
    }
  }

  /** What another client's stream is after the requests, if none of its writes failed. */
  ghost predicate Echoed(before: seq<Byte>, after: seq<Byte>, db: Db, rs: seq<Request>, notify: bool, cuts: nat,
    cuts': nat) {
    cuts <= cuts' && (cuts' == cuts ==> after == before + Echoes(db, rs, notify))
  }

  lemma EchoedSnoc(before: seq<Byte>, middle: seq<Byte>, after: seq<Byte>, db: Db, rs: seq<Request>, r: Request,
                   notify: bool, cuts: nat, cuts': nat, cuts'': nat)
    requires Echoed(before, middle, db, rs, notify, cuts, cuts')
    requires Received(middle, after, Echo(Effects(db, rs), r, notify), cuts', cuts'')
    ensures Echoed(before, after, db, rs + [r], notify, cuts, cuts'')
  {
    hide Echoes, Echo, Effects, Partial;
    EchoesSnoc(db, rs, r, notify);
    if cuts'' == cuts {
      Assoc(before, Echoes(db, rs, notify), Echo(Effects(db, rs), r, notify));
    }
  }

  /** The first requests of a read have been processed: what that means for the requester. */
  ghost predicate Progress(db: Db, notify: bool, rs: seq<Request>, now: int, db': Db, notify': bool, out: seq<Byte>,
                           cuts: nat, cuts': nat) {
    && db' == Effects(db, rs) && notify' == Listens(notify, rs)
    && Written(db, rs, now, notify, out)
    && cuts <= cuts' && (cuts' == cuts ==> out == Answers(db, rs, now, notify))
  }

  lemma ProgressStep(db: Db, notify: bool, rs: seq<Request>, now: int, db': Db, notify': bool, out: seq<Byte>,
                     cuts: nat, cuts': nat, r: Request, piece: seq<Byte>, cuts'': nat)
    requires Progress(db, notify, rs, now, db', notify', out, cuts, cuts')
    requires Piece(AnswerTo(db', r, now, notify'), piece, cuts'' != cuts') && cuts' <= cuts''
    requires cuts'' != cuts' ==> r.SubmitRequest?
    ensures Progress(db, notify, rs + [r], now, EffectOf(db', r), notify'
      || r == SwitchToNotify, out + piece, cuts, cuts'')
  {
    hide Effects, AnswerTo, EffectOf, Written, Answers;
    EffectsSnoc(db, rs, r);
    AnswersSnoc(db, rs, r, now, notify);
    WrittenSnoc(db, rs, r, now, notify, out, piece);
  }

  /** The loop of processRequest on what one read delivers.  It ends because every request takes at
      least one byte.  The first n requests have been applied, in order, and answered; when the
      connection stays open these are all, and otherwise the next one, if it could be read, has been
      answered at most in part. */
  method ProcessRequest(clients: seq<ReqElem>, req: ReqElem, db: Database, b: seq<Byte>, now: int)
    returns (open: bool, ghost n: nat, ghost out: seq<Byte>)
    requires Separate(clients) && req in clients && |b| <= READ_SIZE
    modifies clients, Buffers(clients), db
    ensures Separate(clients) && n <= |Leading(b)|
    ensures Progress(old(db.View()), old(req.isNotify), Leading(b)[..n], now, db.View(), req.isNotify, out,
      old(req.cuts), req.cuts)
    ensures open ==> Requests(b) == Some(Leading(b)) && n == |Leading(b)| && req.Stream() == old(req.Stream()) + out
    ensures !open ==>
      Partial(old(req.Stream()) + out, req.Stream(),
              if n < |Leading(b)| then AnswerTo(db.View(), Leading(b)[n], now, req.isNotify) else [])
    ensures forall c :: c in clients && c != req ==>
      && c.isNotify == old(c.isNotify)
      && Echoed(old(c.Stream()), c.Stream(), old(db.View()), Leading(b)[..n], c.isNotify, old(c.cuts), c.cuts)
  {
    hide Leading, Requests, Parse, Progress, Echoed, AnswerTo, Effects, EffectOf, Echo, Received, Partial, Piece,
        Separate;
    hide ReqElem.Stream, ReqElem.Pending, ReqElem.Valid;
    var p := 0;
    ghost var rs := Leading(b);
    n, out := 0, [];
    AllDifferent(clients);
    LoopStarts(db.View(), req.isNotify, rs, now, req.cuts, b);
    forall c | c in clients && c != req
      ensures Echoed(c.Stream(), c.Stream(), db.View(), rs[..0], c.isNotify, c.cuts, c.cuts)
    {
      EchoedStarts(c.Stream(), db.View(), rs, c.isNotify, c.cuts);
    }
    assert req.Stream() == old(req.Stream()) + [];
    while p < |b|
      invariant p <= |b| && Separate(clients) && n <= |rs|
      invariant forall c :: c in clients ==>
        c.Valid() && (c.outputBuffer == old(c.outputBuffer) || fresh(c.outputBuffer))
      invariant Leading(b[p..]) == rs[n..] && (Requests(b[p..]).Some? <==> Requests(b).Some?)
      invariant Progress(old(db.View()), old(req.isNotify), rs[..n], now, db.View(), req.isNotify, out,
        old(req.cuts), req.cuts)
      invariant req.Stream() == old(req.Stream()) + out
      invariant forall c :: c in clients && c != req ==>
        && c.isNotify == old(c.isNotify)
        && Echoed(old(c.Stream()), c.Stream(), old(db.View()), rs[..n], c.isNotify, old(c.cuts), c.cuts)
      decreases |b| - p
    {
      label Before:
      var here := b[p..];
      ghost var state, notify, stream, cuts := db.View(), req.isNotify, req.Stream(), req.cuts;
      NextRequest(here, rs, n);
      var r := ProcessRequestSub(clients, req, db, here, now);
      AllDifferent(clients);
      if r < 0 {
        return false, n, out;
      }
      ghost var request := Parse(here).request;
      assert here[r..] == b[p + r..];
      assert rs[..n + 1] == rs[..n] + [request];
      ghost var piece := ReceivedPiece(stream, req.Stream(), AnswerTo(state, request, now, notify), cuts, req.cuts);
      Assoc(old(req.Stream()), out, piece);
      ProgressStep(old(db.View()), old(req.isNotify), rs[..n], now, state, notify, out, old(req.cuts), cuts,
          request, piece, req.cuts);
      forall c | c in clients && c != req
        ensures Echoed(old(c.Stream()), c.Stream(), old(db.View()), rs[..n + 1], c.isNotify, old(c.cuts), c.cuts)
      {
        ProgressState(old(db.View()), old(req.isNotify), rs[..n], now, state, notify, out, old(req.cuts), cuts);
        EchoedSnoc(old(c.Stream()), old@Before(c.Stream()), c.Stream(), old(db.View()), rs[..n], request, c.isNotify,
                   old(c.cuts), old@Before(c.cuts), c.cuts);
      }
      p, n, out := p + r, n + 1, out + piece;
    }
    assert b[p..] == [];
    LoopEnds(b, rs, n);
    return true, n, out;
  }

  lemma LoopStarts(db: Db, notify: bool, rs: seq<Request>, now: int, cuts: nat, b: seq<Byte>)
    ensures Progress(db, notify, rs[..0], now, db, notify, [], cuts, cuts)
    ensures b[0..] == b && rs[0..] == rs
  {
    assert rs[..0] == [];
  }

  lemma EchoedStarts(stream: seq<Byte>, db: Db, rs: seq<Request>, notify: bool, cuts: nat)
    ensures Echoed(stream, stream, db, rs[..0], notify, cuts, cuts)
  {
    assert rs[..0] == [] && stream + [] == stream;
  }

  lemma ProgressState(db: Db, notify: bool, rs: seq<Request>, now: int, db': Db, notify': bool, out: seq<Byte>,
                      cuts: nat, cuts': nat)
    requires Progress(db, notify, rs, now, db', notify', out, cuts, cuts')
    ensures db' == Effects(db, rs)
  {
  }

  /** The next request, if it can be read. */
  lemma NextRequest(here: seq<Byte>, rs: seq<Request>, n: nat)
    requires here != [] && n <= |rs| && Leading(here) == rs[n..]
    ensures Parse(here).Good? <==> n < |rs|
    ensures Parse(here).Good? ==>
      var r := Parse(here).consumed;
      && rs[n] == Parse(here).request && Leading(here[r..]) == rs[n + 1..]
      && (Requests(here[r..]).Some? <==> Requests(here).Some?)
    ensures Parse(here).Bad? ==> Requests(here).None?
  {
    hide Parse;
    if Parse(here).Good? {
      var rest := Leading(here[Parse(here).consumed..]);
      assert Leading(here)[0] == rs[n..][0] && Leading(here)[1..] == rest && rs[n..][1..] == rs[n + 1..];
    }
  }

  lemma LoopEnds(b: seq<Byte>, rs: seq<Request>, n: nat)
    requires rs == Leading(b) && n <= |rs| && Leading([]) == rs[n..]
    requires Requests([]).Some? <==> Requests(b).Some?
    ensures n == |rs| && Requests(b) == Some(rs)
  {
    AllLeading(b);
  }

  // ---------- the Python client ----------

  /** submit_to_minissdpd */
  function ClientSubmit(s: Service): seq<Byte> {
    [SUBMIT] + (Coded(s.st) + (Coded(s.usn) + (Coded(s.server) + Coded(s.location))))
  }

  function ClientSubmits(ss: seq<Service>): seq<Byte> {
    if ss == [] then [] else ClientSubmit(ss[0]) + ClientSubmits(ss[1..])
  }

  ghost predicate Submittable(s: Service) {
    && s.st != [] && |s.st| < WORD && |s.usn| < WORD && |s.server| < WORD && |s.location| < WORD
    && Printable(s.st) && Printable(s.usn) && Printable(s.server) && Printable(s.location)
  }

  lemma FieldReadBack(b: seq<Byte>, p: nat, s: Text)
    requires |s| < WORD && At(b, p, Coded(s))
    ensures ReadField(b, p) == Some((s, p + |Coded(s)|))
    ensures p + |Coded(s)| <= |b| && |Coded(s)| > 0
  {
    hide At, LoopEncode, Encode, DecodeFrom;
    AtSplit(b, p, LoopEncode(|s|), s);
    DecodeLoop(b, p, |s|);
    EncodersAgree(|s|);
    AtIs(b, p + |LoopEncode(|s|)|, s);
  }

  /** A submit request is read back with its four strings, whatever follows it. */
  lemma SubmitReadBack(s: Service, rest: seq<Byte>)
    requires Submittable(s)
    ensures Parse(ClientSubmit(s) + rest) == Good(SubmitRequest(s), |ClientSubmit(s)|)
  {
    hide At, Coded, ReadField, Printable;
    var b := ClientSubmit(s) + rest;
    var x1, x2 := Coded(s.st), Coded(s.usn);
    var x3, x4 := Coded(s.server), Coded(s.location);
    Positions(x1, x2, x3, x4, rest);
    var p1 := 1 + |x1|;
    var p2 := p1 + |x2|;
    var p3 := p2 + |x3|;
    FieldReadBack(b, 1, s.st);
    FieldReadBack(b, p1, s.usn);
    FieldReadBack(b, p2, s.server);
    FieldReadBack(b, p3, s.location);
    assert ReadPrintable(b, p1) == Some((s.usn, p2));
    assert ReadPrintable(b, p2) == Some((s.server, p3));
    assert ReadPrintable(b, p3) == Some((s.location, p3 + |x4|));
    assert ParseSubmit(b, s.st, p1) == Good(SubmitRequest(s), p3 + |x4|);
  }

  /** A request that is a kind and a string. */
  function ClientRequest(kind: Byte, str: Text): seq<Byte> {
    [kind] + Coded(str)
  }

  /** The requests other than SUBMIT are read back as what their first byte says. */
  lemma RequestReadBack(kind: Byte, str: Text, rest: seq<Byte>)
    requires |str| < WORD && kind != 4 && (str == [] ==> kind == 0 || kind == 3 || kind == 5)
    ensures var b := ClientRequest(kind, str) + rest;
            var n := |ClientRequest(kind, str)|;
            && (kind == 0 ==> Parse(b) == Good(GetVersion, n))
            && (kind == 1 ==> Parse(b) == Good(Search(ByType(str)), n))
            && (kind == 2 ==> Parse(b) == Good(Search(ByUsn(str)), n))
            && (kind == 3 ==> Parse(b) == Good(Search(Everything), n))
            && (kind == 5 ==> Parse(b) == Good(SwitchToNotify, n))
            && (kind > 5 ==> Parse(b) == Good(Unknown, n - |str|))
  {
    hide At, Coded, ReadField;
    var b := ClientRequest(kind, str) + rest;
    assert b == [kind] + (Coded(str) + rest) && b[0] == kind;
    AtIs(b, 1, Coded(str));
    assert b[1..1 + |Coded(str)|] == Coded(str);
    FieldReadBack(b, 1, str);
  }

  /** The answers that do not depend on what is stored: the version, "1.6.0", and the zero byte that a
      listener is greeted with and an unknown request is refused with. */
  lemma FixedAnswers(db: Db, now: int, notify: bool)
    ensures AnswerTo(db, GetVersion, now, notify) == [5, 0x31, 0x2e, 0x36, 0x2e, 0x30]
    ensures AnswerTo(db, SwitchToNotify, now, notify) == [0] == AnswerTo(db, Unknown, now, notify)
  {
  }

  /** What a client reads from the answer to a search when everything stored fits in a response: all that
      match, devices first. */
  lemma SearchAnswered(db: Db, q: Query, now: int, notify: bool)
    requires |db.devices| + |db.services| < 255
    requires 1 + DeviceRoom(db.devices) + ServiceRoom(db.services) < 4096
    ensures GetItems(AnswerTo(db, Search(q), now, notify), 0)
         == Got([Reply(Matching(db.devices, q, now) + MatchingServices(db.services, q))])
  {
    hide Chosen, GetItems, SsdpResponse.Response, Matching, MatchingServices, DeviceRoom, ServiceRoom, AllFit;
    CompleteAnswer(db.devices, db.services, q, now);
    FewMatch(db.devices, db.services, q, now);
    ResponseRoundTrip(Chosen(db.devices, db.services, q, now));
  }

  lemma FewMatch(ds: seq<Device>, ss: seq<Service>, q: Query, now: int)
    ensures |Matching(ds, q, now)| <= |ds| && |MatchingServices(ss, q)| <= |ss|
  {
  }

  lemma Positions(x1: Text, x2: Text, x3: Text, x4: Text, rest: seq<Byte>)
    ensures var b := [SUBMIT] + (x1 + (x2 + (x3 + x4))) + rest;
            && |b| == 1 + |x1| + |x2| + |x3| + |x4| + |rest| && b[0] == SUBMIT
            && At(b, 1, x1) && At(b, 1 + |x1|, x2) && At(b, 1 + |x1| + |x2|, x3) && At(b, 1 + |x1| + |x2| + |x3|, x4)
  {
    var b := [SUBMIT] + (x1 + (x2 + (x3 + x4))) + rest;
    var body := x1 + (x2 + (x3 + x4));
    assert b[1..1 + |body|] == body;
    hide At;
    AtIs(b, 1, body);
    AtSplit(b, 1, x1, x2 + (x3 + x4));
    AtSplit(b, 1 + |x1|, x2, x3 + x4);
    AtSplit(b, 1 + |x1| + |x2|, x3, x4);
  }

  function Submissions(ss: seq<Service>): seq<Request> {
    if ss == [] then [] else [SubmitRequest(ss[0])] + Submissions(ss[1..])
  }

  /** Any number of submit requests in one read are all recovered, in order. */
  lemma {:induction false} PipelinedSubmits(ss: seq<Service>)
    requires forall k :: 0 <= k < |ss| ==> Submittable(ss[k])
    ensures Requests(ClientSubmits(ss)) == Some(Submissions(ss))
    decreases |ss|
  {
    hide Parse, Submittable, ClientSubmit;
    if ss != [] {
      var rest := ClientSubmits(ss[1..]);
      SubmitReadBack(ss[0], rest);
      SubmitNotEmpty(ss[0]);
      assert ClientSubmits(ss)[|ClientSubmit(ss[0])|..] == rest;
      PipelinedSubmits(ss[1..]);
    }
  }

  function SubmitOps(ss: seq<Service>): seq<Op> {
    if ss == [] then [] else [Submit(ss[0])] + SubmitOps(ss[1..])
  }

  /** ... and processing them runs the submissions on the service list; the client itself and every
      other one hear the same of it, and nothing unless they asked for notifications. */
  lemma {:induction false} PipelinedEffect(db: Db, ss: seq<Service>, now: int, notify: bool)
    ensures Effects(db, Submissions(ss)) == Run(db, SubmitOps(ss))
    ensures Answers(db, Submissions(ss), now, notify) == Echoes(db, Submissions(ss), notify)
    ensures !notify ==> Echoes(db, Submissions(ss), notify) == []
    decreases |ss|
  {
    hide SsdpDatabase.Step, Telling;
    if ss != [] {
      ConsAppend(SubmitRequest(ss[0]), Submissions(ss[1..]), []);
      ConsAppend(Submit(ss[0]), SubmitOps(ss[1..]), []);
      PipelinedEffect(Step(db, Submit(ss[0])), ss[1..], now, notify);
    }
  }

  lemma SubmitNotEmpty(s: Service)
    ensures ClientSubmit(s) != []
  {
  }
}
