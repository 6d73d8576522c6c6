/** What clients that asked for notifications hear of announcements, departures and submissions. */
module SsdpListeners {
  import opened Wrappers
  import opened CodeLength
  import opened SeqTools
  import opened SsdpDatabase
  import opened SsdpOutput
  import opened SsdpResponse
  import opened SsdpRequest

  const PACKET_SIZE: nat := 1500

  // ---------- sizes ----------

  /** An event that one packet or one read can bring. */
  predicate OpFits(op: Op) {
    match op
    case Update(h, _) => Size(OfDevice(h)) <= PACKET_SIZE
    case Remove(_, _) => true
    case Submit(s) => Size(OfService(s)) <= READ_SIZE
  }

  ghost predicate DbFits(db: Db) {
    forall k :: 0 <= k < |db.devices| ==> Size(OfDevice(db.devices[k])) <= PACKET_SIZE
  }

  /** No stored device outgrows a packet, although its location may come from another packet than its
      name. */
  lemma StepFits(db: Db, op: Op)
    requires DbFits(db) && OpFits(op)
    ensures DbFits(Step(db, op))
  {
    match op {
      case Update(h, mem) =>
        var i := FindDevice(db.devices, h.Key());
        if i < |db.devices| {
          assert Size(OfDevice(Refreshed(db.devices[i], h))) <= PACKET_SIZE;
        }
      case Remove(_, _) =>
      case Submit(_) =>
    }
  }

  lemma NewsFits(db: Db, op: Op)
    requires DbFits(db) && OpFits(op)
    ensures NewsOf(db, op).Some? ==> Size(NewsOf(db, op).value.entry) <= READ_SIZE
  {
  }

  // ---------- the daemon ----------

  /** An event reaches the lists and, as news, the clients. */
  method Handle(clients: seq<ReqElem>, db: Database, op: Op)
    requires Separate(clients) && DbFits(db.View()) && OpFits(op)
    modifies clients, Buffers(clients), db
    ensures Separate(clients) && DbFits(db.View()) && db.View() == Step(old(db.View()), op)
    ensures forall c :: c in clients ==>
      && (c.outputBuffer == old(c.outputBuffer) || fresh(c.outputBuffer))
      && c.isNotify == old(c.isNotify)
      && Received(old(c.Stream()), c.Stream(), if c.isNotify then Telling(old(db.View()), op) else [],
                  old(c.cuts), c.cuts)
  {
    hide Separate, Received, NoteBytes, SsdpDatabase.Step, DbFits, ReqElem.Stream, ReqElem.Pending, ReqElem.Valid;
    AllDifferent(clients);
    ghost var before := db.View();
    StepFits(before, op);
    NewsFits(before, op);
    var news;
    match op {
      case Update(h, mem) =>   // updateDevice
        var r := db.UpdateDevice(h, mem);
        news := if r == 1 then Some(News(NOTIF_NEW, h.Key(), OfDevice(h))) else None;
      case Remove(nt, usn) =>   // removeDevice
        var p := db.Locate(nt, usn);
        news := if p < |db.devices| then Some(News(NOTIF_REMOVE, DeviceKey(nt, usn),
            OfDevice(db.devices[p]))) else None;
        var r := db.RemoveDevice(nt, usn);
      case Submit(s) =>
        var isNew := db.SubmitService(s);
        news := if isNew then Some(News(NOTIF_NEW, s.Key(), OfService(s))) else None;
    }
    assert news == NewsOf(before, op);
    Tell(clients, news);
  }

  function Tellings(db: Db, ops: seq<Op>): seq<Byte>
    decreases |ops|
  {
    if ops == [] then [] else Telling(db, ops[0]) + Tellings(Step(db, ops[0]), ops[1..])
  }

  lemma {:induction false} RunSnoc(db: Db, ops: seq<Op>, op: Op)
    ensures Run(db, ops + [op]) == Step(Run(db, ops), op)
    ensures Tellings(db, ops + [op]) == Tellings(db, ops) + Telling(Run(db, ops), op)
    decreases |ops|
  {
    hide SsdpDatabase.Step, Telling;
    if ops == [] {
      assert ([] + [op])[1..] == [];
      assert Telling(db, op) + [] == [] + Telling(db, op);
    } else {
      TailAppend(ops, [op]);
      RunSnoc(Step(db, ops[0]), ops[1..], op);
      Assoc(Telling(db, ops[0]), Tellings(Step(db, ops[0]), ops[1..]), Telling(Run(db, ops), op));
    }
  }

  /** A client's stream after some events, if none of its writes failed. */
  ghost predicate Told(before: seq<Byte>, after: seq<Byte>, db: Db, ops: seq<Op>, notify: bool, cuts: nat, cuts': nat) {
    cuts <= cuts' && (cuts' == cuts ==> after == before + if notify then Tellings(db, ops) else [])
  }

  lemma ToldNothing(stream: seq<Byte>, db: Db, notify: bool, cuts: nat)
    ensures Told(stream, stream, db, [], notify, cuts, cuts)
  {
    assert stream + [] == stream;
  }

  lemma ToldMore(before: seq<Byte>, middle: seq<Byte>, after: seq<Byte>, db: Db, ops: seq<Op>, op: Op, notify: bool,
                 cuts: nat, cuts': nat, cuts'': nat)
    requires Told(before, middle, db, ops, notify, cuts, cuts')
    requires Received(middle, after, if notify then Telling(Run(db, ops), op) else [], cuts', cuts'')
    ensures Told(before, after, db, ops + [op], notify, cuts, cuts'')
  {
    hide Tellings, Telling, Run, Partial;
    RunSnoc(db, ops, op);
    if cuts'' == cuts {
      if notify {
        Assoc(before, Tellings(db, ops), Telling(Run(db, ops), op));
      } else {
        assert before + [] + [] == before + [];
      }
    }
  }

  /** Over every run of events, a listening client whose writes succeed hears all the news in order, and
      a client that does not listen hears nothing. */
  method HandleAll(clients: seq<ReqElem>, db: Database, ops: seq<Op>)
    requires Separate(clients) && DbFits(db.View()) && forall k :: 0 <= k < |ops| ==> OpFits(ops[k])
    modifies clients, Buffers(clients), db
    ensures Separate(clients) && DbFits(db.View()) && db.View() == Run(old(db.View()), ops)
    ensures forall c :: c in clients ==>
      && c.isNotify == old(c.isNotify)
      && Told(old(c.Stream()), c.Stream(), old(db.View()), ops, c.isNotify, old(c.cuts), c.cuts)
  {
    hide Separate, DbFits, OpFits, Received, Told, Telling, ReqElem.Stream, ReqElem.Pending, ReqElem.Valid;
    hide SsdpDatabase.Step;
    AllDifferent(clients);
    var i := 0;
    forall c | c in clients
      ensures Told(c.Stream(), c.Stream(), db.View(), ops[..0], c.isNotify, c.cuts, c.cuts)
    {
      ToldNothing(c.Stream(), db.View(), c.isNotify, c.cuts);
    }
    while i < |ops|
      invariant i <= |ops| && Separate(clients) && DbFits(db.View())
      invariant db.View() == Run(old(db.View()), ops[..i])
      invariant forall c :: c in clients ==>
        c.Valid() && (c.outputBuffer == old(c.outputBuffer) || fresh(c.outputBuffer))
      invariant forall c :: c in clients ==>
        && c.isNotify == old(c.isNotify)
        && Told(old(c.Stream()), c.Stream(), old(db.View()), ops[..i], c.isNotify, old(c.cuts), c.cuts)
    {
      label Before:
      Handle(clients, db, ops[i]);
      AllDifferent(clients);
      assert ops[..i + 1] == ops[..i] + [ops[i]];
      RunSnoc(old(db.View()), ops[..i], ops[i]);
      forall c | c in clients
        ensures Told(old(c.Stream()), c.Stream(), old(db.View()), ops[..i + 1], c.isNotify, old(c.cuts), c.cuts)
      {
        ToldMore(old(c.Stream()), old@Before(c.Stream()), c.Stream(), old(db.View()), ops[..i], ops[i], c.isNotify,
                 old(c.cuts), old@Before(c.cuts), c.cuts);
      }
      i := i + 1;
    }
    assert ops[..i] == ops;
  }

  // ---------- what a listener makes of it ----------

  function AllNews(db: Db, ops: seq<Op>): seq<News>
    decreases |ops|
  {
    if ops == [] then []
    else
      var rest := AllNews(Step(db, ops[0]), ops[1..]);
      match NewsOf(db, ops[0])
      case None => rest
      case Some(n) => [n] + rest
  }

  function Notes(news: seq<News>): seq<Item> {
    if news == [] then [] else [Note(news[0].kind, [news[0].entry])] + Notes(news[1..])
  }

  function LogOf(news: seq<News>): seq<Notification> {
    if news == [] then []
    else [if news[0].kind == 1 then New(news[0].key) else Removed(news[0].key)] + LogOf(news[1..])
  }

  function AllBytes(news: seq<News>): seq<Byte> {
    if news == [] then [] else NoteBytes(news[0]) + AllBytes(news[1..])
  }

  /** The entry of a notification names the key that the log records. */
  predicate Named(n: News) {
    && (n.kind == 1 || n.kind == 3)
    && (n.key == DeviceKey(n.entry.nt, n.entry.usn) || n.key == ServiceKey(n.entry.nt, n.entry.usn))
  }

  /** All lengths fit the signed variable that printresponse reads them into. */
  predicate Small(e: Entry) {
    |e.location| < INT_LIMIT && |e.nt| < INT_LIMIT && |e.usn| < INT_LIMIT
  }

  predicate OpSmall(op: Op) {
    match op
    case Update(h, _) => Small(OfDevice(h))
    case Remove(_, _) => true
    case Submit(s) => Small(OfService(s))
  }

  ghost predicate DbSmall(db: Db) {
    forall k :: 0 <= k < |db.devices| ==> Small(OfDevice(db.devices[k]))
  }

  lemma StepSmall(db: Db, op: Op)
    requires DbSmall(db) && OpSmall(op)
    ensures DbSmall(Step(db, op))
  {
    match op {
      case Update(h, mem) =>
        var i := FindDevice(db.devices, h.Key());
        if i < |db.devices| {
          assert Small(OfDevice(Refreshed(db.devices[i], h)));
        }
      case Remove(_, _) =>
      case Submit(_) =>
    }
  }

  lemma NewsNamed(db: Db, op: Op)
    requires DbSmall(db) && OpSmall(op) && NewsOf(db, op).Some?
    ensures var n := NewsOf(db, op).value; Named(n) && Small(n.entry)
  {
  }

  lemma StepLog(db: Db, op: Op)
    ensures Step(db, op).log == db.log +
      (match NewsOf(db, op)
       case None => []
       case Some(n) => [if n.kind == 1 then New(n.key) else Removed(n.key)])
  {
    hide FindDevice, FindService;
    assert db.log + [] == db.log;
  }

  lemma {:induction false} TellingsAreNews(db: Db, ops: seq<Op>)
    ensures Tellings(db, ops) == AllBytes(AllNews(db, ops))
    decreases |ops|
  {
    hide NoteBytes, NewsOf, SsdpDatabase.Step;
    if ops != [] {
      var rest := AllNews(Step(db, ops[0]), ops[1..]);
      TellingsAreNews(Step(db, ops[0]), ops[1..]);
      var n := NewsOf(db, ops[0]);
      if n.Some? {
        ConsAppend(n.value, rest, []);
      } else {
        assert [] + AllBytes(rest) == AllBytes(rest);
      }
    }
  }

  lemma {:induction false} LogIsNews(db: Db, ops: seq<Op>)
    ensures Run(db, ops).log == db.log + LogOf(AllNews(db, ops))
    decreases |ops|
  {
    hide NewsOf, SsdpDatabase.Step;
    if ops != [] {
      var next := Step(db, ops[0]);
      var rest := AllNews(next, ops[1..]);
      StepLog(db, ops[0]);
      LogIsNews(next, ops[1..]);
      var n := NewsOf(db, ops[0]);
      if n.Some? {
        ConsAppend(n.value, rest, []);
        Assoc(db.log, [if n.value.kind == 1 then New(n.value.key) else Removed(n.value.key)], LogOf(rest));
      } else {
        assert db.log + [] == db.log;
      }
    } else {
      assert db.log + [] == db.log;
    }
  }

  lemma {:induction false} NewsSound(db: Db, ops: seq<Op>)
    requires DbSmall(db) && forall k :: 0 <= k < |ops| ==> OpSmall(ops[k])
    ensures forall k :: 0 <= k < |AllNews(db, ops)| ==> Named(AllNews(db, ops)[k]) && Small(AllNews(db, ops)[k].entry)
    decreases |ops|
  {
    hide NewsOf, SsdpDatabase.Step, Named, Small, DbSmall, OpSmall;
    if ops != [] {
      StepSmall(db, ops[0]);
      NewsSound(Step(db, ops[0]), ops[1..]);
      if NewsOf(db, ops[0]).Some? {
        NewsNamed(db, ops[0]);
      }
    }
  }

  /** A notification is read back, whatever follows it. */
  lemma NoteReadBack(b: seq<Byte>, p: nat, n: News)
    requires Small(n.entry) && At(b, p, NoteBytes(n))
    ensures p + |NoteBytes(n)| <= |b|
    ensures GetItems(b, p) == ConsItem(Note(n.kind, [n.entry]), GetItems(b, p + |NoteBytes(n)|))
  {
    hide At, Coded, Prefixed, GetString, GetItems;
    var e := n.entry;
    var x, y, z := Coded(e.location), Coded(e.nt), Coded(e.usn);
    CodedIsPrefixed(e.location);
    CodedIsPrefixed(e.nt);
    CodedIsPrefixed(e.usn);
    AtSplit(b, p, [255, n.kind, 1], x + y + z);
    AtIs(b, p, [255, n.kind, 1]);
    AtIs(b, p, NoteBytes(n));
    AtSplit(b, p + 3, x + y, z);
    AtSplit(b, p + 3, x, y);
    ReadBackString(b, p + 3, e.location);
    ReadBackString(b, p + 3 + |x|, e.nt);
    ReadBackString(b, p + 3 + |x| + |y|, e.usn);
    var q := p + |NoteBytes(n)|;
    assert GetEntry(b, p + 3) == Got((e, q));
    assert [e] + [] == [e];
    assert GetEntries(b, p + 3, 1) == Got(([e], q));
    NoteHead(b, p, n.kind, [e], q);
  }

  lemma NoteHead(b: seq<Byte>, p: nat, kind: Byte, es: seq<Entry>, q: nat)
    requires p + 3 <= q <= |b| && b[p..p + 3] == [255, kind, 1] && GetEntries(b, p + 3, 1) == Got((es, q))
    ensures GetItems(b, p) == ConsItem(Note(kind, es), GetItems(b, q))
  {
    hide GetEntries;
    assert b[p] == b[p..p + 3][0] && b[p + 1] == b[p..p + 3][1] && b[p + 2] == b[p..p + 3][2];
  }

  lemma {:induction false} NotesReadBack(b: seq<Byte>, p: nat, news: seq<News>)
    requires forall k :: 0 <= k < |news| ==> Small(news[k].entry)
    requires At(b, p, AllBytes(news)) && p + |AllBytes(news)| == |b|
    ensures GetItems(b, p) == Got(Notes(news))
    decreases |news|
  {
    hide At, NoteBytes, GetEntries, Small;
    if news != [] {
      AtSplit(b, p, NoteBytes(news[0]), AllBytes(news[1..]));
      NoteReadBack(b, p, news[0]);
      NotesReadBack(b, p + |NoteBytes(news[0])|, news[1..]);
    }
  }

  /** What is told of an entry is what the database holds under its key: after a new one has come, and
      before one goes. */
  lemma NewsIsStored(db: Db, op: Op)
    requires NewsOf(db, op).Some?
    ensures var (n, db') := (NewsOf(db, op).value, Step(db, op));
            && (op.Update? ==> n.kind == 1 && IsStored(db'.devices, n))
            && (op.Remove? ==> n.kind == 3 && IsStored(db.devices, n) && n.key == DeviceKey(op.nt, op.usn))
            && (op.Submit? ==> n.kind == 1 && LookupService(db'.services, n.key) == Some(op.service)
                               && n.entry == Entry(op.service.location, op.service.st, op.service.usn))
  {
    var db' := Step(db, op);
    match op {
      case Update(h, mem) => assert db'.devices == [h] + db.devices;
      case Remove(_, _) =>
      case Submit(s) => assert db'.services == [s] + db.services;
    }
  }

  predicate IsStored(ds: seq<Device>, n: News) {
    match Lookup(ds, n.key)
    case None => false
    case Some(d) => n.entry == Entry(d.location, d.nt, d.usn)
  }

  /** A client that asked for notifications reads from what it hears exactly the entries that the events
      added to the notification log, each under its key. */
  lemma ListenersHearTheLog(db: Db, ops: seq<Op>)
    requires DbSmall(db) && forall k :: 0 <= k < |ops| ==> OpSmall(ops[k])
    ensures var news := AllNews(db, ops);
            && GetItems(Tellings(db, ops), 0) == Got(Notes(news))
            && Run(db, ops).log == db.log + LogOf(news)
            && forall k :: 0 <= k < |news| ==> Named(news[k])
  {
    hide Tellings, AllBytes, AllNews, GetItems, Notes, LogOf, Small, Named, Run, DbSmall, OpSmall;
    var news := AllNews(db, ops);
    var b := AllBytes(news);
    TellingsAreNews(db, ops);
    LogIsNews(db, ops);
    NewsSound(db, ops);
    AtIs(b, 0, b);
    assert b[0..|b|] == b;
    NotesReadBack(b, 0, news);
  }

  /** Submissions through requests are told as the same events are. */
  lemma {:induction false} EchoesAreTellings(db: Db, ss: seq<Service>)
    ensures Echoes(db, Submissions(ss), true) == Tellings(db, SubmitOps(ss))
    decreases |ss|
  {
    hide Telling, SsdpDatabase.Step;
    if ss != [] {
      ConsAppend(SubmitRequest(ss[0]), Submissions(ss[1..]), []);
      ConsAppend(Submit(ss[0]), SubmitOps(ss[1..]), []);
      EchoesAreTellings(Step(db, Submit(ss[0])), ss[1..]);
    }
  }
}
