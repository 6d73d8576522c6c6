/** Particular runs of minissdpd: a client that hears its own submission, and a response that a client
    cannot read. */
module SsdpExamples {
  import opened Wrappers
  import opened CodeLength
  import opened SeqTools
  import opened SsdpDatabase
  import opened SsdpResponse
  import opened SsdpRequest

  // ---------- a client that listens to itself ----------

  /** A client asks for notifications and then submits a service, all in one read. */
  lemma OwnSubmission()
    ensures var s := Service([0x61], [], [], []);
            var rs := [SwitchToNotify, SubmitRequest(s)];
            && Requests([5, 0, 4, 1, 0x61, 0, 0, 0]) == Some(rs)
            && Answers(EMPTY, rs, 0, false) == [0, 255, 1, 1, 0, 1, 0x61, 0]
  {
    hide Parse, Requests, Answers, NoteBytes;
    var s := Service([0x61], [], [], []);
    TwoRequests();
    TwoAnswers(s);
    NoteOf(News(NOTIF_NEW, s.Key(), OfService(s)));
    assert [0] + [255, 1, 1, 0, 1, 0x61, 0] == [0, 255, 1, 1, 0, 1, 0x61, 0];
  }

  lemma SmallCodes()
    ensures Coded([]) == [0] && Coded([0x61]) == [1, 0x61]
  {
    assert Coded([]) == [0] + [] && Coded([0x61]) == [1] + [0x61];
  }

  lemma NoteOf(n: News)
    requires n.kind == NOTIF_NEW && n.entry == Entry([], [0x61], [])
    ensures NoteBytes(n) == [255, 1, 1, 0, 1, 0x61, 0]
  {
    hide Coded;
    SmallCodes();
    assert [0] + [1, 0x61] + [0] == [0, 1, 0x61, 0];
    assert [255, 1, 1] + [0, 1, 0x61, 0] == [255, 1, 1, 0, 1, 0x61, 0];
  }

  lemma FirstRequest(tail: seq<Byte>)
    ensures Parse([5, 0] + tail) == Good(SwitchToNotify, 2) && ([5, 0] + tail)[2..] == tail
  {
    hide ParseSubmit, Printable;
    var b := [5, 0] + tail;
    assert b[0] == 5 && b[1] == 0;
    assert DecodeFrom(b, 1, 0) == (0, 2);
  }

  lemma SecondRequest()
    ensures Parse([4, 1, 0x61, 0, 0, 0]) == Good(SubmitRequest(Service([0x61], [], [], [])), 6)
  {
    hide Parse, Coded;
    var s := Service([0x61], [], [], []);
    SmallCodes();
    assert ClientSubmit(s) == [4, 1, 0x61, 0, 0, 0];
    assert ClientSubmit(s) + [] == ClientSubmit(s);
    SubmitReadBack(s, []);
  }

  lemma TwoRequests()
    ensures Requests([5, 0, 4, 1, 0x61, 0, 0, 0]) == Some([SwitchToNotify, SubmitRequest(Service([0x61], [], [], []))])
  {
    hide Parse;
    var s := Service([0x61], [], [], []);
    var tail: seq<Byte> := [4, 1, 0x61, 0, 0, 0];
    assert [5, 0] + tail == [5, 0, 4, 1, 0x61, 0, 0, 0];
    FirstRequest(tail);
    SecondRequest();
    assert tail[6..] == [];
    assert Requests(tail) == Some([SubmitRequest(s)] + []);
    assert [SwitchToNotify] + ([SubmitRequest(s)] + []) == [SwitchToNotify, SubmitRequest(s)];
    assert Requests([5, 0] + tail) == Some([SwitchToNotify] + ([SubmitRequest(s)] + []));
  }

  lemma TwoAnswers(s: Service)
    ensures Answers(EMPTY, [SwitchToNotify, SubmitRequest(s)], 0, false)
         == [0] + NoteBytes(News(NOTIF_NEW, s.Key(), OfService(s)))
  {
    hide NoteBytes, SsdpDatabase.Step;
    var rs := [SwitchToNotify, SubmitRequest(s)];
    assert rs[1..] == [SubmitRequest(s)] && rs[1..][1..] == [];
    assert IsNew(EMPTY, s);
    assert Answers(EMPTY, rs[1..], 0, true) == NoteBytes(News(NOTIF_NEW, s.Key(), OfService(s))) + [];
  }

  // ---------- a response that is too long for its count ----------

  /** 255 different services. */
  function Sample(i: nat): Service
    requires i < 255
  {
    Service([0x21 + i / 16, 0x21 + i % 16], [], [], [])
  }

  function SamplesFrom(i: nat): seq<Service>
    requires i <= 255
    decreases 255 - i
  {
    if i == 255 then [] else [Sample(i)] + SamplesFrom(i + 1)
  }

  /** The service list after the first i submissions: the latest comes first. */
  function Stored(i: nat): (r: seq<Service>)
    requires i <= 255
    ensures |r| == i
    ensures forall k :: 0 <= k < i ==> r[k] == Sample(i - 1 - k)
  {
    if i == 0 then [] else [Sample(i - 1)] + Stored(i - 1)
  }

  lemma {:induction false} SamplesStored(db: Db, i: nat)
    requires i <= 255 && db.devices == [] && db.services == Stored(i)
    ensures var end := Effects(db, Submissions(SamplesFrom(i))); end.devices == [] && end.services == Stored(255)
    decreases 255 - i
  {
    hide Stored, Sample, FindService;
    if i < 255 {
      ConsAppend(SubmitRequest(Sample(i)), Submissions(SamplesFrom(i + 1)), []);
      ConsAppend(Sample(i), SamplesFrom(i + 1), []);
      SampleIsNew(db, i);
      SamplesStored(Step(db, Submit(Sample(i))), i + 1);
    }
  }

  lemma SamplesDiffer(i: nat, k: nat)
    requires k < i < 255
    ensures Sample(k).Key() != Sample(i).Key()
  {
    var x, y := Sample(k).st, Sample(i).st;
    assert x[0] == 0x21 + k / 16 && x[1] == 0x21 + k % 16 && y[0] == 0x21 + i / 16 && y[1] == 0x21 + i % 16;
  }

  lemma SampleIsNew(db: Db, i: nat)
    requires i < 255 && db.services == Stored(i)
    ensures IsNew(db, Sample(i)) && [Sample(i)] + Stored(i) == Stored(i + 1)
  {
    hide Sample;
    forall k | 0 <= k < i
      ensures db.services[k].Key() != Sample(i).Key()
    {
      SamplesDiffer(i, i - 1 - k);
    }
  }

  lemma SampleSize(i: nat)
    requires i < 255
    ensures var e := OfService(Sample(i)); Size(e) == 2 && |EncodeEntry(e)| == 5
  {
    var e := OfService(Sample(i));
    assert EncodeEntry(e) == [0] + [] + ([2] + e.nt) + ([0] + []);
  }

  lemma {:induction false} SamplesPicked(i: nat)
    requires i <= 255
    ensures |PickServices(Stored(i), Everything, 1 + 5 * (255 - i), 255 - i)| == i
  {
    hide EncodeEntry, Sample;
    if i > 0 {
      SampleSize(i - 1);
      assert Stored(i)[1..] == Stored(i - 1);
      SamplesPicked(i - 1);
    }
  }

  lemma SampleSubmit(i: nat)
    requires i < 255
    ensures Submittable(Sample(i)) && |ClientSubmit(Sample(i))| == 7
  {
    var st := Sample(i).st;
    assert st[0] == 0x21 + i / 16 && st[1] == 0x21 + i % 16;
    assert |Coded(st)| == 3 && |Coded([])| == 1;
  }

  lemma {:induction false} SamplesSubmittable(i: nat)
    requires i <= 255
    ensures forall k :: 0 <= k < |SamplesFrom(i)| ==> Submittable(SamplesFrom(i)[k])
    ensures |ClientSubmits(SamplesFrom(i))| == 7 * (255 - i)
    decreases 255 - i
  {
    hide Submittable, Sample, ClientSubmit;
    if i < 255 {
      SamplesSubmittable(i + 1);
      SampleSubmit(i);
      ConsAppend(Sample(i), SamplesFrom(i + 1), []);
    }
  }

  lemma ServicesAlone(ss: seq<Service>)
    ensures Chosen([], ss, Everything, 0) == PickServices(ss, Everything, 1, 0)
  {
    hide PickServices;
    assert PickDevices([], Everything, 0, 1, 0) == [];
    assert [] + PickServices(ss, Everything, 1, 0) == PickServices(ss, Everything, 1, 0);
  }

  /** A client can submit 255 services in a single read; a search for everything is then answered with
      255 entries, and printresponse does not read them as a response. */
  lemma FullResponseOccurs()
    ensures var b := ClientSubmits(SamplesFrom(0));
            |b| <= READ_SIZE && Requests(b).Some? &&
            var db := Effects(EMPTY, Requests(b).value);
            var es := Chosen(db.devices, db.services, Everything, 0);
            |es| == 255 && GetItems(SsdpResponse.Response(es), 0) != Got([Reply(es)])
  {
    hide Chosen, PickServices, Requests, Effects, Submissions, ClientSubmits, SamplesFrom, Stored, GetItems;
    hide SsdpResponse.Response, Submittable, AllFit;
    SamplesSubmittable(0);
    PipelinedSubmits(SamplesFrom(0));
    var es := Chosen([], Stored(255), Everything, 0);
    SamplesStored(EMPTY, 0);
    SamplesPicked(255);
    ServicesAlone(Stored(255));
    ResponseRoundTrip(es);
  }
}
