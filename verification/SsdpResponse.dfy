/** Search responses of minissdpd: which entries go into the 4096-byte buffer, how they are laid
    out, and how a client reads them back. */
module SsdpResponse {
  import opened Wrappers
  import opened CodeLength
  import opened SeqTools
  import opened SsdpDatabase

  const BUFFER_SIZE: nat := 4096

  datatype Entry = Entry(location: Text, nt: Text, usn: Text)

  datatype Query = ByType(str: Text) | ByUsn(str: Text) | Everything

  function Size(e: Entry): nat {
    |e.location| + |e.nt| + |e.usn|
  }

  /** The room test that the server makes before it copies an entry. */
  predicate HasRoom(e: Entry, used: nat) {
    Size(e) + 6 + used < BUFFER_SIZE
  }

  function OfDevice(d: Device): Entry { Entry(d.location, d.nt, d.usn) }

  function OfService(s: Service): Entry { Entry(s.location, s.st, s.usn) }

  function EncodeEntry(e: Entry): (r: seq<Byte>)
    requires HasRoom(e, 0)
    ensures |r| <= Size(e) + 6
  {
    Prefixed(e.location) + Prefixed(e.nt) + Prefixed(e.usn)
  }

  ghost predicate AllFit(es: seq<Entry>) {
    forall k :: 0 <= k < |es| ==> HasRoom(es[k], 0)
  }

  function EncodeEntries(es: seq<Entry>): seq<Byte>
    requires AllFit(es)
  {
    if es == [] then [] else EncodeEntry(es[0]) + EncodeEntries(es[1..])
  }

  // ---------- matching ----------

  predicate IsDigit(c: Byte) {
    0x30 <= c <= 0x39
  }

  /** The length of a type without the version number at its end. */
  function BaseLength(p: Text, n: nat): (r: nat)
    requires n <= |p|
    ensures r <= n && (forall k :: r <= k < n ==> IsDigit(p[k])) && (r > 0 ==> !IsDigit(p[r - 1]))
  {
    if n > 0 && IsDigit(p[n - 1]) then BaseLength(p, n - 1) else n
  }

  /** memcmp against a string that is stored in front of the device's other strings. */
  predicate StartsWith(memory: Text, str: Text) {
    |str| <= |memory| && memory[..|str|] == str
  }

  function FirstZero(p: Text): (r: nat)
    ensures r <= |p| && (r < |p| ==> p[r] == 0) && forall k :: 0 <= k < r ==> p[k] != 0
  {
    if p == [] || p[0] == 0 then 0 else 1 + FirstZero(p[1..])
  }

  /** strncmp(s, p, |p|) == 0 for a C string s: a zero in p must meet the end of s. */
  predicate StringMatches(s: Text, p: Text) {
    var z := FirstZero(p);
    if z < |p| then s == p[..z] else |p| <= |s| && s[..|p|] == p
  }

  /** What a device's strings are compared with: a type without its version, or the whole string. */
  function Needle(q: Query): Text {
    match q
    case ByType(str) => str[..BaseLength(str, |str|)]
    case ByUsn(str) => str
    case Everything => []
  }

  predicate DeviceMatches(q: Query, d: Device) {
    CompareDevice(q, Needle(q), d)
  }

  predicate CompareDevice(q: Query, needle: Text, d: Device) {
    match q
    case ByType(_) => StartsWith(d.nt + d.usn + d.location, needle)
    case ByUsn(_) => StartsWith(d.usn + d.location, needle)
    case Everything => true
  }

  predicate ServiceMatches(q: Query, s: Service) {
    match q
    case ByType(str) => StringMatches(s.st, str)
    case ByUsn(str) => StringMatches(s.usn, str)
    case Everything => true
  }

  // ---------- the chosen entries ----------

  /** The device loop, with `used` bytes of the buffer and n of 255 entries taken. */
  function PickDevices(ds: seq<Device>, q: Query, now: int, used: nat, n: nat): (r: seq<Entry>)
    ensures AllFit(r) && |r| + n <= if n > 255 then n else 255
    decreases |ds|
  {
    if ds == [] || n >= 255 then []
    else if ds[0].t < now then PickDevices(ds[1..], q, now, used, n)
    else
      var e := OfDevice(ds[0]);
      if !HasRoom(e, used) then []
      else if DeviceMatches(q, ds[0]) then
        [e] + PickDevices(ds[1..], q, now, used + |EncodeEntry(e)|, n + 1)
      else PickDevices(ds[1..], q, now, used, n)
  }

  function PickServices(ss: seq<Service>, q: Query, used: nat, n: nat): (r: seq<Entry>)
    ensures AllFit(r) && |r| + n <= if n > 255 then n else 255
    decreases |ss|
  {
    if ss == [] || n >= 255 then []
    else
      var e := OfService(ss[0]);
      if !HasRoom(e, used) then []
      else if ServiceMatches(q, ss[0]) then [e] + PickServices(ss[1..], q, used + |EncodeEntry(e)|, n + 1)
      else PickServices(ss[1..], q, used, n)
  }

  function Chosen(ds: seq<Device>, ss: seq<Service>, q: Query, now: int): (r: seq<Entry>)
    ensures AllFit(r) && |r| <= 255
  {
    var fromDevices := PickDevices(ds, q, now, 1, 0);
    fromDevices + PickServices(ss, q, 1 + |EncodeEntries(fromDevices)|, |fromDevices|)
  }

  /** The bytes of a response: the number of entries, then the entries. */
  function Response(es: seq<Entry>): seq<Byte>
    requires AllFit(es) && |es| <= 255
  {
    [|es|] + EncodeEntries(es)
  }

  lemma {:induction false} EncodeConcat(a: seq<Entry>, b: seq<Entry>)
    requires AllFit(a) && AllFit(b)
    ensures AllFit(a + b) && EncodeEntries(a + b) == EncodeEntries(a) + EncodeEntries(b)
  {
    hide EncodeEntry;
    if a == [] {
      assert a + b == b;
      assert [] + EncodeEntries(b) == EncodeEntries(b);
    } else {
      TailAppend(a, b);
      EncodeConcat(a[1..], b);
      Assoc(EncodeEntry(a[0]), EncodeEntries(a[1..]), EncodeEntries(b));
    }
  }

  lemma EncodeSnoc(es: seq<Entry>, e: Entry)
    requires AllFit(es) && HasRoom(e, 0)
    ensures AllFit(es + [e]) && EncodeEntries(es + [e]) == EncodeEntries(es) + EncodeEntry(e)
  {
    hide EncodeEntry;
    EncodeConcat(es, [e]);
    assert [e][1..] == [];
    assert EncodeEntries([e]) == EncodeEntry(e) + [];
  }

  // ---------- the server's loops ----------

  /** CODELENGTH and memcpy into the response buffer. */
  method PutString(rbuf: array<Byte>, rp: nat, s: Text) returns (rp': nat)
    requires |s| < BUFFER_SIZE && rp + |Prefixed(s)| <= rbuf.Length
    modifies rbuf
    ensures rp' == rp + |Prefixed(s)| && rbuf[..rp'] == old(rbuf[..rp]) + Prefixed(s)
  {
    var code := Prefixed(s);
    forall k | 0 <= k < |code| {
      rbuf[rp + k] := code[k];
    }
    rp' := rp + |code|;
  }

  method PutEntry(rbuf: array<Byte>, rp: nat, e: Entry) returns (rp': nat)
    requires rbuf.Length == BUFFER_SIZE && HasRoom(e, rp)
    modifies rbuf
    ensures rp' == rp + |EncodeEntry(e)| && rp' < BUFFER_SIZE
    ensures rbuf[..rp'] == old(rbuf[..rp]) + EncodeEntry(e)
  {
    ghost var before := rbuf[..rp];
    rp' := PutString(rbuf, rp, e.location);
    rp' := PutString(rbuf, rp', e.nt);
    rp' := PutString(rbuf, rp', e.usn);
    assert before + Prefixed(e.location) + Prefixed(e.nt) + Prefixed(e.usn) == before + EncodeEntry(e);
  }

  /** The search string without the version. */
  method BaseLen(p: Text) returns (baselen: nat)
    ensures baselen == BaseLength(p, |p|)
  {
    baselen := |p|;
    while baselen > 0
      invariant baselen <= |p| && BaseLength(p, baselen) == BaseLength(p, |p|)
    {
      if p[baselen - 1] == 0x3a {
        break;
      }
      if !(p[baselen - 1] >= 0x30 && p[baselen - 1] <= 0x39) {
        break;
      }
      baselen := baselen - 1;
    }
  }

  /** The buffer holds a byte for the count, then es. */
  ghost predicate Holds(rbuf: array<Byte>, rp: nat, es: seq<Entry>)
    reads rbuf
  {
    && rbuf.Length == BUFFER_SIZE && 1 <= rp < BUFFER_SIZE
    && AllFit(es) && rp == 1 + |EncodeEntries(es)|
    && rbuf[1..rp] == EncodeEntries(es)
  }

  method PutChosen(rbuf: array<Byte>, rp: nat, e: Entry, ghost es: seq<Entry>) returns (rp': nat)
    requires Holds(rbuf, rp, es) && HasRoom(e, rp)
    modifies rbuf
    ensures Holds(rbuf, rp', es + [e]) && rp' == rp + |EncodeEntry(e)|
  {
    hide EncodeEntry, EncodeEntries;
    ghost var before := rbuf[..rp];
    rp' := PutEntry(rbuf, rp, e);
    EncodeSnoc(es, e);
    assert before[1..] == EncodeEntries(es);
    assert rbuf[1..rp'] == rbuf[..rp'][1..];
    TailAppend(before, EncodeEntry(e));
  }

  method MakeNeedle(q: Query) returns (needle: Text)
    ensures needle == Needle(q)
  {
    match q {
      case ByType(str) =>
        var baselen := BaseLen(str);
        return str[..baselen];
      case ByUsn(str) => return str;
      case Everything => return [];
    }
  }

  method AddDevices(rbuf: array<Byte>, ds: seq<Device>, q: Query, now: int) returns (rp: nat, nrep: nat)
    requires rbuf.Length == BUFFER_SIZE
    modifies rbuf
    ensures Holds(rbuf, rp, PickDevices(ds, q, now, 1, 0)) && nrep == |PickDevices(ds, q, now, 1, 0)|
  {
    hide EncodeEntry, EncodeEntries, CompareDevice, Needle, Splits;
    rp, nrep := 1, 0;
    var needle := MakeNeedle(q);
    ghost var whole := PickDevices(ds, q, now, 1, 0);
    ghost var es: seq<Entry> := [];
    var d := 0;
    assert ds[0..] == ds;
    SplitsStart(whole);
    NothingHeld(rbuf);
    while d < |ds| && nrep < 255
      invariant d <= |ds| && Holds(rbuf, rp, es) && nrep == |es| <= 255
      invariant Splits(whole, es, PickDevices(ds[d..], q, now, rp, nrep))
    {
      DropNext(ds, d);
      if ds[d].t < now {
      } else {
        var e := OfDevice(ds[d]);
        if Size(e) + 6 + rp >= BUFFER_SIZE {
          break;
        }
        if CompareDevice(q, needle, ds[d]) {
          SplitsStep(whole, es, e, PickDevices(ds[d + 1..], q, now, rp + |EncodeEntry(e)|, nrep + 1));
          rp := PutChosen(rbuf, rp, e, es);
          es, nrep := es + [e], nrep + 1;
        }
      }
      d := d + 1;
    }
    SplitsEnd(whole, es);
  }

  lemma NothingHeld(rbuf: array<Byte>)
    requires rbuf.Length == BUFFER_SIZE
    ensures Holds(rbuf, 1, [])
  {
  }

  method AddServices(rbuf: array<Byte>, rp0: nat, n0: nat, ss: seq<Service>, q: Query, ghost es0: seq<Entry>)
    returns (rp: nat, nrep: nat)
    requires Holds(rbuf, rp0, es0) && n0 == |es0| <= 255
    modifies rbuf
    ensures Holds(rbuf, rp, es0 + PickServices(ss, q, rp0, n0)) && nrep == n0 + |PickServices(ss, q, rp0, n0)|
  {
    hide EncodeEntry, EncodeEntries, ServiceMatches, Splits;
    rp, nrep := rp0, n0;
    ghost var whole := PickServices(ss, q, rp0, n0);
    ghost var es: seq<Entry> := [];
    var i := 0;
    assert ss[0..] == ss && es0 + es == es0;
    SplitsStart(whole);
    while i < |ss| && nrep < 255
      invariant i <= |ss| && Holds(rbuf, rp, es0 + es) && nrep == n0 + |es| <= 255
      invariant Splits(whole, es, PickServices(ss[i..], q, rp, nrep))
    {
      DropNext(ss, i);
      var e := OfService(ss[i]);
      if Size(e) + 6 + rp >= BUFFER_SIZE {
        break;
      }
      if ServiceMatches(q, ss[i]) {
        SplitsStep(whole, es, e, PickServices(ss[i + 1..], q, rp + |EncodeEntry(e)|, nrep + 1));
        rp := PutChosen(rbuf, rp, e, es0 + es);
        Assoc(es0, es, [e]);
        es, nrep := es + [e], nrep + 1;
      }
      i := i + 1;
    }
    SplitsEnd(whole, es);
  }

  /** The search branch of processRequestSub: the response fits in the buffer and is the encoding
      of the chosen entries. */
  method BuildResponse(ds: seq<Device>, ss: seq<Service>, q: Query, now: int) returns (response: seq<Byte>)
    ensures response == Response(Chosen(ds, ss, q, now))
    ensures |response| < 4096
  {
    hide PickDevices, PickServices, EncodeEntries;
    var rbuf := new Byte[BUFFER_SIZE](_ => 0);
    var rp, nrep := AddDevices(rbuf, ds, q, now);
    rp, nrep := AddServices(rbuf, rp, nrep, ss, q, PickDevices(ds, q, now, 1, 0));
    rbuf[0] := nrep;
    assert rbuf[..rp] == [nrep] + rbuf[1..rp];
    response := rbuf[..rp];
  }

  // ---------- what a request is answered with ----------

  /** The unexpired devices that a request is about. */
  function Matching(ds: seq<Device>, q: Query, now: int): seq<Entry> {
    if ds == [] then []
    else (if ds[0].t >= now && DeviceMatches(q, ds[0]) then [OfDevice(ds[0])] else []) + Matching(ds[1..], q, now)
  }

  function MatchingServices(ss: seq<Service>, q: Query): seq<Entry> {
    if ss == [] then []
    else (if ServiceMatches(q, ss[0]) then [OfService(ss[0])] else []) + MatchingServices(ss[1..], q)
  }

  lemma {:induction false} DevicesArePrefix(ds: seq<Device>, q: Query, now: int, used: nat, n: nat)
    ensures PickDevices(ds, q, now, used, n) <= Matching(ds, q, now)
    decreases |ds|
  {
    hide EncodeEntry, DeviceMatches, AllFit;
    if ds != [] && n < 255 {
      var e, rest := OfDevice(ds[0]), Matching(ds[1..], q, now);
      DevicesArePrefix(ds[1..], q, now, used, n);
      assert [] + rest == rest;
      if ds[0].t >= now && HasRoom(e, used) && DeviceMatches(q, ds[0]) {
        DevicesArePrefix(ds[1..], q, now, used + |EncodeEntry(e)|, n + 1);
        ConsPrefix(e, PickDevices(ds[1..], q, now, used + |EncodeEntry(e)|, n + 1), rest);
      }
    }
  }

  lemma ConsPrefix(e: Entry, a: seq<Entry>, b: seq<Entry>)
    requires a <= b
    ensures [e] + a <= [e] + b
  {
  }

  lemma {:induction false} ServicesArePrefix(ss: seq<Service>, q: Query, used: nat, n: nat)
    ensures PickServices(ss, q, used, n) <= MatchingServices(ss, q)
    decreases |ss|
  {
    hide EncodeEntry, ServiceMatches, AllFit;
    if ss != [] && n < 255 {
      var e, rest := OfService(ss[0]), MatchingServices(ss[1..], q);
      ServicesArePrefix(ss[1..], q, used, n);
      assert [] + rest == rest;
      if HasRoom(e, used) && ServiceMatches(q, ss[0]) {
        ServicesArePrefix(ss[1..], q, used + |EncodeEntry(e)|, n + 1);
        ConsPrefix(e, PickServices(ss[1..], q, used + |EncodeEntry(e)|, n + 1), rest);
      }
    }
  }

  /** The entries are a prefix of the matching unexpired devices, then one of the matching services. */
  lemma ChosenIsTwoPrefixes(ds: seq<Device>, ss: seq<Service>, q: Query, now: int)
    returns (a: seq<Entry>, b: seq<Entry>)
    ensures Chosen(ds, ss, q, now) == a + b
    ensures a <= Matching(ds, q, now) && b <= MatchingServices(ss, q)
  {
    hide PickDevices, PickServices, EncodeEntries, Matching, MatchingServices;
    a := PickDevices(ds, q, now, 1, 0);
    b := PickServices(ss, q, 1 + |EncodeEntries(a)|, |a|);
    DevicesArePrefix(ds, q, now, 1, 0);
    ServicesArePrefix(ss, q, 1 + |EncodeEntries(a)|, |a|);
  }

  /** Room that a list of devices or services takes at most. */
  function DeviceRoom(ds: seq<Device>): nat {
    if ds == [] then 0 else Size(OfDevice(ds[0])) + 6 + DeviceRoom(ds[1..])
  }

  function ServiceRoom(ss: seq<Service>): nat {
    if ss == [] then 0 else Size(OfService(ss[0])) + 6 + ServiceRoom(ss[1..])
  }

  lemma {:induction false} AllDevices(ds: seq<Device>, q: Query, now: int, used: nat, n: nat)
    requires n + |ds| <= 255 && used + DeviceRoom(ds) < BUFFER_SIZE
    ensures var es := PickDevices(ds, q, now, used, n);
            es == Matching(ds, q, now) && |es| <= |ds| && |EncodeEntries(es)| <= DeviceRoom(ds)
    decreases |ds|
  {
    hide EncodeEntry, EncodeEntries, DeviceMatches, AllFit, PickDevices, Matching;
    if ds == [] {
      NoDevices(q, now, used, n);
    } else {
      var e := OfDevice(ds[0]);
      var found := ds[0].t >= now && DeviceMatches(q, ds[0]);
      AllDevices(ds[1..], q, now, if found then used + |EncodeEntry(e)| else used, if found then n + 1 else n);
      DeviceRound(ds, q, now, used, n);
    }
  }

  lemma NoDevices(q: Query, now: int, used: nat, n: nat)
    ensures PickDevices([], q, now, used, n) == [] == Matching([], q, now) && EncodeEntries([]) == []
  {
  }

  /** One round of the loop over the devices, when there is room for this one. */
  lemma DeviceRound(ds: seq<Device>, q: Query, now: int, used: nat, n: nat)
    requires ds != [] && n < 255 && HasRoom(OfDevice(ds[0]), used)
    ensures var (e, found) := (OfDevice(ds[0]), ds[0].t >= now && DeviceMatches(q, ds[0]));
            var here := if found then [e] else [];
            var rest := PickDevices(ds[1..], q, now, if found then used + |EncodeEntry(e)| else used,
                                    if found then n + 1 else n);
            && PickDevices(ds, q, now, used, n) == here + rest
            && Matching(ds, q, now) == here + Matching(ds[1..], q, now)
            && |EncodeEntries(here + rest)| == (if found then |EncodeEntry(e)| else 0) + |EncodeEntries(rest)|
  {
    hide EncodeEntry, EncodeEntries, DeviceMatches, AllFit;
    var (e, found) := (OfDevice(ds[0]), ds[0].t >= now && DeviceMatches(q, ds[0]));
    var used', n' := if found then used + |EncodeEntry(e)| else used, if found then n + 1 else n;
    var rest := PickDevices(ds[1..], q, now, used', n');
    assert [] + rest == rest;
    if found {
      EncodeCons(e, rest);
    }
  }

  lemma EncodeCons(e: Entry, es: seq<Entry>)
    requires HasRoom(e, 0) && AllFit(es)
    ensures AllFit([e] + es) && EncodeEntries([e] + es) == EncodeEntry(e) + EncodeEntries(es)
  {
    hide EncodeEntry;
    assert ([e] + es)[1..] == es;
  }

  lemma {:induction false} AllOfServices(ss: seq<Service>, q: Query, used: nat, n: nat)
    requires n + |ss| <= 255 && used + ServiceRoom(ss) < BUFFER_SIZE
    ensures PickServices(ss, q, used, n) == MatchingServices(ss, q)
    decreases |ss|
  {
    hide EncodeEntry, ServiceMatches;
    if ss != [] {
      var e := OfService(ss[0]);
      var rest := MatchingServices(ss[1..], q);
      assert [] + rest == rest;
      if ServiceMatches(q, ss[0]) {
        AllOfServices(ss[1..], q, used + |EncodeEntry(e)|, n + 1);
      } else {
        AllOfServices(ss[1..], q, used, n);
      }
    }
  }

  /** When everything that is stored would fit in the buffer, everything that matches is answered. */
  lemma CompleteAnswer(ds: seq<Device>, ss: seq<Service>, q: Query, now: int)
    requires |ds| + |ss| <= 255 && 1 + DeviceRoom(ds) + ServiceRoom(ss) < 4096
    ensures Chosen(ds, ss, q, now) == Matching(ds, q, now) + MatchingServices(ss, q)
  {
    hide PickDevices, PickServices, EncodeEntries, Matching, MatchingServices;
    AllDevices(ds, q, now, 1, 0);
    var es := PickDevices(ds, q, now, 1, 0);
    AllOfServices(ss, q, 1 + |EncodeEntries(es)|, |es|);
  }

  /** The first matching device is answered first, if it and the unexpired ones before it have room. */
  lemma {:induction false} FirstDevice(ds: seq<Device>, q: Query, now: int, i: nat)
    requires i < |ds| && ds[i].t >= now && DeviceMatches(q, ds[i])
    requires forall k :: 0 <= k <= i && ds[k].t >= now ==> Size(OfDevice(ds[k])) + 7 < 4096
    requires forall k :: 0 <= k < i && ds[k].t >= now ==> !DeviceMatches(q, ds[k])
    ensures var es := PickDevices(ds, q, now, 1, 0); es != [] && es[0] == OfDevice(ds[i])
    decreases |ds|
  {
    hide EncodeEntry, DeviceMatches;
    if i > 0 {
      FirstDevice(ds[1..], q, now, i - 1);
    }
  }

  lemma FirstMatch(ds: seq<Device>, ss: seq<Service>, q: Query, now: int, i: nat)
    requires i < |ds| && ds[i].t >= now && DeviceMatches(q, ds[i])
    requires forall k :: 0 <= k <= i && ds[k].t >= now ==> Size(OfDevice(ds[k])) + 7 < 4096
    requires forall k :: 0 <= k < i && ds[k].t >= now ==> !DeviceMatches(q, ds[k])
    ensures var es := Chosen(ds, ss, q, now); es != [] && es[0] == OfDevice(ds[i])
  {
    hide PickDevices, PickServices, EncodeEntries, DeviceMatches;
    FirstDevice(ds, q, now, i);
  }

  /** The first unexpired device that the room test refuses ends the list of devices, whether it matches or
      not; the services are still gone through. */
  lemma {:induction false} DevicesEnd(ds: seq<Device>, d: Device, rest: seq<Device>, q: Query, now: int, used: nat,
                                      n: nat)
    requires d.t >= now
    requires used + |EncodeEntries(PickDevices(ds, q, now, used, n))| + |d.location| + |d.nt| + |d.usn| + 6 >= 4096
    ensures PickDevices(ds + ([d] + rest), q, now, used, n) == PickDevices(ds, q, now, used, n)
    decreases |ds|
  {
    hide EncodeEntry, EncodeEntries, DeviceMatches;
    var all := ds + ([d] + rest);
    if ds == [] {
      NoDevices(q, now, used, n);
      assert all == [d] + rest && all[0] == d;
    } else {
      TailAppend(ds, [d] + rest);
      assert all[0] == ds[0];
      var e := OfDevice(ds[0]);
      if n < 255 && (ds[0].t < now || HasRoom(e, used)) {
        var found := ds[0].t >= now && DeviceMatches(q, ds[0]);
        if found {
          EncodeCons(e, PickDevices(ds[1..], q, now, used + |EncodeEntry(e)|, n + 1));
        }
        var used' := if found then used + |EncodeEntry(e)| else used;
        DevicesEnd(ds[1..], d, rest, q, now, used', if found then n + 1 else n);
      }
    }
  }

  /** The same for services. */
  lemma {:induction false} ServicesEnd(ss: seq<Service>, s: Service, rest: seq<Service>, q: Query, used: nat, n: nat)
    requires used + |EncodeEntries(PickServices(ss, q, used, n))| + |s.location| + |s.st| + |s.usn| + 6 >= 4096
    ensures PickServices(ss + ([s] + rest), q, used, n) == PickServices(ss, q, used, n)
    decreases |ss|
  {
    hide EncodeEntry, EncodeEntries, ServiceMatches;
    var all := ss + ([s] + rest);
    if ss == [] {
      NoDevices(q, 0, used, n);
      assert all == [s] + rest && all[0] == s;
    } else {
      TailAppend(ss, [s] + rest);
      assert all[0] == ss[0];
      var e := OfService(ss[0]);
      if n < 255 && HasRoom(e, used) {
        var found := ServiceMatches(q, ss[0]);
        if found {
          EncodeCons(e, PickServices(ss[1..], q, used + |EncodeEntry(e)|, n + 1));
        }
        ServicesEnd(ss[1..], s, rest, q, if found then used + |EncodeEntry(e)| else used, if found then n + 1 else n);
      }
    }
  }

  // ---------- what a search finds ----------

  /** A search by USN finds the devices whose USN begins with the string; a longer string is compared
      with what is stored behind the USN. */
  lemma UsnSearch(str: Text, d: Device)
    ensures DeviceMatches(ByUsn(str), d) <==> str <= d.usn + d.location
    ensures |str| <= |d.usn| ==> (DeviceMatches(ByUsn(str), d) <==> str <= d.usn)
  {
    if |str| <= |d.usn| {
      assert (d.usn + d.location)[..|str|] == d.usn[..|str|];
    }
  }

  lemma {:induction false} BaseLengthIs(base: Text, version: Text, k: nat)
    requires k <= |version| && forall i :: 0 <= i < |version| ==> 0x30 <= version[i] <= 0x39
    requires base != [] ==> !(0x30 <= base[|base| - 1] <= 0x39)
    ensures BaseLength(base + version, |base| + k) == |base|
  {
    var str := base + version;
    if k > 0 {
      assert str[|base| + k - 1] == version[k - 1];
      BaseLengthIs(base, version, k - 1);
    } else if base != [] {
      assert str[|base| - 1] == base[|base| - 1];
    }
  }

  /** A search by type finds the devices of that type in any version. */
  lemma TypeSearch(base: Text, version: Text, d: Device)
    requires forall k :: 0 <= k < |version| ==> 0x30 <= version[k] <= 0x39
    requires base != [] ==> !(0x30 <= base[|base| - 1] <= 0x39)
    ensures DeviceMatches(ByType(base + version), d) <==> base <= d.nt + d.usn + d.location
    ensures |base| <= |d.nt| ==> (DeviceMatches(ByType(base + version), d) <==> base <= d.nt)
  {
    var str := base + version;
    BaseLengthIs(base, version, |version|);
    assert str[..|base|] == base;
    if |base| <= |d.nt| {
      assert (d.nt + d.usn + d.location)[..|base|] == d.nt[..|base|];
    }
  }

  /** A service is found by a beginning of its type or USN; a string that ends in a zero byte must be
      all of it. */
  lemma ServiceSearch(str: Text, s: Service)
    requires forall k :: 0 <= k < |str| ==> str[k] != 0
    ensures ServiceMatches(ByType(str), s) <==> str <= s.st
    ensures ServiceMatches(ByUsn(str), s) <==> str <= s.usn
    ensures forall more: Text :: ServiceMatches(ByType(str + ([0] + more)), s) <==> s.st == str
    ensures forall more: Text :: ServiceMatches(ByUsn(str + ([0] + more)), s) <==> s.usn == str
  {
    hide FirstZero;
    NoZero(str);
    forall more: Text
      ensures FirstZero(str + ([0] + more)) == |str| && (str + ([0] + more))[..|str|] == str
    {
      ZeroAt(str, more);
    }
  }

  lemma NoZero(str: Text)
    requires forall k :: 0 <= k < |str| ==> str[k] != 0
    ensures FirstZero(str) == |str|
  {
  }

  lemma ZeroAt(str: Text, more: Text)
    requires forall k :: 0 <= k < |str| ==> str[k] != 0
    ensures FirstZero(str + ([0] + more)) == |str| && (str + ([0] + more))[..|str|] == str
  {
    hide FirstZero;
    var all := str + ([0] + more);
    assert all[|str|] == 0 && forall k :: 0 <= k < |str| ==> all[k] == str[k];
  }

  function Unexpired(ds: seq<Device>, now: int): seq<Entry> {
    if ds == [] then []
    else (if ds[0].t < now then [] else [OfDevice(ds[0])]) + Unexpired(ds[1..], now)
  }

  function AllServices(ss: seq<Service>): seq<Entry> {
    if ss == [] then [] else [OfService(ss[0])] + AllServices(ss[1..])
  }

  lemma EverythingMatches(ds: seq<Device>, ss: seq<Service>, now: int)
    ensures Matching(ds, Everything, now) == Unexpired(ds, now) && MatchingServices(ss, Everything) == AllServices(ss)
  {
  }

  lemma EverythingIsTwoPrefixes(ds: seq<Device>, ss: seq<Service>, now: int) returns (a: seq<Entry>, b: seq<Entry>)
    ensures Chosen(ds, ss, Everything, now) == a + b
    ensures a <= Unexpired(ds, now) && b <= AllServices(ss)
  {
    a, b := ChosenIsTwoPrefixes(ds, ss, Everything, now);
    EverythingMatches(ds, ss, now);
  }

  // ---------- reading a response ----------

  datatype Item = Reply(entries: seq<Entry>) | Note(kind: Byte, entries: seq<Entry>)

  /** One length-prefixed string; None when the data ends too early. */
  function ReadString(b: seq<Byte>, p: nat): (r: Option<(Text, nat)>)
    requires p <= |b|
    ensures r.Some? ==> p < r.value.1 <= |b|
  {
    if p == |b| then None
    else
      var (l, q) := DecodeFrom(b, p, 0);
      if q + l > |b| then None else Some((b[q..q + l], q + l))
  }

  function ReadEntries(b: seq<Byte>, p: nat, count: nat): (r: Option<(seq<Entry>, nat)>)
    requires p <= |b|
    ensures r.Some? ==> p <= r.value.1 <= |b|
    decreases count
  {
    if count == 0 then Some(([], p))
    else match ReadEntry(b, p)
      case None => None
      case Some((e, q)) =>
        match ReadEntries(b, q, count - 1)
        case None => None
        case Some((es, end)) => Some(([e] + es, end))
  }

  function ReadEntry(b: seq<Byte>, p: nat): (r: Option<(Entry, nat)>)
    requires p <= |b|
    ensures r.Some? ==> p < r.value.1 <= |b|
  {
    match ReadString(b, p)
    case None => None
    case Some((location, p1)) =>
      match ReadString(b, p1)
      case None => None
      case Some((nt, p2)) =>
        match ReadString(b, p2)
        case None => None
        case Some((usn, p3)) => Some((Entry(location, nt, usn), p3))
  }

  /** The data as a sequence of responses and notifications (first byte 255). */
  function ReadItems(b: seq<Byte>, p: nat): (r: Option<seq<Item>>)
    requires p <= |b|
    ensures r.Some? && p < |b| ==> |r.value| > 0 && (r.value[0].Note? <==> b[p] == 255)
    decreases |b| - p
  {
    if p == |b| then Some([])
    else if b[p] == 255 then
      if p + 3 > |b| then None
      else match ReadEntries(b, p + 3, b[p + 2])
        case None => None
        case Some((es, q)) =>
          (match ReadItems(b, q)
           case None => None
           case Some(items) => Some([Note(b[p + 1], es)] + items))
    else match ReadEntries(b, p + 1, b[p])
      case None => None
      case Some((es, q)) =>
        (match ReadItems(b, q)
         case None => None
         case Some(items) => Some([Reply(es)] + items))
  }

  // ---------- what printresponse does ----------

  /** The result of a step: a value, the end of the data where more was expected, or an access outside
      the data, which nothing in the code prevents. */
  datatype Reading<+T> = Got(value: T) | Short | Outside

  const INT_LIMIT: nat := 0x8000_0000   // lengths are decoded into a signed 32-bit variable

  /** The data ends with a byte that announces another one. */
  predicate Unfinished(b: seq<Byte>, p: nat)
    requires p < |b|
  {
    var (l, q) := DecodeFrom(b, p, 0);
    q == |b| && b[q - 1] >= 128 && l < GUARD
  }

  /** The length turns negative, so that the test for the end passes and the cursor moves backwards. */
  predicate TooLarge(b: seq<Byte>, p: nat)
    requires p < |b|
  {
    DecodeFrom(b, p, 0).0 >= INT_LIMIT
  }

  /** DECODELENGTH on a signed variable and without a limit. */
  function GetLength(b: seq<Byte>, p: nat): (r: Reading<(nat, nat)>)
    requires p < |b|
    ensures r.Got? ==> p < r.value.1 <= |b|
  {
    if Unfinished(b, p) || TooLarge(b, p) then Outside else Got(DecodeFrom(b, p, 0))
  }

  function GetString(b: seq<Byte>, p: nat): (r: Reading<(Text, nat)>)
    requires p <= |b|
    ensures r.Got? ==> p < r.value.1 <= |b|
  {
    if p == |b| then Short
    else match GetLength(b, p)
      case Short => Short
      case Outside => Outside
      case Got((l, q)) => if q + l > |b| then Short else Got((b[q..q + l], q + l))
  }

  function GetEntry(b: seq<Byte>, p: nat): (r: Reading<(Entry, nat)>)
    requires p <= |b|
    ensures r.Got? ==> p < r.value.1 <= |b|
  {
    match GetString(b, p)
    case Short => Short
    case Outside => Outside
    case Got((location, p1)) =>
      match GetString(b, p1)
      case Short => Short
      case Outside => Outside
      case Got((nt, p2)) =>
        match GetString(b, p2)
        case Short => Short
        case Outside => Outside
        case Got((usn, p3)) => Got((Entry(location, nt, usn), p3))
  }

  function GetEntries(b: seq<Byte>, p: nat, count: nat): (r: Reading<(seq<Entry>, nat)>)
    requires p <= |b|
    ensures r.Got? ==> p <= r.value.1 <= |b|
    decreases count
  {
    if count == 0 then Got(([], p))
    else match GetEntry(b, p)
      case Short => Short
      case Outside => Outside
      case Got((e, q)) => ConsEntry(e, GetEntries(b, q, count - 1))
  }

  function ConsEntry(e: Entry, rest: Reading<(seq<Entry>, nat)>): (r: Reading<(seq<Entry>, nat)>) {
    match rest
    case Short => Short
    case Outside => Outside
    case Got((es, end)) => Got(([e] + es, end))
  }

  /** The first byte of an item tells how many entries follow; 255 marks a notification, whose second
      and third byte are read without a test. */
  function GetItems(b: seq<Byte>, p: nat): (r: Reading<seq<Item>>)
    requires p <= |b|
    decreases |b| - p
  {
    if p == |b| then Got([])
    else if b[p] == 255 && p + 3 > |b| then Outside
    else
      var start := if b[p] == 255 then p + 3 else p + 1;
      match GetEntries(b, start, if b[p] == 255 then b[p + 2] else b[p])
      case Short => Short
      case Outside => Outside
      case Got((es, q)) => ConsItem(if b[p] == 255 then Note(b[p + 1], es) else Reply(es), GetItems(b, q))
  }

  function ConsItem(item: Item, rest: Reading<seq<Item>>): (r: Reading<seq<Item>>) {
    match rest
    case Short => Short
    case Outside => Outside
    case Got(items) => Got([item] + items)
  }

  method DecodeInt(b: seq<Byte>, start: nat) returns (r: Reading<(nat, nat)>)
    requires start < |b|
    ensures r == GetLength(b, start)
  {
    var l: nat, p: nat := 0, start;
    while true
      invariant p <= |b| && l < GUARD && (p > start ==> b[p - 1] >= 128)
      invariant DecodeFrom(b, p, l) == DecodeFrom(b, start, 0)
      decreases |b| - p
    {
      if p == |b| {
        return Outside;   // the next byte read is not part of the data
      }
      var c := b[p];
      l := l * 128 + c % 128;
      p := p + 1;
      if l >= INT_LIMIT {
        return Outside;   // signed overflow
      }
      if !(c >= 128 && l < GUARD) {
        return Got((l, p));
      }
    }
  }

  method PrintString(resp: seq<Byte>, start: nat) returns (r: Reading<(Text, nat)>)
    requires start <= |resp|
    ensures r == GetString(resp, start)
  {
    hide GetLength;
    if start >= |resp| {
      return Short;
    }
    var code := DecodeInt(resp, start);
    if !code.Got? {
      return if code.Short? then Short else Outside;
    }
    var l, p := code.value.0, code.value.1;
    if p + l > |resp| {
      return Short;
    }
    return Got((resp[p..p + l], p + l));
  }

  method PrintEntry(resp: seq<Byte>, start: nat) returns (r: Reading<(Entry, nat)>)
    requires start <= |resp|
    ensures r == GetEntry(resp, start)
  {
    hide GetString;
    var a := PrintString(resp, start);
    if !a.Got? {
      return if a.Short? then Short else Outside;
    }
    var b := PrintString(resp, a.value.1);
    if !b.Got? {
      return if b.Short? then Short else Outside;
    }
    var c := PrintString(resp, b.value.1);
    if !c.Got? {
      return if c.Short? then Short else Outside;
    }
    return Got((Entry(a.value.0, b.value.0, c.value.0), c.value.1));
  }

  /** The inner loop of printresponse: the entries of one response or notification. */
  method PrintEntries(resp: seq<Byte>, start: nat, nresp: nat) returns (r: Reading<(seq<Entry>, nat)>)
    requires start <= |resp|
    ensures r == GetEntries(resp, start, nresp)
  {
    hide GetEntry;
    var es: seq<Entry>, p: nat, i: nat := [], start, 0;
    ghost var whole := GetEntries(resp, start, nresp);
    assert Continues(whole, es, whole) by {
      if whole.Got? {
        assert [] + whole.value.0 == whole.value.0;
      }
    }
    while i < nresp
      invariant i <= nresp && p <= |resp|
      invariant Continues(whole, es, GetEntries(resp, p, nresp - i))
    {
      var one := PrintEntry(resp, p);
      if !one.Got? {
        return if one.Short? then Short else Outside;
      }
      ContinuesStep(whole, es, one.value.0, GetEntries(resp, one.value.1, nresp - i - 1));
      es, p, i := es + [one.value.0], one.value.1, i + 1;
    }
    assert es + [] == es;
    return Got((es, p));
  }

  /** Reading the rest would complete the entries already read to what a full read yields. */
  ghost predicate Continues(whole: Reading<(seq<Entry>, nat)>, es: seq<Entry>, rest: Reading<(seq<Entry>, nat)>) {
    match rest
    case Got((more, end)) => whole == Got((es + more, end))
    case _ => whole == rest
  }

  lemma ContinuesStep(whole: Reading<(seq<Entry>, nat)>, es: seq<Entry>, e: Entry, next: Reading<(seq<Entry>, nat)>)
    requires Continues(whole, es, ConsEntry(e, next))
    ensures Continues(whole, es + [e], next)
  {
    if next.Got? {
      Assoc(es, [e], next.value.0);
    }
  }

  /** printresponse: Short stands for the "truncated response" warning. */
  method PrintResponse(resp: seq<Byte>) returns (r: Reading<seq<Item>>)
    ensures r == GetItems(resp, 0)
  {
    hide GetEntries;
    var items: seq<Item>, p: nat := [], 0;
    ghost var whole := GetItems(resp, 0);
    assert GoesOn(whole, items, whole) by {
      if whole.Got? {
        assert [] + whole.value == whole.value;
      }
    }
    while p < |resp|
      invariant p <= |resp|
      invariant GoesOn(whole, items, GetItems(resp, p))
      decreases |resp| - p
    {
      var nresp: nat, kind: Byte, start := resp[p], 0, p + 1;
      var note := nresp == 0xff;
      if note {
        if p + 3 > |resp| {
          return Outside;
        }
        kind, nresp, start := resp[p + 1], resp[p + 2], p + 3;
      }
      var one := PrintEntries(resp, start, nresp);
      if !one.Got? {
        return if one.Short? then Short else Outside;
      }
      var item := if note then Note(kind, one.value.0) else Reply(one.value.0);
      GoesOnStep(whole, items, item, GetItems(resp, one.value.1));
      items, p := items + [item], one.value.1;
    }
    assert items + [] == items;
    return Got(items);
  }

  ghost predicate GoesOn(whole: Reading<seq<Item>>, items: seq<Item>, rest: Reading<seq<Item>>) {
    match rest
    case Got(more) => whole == Got(items + more)
    case _ => whole == rest
  }

  lemma GoesOnStep(whole: Reading<seq<Item>>, items: seq<Item>, item: Item, next: Reading<seq<Item>>)
    requires GoesOn(whole, items, ConsItem(item, next))
    ensures GoesOn(whole, items + [item], next)
  {
    if next.Got? {
      Assoc(items, [item], next.value);
    }
  }

  // ---------- when printresponse stays inside the data ----------

  /** A place where a reader of the format comes by: the length of a string, or the head of an item. */
  datatype Spot = LengthAt(pos: nat) | HeadAt(pos: nat)

  predicate Overruns(b: seq<Byte>, s: Spot) {
    s.pos < |b| &&
    match s
    case LengthAt(p) => Unfinished(b, p) || TooLarge(b, p)
    case HeadAt(p) => b[p] == 255 && p + 3 > |b|
  }

  predicate SomeOverrun(b: seq<Byte>, spots: seq<Spot>) {
    exists k :: 0 <= k < |spots| && Overruns(b, spots[k])
  }

  function EntrySpots(b: seq<Byte>, p: nat): seq<Spot>
    requires p <= |b|
  {
    [LengthAt(p)] +
    match ReadString(b, p)
    case None => []
    case Some((_, p1)) =>
      [LengthAt(p1)] +
      match ReadString(b, p1)
      case None => []
      case Some((_, p2)) => [LengthAt(p2)]
  }

  function EntriesSpots(b: seq<Byte>, p: nat, count: nat): seq<Spot>
    requires p <= |b|
    decreases count
  {
    if count == 0 then []
    else
      EntrySpots(b, p) +
      match ReadEntry(b, p)
      case None => []
      case Some((_, q)) => EntriesSpots(b, q, count - 1)
  }

  /** All places that a reader comes by, in order, up to where the data ends too early. */
  function Spots(b: seq<Byte>, p: nat): seq<Spot>
    requires p <= |b|
    decreases |b| - p
  {
    if p == |b| then []
    else if b[p] == 255 && p + 3 > |b| then [HeadAt(p)]
    else
      var start, count := if b[p] == 255 then p + 3 else p + 1, if b[p] == 255 then b[p + 2] else b[p];
      EntriesSpots(b, start, count) +
      match ReadEntries(b, start, count)
      case None => []
      case Some((_, q)) => Spots(b, q)
  }

  function Lift<T>(o: Option<T>): Reading<T> {
    match o
    case None => Short
    case Some(x) => Got(x)
  }

  lemma OverrunConcat(b: seq<Byte>, x: seq<Spot>, y: seq<Spot>)
    ensures SomeOverrun(b, x + y) <==> SomeOverrun(b, x) || SomeOverrun(b, y)
  {
    assert forall k :: 0 <= k < |x| ==> (x + y)[k] == x[k];
    assert forall k :: 0 <= k < |y| ==> (x + y)[|x| + k] == y[k];
  }

  lemma OverrunOne(b: seq<Byte>, s: Spot)
    ensures SomeOverrun(b, [s]) <==> Overruns(b, s)
    ensures !SomeOverrun(b, [])
  {
    assert [s][0] == s;
  }

  lemma StringInside(b: seq<Byte>, p: nat)
    requires p <= |b|
    ensures GetString(b, p) == if Overruns(b, LengthAt(p)) then Outside else Lift(ReadString(b, p))
  {
  }

  lemma EntryInside(b: seq<Byte>, p: nat)
    requires p <= |b|
    ensures GetEntry(b, p) == if SomeOverrun(b, EntrySpots(b, p)) then Outside else Lift(ReadEntry(b, p))
  {
    hide GetString, ReadString, Overruns, SomeOverrun;
    StringInside(b, p);
    OverrunOne(b, LengthAt(p));
    var r1 := ReadString(b, p);
    if r1.Some? {
      var p1 := r1.value.1;
      StringInside(b, p1);
      OverrunOne(b, LengthAt(p1));
      var r2 := ReadString(b, p1);
      if r2.Some? {
        var p2 := r2.value.1;
        StringInside(b, p2);
        OverrunOne(b, LengthAt(p2));
        OverrunConcat(b, [LengthAt(p1)], [LengthAt(p2)]);
        OverrunConcat(b, [LengthAt(p)], [LengthAt(p1)] + [LengthAt(p2)]);
      } else {
        assert [LengthAt(p1)] + [] == [LengthAt(p1)];
        OverrunConcat(b, [LengthAt(p)], [LengthAt(p1)]);
      }
    } else {
      assert [LengthAt(p)] + [] == [LengthAt(p)];
    }
  }

  lemma {:induction false} EntriesInside(b: seq<Byte>, p: nat, count: nat)
    requires p <= |b|
    ensures GetEntries(b, p, count) == if SomeOverrun(b, EntriesSpots(b, p, count))
      then Outside else Lift(ReadEntries(b, p, count))
    decreases count
  {
    hide GetEntry, ReadEntry, EntrySpots, SomeOverrun;
    OverrunOne(b, HeadAt(0));
    if count > 0 {
      EntryInside(b, p);
      var one := ReadEntry(b, p);
      if one.Some? {
        EntriesInside(b, one.value.1, count - 1);
        OverrunConcat(b, EntrySpots(b, p), EntriesSpots(b, one.value.1, count - 1));
      } else {
        assert EntrySpots(b, p) + [] == EntrySpots(b, p);
      }
    }
  }

  /** printresponse leaves the data exactly when one of the places it comes by holds a length that has
      no end or does not fit a signed variable, or an incomplete notification head; otherwise it prints
      what the format says. */
  lemma {:induction false} StaysInside(b: seq<Byte>, p: nat)
    requires p <= |b|
    ensures GetItems(b, p) == if SomeOverrun(b, Spots(b, p)) then Outside else Lift(ReadItems(b, p))
    decreases |b| - p
  {
    hide GetEntries, ReadEntries, EntriesSpots, SomeOverrun, Unfinished, TooLarge;
    OverrunOne(b, HeadAt(p));
    if p < |b| && !(b[p] == 255 && p + 3 > |b|) {
      var start, count := if b[p] == 255 then p + 3 else p + 1, if b[p] == 255 then b[p + 2] else b[p];
      EntriesInside(b, start, count);
      var one := ReadEntries(b, start, count);
      if one.Some? {
        StaysInside(b, one.value.1);
        OverrunConcat(b, EntriesSpots(b, start, count), Spots(b, one.value.1));
      } else {
        assert EntriesSpots(b, start, count) + [] == EntriesSpots(b, start, count);
      }
    }
  }

  /** For instance: a length of 2^31. */
  lemma OutsideExample()
    ensures GetItems([1, 0x88, 0x80, 0x80, 0x80, 0], 0) == Outside
  {
    hide DecodeFrom, Unfinished;
    var b: seq<Byte> := [1, 0x88, 0x80, 0x80, 0x80, 0];
    DecodeStep(b, 1, 0);
    DecodeStep(b, 2, 8);
    DecodeStep(b, 3, 0x400);
    DecodeStep(b, 4, 0x2_0000);
    DecodeStep(b, 5, 0x100_0000);
    assert GetLength(b, 1) == Outside;
    assert GetEntries(b, 1, 1) == Outside;
  }

  lemma DecodeStep(b: seq<Byte>, p: nat, acc: nat)
    requires p < |b| && acc < GUARD
    ensures var n := acc * 128 + b[p] % 128;
            DecodeFrom(b, p, acc) == if b[p] >= 128 && n < GUARD then DecodeFrom(b, p + 1, n) else (n, p + 1)
  {
  }

  // ---------- round trip ----------

  lemma ReadBackString(b: seq<Byte>, p: nat, s: Text)
    requires |s| < INT_LIMIT && At(b, p, Prefixed(s))
    ensures GetString(b, p) == Got((s, p + |Prefixed(s)|))
  {
    hide DecodeFrom, Encode;
    ReadPrefixed(b, p, s);
    LastByte(b, p, s);
  }

  /** The last byte of a length does not announce another one. */
  lemma LastByte(b: seq<Byte>, p: nat, s: Text)
    requires |s| < WORD && At(b, p, Prefixed(s))
    ensures var q := p + |Encode(|s|)|; q <= |b| && b[q - 1] < 128
  {
    var q, code := p + |Encode(|s|)|, Prefixed(s);
    assert code[q - p - 1] == |s| % 128;
    assert b[p..p + |code|][q - p - 1] == b[q - 1];
  }

  lemma ReadBackEntry(b: seq<Byte>, p: nat, e: Entry)
    requires HasRoom(e, 0) && At(b, p, EncodeEntry(e))
    ensures GetEntry(b, p) == Got((e, p + |EncodeEntry(e)|))
  {
    hide At, Prefixed, GetString;
    var x := Prefixed(e.location);
    var y := Prefixed(e.nt);
    var z := Prefixed(e.usn);
    AtSplit(b, p, x + y, z);
    AtSplit(b, p, x, y);
    ReadBackString(b, p, e.location);
    ReadBackString(b, p + |x|, e.nt);
    ReadBackString(b, p + |x| + |y|, e.usn);
  }

  lemma {:induction false} ReadBackEntries(b: seq<Byte>, p: nat, es: seq<Entry>)
    requires AllFit(es) && At(b, p, EncodeEntries(es))
    ensures GetEntries(b, p, |es|) == Got((es, p + |EncodeEntries(es)|))
    decreases |es|
  {
    hide EncodeEntry, GetEntry, At;
    if es != [] {
      AtSplit(b, p, EncodeEntry(es[0]), EncodeEntries(es[1..]));
      ReadBackEntry(b, p, es[0]);
      ReadBackEntries(b, p + |EncodeEntry(es[0])|, es[1..]);
      assert [es[0]] + es[1..] == es;
    } else {
      AtIs(b, p, []);
    }
  }

  /** A client reads back exactly the entries, unless there are 255 of them: then the count is taken
      for the notification mark. */
  lemma ResponseRoundTrip(es: seq<Entry>)
    requires AllFit(es) && |es| <= 255
    ensures GetItems(Response(es), 0) == Got([Reply(es)]) <==> |es| < 255
    ensures |es| < 255 ==> ReadItems(Response(es), 0) == Some([Reply(es)])
  {
    hide EncodeEntries, GetEntries, SomeOverrun, Spots, ReadItems;
    var b := Response(es);
    var body := EncodeEntries(es);
    assert b[0] == |es|;
    if |es| < 255 {
      assert b[1..1 + |body|] == body;
      ReadBackEntries(b, 1, es);
      assert 1 + |body| == |b|;
      assert [Reply(es)] + [] == [Reply(es)];
      StaysInside(b, 0);
    } else {
      NoteFirst(b);
    }
  }

  lemma NoteFirst(b: seq<Byte>)
    requires b != [] && b[0] == 255
    ensures var r := GetItems(b, 0); r.Got? ==> |r.value| > 0 && r.value[0].Note?
  {
    hide GetEntries;
  }
}
