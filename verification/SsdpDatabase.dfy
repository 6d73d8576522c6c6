/** The device and service lists of minissdpd and the notifications their changes cause. */
module SsdpDatabase {
  import opened Wrappers
  import opened CodeLength
  import opened SeqTools

  type Text = seq<Byte>

  /** A device record, or the announcement that creates or refreshes one; t is its validity time. */
  datatype Device = Device(nt: Text, usn: Text, location: Text, t: int)
  {
    function Key(): Key { DeviceKey(nt, usn) }
  }

  datatype Service = Service(st: Text, usn: Text, server: Text, location: Text)
  {
    function Key(): Key { ServiceKey(st, usn) }
  }

  datatype Key = DeviceKey(nt: Text, usn: Text) | ServiceKey(st: Text, usn: Text)

  datatype Notification = New(key: Key) | Removed(key: Key)

  datatype Db = Db(devices: seq<Device>, services: seq<Service>, log: seq<Notification>)

  /** Events; `mem` tells whether the allocation that the event may need succeeds. */
  datatype Op = Update(announced: Device, mem: bool) | Remove(nt: Text, usn: Text) | Submit(service: Service)

  // ---------- list operations ----------

  function FindDevice(ds: seq<Device>, key: Key): (i: nat)
    ensures i <= |ds| && (i < |ds| ==> ds[i].Key() == key)
    ensures forall k :: 0 <= k < i ==> ds[k].Key() != key
  {
    if ds == [] || ds[0].Key() == key then 0 else 1 + FindDevice(ds[1..], key)
  }

  function FindService(ss: seq<Service>, key: Key): (i: nat)
    ensures i <= |ss| && (i < |ss| ==> ss[i].Key() == key)
    ensures forall k :: 0 <= k < i ==> ss[k].Key() != key
  {
    if ss == [] || ss[0].Key() == key then 0 else 1 + FindService(ss[1..], key)
  }

  /** The new location is written over the old one; only a longer one changes the stored length. */
  function StoredLocation(old_: Text, new_: Text): Text {
    if |new_| > |old_| then new_ else new_ + old_[|new_|..]
  }

  lemma LocationIsReplaced(old_: Text, new_: Text)
    ensures StoredLocation(old_, new_) == new_ <==> |old_| <= |new_|
  {
    if |old_| <= |new_| {
      assert |new_| == |old_| ==> new_ + [] == new_;
    } else {
      assert |StoredLocation(old_, new_)| == |old_|;
    }
  }

  function Refreshed(d: Device, announced: Device): Device {
    Device(d.nt, d.usn, StoredLocation(d.location, announced.location), announced.t)
  }

  /** An announcement that needs a larger record for which there is no memory. */
  predicate LosesDevice(db: Db, op: Op) {
    op.Update? && !op.mem &&
    var i := FindDevice(db.devices, op.announced.Key());
    i < |db.devices| && |op.announced.location| > |db.devices[i].location|
  }

  predicate IsNew(db: Db, s: Service) {
    FindService(db.services, s.Key()) == |db.services|
  }

  function Step(db: Db, op: Op): Db {
    match op
    case Update(h, mem) =>
      var i := FindDevice(db.devices, h.Key());
      if LosesDevice(db, op) then db.(devices := Cut(db.devices, i))
      else if i < |db.devices| then db.(devices := db.devices[i := Refreshed(db.devices[i], h)])
      else if mem then db.(devices := [h] + db.devices, log := db.log + [New(h.Key())])
      else db
    case Remove(nt, usn) =>
      var i := FindDevice(db.devices, DeviceKey(nt, usn));
      if i < |db.devices| then
        db.(devices := Cut(db.devices, i), log := db.log + [Removed(DeviceKey(nt, usn))])
      else db
    case Submit(s) =>
      var i := FindService(db.services, s.Key());
      if i < |db.services| then db.(services := db.services[i := s])
      else db.(services := [s] + db.services, log := db.log + [New(s.Key())])
  }

  function Run(db: Db, ops: seq<Op>): Db
    decreases |ops|
  {
    if ops == [] then db else Run(Step(db, ops[0]), ops[1..])
  }

  const EMPTY := Db([], [], [])

  /** The lists in memory, with the code that changes them. */
  class Database {
    var devices: seq<Device>
    var services: seq<Service>
    ghost var log: seq<Notification>

    ghost function View(): Db
      reads this
    {
      Db(devices, services, log)
    }

    constructor ()
      ensures View() == EMPTY
    {
      devices, services, log := [], [], [];
    }

    /** sendNotifications, as far as the record of what is announced goes. */
    method Notify(ghost n: Notification)
      modifies this`log
      ensures log == old(log) + [n]
    {
      log := log + [n];
    }

    /** The list walk shared by the two device operations. */
    method Locate(nt: Text, usn: Text) returns (p: nat)
      ensures p == FindDevice(devices, DeviceKey(nt, usn))
    {
      p := 0;
      while p < |devices| && !(devices[p].nt == nt && devices[p].usn == usn)
        invariant p <= |devices|
        invariant FindDevice(devices, DeviceKey(nt, usn)) == p + FindDevice(devices[p..], DeviceKey(nt, usn))
      {
        assert devices[p..][1..] == devices[p + 1..];
        p := p + 1;
      }
    }

    /** updateDevice: 0 for an update, 1 for a new device, -1 without memory for a new one. */
    method UpdateDevice(headers: Device, mem: bool) returns (r: int)
      modifies this
      ensures View() == Step(old(View()), Update(headers, mem))
      ensures r == 0 <==> FindDevice(old(devices), headers.Key()) < |old(devices)|
      ensures r == 1 <==> log != old(log)
      ensures r == 1 <==> mem && Lookup(old(devices), headers.Key()).None?
    {
      var p := Locate(headers.nt, headers.usn);
      if p < |devices| {
        var d := devices[p];
        d := d.(t := headers.t);
        if |headers.location| > |d.location| {
          if !mem {
            devices := Cut(devices, p);
            return 0;
          }
          d := d.(location := headers.location);
        } else {
          d := d.(location := headers.location + d.location[|headers.location|..]);
        }
        devices := devices[p := d];
        return 0;
      }
      if !mem {
        return -1;
      }
      devices := [headers] + devices;
      Notify(New(headers.Key()));
      return 1;
    }

    /** removeDevice: -1 when a device was removed. */
    method RemoveDevice(nt: Text, usn: Text) returns (r: int)
      modifies this
      ensures View() == Step(old(View()), Remove(nt, usn))
      ensures r == if log != old(log) then -1 else 0
    {
      var p := Locate(nt, usn);
      if p < |devices| {
        Notify(Removed(DeviceKey(nt, usn)));
        devices := Cut(devices, p);
        return -1;
      }
      return 0;
    }

    /** The end of a SUBMIT request: an existing service is updated, a new one is announced. */
    method SubmitService(s: Service) returns (isNew: bool)
      modifies this
      ensures View() == Step(old(View()), Submit(s))
      ensures isNew <==> IsNew(old(View()), s)
    {
      var j := 0;
      while j < |services| && !(s.usn == services[j].usn && s.st == services[j].st)
        invariant j <= |services|
        invariant FindService(services, s.Key()) == j + FindService(services[j..], s.Key())
      {
        assert services[j..][1..] == services[j + 1..];
        j := j + 1;
      }
      if j < |services| {
        services := services[j := services[j].(server := s.server, location := s.location)];
        return false;
      } else {
        services := [s] + services;
        Notify(New(s.Key()));
        return true;
      }
    }
  }

  // ---------- uniqueness of keys ----------

  ghost predicate UniqueDevices(ds: seq<Device>) {
    forall i, j :: 0 <= i < j < |ds| ==> ds[i].Key() != ds[j].Key()
  }

  ghost predicate UniqueServices(ss: seq<Service>) {
    forall i, j :: 0 <= i < j < |ss| ==> ss[i].Key() != ss[j].Key()
  }

  ghost predicate Unique(db: Db) {
    UniqueDevices(db.devices) && UniqueServices(db.services)
  }

  lemma UniqueAfterCut(ds: seq<Device>, i: nat)
    requires UniqueDevices(ds) && i < |ds|
    ensures UniqueDevices(Cut(ds, i))
  {
  }

  lemma UniqueAfterInsert(ds: seq<Device>, ss: seq<Service>, d: Device, s: Service)
    ensures UniqueDevices(ds) && FindDevice(ds, d.Key()) == |ds| ==> UniqueDevices([d] + ds)
    ensures UniqueServices(ss) && FindService(ss, s.Key()) == |ss| ==> UniqueServices([s] + ss)
  {
  }

  lemma StepKeepsUnique(db: Db, op: Op)
    requires Unique(db)
    ensures Unique(Step(db, op))
  {
    match op {
      case Update(h, mem) =>
        var i := FindDevice(db.devices, h.Key());
        UniqueAfterInsert(db.devices, [], h, Service([], [], [], []));
        if i < |db.devices| {
          UniqueAfterCut(db.devices, i);
        }
      case Remove(nt, usn) =>
        var i := FindDevice(db.devices, DeviceKey(nt, usn));
        if i < |db.devices| {
          UniqueAfterCut(db.devices, i);
        }
      case Submit(s) =>
        UniqueAfterInsert([], db.services, Device([], [], [], 0), s);
    }
  }

  // ---------- each key behaves like a map entry ----------

  function Lookup(ds: seq<Device>, key: Key): Option<Device> {
    var i := FindDevice(ds, key);
    if i < |ds| then Some(ds[i]) else None
  }

  lemma LookupOfInsert(ds: seq<Device>, d: Device, key: Key)
    ensures Lookup([d] + ds, key) == if key == d.Key() then Some(d) else Lookup(ds, key)
  {
    assert ([d] + ds)[1..] == ds;
  }

  lemma LookupOfReplace(ds: seq<Device>, i: nat, d: Device, key: Key)
    requires i < |ds| && i == FindDevice(ds, d.Key())
    ensures Lookup(ds[i := d], key) == if key == d.Key() then Some(d) else Lookup(ds, key)
  {
    var ds' := ds[i := d];
    assert forall k :: 0 <= k < |ds| ==> ds'[k].Key() == ds[k].Key();
    assert FindDevice(ds', key) == FindDevice(ds, key);
  }

  lemma LookupOfCut(ds: seq<Device>, i: nat, key: Key)
    requires UniqueDevices(ds) && i < |ds|
    ensures Lookup(Cut(ds, i), key) == if key == ds[i].Key() then None else Lookup(ds, key)
  {
    var ds' := Cut(ds, i);
    assert forall k :: 0 <= k < |ds'| ==> ds'[k] == ds[if k < i then k else k + 1];
    var j := FindDevice(ds, key);
    if key != ds[i].Key() {
      if j < |ds| {
        assert ds'[if j < i then j else j - 1] == ds[j];
      }
    }
  }

  /** What an event does to the device stored under a key. */
  function Effect(stored: Option<Device>, op: Op): Option<Device> {
    match op
    case Update(h, mem) =>
      (match stored
       case None => if mem then Some(h) else None
       case Some(d) =>
         if |h.location| > |d.location| && !mem then None
         else Some(Device(h.nt, h.usn, StoredLocation(d.location, h.location), h.t)))
    case Remove(_, _) => None
    case Submit(_) => stored
  }

  function Target(op: Op): Key {
    match op
    case Update(h, _) => h.Key()
    case Remove(nt, usn) => DeviceKey(nt, usn)
    case Submit(s) => s.Key()
  }

  /** The list refines a map from keys to devices: an event touches the entry of its own key only. */
  lemma StepRefinesMap(db: Db, op: Op, key: Key)
    requires Unique(db)
    ensures Lookup(Step(db, op).devices, key)
         == if key == Target(op) then Effect(Lookup(db.devices, key), op) else Lookup(db.devices, key)
  {
    hide Lookup, UniqueDevices, UniqueServices;
    var ds := db.devices;
    var t := FindDevice(ds, Target(op));
    LookupAt(ds, Target(op));
    match op {
      case Update(h, mem) =>
        if t == |ds| {
          LookupOfInsert(ds, h, key);
        } else {
          LookupOfReplace(ds, t, Refreshed(ds[t], h), key);
          LookupOfCut(ds, t, key);
        }
      case Remove(nt, usn) =>
        if t < |ds| {
          LookupOfCut(ds, t, key);
        }
      case Submit(s) =>
    }
  }

  lemma LookupAt(ds: seq<Device>, key: Key)
    ensures var i := FindDevice(ds, key); Lookup(ds, key) == if i < |ds| then Some(ds[i]) else None
  {
  }

  /** The location stored by an announcement of a known device is the announced one exactly when that is
      not shorter than the one stored before. */
  lemma AnnouncedLocation(db: Db, h: Device, mem: bool)
    requires Unique(db) && Lookup(db.devices, h.Key()).Some? && !LosesDevice(db, Update(h, mem))
    ensures var now := Lookup(Step(db, Update(h, mem)).devices, h.Key());
            && now.Some? && now.value.nt == h.nt && now.value.usn == h.usn && now.value.t == h.t
            && (now.value.location == h.location <==>
                |Lookup(db.devices, h.Key()).value.location| <= |h.location|)
  {
    hide Step, Unique;
    StepRefinesMap(db, Update(h, mem), h.Key());
    LocationIsReplaced(Lookup(db.devices, h.Key()).value.location, h.location);
  }

  /** For instance: three bytes, and then one. */
  lemma ShorterLocationExample(nt: Text, usn: Text, t: int)
    ensures Run(EMPTY, [Update(Device(nt, usn, [1, 2, 3], t), true), Update(Device(nt, usn, [9], t), true)]).devices
         == [Device(nt, usn, [9, 2, 3], t)]
  {
    var first, second := Update(Device(nt, usn, [1, 2, 3], t), true), Update(Device(nt, usn, [9], t), true);
    assert [first, second][1..] == [second] && [second][1..] == [];
    var before := Step(EMPTY, first);
    assert before.devices == [Device(nt, usn, [1, 2, 3], t)];
    assert StoredLocation([1, 2, 3], [9]) == [9, 2, 3];
    var after := Step(before, second);
    assert Run(EMPTY, [first, second]) == Run(before, [second]) == Run(after, []) == after;
  }

  // ---------- services ----------

  function LookupService(ss: seq<Service>, key: Key): Option<Service> {
    var i := FindService(ss, key);
    if i < |ss| then Some(ss[i]) else None
  }

  lemma ServiceInsert(ss: seq<Service>, s: Service, key: Key)
    ensures LookupService([s] + ss, key) == if key == s.Key() then Some(s) else LookupService(ss, key)
  {
    assert ([s] + ss)[1..] == ss;
  }

  lemma ServiceReplace(ss: seq<Service>, i: nat, s: Service, key: Key)
    requires i < |ss| && i == FindService(ss, s.Key())
    ensures LookupService(ss[i := s], key) == if key == s.Key() then Some(s) else LookupService(ss, key)
  {
    var ss' := ss[i := s];
    assert forall k :: 0 <= k < |ss| ==> ss'[k].Key() == ss[k].Key();
    assert FindService(ss', key) == FindService(ss, key);
  }

  /** The service list behaves as a map, too. */
  lemma StepRefinesServices(db: Db, op: Op, key: Key)
    ensures LookupService(Step(db, op).services, key)
         == if op.Submit? && op.service.Key() == key then Some(op.service) else LookupService(db.services, key)
  {
    hide FindDevice;
    if op.Submit? {
      var i := FindService(db.services, op.service.Key());
      if i < |db.services| {
        ServiceReplace(db.services, i, op.service, key);
      } else {
        ServiceInsert(db.services, op.service, key);
      }
    }
  }

  /** The last service that was submitted under a key. */
  function LastSubmitted(ops: seq<Op>, key: Key): Option<Service> {
    if ops == [] then None
    else
      var later := LastSubmitted(ops[1..], key);
      if later.Some? then later
      else if ops[0].Submit? && ops[0].service.Key() == key then Some(ops[0].service)
      else None
  }

  /** After any run the service stored under a key is the last one submitted with it. */
  lemma {:induction false} StoredIsLast(db: Db, ops: seq<Op>, key: Key)
    ensures var last := LastSubmitted(ops, key);
            LookupService(Run(db, ops).services, key) == if last.Some? then last else LookupService(db.services, key)
    decreases |ops|
  {
    hide Step, LookupService;
    if ops != [] {
      StepRefinesServices(db, ops[0], key);
      StoredIsLast(Step(db, ops[0]), ops[1..], key);
    }
  }

  // ---------- the notification log ----------

  function Heard(keys: set<Key>, n: Notification): set<Key> {
    match n
    case New(key) => keys + {key}
    case Removed(key) => keys - {key}
  }

  function Replay(log: seq<Notification>): set<Key> {
    if log == [] then {} else Heard(Replay(log[..|log| - 1]), log[|log| - 1])
  }

  ghost function Keys(db: Db): set<Key> {
    (set i | 0 <= i < |db.devices| :: db.devices[i].Key()) + (set i | 0 <= i < |db.services| :: db.services[i].Key())
  }

  /** The log tells a listener exactly which keys are present. */
  ghost predicate Agrees(db: Db) {
    Replay(db.log) == Keys(db)
  }

  lemma ReplaySnoc(log: seq<Notification>, n: Notification)
    ensures Replay(log + [n]) == Heard(Replay(log), n)
  {
    assert (log + [n])[..|log|] == log;
  }

  lemma KeysOfCut(db: Db, i: nat)
    requires Unique(db) && i < |db.devices|
    ensures Keys(db.(devices := Cut(db.devices, i))) == Keys(db) - {db.devices[i].Key()}
  {
    var ds' := Cut(db.devices, i);
    forall k | 0 <= k < |db.devices| && k != i
      ensures db.devices[k].Key() in set j | 0 <= j < |ds'| :: ds'[j].Key()
    {
      assert ds'[if k < i then k else k - 1] == db.devices[k];
    }
  }

  lemma KeysOfInsert(db: Db, d: Device)
    ensures Keys(db.(devices := [d] + db.devices)) == Keys(db) + {d.Key()}
  {
    var ds' := [d] + db.devices;
    assert ds'[0] == d && forall k :: 0 <= k < |db.devices| ==> ds'[k + 1] == db.devices[k];
  }

  lemma KeysOfServiceInsert(db: Db, s: Service)
    ensures Keys(db.(services := [s] + db.services)) == Keys(db) + {s.Key()}
  {
    var ss' := [s] + db.services;
    assert ss'[0] == s && forall k :: 0 <= k < |db.services| ==> ss'[k + 1] == db.services[k];
  }

  lemma KeysOfReplace(db: Db, i: nat, d: Device)
    requires i < |db.devices| && d.Key() == db.devices[i].Key()
    ensures Keys(db.(devices := db.devices[i := d])) == Keys(db)
  {
    var ds' := db.devices[i := d];
    assert forall k :: 0 <= k < |ds'| ==> ds'[k].Key() == db.devices[k].Key();
    assert |ds'| == |db.devices|;
  }

  lemma KeysOfServiceReplace(db: Db, i: nat, s: Service)
    requires i < |db.services| && s.Key() == db.services[i].Key()
    ensures Keys(db.(services := db.services[i := s])) == Keys(db)
  {
    var ss' := db.services[i := s];
    assert forall k :: 0 <= k < |ss'| ==> ss'[k].Key() == db.services[k].Key();
    assert |ss'| == |db.services|;
  }

  /** One event keeps the log and the lists in agreement exactly unless it loses a device for want
      of memory: then no notification says so. */
  lemma StepAgrees(db: Db, op: Op)
    requires Unique(db) && Agrees(db)
    ensures Agrees(Step(db, op)) <==> !LosesDevice(db, op)
  {
    hide Unique, Keys, Replay;
    match op {
      case Update(h, mem) => UpdateAgrees(db, h, mem);
      case Remove(nt, usn) =>
        var i := FindDevice(db.devices, DeviceKey(nt, usn));
        if i < |db.devices| {
          KeysOfCut(db, i);
          ReplaySnoc(db.log, Removed(DeviceKey(nt, usn)));
          KeysIgnoreLog(db.(devices := Cut(db.devices, i)), Step(db, op).log);
        }
      case Submit(s) =>
        var i := FindService(db.services, s.Key());
        if i < |db.services| {
          KeysOfServiceReplace(db, i, s);
        } else {
          KeysOfServiceInsert(db, s);
          ReplaySnoc(db.log, New(s.Key()));
          KeysIgnoreLog(db.(services := [s] + db.services), Step(db, op).log);
        }
    }
  }

  /** For instance: a device announces a longer location, and there is no memory for it. */
  lemma LostDeviceExample(nt: Text, usn: Text, location: Text, t: int)
    requires location != []
    ensures var before := Run(EMPTY, [Update(Device(nt, usn, [], t), true)]);
            var op := Update(Device(nt, usn, location, t), false);
            var after := Run(EMPTY, [Update(Device(nt, usn, [], t), true), op]);
            && LosesDevice(before, op) && after == Step(before, op) && after.devices == []
            && DeviceKey(nt, usn) in Replay(after.log) && DeviceKey(nt, usn) !in Keys(after) && !Agrees(after)
  {
    var first, op := Update(Device(nt, usn, [], t), true), Update(Device(nt, usn, location, t), false);
    assert [first][1..] == [] && [first, op][1..] == [op] && [op][1..] == [];
    var before := Step(EMPTY, first);
    assert before == Db([Device(nt, usn, [], t)], [], [New(DeviceKey(nt, usn))]);
    var after := Step(before, op);
    assert Run(EMPTY, [first, op]) == Run(before, [op]) == Run(after, []) == after;
    assert Run(EMPTY, [first]) == Run(before, []) == before;
    assert after.log == [] + [New(DeviceKey(nt, usn))];
    ReplaySnoc([], New(DeviceKey(nt, usn)));
  }

  lemma KeysIgnoreLog(db: Db, log: seq<Notification>)
    ensures Keys(db.(log := log)) == Keys(db)
  {
  }

  lemma UpdateAgrees(db: Db, h: Device, mem: bool)
    requires Unique(db) && Agrees(db)
    ensures Agrees(Step(db, Update(h, mem))) <==> !LosesDevice(db, Update(h, mem))
  {
    hide Unique, Keys, Replay;
    var i := FindDevice(db.devices, h.Key());
    if i < |db.devices| {
      KeysOfCut(db, i);
      KeyIsPresent(db, i);
      KeysOfReplace(db, i, Refreshed(db.devices[i], h));
    } else if mem {
      KeysOfInsert(db, h);
      ReplaySnoc(db.log, New(h.Key()));
      KeysIgnoreLog(db.(devices := [h] + db.devices), Step(db, Update(h, mem)).log);
    }
  }

  lemma KeyIsPresent(db: Db, i: nat)
    requires i < |db.devices|
    ensures db.devices[i].Key() in Keys(db)
  {
  }

  ghost predicate EnoughMemory(ops: seq<Op>) {
    forall k :: 0 <= k < |ops| && ops[k].Update? ==> ops[k].mem
  }

  /** Over any run keys stay unique, and with enough memory the log stays in agreement. */
  lemma {:induction false} RunInvariant(db: Db, ops: seq<Op>)
    requires Unique(db)
    ensures Unique(Run(db, ops))
    ensures Agrees(db) && EnoughMemory(ops) ==> Agrees(Run(db, ops))
    decreases |ops|
  {
    if ops != [] {
      StepKeepsUnique(db, ops[0]);
      if Agrees(db) {
        StepAgrees(db, ops[0]);
      }
      RunInvariant(Step(db, ops[0]), ops[1..]);
    }
  }

  lemma ReachableInvariant(ops: seq<Op>)
    ensures Unique(Run(EMPTY, ops))
    ensures EnoughMemory(ops) ==> Replay(Run(EMPTY, ops).log) == Keys(Run(EMPTY, ops))
  {
    RunInvariant(EMPTY, ops);
  }
}
