/** UPnP eventing: subscribers, the notifications on their way to them, and the pointers between. */
module UpnpEvents {
  import opened Wrappers
  import opened CodeLength
  import opened SeqTools
  import opened NotifyMessage
  import CallbackUrl

  datatype State = ECreated | EConnecting | ESending | EWaitingForResponse | EFinished | EError

  /** Where one round of upnp_event_process_notify can lead. */
  predicate Follows(from: State, to: State) {
    match from
    case EConnecting => to == EError || to == ESending || to == EWaitingForResponse
    case ESending => to == EError || to == ESending || to == EWaitingForResponse
    case EWaitingForResponse => to == EError || to == EWaitingForResponse || to == EFinished
    case _ => to == from
  }

  /** What calloc, socket and set_non_blocking yield for a new notification. */
  datatype Resources = Resources(memory: bool, socket: int, nonBlocking: bool)

  predicate Enough(r: Resources) {
    r.memory && r.socket >= 0 && r.nonBlocking
  }

  /** obj->path points into the callback string of a subscriber. */
  datatype Path = Path(owner: Subscriber, offset: nat)

  class Subscriber {
    var notify: Notify?
    var timeout: nat          // 0: none
    var seqNo: nat            // 32-bit event key
    const service: nat
    const uuid: string
    const callback: string
    ghost var events: seq<Event>   // the messages made for this subscriber so far
    ghost var completed: nat       // how many of them were answered

    constructor (service: nat, uuid: string, callback: string)
      ensures this.service == service && this.uuid == uuid && this.callback == callback
      ensures notify == null && timeout == 0 && seqNo == 0 && events == [] && completed == 0
    {
      this.service, this.uuid, this.callback := service, uuid, callback;
      notify, timeout, seqNo, events, completed := null, 0, 0, [], 0;
    }
  }

  class Notify {
    var s: int                // socket, -1 once closed
    var state: State
    var sub: Subscriber?
    var path: Option<Path>
    var host: string          // addrstr and portstr
    var buffer: string       // [] before it is allocated
    var tosend: nat
    var sent: nat
    ghost var message: string    // the prepared message
    ghost var wire: string       // what the socket has accepted of it
    ghost var counted: bool        // a message is under way for the subscriber

    constructor (sub: Subscriber, s: int)
      ensures this.sub == sub && this.s == s && state == ECreated && path == None && host == "" && !counted
      ensures buffer == [] && tosend == 0 && sent == 0 && message == [] && wire == []
    {
      this.sub, this.s, state, path, host, counted := sub, s, ECreated, None, "", false;
      buffer, tosend, sent, message, wire := [], 0, 0, [], [];
    }
  }

  // ---------- invariants of single objects ----------

  /** Path and host are those of the callback URL. */
  predicate Addressed(callback: string, path: string, host: string) {
    CallbackUrl.HTTP <= callback &&
    var t := CallbackUrl.Parse(callback);
    path == callback[t.offset..] && host == t.address + t.portText
  }

  ghost predicate NotifyOk(o: Notify)
    reads o
  {
    && (o.sub != null && o.path.Some? ==>
          && o.path.value.owner == o.sub && o.path.value.offset <= |o.sub.callback|
          && Addressed(o.sub.callback, o.sub.callback[o.path.value.offset..], o.host))
    && (o.state == EConnecting ==> o.path.Some?)
    && (o.state == ECreated || o.state == EConnecting || o.state == EFinished ==> !o.counted)
    && (o.state == ESending || o.state == EWaitingForResponse ==> o.counted)
    && o.wire <= o.message
    && (o.state == ESending ==>
          && o.sent < o.tosend == |o.message| <= |o.buffer|
          && o.buffer[..o.tosend] == o.message && o.wire == o.message[..o.sent])
    && (o.state == EWaitingForResponse ==> o.wire == o.message && o.sent == o.tosend == |o.message|)
  }

  ghost predicate EventsOk(callback: string, events: seq<Event>) {
    forall k :: 0 <= k < |events| ==>
      events[k].key == k % WORD && Addressed(callback, events[k].path, events[k].host)
  }

  /** SEQ values are 0, 1, 2, ... modulo 2^32 without gap or repeat; all messages have been answered
      except for at most the last one, whose text is the message under way. */
  ghost predicate SubscriberOk(s: Subscriber)
    reads s, s.notify
  {
    && EventsOk(s.callback, s.events)
    && s.seqNo == s.completed % WORD
    && |s.events| == s.completed + (if s.notify != null && s.notify.counted then 1 else 0)
    && (s.notify != null && s.notify.counted ==> s.notify.message == Text(s.uuid, s.events[s.completed]))
  }

  lemma NextKey(n: nat)
    ensures (n % WORD + 1) % WORD == (n + 1) % WORD
  {
  }

  lemma EventsSnoc(callback: string, events: seq<Event>, e: Event)
    requires EventsOk(callback, events) && e.key == |events| % WORD && Addressed(callback, e.path, e.host)
    ensures EventsOk(callback, events + [e])
  {
    hide Addressed;
  }

  lemma NoEvents(callback: string)
    ensures EventsOk(callback, [])
  {
  }

  /** The k-th message as the subscriber reads it. */
  lemma KeyRead(sid: string, callback: string, events: seq<Event>, k: nat)
    requires EventsOk(callback, events) && k < |events| && Unbroken(sid) && Unbroken(callback)
    ensures CallbackUrl.HTTP <= callback && Reads(Text(sid, events[k]), sid, callback, k % WORD)
  {
    var e := events[k];
    CallbackUrl.TargetLacks(callback, '\r');
    assert PlainEvent(sid, e);
    hide Text, CallbackUrl.Parse, PlainEvent;
    MessageRead(sid, e);
    NumberOfDecimal(e.key);
  }

  /** A message for the subscription sid with this callback URL and event key. */
  ghost predicate Reads(m: string, sid: string, callback: string, key: nat)
    requires CallbackUrl.HTTP <= callback
  {
    var t := CallbackUrl.Parse(callback);
    var path := callback[t.offset..];
    && FirstLine(m) == "NOTIFY " + (if path == "" then "/" else path) + " HTTP/1.1"
    && Header(m, "Host") == Some(t.address + t.portText) && Header(m, "SID") == Some(sid)
    && Header(m, "SEQ").Some? && Number(Header(m, "SEQ").value) == key
    && Header(m, "Content-Length") == Some(Decimal(|Content(m)|))
  }

  ghost predicate Distinct<T>(xs: seq<T>) {
    forall i, j :: 0 <= i < j < |xs| ==> xs[i] != xs[j]
  }

  lemma CutIs<T>(xs: seq<T>, i: nat)
    requires i < |xs| && Distinct(xs)
    ensures Distinct(Cut(xs, i))
    ensures forall x :: x in Cut(xs, i) <==> x in xs && x != xs[i]
  {
    var r := Cut(xs, i);
    forall x | x in xs && x != xs[i]
      ensures x in r
    {
      var k :| 0 <= k < |xs| && xs[k] == x;
      assert r[if k < i then k else k - 1] == x;
    }
  }

  class EventEngine {
    var subscribers: seq<Subscriber>
    var notifies: seq<Notify>
    ghost var freed: set<object>

    /** The two lists and the cross-pointers between their elements. */
    ghost predicate Valid()
      reads this, subscribers, notifies
    {
      && Distinct(subscribers) && Distinct(notifies)
      && (forall o :: o in notifies ==> o !in freed)
      && (forall s :: s in subscribers ==> s !in freed)
      && (forall o :: o in notifies && o.sub != null ==> o.sub in subscribers && o.sub.notify == o)
      && (forall s :: s in subscribers && s.notify != null ==> s.notify in notifies && s.notify.sub == s)
      && (forall o :: o in notifies ==> NotifyOk(o))
      && (forall s :: s in subscribers ==> SubscriberOk(s))
    }

    constructor ()
      ensures Valid() && subscribers == [] && notifies == []
    {
      subscribers, notifies, freed := [], [], {};
    }

    /** What Valid promises about references: none leads to a freed element, a live subscriber has at
        most one notification, and a path is usable as long as there is a subscriber. */
    lemma NoDangling(o: Notify, s: Subscriber)
      requires Valid() && o in notifies && s in subscribers
      ensures o.sub != null ==> o.sub !in freed
      ensures s.notify != null ==> s.notify !in freed
      ensures o.sub != null && o.path.Some? ==> o.path.value.owner !in freed
      ensures o.sub == s ==> forall p :: p in notifies && p.sub == s ==> p == o
    {
      hide Text, EventsOk, Addressed;
    }

    /** What Valid promises about messages, on their bytes: the keys count up from 0, and only the last
        message of a subscriber can be under way, of which a prefix has been sent. */
    lemma MessagesInOrder(s: Subscriber)
      requires Valid() && s in subscribers && Unbroken(s.uuid) && Unbroken(s.callback)
      ensures forall k :: 0 <= k < |s.events| ==>
        CallbackUrl.HTTP <= s.callback && Reads(Text(s.uuid, s.events[k]), s.uuid, s.callback, k % WORD)
      ensures s.notify != null && (s.notify.state == ESending || s.notify.state == EWaitingForResponse) ==>
        && |s.events| > 0 && s.notify.message == Text(s.uuid, s.events[|s.events| - 1])
        && CallbackUrl.HTTP <= s.callback && Reads(s.notify.message, s.uuid, s.callback, s.seqNo)
        && s.notify.wire <= s.notify.message
    {
      hide Text, EventsOk, Addressed, Unbroken, Reads;
      assert SubscriberOk(s) && (s.notify != null ==> NotifyOk(s.notify));
      if s.events != [] {
        KeyRead(s.uuid, s.callback, s.events, |s.events| - 1);
      }
      forall k | 0 <= k < |s.events|
        ensures CallbackUrl.HTTP <= s.callback && Reads(Text(s.uuid, s.events[k]), s.uuid, s.callback, k % WORD)
      {
        KeyRead(s.uuid, s.callback, s.events, k);
      }
    }

    lemma Parts(obj: Notify)
      requires Valid() && obj in notifies
      ensures NotifyOk(obj)
      ensures obj.sub != null ==>
        obj.sub in subscribers && obj.sub.notify == obj && SubscriberOk(obj.sub) && obj.sub !in freed
    {
      hide Text, EventsOk, Addressed;
    }

    /** A step that changes one notification and its subscriber, but no pointer between them. */
    twostate lemma StillValid(obj: Notify)
      requires old(Valid()) && obj in old(notifies) && unchanged(this)
      requires forall o :: o in notifies && o != obj ==> unchanged(o)
      requires forall s :: s in subscribers && s != obj.sub ==> unchanged(s)
      requires obj.sub == old(obj.sub) && NotifyOk(obj)
      requires obj.sub != null ==> obj.sub.notify == old(obj.sub.notify) && SubscriberOk(obj.sub)
      ensures Valid()
    {
      hide Text, EventsOk, Addressed;
    }

    // ---------- one notification ----------

    /** upnp_event_create_notify */
    method CreateNotify(sub: Subscriber, supply: Resources)
      requires Valid() && sub in subscribers && sub.notify == null
      modifies this`notifies, sub`notify
      ensures Valid()
      ensures sub.notify != null <==> Enough(supply)
      ensures if sub.notify == null then notifies == old(notifies)
              else && fresh(sub.notify) && notifies == [sub.notify] + old(notifies)
                   && sub.notify.state == ECreated && sub.notify.sub == sub && sub.notify.s == supply.socket
    {
      hide Text, EventsOk, Addressed;
      if !supply.memory || supply.socket < 0 {
        return;
      }
      if !supply.nonBlocking {
        return;
      }
      var obj := new Notify(sub, supply.socket);
      sub.notify := obj;
      notifies := [obj] + notifies;
      assert NotifyOk(obj) && SubscriberOk(sub);
      hide NotifyOk, SubscriberOk;
    }

    /** upnp_event_notify_connect: the callback is read only while the subscriber is there. */
    method NotifyConnect(obj: Notify)
      requires Valid() && obj in notifies && obj.state == ECreated
      modifies obj
      ensures Valid() && obj.sub == old(obj.sub) && obj.s == old(obj.s)
      ensures obj.state == EConnecting || obj.state == EError
      ensures obj.state == EConnecting ==>
        && obj.sub != null && CallbackUrl.HTTP <= obj.sub.callback
        && var t := CallbackUrl.Parse(obj.sub.callback);
           obj.path == Some(Path(obj.sub, t.offset)) && obj.host == t.address + t.portText
      ensures obj.sub == null || !(CallbackUrl.HTTP <= obj.sub.callback) ==> obj.state == EError
    {
      hide Valid, Text, EventsOk, CallbackUrl.Parse;
      Parts(obj);
      if obj.sub == null {
        obj.state := EError;
        StillValid(obj);
        return;
      }
      assert obj.sub !in freed;
      var p := obj.sub.callback;
      if !(CallbackUrl.HTTP <= p) {
        obj.state := EError;
        StillValid(obj);
        return;
      }
      var target := CallbackUrl.ParseUrl(p);
      obj.host := target.address + target.portText;
      obj.path := Some(Path(obj.sub, target.offset));
      obj.state := EConnecting;
      var connecting: bool := *;
      if !connecting {
        obj.state := EError;
      }
      StillValid(obj);
    }

    /** The retry loop of upnp_event_prepare: a buffer that is large enough for the message. */
    method FormatMessage(msg: string) returns (ok: bool, buffer: string)
      ensures ok ==> msg <= buffer
    {
      var buffersize: nat := 1024;
      while true
        decreases if buffersize <= |msg| then 1 else 0
      {
        var memory: bool, formatted: bool := *, *;
        if !memory {
          return false, [];
        }
        if !formatted {
          return false, seq(buffersize, i => '\0');
        }
        if |msg| < buffersize {
          return true, msg + seq(buffersize - |msg|, i => '\0');
        }
        buffersize := |msg| + 1;
      }
    }

    /** upnp_event_prepare: the message carries the subscriber's event key. */
    method Prepare(obj: Notify)
      requires Valid() && obj in notifies && obj.state == EConnecting
      modifies obj, if obj.sub != null then {obj.sub} else {}
      ensures Valid() && obj.sub == old(obj.sub) && obj.s == old(obj.s)
      ensures obj.state == ESending || obj.state == EError
      ensures obj.sub != null ==> obj.sub.notify == old(obj.sub.notify) && obj.sub.timeout == old(obj.sub.timeout)
      ensures obj.state == ESending ==>
        && obj.sub != null && old(obj.sub.events) < obj.sub.events && |obj.sub.events| == |old(obj.sub.events)| + 1
        && obj.sub.events[|old(obj.sub.events)|].key == old(obj.sub.seqNo)
      ensures obj.sub != null ==> old(obj.sub.events) <= obj.sub.events
    {
      hide Valid, Text, EventsOk, Addressed;
      Parts(obj);
      var sub := obj.sub;
      if sub == null {
        obj.state := EError;
        StillValid(obj);
        return;
      }
      assert obj.path.value.owner == sub && sub !in freed;   // the path is read below
      var body: string := *;                                 // the variables of the service
      var event := Event(sub.callback[obj.path.value.offset..], obj.host, body, sub.seqNo);
      var msg := Text(sub.uuid, event);
      var ok, buffer := FormatMessage(msg);
      obj.buffer := buffer;
      if !ok {
        obj.state := EError;
        StillValid(obj);
        return;
      }
      StillValid(obj);
      StartSending(obj, event, msg);
    }

    /** The end of upnp_event_prepare: the buffer holds the message. */
    method StartSending(obj: Notify, event: Event, msg: string)
      requires Valid() && obj in notifies && obj.state == EConnecting && obj.sub != null
      requires event.key == obj.sub.seqNo && msg == Text(obj.sub.uuid, event)
      requires Addressed(obj.sub.callback, event.path, event.host)
      requires |msg| <= |obj.buffer| && msg == obj.buffer[..|msg|]
      modifies obj, obj.sub
      ensures Valid() && obj.sub == old(obj.sub) && obj.s == old(obj.s) && obj.state == ESending
      ensures obj.sub.notify == old(obj.sub.notify) && obj.sub.timeout == old(obj.sub.timeout)
      ensures obj.sub.events == old(obj.sub.events) + [event]
    {
      hide Valid, Text, EventsOk, Addressed;
      Parts(obj);
      EventsSnoc(obj.sub.callback, obj.sub.events, event);
      obj.tosend, obj.sent := |msg|, 0;
      obj.message, obj.wire, obj.counted := msg, [], true;
      obj.sub.events := obj.sub.events + [event];
      obj.state := ESending;
      StillValid(obj);
    }

    /** upnp_event_send */
    method Send(obj: Notify)
      requires Valid() && obj in notifies && obj.state == ESending
      modifies obj
      ensures Valid() && obj.sub == old(obj.sub) && obj.s == old(obj.s)
      ensures obj.message == old(obj.message) && old(obj.wire) <= obj.wire <= obj.message
      ensures if obj.state == EError then obj.wire == old(obj.wire)
              else obj.state == if obj.wire == obj.message then EWaitingForResponse else ESending
    {
      hide Valid, Text, EventsOk, Addressed;
      Parts(obj);
      var i: int :| -2 <= i <= obj.tosend - obj.sent;
      if i == -2 {
        obj.state := EError;
        StillValid(obj);
        return;
      }
      if i < 0 {
        i := 0;   // EAGAIN, EWOULDBLOCK, EINTR
      }
      obj.wire := obj.wire + obj.buffer[obj.sent..obj.sent + i];
      obj.sent := obj.sent + i;
      assert obj.wire == obj.message[..obj.sent];
      if obj.sent == obj.tosend {
        obj.state := EWaitingForResponse;
      }
      StillValid(obj);
    }

    /** upnp_event_recv: an answer completes the event, so that the key moves on. */
    method Recv(obj: Notify)
      requires Valid() && obj in notifies && obj.state == EWaitingForResponse
      modifies obj, if obj.sub != null then {obj.sub} else {}
      ensures Valid() && obj.sub == old(obj.sub) && obj.s == old(obj.s)
      ensures obj.sub != null ==>
        && obj.sub.notify == old(obj.sub.notify) && obj.sub.timeout == old(obj.sub.timeout)
        && obj.sub.events == old(obj.sub.events)
        && obj.sub.seqNo == (if obj.state == EFinished then (old(obj.sub.seqNo) + 1) % WORD else old(obj.sub.seqNo))
      ensures obj.state == EError || obj.state == EWaitingForResponse || obj.state == EFinished
    {
      hide Valid, Text, EventsOk, Addressed;
      Parts(obj);
      var n: int :| -2 <= n <= |obj.buffer|;
      if n < 0 {
        if n == -2 {
          obj.state := EError;
        }
        StillValid(obj);
        return;
      }
      var data: string := *;
      if |data| == n {
        obj.buffer := data + obj.buffer[n..];
      }
      StillValid(obj);
      Finish(obj);
    }

    /** The notification is answered. */
    method Finish(obj: Notify)
      requires Valid() && obj in notifies && obj.state == EWaitingForResponse
      modifies obj, if obj.sub != null then {obj.sub} else {}
      ensures Valid() && obj.sub == old(obj.sub) && obj.s == old(obj.s) && obj.state == EFinished
      ensures obj.sub != null ==>
        && obj.sub.notify == old(obj.sub.notify) && obj.sub.timeout == old(obj.sub.timeout)
        && obj.sub.events == old(obj.sub.events) && obj.sub.seqNo == (old(obj.sub.seqNo) + 1) % WORD
    {
      hide Valid, Text, EventsOk, Addressed;
      Parts(obj);
      obj.state := EFinished;
      obj.counted := false;
      if obj.sub != null {
        NextKey(obj.sub.completed);
        obj.sub.seqNo := (obj.sub.seqNo + 1) % WORD;
        obj.sub.completed := obj.sub.completed + 1;
      }
      StillValid(obj);
    }

    /** upnp_event_process_notify */
    method ProcessNotify(obj: Notify)
      requires Valid() && obj in notifies
      modifies obj, if obj.sub != null then {obj.sub} else {}
      ensures Valid() && obj.sub == old(obj.sub) && Follows(old(obj.state), obj.state)
      ensures obj.s == if old(obj.state) == EFinished then -1 else old(obj.s)
      ensures obj.sub != null ==>
        && obj.sub.notify == old(obj.sub.notify) && obj.sub.timeout == old(obj.sub.timeout)
        && old(obj.sub.events) <= obj.sub.events
    {
      hide Valid, Text, EventsOk, Addressed;
      Parts(obj);
      match obj.state {
        case EConnecting =>
          var connected: bool := *;
          if !connected {
            obj.state := EError;
            StillValid(obj);
            return;
          }
          Prepare(obj);
          if obj.state == ESending {
            Send(obj);
          }
        case ESending => Send(obj);
        case EWaitingForResponse => Recv(obj);
        case EFinished =>
          obj.s := -1;
          StillValid(obj);
        case _ =>
      }
    }

    // ---------- the lists ----------

    /** upnpevents_addSubscriber; service is None for an unknown event URL. */
    method AddSubscriber(service: Option<nat>, uuid: string, callback: string, timeout: nat, now: nat,
                         memory: bool, supply: Resources)
      returns (sid: Option<string>)
      requires Valid()
      modifies this`subscribers, this`notifies
      ensures Valid()
      ensures sid.Some? <==> service.Some? && callback != "" && memory
      ensures sid.None? ==> subscribers == old(subscribers) && notifies == old(notifies)
      ensures sid.Some? ==>
        && service.Some? && sid.value == uuid && callback != ""
        && |subscribers| > 0 && fresh(subscribers[0]) && subscribers == [subscribers[0]] + old(subscribers)
        && subscribers[0].uuid == uuid && subscribers[0].service == service.value
        && subscribers[0].callback == callback
        && subscribers[0].timeout == (if timeout != 0 then now + timeout else 0)
        && subscribers[0].events == [] && (subscribers[0].notify != null <==> Enough(supply))
      ensures forall o :: o in notifies ==> o in old(notifies) || fresh(o)
    {
      hide Text, EventsOk, Addressed;
      if callback == "" || service.None? || !memory {
        return None;
      }
      var tmp := new Subscriber(service.value, uuid, callback);
      if timeout != 0 {
        tmp.timeout := now + timeout;
      }
      subscribers := [tmp] + subscribers;
      NoEvents(callback);
      assert SubscriberOk(tmp);
      assert Valid() by {
        hide NotifyOk, SubscriberOk;
      }
      hide Valid, NotifyOk, SubscriberOk;
      CreateNotify(tmp, supply);
      return Some(uuid);
    }

    /** Only a complete identifier, "uuid:" and 36 characters, is ever compared. */
    predicate Matches(sid: string, s: Subscriber) {
      |sid| == 41 && s.uuid == sid
    }

    /** The walk of renewSubscription and removeSubscriber: the first subscriber with the given id. */
    method FindSubscriber(sid: string, strict: bool, now: nat) returns (i: nat)
      ensures i <= |subscribers|
      ensures i < |subscribers| ==> Matches(sid, subscribers[i]) && !(strict && Expired(subscribers[i], now))
      ensures forall k :: 0 <= k < i ==> !Matches(sid, subscribers[k]) || (strict && Expired(subscribers[k], now))
    {
      i := 0;
      while i < |subscribers|
        invariant i <= |subscribers|
        invariant forall k :: 0 <= k < i ==> !Matches(sid, subscribers[k]) || (strict && Expired(subscribers[k], now))
      {
        var sub := subscribers[i];
        if |sid| == 41 && sub.uuid == sid && !(strict && sub.timeout > 0 && now > sub.timeout) {
          return;
        }
        i := i + 1;
      }
    }

    predicate Expired(s: Subscriber, now: nat)
      reads s
    {
      s.timeout != 0 && now > s.timeout
    }

    predicate Renewed(s: Subscriber, sid: string, timeout: nat, now: nat)
      reads s
    {
      Matches(sid, s) && s.timeout == if timeout != 0 then now + timeout else 0
    }

    /** A step that changes nothing of a subscriber but its timeout. */
    twostate lemma StillSubscribed(sub: Subscriber)
      requires old(Valid()) && sub in subscribers && unchanged(this)
      requires forall o :: o in notifies ==> unchanged(o)
      requires forall s :: s in subscribers && s != sub ==> unchanged(s)
      requires sub.notify == old(sub.notify) && sub.seqNo == old(sub.seqNo)
      requires sub.events == old(sub.events) && sub.completed == old(sub.completed)
      ensures Valid()
    {
      hide Text, EventsOk, Addressed;
    }

    /** upnpevents_renewSubscription; strict under UPNP_STRICT. */
    method RenewSubscription(sid: string, timeout: nat, now: nat, strict: bool) returns (found: bool)
      requires Valid()
      modifies subscribers
      ensures Valid()
      ensures found <==> exists s :: s in subscribers && Matches(sid, s) && !(strict && old(Expired(s, now)))
      ensures found ==>
        (exists i :: 0 <= i < |subscribers| && Renewed(subscribers[i], sid, timeout, now)
           && (forall k :: 0 <= k < i ==> !Matches(sid, subscribers[k]) || (strict && Expired(subscribers[k], now)))
           && (forall k :: 0 <= k < |subscribers| && k != i ==> unchanged(subscribers[k])))
      ensures forall s :: s in subscribers && (!found || !Matches(sid, s)) ==> unchanged(s)
      ensures forall s :: s in subscribers ==> s.notify == old(s.notify) && s.events == old(s.events)
    {
      hide Valid, NotifyOk, SubscriberOk, Text;
      var i := FindSubscriber(sid, strict, now);
      if i == |subscribers| {
        return false;
      }
      AllDistinct();
      var sub := subscribers[i];
      assert sub in subscribers && forall k :: 0 <= k < |subscribers| && k != i ==> subscribers[k] != sub;
      sub.timeout := if timeout != 0 then now + timeout else 0;
      StillSubscribed(sub);
      assert Renewed(subscribers[i], sid, timeout, now);
      return true;
    }

    /** upnpevents_removeSubscriber: the notification on its way, if any, loses its subscriber. */
    method RemoveSubscriber(sid: string) returns (r: int)
      requires Valid()
      modifies this`subscribers, this`freed, notifies
      ensures Valid()
      ensures r == -1 ==> subscribers == old(subscribers) && forall s :: s in subscribers ==> !Matches(sid, s)
      ensures r != -1 ==> r == 0
      ensures r == 0 ==>
        (exists i :: 0 <= i < |old(subscribers)| && Matches(sid, old(subscribers)[i])
                     && (forall k :: 0 <= k < i ==> !Matches(sid, old(subscribers)[k]))
                     && subscribers == Cut(old(subscribers), i) && old(subscribers)[i] in freed)
      ensures forall o :: o in notifies ==> o.state == old(o.state) && (o.sub != null || old(o.sub) == null ==>
        unchanged(o))
    {
      hide Valid, ValidBut, Text;
      var i := FindSubscriber(sid, false, 0);
      if i == |subscribers| {
        return -1;
      }
      Detach(i);
      FreeSubscriber(i);
      return 0;
    }

    /** The notification on its way to a subscriber forgets it. */
    method Detach(i: nat)
      requires Valid() && i < |subscribers|
      modifies notifies
      ensures ValidBut(subscribers[i], null) && forall o :: o in notifies ==> o.sub != subscribers[i]
      ensures forall o :: o in notifies ==> o.state == old(o.state) && (o.sub != null || old(o.sub) == null ==>
        unchanged(o))
    {
      hide Text, EventsOk, Addressed;
      var sub := subscribers[i];
      if sub.notify != null {
        sub.notify.sub := null;
      }
    }

    /** LIST_REMOVE and free, once no notification refers to the subscriber any more. */
    method FreeSubscriber(i: nat)
      requires i < |subscribers| && forall o :: o in notifies ==> o.sub != subscribers[i]
      requires ValidBut(subscribers[i], null)
      modifies this`subscribers, this`freed
      ensures Valid()
      ensures subscribers == Cut(old(subscribers), i) && freed == old(freed) + {old(subscribers)[i]}
    {
      hide Text, EventsOk, Addressed;
      CutIs(subscribers, i);
      freed := freed + {subscribers[i]};
      subscribers := Cut(subscribers, i);
    }

    /** Valid, except for the pointers of a subscriber and of a notification that are about to go. */
    ghost predicate ValidBut(sub: Subscriber?, obj: Notify?)
      reads this, subscribers, notifies
    {
      && Distinct(subscribers) && Distinct(notifies)
      && (forall o :: o in notifies ==> o !in freed)
      && (forall s :: s in subscribers ==> s !in freed)
      && (forall o :: o in notifies && o.sub != null && o != obj ==> o.sub in subscribers && o.sub.notify == o)
      && (forall s :: s in subscribers && s.notify != null && s != sub ==>
          s.notify in notifies && s.notify.sub == s && s.notify != obj)
      && (forall o :: o in notifies && o != obj ==> NotifyOk(o))
      && (forall s :: s in subscribers && s != sub ==> SubscriberOk(s))
    }

    /** upnp_event_var_change_notify: every subscriber of the service that has no notification under way
        gets one exactly if there are resources for it. */
    method VarChangeNotify(service: nat, supply: nat -> Resources)
      requires Valid()
      modifies this`notifies, subscribers
      ensures Valid()
      ensures forall o :: o in old(notifies) ==> o in notifies
      ensures forall o :: o in notifies ==> o in old(notifies) || fresh(o)
      ensures forall s :: s in subscribers ==> s.events == old(s.events) && s.timeout == old(s.timeout)
      ensures forall s :: s in subscribers && (s.service != service || old(s.notify) != null) ==>
        s.notify == old(s.notify)
      ensures forall k :: 0 <= k < |subscribers| && subscribers[k].service == service ==>
        old(subscribers[k].notify) == null ==> (subscribers[k].notify != null <==> Enough(supply(k)))
    {
      hide Valid, NotifyOk, SubscriberOk, Text, Enough;
      var i := 0;
      while i < |subscribers|
        invariant i <= |subscribers| && Valid()
        invariant forall o :: o in old(notifies) ==> o in notifies
        invariant forall o :: o in notifies ==> o in old(notifies) || fresh(o)
        invariant forall s :: s in subscribers ==> s.events == old(s.events) && s.timeout == old(s.timeout)
        invariant forall s :: s in subscribers && (s.service != service || old(s.notify) != null) ==>
          s.notify == old(s.notify)
        invariant forall k :: i <= k < |subscribers| ==> subscribers[k].notify == old(subscribers[k].notify)
        invariant forall k :: 0 <= k < i && subscribers[k].service == service && old(subscribers[k].notify) == null ==>
          (subscribers[k].notify != null <==> Enough(supply(k)))
      {
        AllDistinct();
        var sub := subscribers[i];
        assert forall k :: 0 <= k < |subscribers| && k != i ==> subscribers[k] != sub;
        if sub.service == service && sub.notify == null {
          CreateNotify(sub, supply(i));
        }
        i := i + 1;
      }
    }

    // ---------- the select loop ----------

    /** The sockets to wait for. */
    ghost function Writers(objs: seq<Notify>): set<int>
      reads objs
    {
      set o | o in objs && o.s >= 0 && (o.state == EConnecting || o.state == ESending) :: o.s
    }

    ghost function Readers(objs: seq<Notify>): set<int>
      reads objs
    {
      set o | o in objs && o.s >= 0 && o.state == EWaitingForResponse :: o.s
    }

    /** Connections have been started wherever there is a socket. */
    ghost predicate NoneCreated(objs: seq<Notify>)
      reads objs
    {
      forall o :: o in objs && o.s >= 0 ==> o.state != ECreated
    }

    lemma WaitSets(objs: seq<Notify>, i: nat)
      requires i < |objs|
      ensures var o := objs[i];
              && Writers(objs[..i + 1]) == Writers(objs[..i]) +
                 (if o.s >= 0 && (o.state == EConnecting || o.state == ESending) then {o.s} else {})
              && Readers(objs[..i + 1]) == Readers(objs[..i]) +
                 (if o.s >= 0 && o.state == EWaitingForResponse then {o.s} else {})
              && (NoneCreated(objs[..i]) && (o.s >= 0 ==> o.state != ECreated) ==> NoneCreated(objs[..i + 1]))
    {
      assert objs[..i + 1] == objs[..i] + [objs[i]];
    }

    lemma NoWaitSets()
      ensures Writers([]) == {} && Readers([]) == {} && NoneCreated([])
    {
    }

    /** upnpevents_selectfds: starts connections and tells which sockets to wait for. */
    method SelectFds() returns (readset: set<int>, writeset: set<int>)
      requires Valid()
      modifies notifies
      ensures Valid() && forall o :: o in notifies ==> o.sub == old(o.sub) && o.s == old(o.s)
      ensures NoneCreated(notifies)
      ensures writeset == Writers(notifies) && readset == Readers(notifies)
    {
      hide Valid, NotifyOk, SubscriberOk, Text, Writers, Readers, NoneCreated;
      readset, writeset := {}, {};
      NoWaitSets();
      assert notifies[..0] == [];
      var i := 0;
      while i < |notifies|
        invariant i <= |notifies| && Valid()
        invariant forall o :: o in notifies ==> o.sub == old(o.sub) && o.s == old(o.s)
        invariant NoneCreated(notifies[..i])
        invariant writeset == Writers(notifies[..i]) && readset == Readers(notifies[..i])
      {
        var obj := notifies[i];
        AllDistinct();
        assert forall k :: 0 <= k < |notifies| && k != i ==> notifies[k] != obj;
        assert obj !in notifies[..i];
        var r, w := SelectOne(obj);
        readset, writeset := readset + r, writeset + w;
        WaitSets(notifies, i);
        i := i + 1;
      }
      assert notifies[..i] == notifies;
    }

    /** The body of the loop of upnpevents_selectfds. */
    method SelectOne(obj: Notify) returns (readset: set<int>, writeset: set<int>)
      requires Valid() && obj in notifies
      modifies obj
      ensures Valid() && obj.sub == old(obj.sub) && obj.s == old(obj.s) && (obj.s >= 0 ==> obj.state != ECreated)
      ensures writeset == if obj.s >= 0 && (obj.state == EConnecting || obj.state == ESending) then {obj.s} else {}
      ensures readset == if obj.s >= 0 && obj.state == EWaitingForResponse then {obj.s} else {}
    {
      hide Valid, NotifyOk, SubscriberOk, Text;
      readset, writeset := {}, {};
      if obj.s >= 0 {
        if obj.state == ECreated {
          NotifyConnect(obj);
        }
        if obj.state == EConnecting || obj.state == ESending {
          writeset := {obj.s};
        } else if obj.state == EWaitingForResponse {
          readset := {obj.s};
        }
      }
    }

    lemma AllDistinct()
      requires Valid()
      ensures Distinct(notifies) && Distinct(subscribers)
    {
      hide Text, EventsOk, Addressed;
    }

    predicate Ready(s: int, readset: set<int>, writeset: set<int>) {
      s >= 0 && (s in readset || s in writeset)
    }

    lemma ReadyIs(s: int, readset: set<int>, writeset: set<int>)
      ensures Ready(s, readset, writeset) <==> s >= 0 && (s in readset || s in writeset)
    {
    }

    /** The first loop of upnpevents_processfds. */
    method ProcessReady(readset: set<int>, writeset: set<int>)
      requires Valid()
      modifies notifies, subscribers
      ensures Valid()
      ensures forall s :: s in subscribers ==> s.notify == old(s.notify) && s.timeout == old(s.timeout)
      ensures forall s :: s in subscribers ==> old(s.events) <= s.events
      ensures forall k :: 0 <= k < |notifies| ==>
        if old(Ready(notifies[k].s, readset, writeset))
        then notifies[k].sub == old(notifies[k].sub) && Follows(old(notifies[k].state), notifies[k].state)
        else unchanged(notifies[k])
    {
      hide Valid, NotifyOk, SubscriberOk, Text, Follows, Ready;
      var i := 0;
      while i < |notifies|
        invariant i <= |notifies| && Valid()
        invariant forall s :: s in subscribers ==> s.notify == old(s.notify) && s.timeout == old(s.timeout)
        invariant forall s :: s in subscribers ==> old(s.events) <= s.events
        invariant forall k :: 0 <= k < i ==>
          if old(Ready(notifies[k].s, readset, writeset))
          then notifies[k].sub == old(notifies[k].sub) && Follows(old(notifies[k].state), notifies[k].state)
          else unchanged(notifies[k])
        invariant forall k :: i <= k < |notifies| ==> unchanged(notifies[k])
      {
        var obj := notifies[i];
        Parts(obj);
        AllDistinct();
        assert forall k :: 0 <= k < |notifies| && k != i ==> notifies[k] != obj;
        ReadyIs(obj.s, readset, writeset);
        if obj.s >= 0 && (obj.s in readset || obj.s in writeset) {
          ProcessNotify(obj);
        }
        i := i + 1;
      }
    }

    /** Removes a notification that is finished or in error; after an error its subscriber goes too. */
    method CleanNotify(i: nat)
      requires Valid() && i < |notifies| && (notifies[i].state == EError || notifies[i].state == EFinished)
      modifies this`notifies, this`subscribers, this`freed, if notifies[i].sub != null then {notifies[i].sub} else {}
      ensures Valid() && notifies == Cut(old(notifies), i) && old(notifies)[i] in freed
      ensures forall s :: s in subscribers ==> s in old(subscribers)
      ensures forall s :: s in old(subscribers) ==>
        s in subscribers || (s == old(notifies)[i].sub && old(notifies)[i].state == EError)
      ensures old(notifies)[i].state == EError && old(notifies)[i].sub != null ==> old(notifies)[i].sub in freed
      ensures var sub := old(notifies)[i].sub;
              sub != null ==> sub.notify == null && sub.timeout == old(sub.timeout) && sub.events == old(sub.events)
    {
      hide Text, EventsOk, Addressed;
      var obj := notifies[i];
      var sub := obj.sub;
      if sub != null {
        sub.notify := null;
      }
      if obj.state == EError && sub != null {
        DropSubscriber(sub, obj);
      }
      DropNotify(i);
    }

    /** LIST_REMOVE and free of a notification that no subscriber refers to any more. */
    method DropNotify(i: nat)
      requires i < |notifies| && ValidBut(null, notifies[i])
      modifies this`notifies, this`freed
      ensures Valid() && notifies == Cut(old(notifies), i) && freed == old(freed) + {old(notifies)[i]}
    {
      hide Text, EventsOk, Addressed;
      CutIs(notifies, i);
      freed := freed + {notifies[i]};
      notifies := Cut(notifies, i);
    }

    /** LIST_REMOVE and free of the subscriber of a failed notification. */
    method DropSubscriber(sub: Subscriber, obj: Notify)
      requires ValidBut(sub, obj) && sub in subscribers && obj in notifies && obj.sub == sub && sub.notify == null
      modifies this`subscribers, this`freed
      ensures ValidBut(null, obj) && freed == old(freed) + {sub}
      ensures forall s :: s in subscribers <==> s in old(subscribers) && s != sub
    {
      hide Text, EventsOk, Addressed;
      hide NotifyOk, SubscriberOk, Cut;
      var j :| 0 <= j < |subscribers| && subscribers[j] == sub;
      CutIs(subscribers, j);
      freed := freed + {sub};
      subscribers := Cut(subscribers, j);
    }

    /** The second loop of upnpevents_processfds. */
    method CleanUp()
      requires Valid()
      modifies this`notifies, this`subscribers, this`freed, subscribers
      ensures Valid()
      ensures forall o :: o in notifies ==> o in old(notifies) && o.state != EError && o.state != EFinished
      ensures forall s :: s in subscribers ==> s in old(subscribers)
      ensures forall s :: s in old(subscribers) ==> s.timeout == old(s.timeout) && s.events == old(s.events)
      ensures forall s :: s in old(subscribers) ==> s in subscribers || old(s.notify) != null
    {
      hide Valid, NotifyOk, SubscriberOk, Text;
      var i := 0;
      while i < |notifies|
        invariant i <= |notifies| && Valid()
        invariant forall o :: o in notifies ==> o in old(notifies)
        invariant forall k :: 0 <= k < i ==> notifies[k].state != EError && notifies[k].state != EFinished
        invariant forall s :: s in subscribers ==> s in old(subscribers)
        invariant forall s :: s in old(subscribers) ==> s.timeout == old(s.timeout) && s.events == old(s.events)
        invariant forall s :: s in subscribers ==> s.notify == null || s.notify == old(s.notify)
        invariant forall s :: s in old(subscribers) ==> s in subscribers || old(s.notify) != null
        decreases |notifies| - i
      {
        Parts(notifies[i]);
        AllDistinct();
        CutIs(notifies, i);
        if notifies[i].state == EError || notifies[i].state == EFinished {
          CleanNotify(i);
        } else {
          i := i + 1;
        }
      }
    }

    /** The third loop of upnpevents_processfds: subscribers whose time is over and that wait for
        nothing. */
    method RemoveExpired(now: nat)
      requires Valid()
      modifies this`subscribers, this`freed
      ensures Valid()
      ensures forall s :: s in subscribers <==>
        s in old(subscribers) && !(s.timeout != 0 && s.timeout < now && s.notify == null)
    {
      hide Text, EventsOk, Addressed;
      var i := 0;
      while i < |subscribers|
        invariant i <= |subscribers| && Valid()
        invariant forall k :: 0 <= k < i ==> !(Expired(subscribers[k], now) && subscribers[k].notify == null)
        invariant forall s :: s in subscribers ==> s in old(subscribers)
        invariant forall s :: s in old(subscribers) && !(Expired(s, now) && s.notify == null) ==> s in subscribers
        decreases |subscribers| - i
      {
        AllDistinct();
        CutIs(subscribers, i);
        var sub := subscribers[i];
        if sub.timeout != 0 && now > sub.timeout && sub.notify == null {
          FreeSubscriber(i);
        } else {
          i := i + 1;
        }
      }
    }

    /** upnpevents_processfds: afterwards no notification is finished or in error, and a subscriber has
        gone only with its notification or by timeout. */
    method ProcessFds(readset: set<int>, writeset: set<int>, now: nat)
      requires Valid()
      modifies this, notifies, subscribers
      ensures Valid()
      ensures forall o :: o in notifies ==> o in old(notifies) && o.state != EError && o.state != EFinished
      ensures forall s :: s in subscribers ==> s in old(subscribers) && !(Expired(s, now) && s.notify == null)
      ensures forall s :: s in old(subscribers) ==> s in subscribers || old(s.notify) != null || old(Expired(s, now))
      ensures forall s :: s in subscribers ==> old(s.events) <= s.events
    {
      hide Valid, NotifyOk, SubscriberOk, Text;
      ProcessReady(readset, writeset);
      CleanUp();
      RemoveExpired(now);
    }

    // ---------- runs ----------

    method Perform(op: Op)
      requires Valid()
      modifies this, notifies, subscribers
      ensures Valid()
      ensures forall o :: o in notifies ==> o in old(notifies) || fresh(o)
      ensures forall s :: s in subscribers ==> s in old(subscribers) || fresh(s)
      ensures forall s :: s in subscribers && s in old(subscribers) ==> old(s.events) <= s.events
    {
      hide Valid, NotifyOk, SubscriberOk, Text;
      match op {
        case Subscribe(service, uuid, callback, timeout, now, memory, resources) =>
          var sid := AddSubscriber(service, uuid, callback, timeout, now, memory, resources);
        case Renew(sid, timeout, now, strict) =>
          var found := RenewSubscription(sid, timeout, now, strict);
        case Unsubscribe(sid) =>
          var r := RemoveSubscriber(sid);
          assert r == 0 || r == -1;
        case Change(service, supply) =>
          VarChangeNotify(service, supply);
        case Select =>
          var readset, writeset := SelectFds();
        case Process(readset, writeset, now) =>
          ProcessFds(readset, writeset, now);
      }
    }

    /** The invariant holds over every interleaving of requests, variable changes and socket events, and
        no message made for a subscriber is ever forgotten. */
    method Run(ops: seq<Op>)
      requires Valid()
      modifies this, notifies, subscribers
      ensures Valid()
      ensures forall s :: s in subscribers && s in old(subscribers) ==> old(s.events) <= s.events
    {
      hide Valid, NotifyOk, SubscriberOk, Text;
      var i := 0;
      while i < |ops|
        invariant i <= |ops| && Valid()
        invariant forall o :: o in notifies ==> o in old(notifies) || fresh(o)
        invariant forall s :: s in subscribers ==> s in old(subscribers) || fresh(s)
        invariant forall s :: s in subscribers && s in old(subscribers) ==> old(s.events) <= s.events
      {
        assert forall k :: 0 <= k < |notifies| ==> notifies[k] in notifies;
        assert forall k :: 0 <= k < |subscribers| ==> subscribers[k] in subscribers;
        label Before:
        Perform(ops[i]);
        forall s | s in subscribers && s in old(subscribers)
          ensures old(s.events) <= s.events
        {
          assert s in old@Before(subscribers);
        }
        i := i + 1;
      }
    }
  }

  datatype Op =
    | Subscribe(service: Option<nat>, uuid: string, callback: string, timeout: nat, now: nat, memory: bool,
      resources: Resources)
    | Renew(sid: string, timeout: nat, now: nat, strict: bool)
    | Unsubscribe(sid: string)
    | Change(changed: nat, supply: nat -> Resources)
    | Select
    | Process(readset: set<int>, writeset: set<int>, now: nat)
}
