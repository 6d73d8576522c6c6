/** The output side of a minissdpd client connection: bytes that the socket does not take are
    buffered and written first the next time. */
module SsdpOutput {
  import opened CodeLength
  import opened SeqTools

  /** Outcome of write(): a byte count, or one of the two kinds of error. */
  const TRANSIENT := -1   // EINTR, EWOULDBLOCK, EAGAIN
  const FATAL := -2

  class ReqElem {
    var isNotify: bool
    var outputBuffer: array?<Byte>
    var offset: nat
    var len: nat
    ghost var wire: seq<Byte>   // everything the socket has accepted
    ghost var exact: bool       // the block is as large as needed: no reallocation has failed since the last
    ghost var cuts: nat         // notifications whose write failed

    ghost predicate Valid()
      reads this
    {
      if outputBuffer == null then offset == 0 && len == 0
      else offset + len <= outputBuffer.Length && (exact ==> offset + len == outputBuffer.Length)
    }

    ghost function Pending(): seq<Byte>
      reads this, outputBuffer
      requires Valid()
    {
      if outputBuffer == null then [] else outputBuffer[offset..offset + len]
    }

    /** The byte stream as the peer will see it, once everything is flushed. */
    ghost function Stream(): seq<Byte>
      reads this, outputBuffer
      requires Valid()
    {
      wire + Pending()
    }

    constructor ()
      ensures Valid() && Stream() == [] && !isNotify && exact && cuts == 0
    {
      isNotify, outputBuffer, offset, len, wire, exact, cuts := false, null, 0, 0, [], true, 0;
    }

    /** write(2) on the client socket. */
    method Write(data: seq<Byte>) returns (n: int)
      requires Valid()
      modifies this`wire
      ensures FATAL <= n <= |data|
      ensures wire == old(wire) + if n >= 0 then data[..n] else []
    {
      n :| FATAL <= n <= |data|;
      wire := wire + if n >= 0 then data[..n] else [];
    }

    /** The first n pending bytes are gone. */
    method Consume(n: nat)
      requires Valid() && outputBuffer != null && n <= len
      modifies this`offset, this`len
      ensures Valid() && len == old(len) - n && old(Pending())[n..] == Pending()
    {
      offset, len := offset + n, len - n;
    }

    /** write_buffer: flushes what it can. */
    method WriteBuffer() returns (r: int)
      requires Valid()
      modifies this`wire, this`offset, this`len
      ensures Valid() && Stream() == old(Stream())
      ensures r >= 0 ==> len + r == old(len)
      ensures r < 0 ==> len == old(len)
    {
      if outputBuffer != null && len > 0 {
        ghost var before := Pending();
        var n := Write(outputBuffer[offset..offset + len]);
        hide Pending;
        if n >= 0 {
          Consume(n);
          Flushed(old(wire), before, n);
        } else if n == TRANSIENT {
          return 0;
        }
        return n;
      } else {
        return 0;
      }
    }

    /** add_to_buffer: the pending bytes move to the front and the block is resized to fit. */
    method AddToBuffer(data: seq<Byte>) returns (r: int)
      requires Valid()
      modifies this`outputBuffer, this`offset, this`len, this`exact, outputBuffer
      ensures Valid() && (outputBuffer == old(outputBuffer) || fresh(outputBuffer))
      ensures r < 0 ==> Pending() == old(Pending()) && !exact
      ensures r >= 0 ==> r == |data| && Pending() == old(Pending()) + data
      ensures r >= 0 ==> exact && outputBuffer != null && outputBuffer.Length == offset + len
    {
      if offset > 0 {
        MoveToFront();
      }
      var ok: bool := *;
      if !ok {
        exact := false;
        return -1;
      }
      Grow(data);
      return |data|;
    }

    /** memmove of what is pending. */
    method MoveToFront()
      requires Valid() && offset > 0
      modifies this`offset, this`exact, outputBuffer
      ensures Valid() && offset == 0 && Pending() == old(Pending())
    {
      forall k | 0 <= k < len {
        outputBuffer[k] := outputBuffer[offset + k];
      }
      offset := 0;
      exact := false;   // until the block is resized
    }

    /** realloc and memcpy. */
    method Grow(data: seq<Byte>)
      requires Valid() && offset == 0
      modifies this`outputBuffer, this`len, this`exact
      ensures Valid() && fresh(outputBuffer) && exact && outputBuffer != null && outputBuffer.Length == offset + len
      ensures Pending() == old(Pending()) + data
    {
      var tmp := new Byte[len + |data|](_ => 0);
      forall k | 0 <= k < len + |data| {
        tmp[k] := if k < len then outputBuffer[k] else data[k - len];
      }
      outputBuffer, len, exact := tmp, len + |data|, true;
      assert tmp[..len] == old(Pending()) + data;
    }

    /** write_or_buffer: on success the data is appended to the stream; on failure at most a prefix
        of it is, and nothing that was pending is lost or reordered. */
    method WriteOrBuffer(data: seq<Byte>) returns (r: int)
      requires Valid()
      modifies this`wire, this`offset, this`len, this`outputBuffer, this`exact, outputBuffer
      ensures Valid() && (outputBuffer == old(outputBuffer) || fresh(outputBuffer))
      ensures r >= 0 ==> r == |data| && Stream() == old(Stream()) + data && (old(exact) ==> exact)
      ensures r < 0 ==> Partial(old(Stream()), Stream(), data)
    {
      hide Pending, Partial;
      ghost var before := Stream();
      var flushed := WriteBuffer();
      if flushed < 0 {
        PartialUpTo(before, data, 0);
        return -1;
      }
      if outputBuffer != null && len > 0 {
        ghost var pending := Pending();
        r := AddToBuffer(data);
        PartialUpTo(before, data, 0);
        Assoc(wire, pending, data);
      } else {
        NothingPending();
        var n := Write(data);
        NothingPending();
        if n == |data| {
          assert data[..n] == data;
          return |data|;
        }
        if n < 0 {
          PartialUpTo(before, data, 0);
          assert wire == before;
          if n == TRANSIENT {
            n := AddToBuffer(data);
            if n < 0 {
              return n;
            }
            assert wire + ([] + data) == before + data;
          } else {
            return n;
          }
        } else {
          ghost var k := n;
          PartialUpTo(before, data, k);
          n := AddToBuffer(data[n..]);
          if n < 0 {
            return n;
          }
          assert before + data[..k] + ([] + data[k..]) == before + data;
        }
        return |data|;
      }
    }

    /** What sendNotifications does for one client: a failed write is only logged. */
    method Announce(data: seq<Byte>)
      requires Valid()
      modifies this`wire, this`offset, this`len, this`outputBuffer, this`exact, this`cuts, outputBuffer
      ensures Valid() && (outputBuffer == old(outputBuffer) || fresh(outputBuffer))
      ensures Received(old(Stream()), Stream(), if isNotify then data else [], old(cuts), cuts)
    {
      hide Partial;
      if isNotify {
        var r := WriteOrBuffer(data);
        if r < 0 {
          cuts := cuts + 1;
        }
      } else {
        assert Stream() + [] == Stream();
      }
    }

    lemma NothingPending()
      requires Valid() && (outputBuffer == null || len == 0)
      ensures Pending() == [] && Stream() == wire
    {
    }

    /** Any mix of submissions and flushes that all succeed delivers the submitted data in order. */
    method Deliver(chunks: seq<seq<Byte>>) returns (ok: bool)
      requires Valid()
      modifies this`wire, this`offset, this`len, this`outputBuffer, this`exact, outputBuffer
      ensures Valid()
      ensures ok ==> Stream() == old(Stream()) + Concat(chunks) && (old(exact) ==> exact)
    {
      hide Stream, Pending, Valid, Partial;
      var i := 0;
      assert old(Stream()) + Concat(chunks[..0]) == old(Stream());
      while i < |chunks|
        invariant i <= |chunks| && Valid() && (outputBuffer == old(outputBuffer) || fresh(outputBuffer))
        invariant Stream() == old(Stream()) + Concat(chunks[..i]) && (old(exact) ==> exact)
      {
        var flushes: nat := *;
        while flushes > 0
          invariant Valid() && (outputBuffer == old(outputBuffer) || fresh(outputBuffer))
          invariant Stream() == old(Stream()) + Concat(chunks[..i]) && (old(exact) ==> exact)
        {
          var r := WriteBuffer();
          if r < 0 {
            return false;
          }
          flushes := flushes - 1;
        }
        var r := WriteOrBuffer(chunks[i]);
        if r < 0 {
          return false;
        }
        ConcatSnoc(chunks[..i], chunks[i]);
        assert chunks[..i + 1] == chunks[..i] + [chunks[i]];
        Assoc(old(Stream()), Concat(chunks[..i]), chunks[i]);
        i := i + 1;
      }
      assert chunks[..i] == chunks;
      return true;
    }
  }

  lemma Flushed(wire: seq<Byte>, pending: seq<Byte>, n: nat)
    requires n <= |pending|
    ensures (wire + pending[..n]) + pending[n..] == wire + pending
  {
  }

  /** At most a prefix of the data has been added to the stream. */
  ghost predicate Partial(before: seq<Byte>, after: seq<Byte>, data: seq<Byte>) {
    exists k :: 0 <= k <= |data| && after == before + data[..k]
  }

  /** The data has been added to the stream, or a part of it while the number of cuts went up. */
  ghost predicate Received(before: seq<Byte>, after: seq<Byte>, data: seq<Byte>, cuts: nat, cuts': nat) {
    if cuts' == cuts then after == before + data
    else cuts' == cuts + 1 && Partial(before, after, data)
  }

  // ---------- all clients ----------

  /** The output buffers of the clients, in order. */
  ghost function BufferList(clients: seq<ReqElem>): (r: seq<array?<Byte>>)
    reads clients
    ensures |r| == |clients| && forall i :: 0 <= i < |clients| ==> r[i] == clients[i].outputBuffer
  {
    if clients == [] then [] else [clients[0].outputBuffer] + BufferList(clients[1..])
  }

  /** No two clients and no two of their buffers are the same. */
  ghost predicate Apart(clients: seq<ReqElem>, buffers: seq<array?<Byte>>) {
    && |clients| == |buffers|
    && forall i, j :: 0 <= i < j < |clients| ==> clients[i] != clients[j] && (buffers[i] != null ==>
        buffers[i] != buffers[j])
  }

  ghost predicate AllValid(clients: seq<ReqElem>)
    reads clients
  {
    forall i :: 0 <= i < |clients| ==> clients[i].Valid()
  }

  /** The clients are different objects with different buffers. */
  ghost predicate Separate(clients: seq<ReqElem>)
    reads clients
  {
    AllValid(clients) && Apart(clients, BufferList(clients))
  }

  ghost function Buffers(clients: seq<ReqElem>): set<array?<Byte>>
    reads clients
  {
    set c | c in clients :: c.outputBuffer
  }

  /** A client's buffer may be replaced by one that nobody has. */
  lemma ApartAfter(clients: seq<ReqElem>, buffers: seq<array?<Byte>>, k: nat, now: seq<array?<Byte>>)
    requires Apart(clients, buffers) && k < |clients| && |now| == |clients|
    requires forall i :: 0 <= i < |now| && i != k ==> now[i] == buffers[i]
    requires now[k] == buffers[k] || now[k] == null || now[k] !in buffers
    ensures Apart(clients, now)
  {
  }

  lemma IndexOf(clients: seq<ReqElem>, req: ReqElem) returns (k: nat)
    requires Separate(clients) && req in clients
    ensures k < |clients| && clients[k] == req && req.Valid()
    ensures forall i :: 0 <= i < |clients| && i != k ==>
      clients[i] != req && clients[i].Valid() && (clients[i].outputBuffer != null ==>
          clients[i].outputBuffer != req.outputBuffer)
  {
    k :| 0 <= k < |clients| && clients[k] == req;
  }

  lemma SeparateNow(clients: seq<ReqElem>, buffers: seq<array?<Byte>>, k: nat)
    requires Apart(clients, buffers) && k < |clients| && clients[k].Valid()
    requires forall i :: 0 <= i < |clients| && i != k ==> clients[i].Valid() && clients[i].outputBuffer == buffers[i]
    requires var b := clients[k].outputBuffer; b == buffers[k] || b == null || b !in buffers
    ensures Separate(clients)
  {
    ApartAfter(clients, buffers, k, BufferList(clients));
  }

  /** sendNotifications: every client that asked for notifications hears the data, or a part of it when
      its write fails; the others hear nothing. */
  method SendNotifications(clients: seq<ReqElem>, data: seq<Byte>)
    requires Separate(clients)
    modifies clients, Buffers(clients)
    ensures Separate(clients)
    ensures forall c :: c in clients ==>
      && (c.outputBuffer == old(c.outputBuffer) || fresh(c.outputBuffer))
      && c.isNotify == old(c.isNotify)
      && Received(old(c.Stream()), c.Stream(), if c.isNotify then data else [], old(c.cuts), c.cuts)
  {
    hide Received, Separate, ReqElem.Stream, ReqElem.Pending, ReqElem.Valid;
    var i := 0;
    AllDifferent(clients);
    while i < |clients|
      invariant i <= |clients| && Separate(clients)
      invariant forall k :: 0 <= k < |clients| ==>
        && clients[k].Valid() && clients[k].isNotify == old(clients[k].isNotify)
        && (clients[k].outputBuffer == old(clients[k].outputBuffer) || fresh(clients[k].outputBuffer))
      invariant forall k :: 0 <= k < i ==>
        Received(old(clients[k].Stream()), clients[k].Stream(), if clients[k].isNotify then data else [],
              old(clients[k].cuts), clients[k].cuts)
      invariant forall k :: i <= k < |clients| ==>
        clients[k].Stream() == old(clients[k].Stream()) && clients[k].cuts == old(clients[k].cuts)
    {
      AnnounceTo(clients, clients[i], data);
      AllDifferent(clients);
      i := i + 1;
    }
  }

  lemma AllDifferent(clients: seq<ReqElem>)
    requires Separate(clients)
    ensures forall i :: 0 <= i < |clients| ==> clients[i].Valid()
    ensures forall i, j :: 0 <= i < j < |clients| ==> clients[i] != clients[j]
  {
  }

  method AnnounceTo(clients: seq<ReqElem>, req: ReqElem, data: seq<Byte>)
    requires Separate(clients) && req in clients
    modifies req`wire, req`offset, req`len, req`outputBuffer, req`exact, req`cuts, req.outputBuffer
    ensures Separate(clients) && (req.outputBuffer == old(req.outputBuffer) || fresh(req.outputBuffer))
    ensures forall c :: c in clients && c != req ==> unchanged(c) && c.Stream() == old(c.Stream())
    ensures Received(old(req.Stream()), req.Stream(), if req.isNotify then data else [], old(req.cuts), req.cuts)
  {
    hide Received, Separate, Apart, BufferList, ReqElem.Stream, ReqElem.Pending, ReqElem.Valid;
    ghost var k := IndexOf(clients, req);
    ghost var buffers := BufferList(clients);
    SeparateIs(clients);
    req.Announce(data);
    SeparateNow(clients, buffers, k);
  }

  lemma SeparateIs(clients: seq<ReqElem>)
    requires Separate(clients)
    ensures Apart(clients, BufferList(clients))
  {
  }

  /** write_or_buffer for one client, seen from all of them. */
  method ReplyTo(clients: seq<ReqElem>, req: ReqElem, data: seq<Byte>) returns (r: int)
    requires Separate(clients) && req in clients
    modifies req`wire, req`offset, req`len, req`outputBuffer, req`exact, req.outputBuffer
    ensures Separate(clients) && (req.outputBuffer == old(req.outputBuffer) || fresh(req.outputBuffer))
    ensures forall c :: c in clients && c != req ==> unchanged(c) && c.Stream() == old(c.Stream())
    ensures forall c :: c in clients && c != req ==> Received(old(c.Stream()), c.Stream(), [], c.cuts, c.cuts)
    ensures if r >= 0 then Received(old(req.Stream()), req.Stream(), data, req.cuts, req.cuts)
            else Partial(old(req.Stream()), req.Stream(), data)
  {
    hide Partial, Separate, Apart, BufferList, ReqElem.Stream, ReqElem.Pending, ReqElem.Valid;
    ghost var k := IndexOf(clients, req);
    ghost var buffers := BufferList(clients);
    SeparateIs(clients);
    r := req.WriteOrBuffer(data);
    SeparateNow(clients, buffers, k);
    forall c | c in clients && c != req
      ensures Received(c.Stream(), c.Stream(), [], c.cuts, c.cuts)
    {
      NothingAdded(c.Stream(), [], c.cuts);
    }
  }

  /** From now on the client hears notifications. */
  method MarkNotify(clients: seq<ReqElem>, req: ReqElem)
    requires Separate(clients) && req in clients
    modifies req`isNotify
    ensures Separate(clients) && req.isNotify && req.Stream() == old(req.Stream())
    ensures forall c :: c in clients && c != req ==> c.Stream() == old(c.Stream())
  {
    hide Separate, Apart, BufferList;
    ghost var k := IndexOf(clients, req);
    ghost var buffers := BufferList(clients);
    SeparateIs(clients);
    req.isNotify := true;
    SeparateNow(clients, buffers, k);
  }

  lemma NothingAdded(stream: seq<Byte>, data: seq<Byte>, cuts: nat)
    ensures Partial(stream, stream, data)
    ensures Received(stream, stream, [], cuts, cuts)
  {
    PartialUpTo(stream, data, 0);
  }

  lemma PartialUpTo(before: seq<Byte>, data: seq<Byte>, k: nat)
    requires k <= |data|
    ensures Partial(before, before + data[..k], data)
    ensures k == 0 ==> before + data[..k] == before
  {
  }

  function Concat(chunks: seq<seq<Byte>>): seq<Byte> {
    if chunks == [] then [] else chunks[0] + Concat(chunks[1..])
  }

  lemma {:induction false} ConcatAppend(a: seq<seq<Byte>>, b: seq<seq<Byte>>)
    ensures Concat(a + b) == Concat(a) + Concat(b)
  {
    if a == [] {
      assert a + b == b;
    } else {
      TailAppend(a, b);
      ConcatAppend(a[1..], b);
      Assoc(a[0], Concat(a[1..]), Concat(b));
    }
  }

  lemma ConcatSnoc(chunks: seq<seq<Byte>>, c: seq<Byte>)
    ensures Concat(chunks + [c]) == Concat(chunks) + c
  {
    ConcatAppend(chunks, [c]);
    assert [c][1..] == [];
    assert Concat([c]) == c + [];
  }
}
