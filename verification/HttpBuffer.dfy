/** The receiving side of an HTTP connection: buffer growth, the end of the headers, and the decision
    to run the request. */
module HttpBuffer {
  import opened Wrappers
  import opened CodeLength
  import opened SeqTools

  const CONTENT_LENGTH_LIMIT: nat := 1024 * 1024
  const HEADERS_LENGTH_LIMIT: nat := 64 * 1024
  const SPACE: nat := 2048
  const STEP: nat := 256 * 1024
  const ALLOC_LIMIT: nat := CONTENT_LENGTH_LIMIT + HEADERS_LENGTH_LIMIT + SPACE + STEP

  // ---------- where the headers end ----------

  predicate EndAt(b: seq<Byte>, i: nat) {
    i + 4 <= |b| && b[i] == 13 && b[i + 1] == 10 && b[i + 2] == 13 && b[i + 3] == 10
  }

  /** Position of the first empty line at or after i. */
  function EndFrom(b: seq<Byte>, i: nat): (r: Option<nat>)
    ensures r.None? ==> forall k: nat :: i <= k ==> !EndAt(b, k)
    ensures r.Some? ==> i <= r.value && EndAt(b, r.value) && forall k: nat :: i <= k < r.value ==> !EndAt(b, k)
    decreases |b| - i
  {
    if i + 4 > |b| then None else if EndAt(b, i) then Some(i) else EndFrom(b, i + 1)
  }

  /** findendheaders */
  method FindEndHeaders(b: array<Byte>, len: nat) returns (r: Option<nat>)
    requires len <= b.Length
    ensures r == EndFrom(b[..len], 0)
  {
    var s := 0;
    while s + 4 <= len
      invariant EndFrom(b[..len], 0) == EndFrom(b[..len], s)
    {
      if b[s] == 13 && b[s + 1] == 10 && b[s + 2] == 13 && b[s + 3] == 10 {
        return Some(s);
      }
      s := s + 1;
    }
    return None;
  }

  /** What is known about the headers. */
  datatype Headers = Incomplete | TooLong | Complete(contentOff: nat)

  function Classify(b: seq<Byte>): (r: Headers) {
    match EndFrom(b, 0)
    case None => if |b| >= HEADERS_LENGTH_LIMIT then TooLong else Incomplete
    case Some(i) => if i + 4 >= HEADERS_LENGTH_LIMIT then TooLong else Complete(i + 4)
  }

  /** Once made, the decision does not depend on what else arrives: how the bytes of a request are
      cut into pieces has no influence on it. */
  lemma DecisionIsStable(b: seq<Byte>, more: seq<Byte>)
    requires Classify(b) != Incomplete
    ensures Classify(b + more) == Classify(b)
  {
    var all := b + more;
    assert forall k: nat :: EndAt(b, k) ==> EndAt(all, k);
    assert forall k: nat :: EndAt(all, k) && k + 4 <= |b| ==> EndAt(b, k);
    if EndFrom(b, 0).Some? {
      var i, j := EndFrom(b, 0).value, EndFrom(all, 0).value;
      assert !(j < i) && !(i < j);
    }
  }

  const EMPTY_LINE: seq<Byte> := [13, 10, 13, 10]   // CR LF CR LF

  /** Headers that end with their first empty line are complete when they are shorter than 64 kB, whatever
      follows them. */
  lemma HeadersRead(head: seq<Byte>, body: seq<Byte>)
    requires forall k :: 0 <= k < |head| ==> !At(head + EMPTY_LINE, k, EMPTY_LINE)
    ensures Classify(head + EMPTY_LINE + body)
         == if |head| + 4 >= 65536 then TooLong else Complete(|head| + 4)
  {
    var x := head + EMPTY_LINE;
    var b := x + body;
    assert x[|head|] == 13 && x[|head| + 1] == 10 && x[|head| + 2] == 13 && x[|head| + 3] == 10;
    assert EndAt(b, |head|);
    forall k | 0 <= k < |head|
      ensures !EndAt(b, k)
    {
      assert b[k] == x[k] && b[k + 1] == x[k + 1] && b[k + 2] == x[k + 2] && b[k + 3] == x[k + 3];
      assert x[k..k + 4] == [x[k], x[k + 1], x[k + 2], x[k + 3]];
      assert !At(x, k, EMPTY_LINE);
    }
    assert EndFrom(b, 0) == Some(|head|);
  }

  /** Without an empty line they are incomplete, up to the same size. */
  lemma HeadersMissing(b: seq<Byte>)
    requires forall k :: 0 <= k < |b| ==> !At(b, k, EMPTY_LINE)
    ensures Classify(b) == if |b| >= 65536 then TooLong else Incomplete
  {
    if EndFrom(b, 0).Some? {
      var i := EndFrom(b, 0).value;
      assert b[i..i + 4] == EMPTY_LINE;
      assert At(b, i, EMPTY_LINE);
    }
  }

  // ---------- the connection ----------

  datatype State = EWaitingForHttpRequest | EWaitingForHttpContent | ESendingContinue | ESendingAndClosing | EToDelete

  datatype Recv = Again | Broken | Closed | Data(bytes: seq<Byte>)

  /** What the headers say, as far as the buffer is concerned. */
  datatype Query = Query(contentLength: nat, post: bool, soapAction: bool, expectContinue: bool, hostOk: bool)

  /** Everything one call learns from its environment. */
  datatype Env = Env(memory: bool, input: Recv, query: Query, responseMemory: bool, sent: bool)

  /** Why a request is over. */
  datatype Verdict = Open | HeadersTooLong | Executed | NoAction | Other

  /** A beginning of the bytes has been received, all of them unless the buffer is full. */
  ghost predicate Arrived(before: seq<Byte>, after: seq<Byte>, bytes: seq<Byte>, full: bool) {
    exists n :: 0 < n <= |bytes| && after == before + bytes[..n] && (n == |bytes| || full)
  }

  lemma ArrivedIs(before: seq<Byte>, after: seq<Byte>, bytes: seq<Byte>, n: nat, full: bool)
    requires 0 < n <= |bytes| && after == before + bytes[..n] && (n == |bytes| || full)
    ensures Arrived(before, after, bytes, full) && before <= after
  {
  }

  class HttpConnection {
    var state: State
    var reqBuf: array?<Byte>
    var bufAlloc: nat
    var bufLen: nat
    var contentLen: nat
    var contentOff: nat
    var soapAction: bool
    var expectContinue: bool
    ghost var received: seq<Byte>
    ghost var verdict: Verdict

    ghost predicate BufferOk()
      reads this
    {
      && (reqBuf == null <==> bufAlloc == 0) && (reqBuf != null ==> reqBuf.Length == bufAlloc)
      && bufLen <= bufAlloc < ALLOC_LIMIT && (bufAlloc == 0 || bufAlloc >= 4096)
      && bufLen == |received|
    }

    /** The state machine, in terms of the bytes received. */
    ghost predicate StateOk()
      reads this
    {
      && (state == EWaitingForHttpRequest ==> verdict == Open && Classify(received) == Incomplete && contentOff == 0)
      && (state == EWaitingForHttpContent || state == ESendingContinue ==>
            && verdict == Open && Classify(received) == Complete(contentOff)
            && |received| - contentOff < contentLen <= CONTENT_LENGTH_LIMIT)
      && (verdict == HeadersTooLong ==> Classify(received) == TooLong)
      && (verdict == Executed || verdict == NoAction ==>
            && Classify(received) == Complete(contentOff)
            && |received| - contentOff >= contentLen && contentLen <= CONTENT_LENGTH_LIMIT)
    }

    ghost predicate Valid()
      reads this, reqBuf
    {
      && BufferOk() && StateOk()
      && (verdict == Open && reqBuf != null ==> reqBuf[..bufLen] == received)
    }

    constructor ()
      ensures Valid() && state == EWaitingForHttpRequest && received == []
    {
      state, reqBuf, bufAlloc, bufLen := EWaitingForHttpRequest, null, 0, 0;
      contentLen, contentOff, soapAction, expectContinue := 0, 0, false, false;
      received, verdict := [], Open;
    }

    /** SendRespAndClose_upnphttp */
    method SendRespAndClose(env: Env, why: Verdict)
      modifies this`state, this`verdict
      ensures state == (if env.sent then EToDelete else ESendingAndClosing) && verdict == why
    {
      state := if env.sent then EToDelete else ESendingAndClosing;
      verdict := why;
    }

    /** upnphttp_adjust_buffer: on success there are at least 2048 bytes to receive into, and what was
        received is still there. */
    method AdjustBuffer(env: Env) returns (ok: bool)
      requires Valid() && (state == EWaitingForHttpRequest || state == EWaitingForHttpContent)
      modifies this`reqBuf, this`bufAlloc, this`state, this`verdict
      ensures ok ==> Valid() && bufAlloc >= bufLen + 2048 && state == old(state) && verdict == Open
      ensures reqBuf == old(reqBuf) || fresh(reqBuf)
      ensures ok <==> env.memory || old(bufAlloc) >= bufLen + 2048
      ensures !ok ==> verdict == Other && bufAlloc == old(bufAlloc) && reqBuf == old(reqBuf) && BufferOk()
    {
      ok := true;
      if bufAlloc < bufLen + SPACE {
        assert bufLen < CONTENT_LENGTH_LIMIT + HEADERS_LENGTH_LIMIT;
        var oldBufAlloc := bufAlloc;
        if bufAlloc == 0 {
          bufAlloc := 4096;
        } else if bufAlloc < STEP {
          bufAlloc := bufAlloc + bufAlloc;
        } else {
          bufAlloc := bufAlloc + STEP;
        }
        if !env.memory {
          bufAlloc := oldBufAlloc;
          SendRespAndClose(env, Other);
          return false;
        }
        Realloc();
      }
    }

    /** realloc: the bytes received move to the new buffer. */
    method Realloc()
      requires bufLen <= bufAlloc && 0 < bufAlloc && (reqBuf == null ==> bufLen == 0)
      requires reqBuf != null ==> reqBuf.Length <= bufAlloc && bufLen <= reqBuf.Length
      modifies this`reqBuf
      ensures fresh(reqBuf) && reqBuf != null && reqBuf.Length == bufAlloc
      ensures old(reqBuf) == null || reqBuf[..bufLen] == old(reqBuf[..bufLen])
    {
      var h := new Byte[bufAlloc];
      var from, len := reqBuf, bufLen;
      if from != null {
        var i := 0;
        while i < len
          invariant i <= len && h[..i] == from[..i]
        {
          h[i] := from[i];
          i := i + 1;
        }
      }
      reqBuf := h;
    }

    /** recv into the free part of the buffer, leaving `spare` bytes. */
    method Receive(bytes: seq<Byte>, spare: nat) returns (n: nat)
      requires reqBuf != null && reqBuf.Length == bufAlloc && bufLen + spare < bufAlloc && bytes != []
      requires reqBuf[..bufLen] == received && |received| == bufLen
      modifies this`bufLen, this`received, reqBuf
      ensures 0 < n <= |bytes| && n == bufLen - old(bufLen) && bufLen + spare <= bufAlloc
      ensures n == |bytes| || bufLen + spare == bufAlloc
      ensures received == old(received) + bytes[..n] && |received| == bufLen && reqBuf[..bufLen] == received
    {
      n := if |bytes| <= bufAlloc - bufLen - spare then |bytes| else bufAlloc - bufLen - spare;
      var to, at := reqBuf, bufLen;
      var i := 0;
      while i < n
        invariant i <= n && bufLen == at && received == old(received)
        invariant to[..at + i] == received + bytes[..i]
      {
        to[at + i] := bytes[i];
        i := i + 1;
        assert to[..at + i] == to[..at + i - 1] + [bytes[i - 1]];
      }
      received := received + bytes[..n];
      bufLen := bufLen + n;
    }

    /** ProcessHTTPPOST_upnphttp: the action is run exactly when the whole body is there. */
    method ProcessPost(env: Env)
      requires BufferOk() && Classify(received) == Complete(contentOff) && contentLen <= CONTENT_LENGTH_LIMIT
      requires verdict == Open && reqBuf != null && reqBuf[..bufLen] == received
      modifies this`state, this`verdict
      ensures Valid() && state != EWaitingForHttpRequest
      ensures verdict == Executed <==> |received| - contentOff >= contentLen && soapAction
      ensures verdict == NoAction <==> |received| - contentOff >= contentLen && !soapAction
      ensures verdict == Other <==> |received| - contentOff < contentLen && expectContinue && !env.responseMemory
      ensures verdict == Open ==> state == if expectContinue
        && !env.sent then ESendingContinue else EWaitingForHttpContent
    {
      if bufLen - contentOff >= contentLen {
        if soapAction {
          SendRespAndClose(env, Executed);   // ExecuteSoapAction answers and closes
        } else {
          SendRespAndClose(env, NoAction);
        }
      } else if expectContinue {
        if !env.responseMemory {
          SendRespAndClose(env, Other);
          return;
        }
        state := ESendingContinue;
        if env.sent {
          state := EWaitingForHttpContent;
        }
      } else {
        state := EWaitingForHttpContent;
      }
    }

    /** ProcessHttpQuery_upnphttp, once the headers are complete. */
    method ProcessQuery(env: Env)
      requires BufferOk() && Classify(received) == Complete(contentOff)
      requires verdict == Open && reqBuf != null && reqBuf[..bufLen] == received
      modifies this`state, this`verdict, this`contentLen, this`soapAction, this`expectContinue
      ensures Valid() && state != EWaitingForHttpRequest && contentLen == env.query.contentLength
      ensures var q := env.query;
              var ok := q.contentLength <= 1048576 && q.hostOk && q.post;
              && (verdict == Executed <==> ok && q.contentLength <= |received| - contentOff && q.soapAction)
              && (verdict == NoAction <==> ok && q.contentLength <= |received| - contentOff && !q.soapAction)
              && (!ok ==> verdict == Other)
    {
      contentLen := env.query.contentLength;
      soapAction, expectContinue := env.query.soapAction, env.query.expectContinue;
      if contentLen > CONTENT_LENGTH_LIMIT {
        SendRespAndClose(env, Other);
        return;
      }
      if !env.query.hostOk || !env.query.post {
        SendRespAndClose(env, Other);
        return;
      }
      ProcessPost(env);
    }

    /** The first part of Process_upnphttp. */
    method ProcessRequest(env: Env)
      requires Valid() && state == EWaitingForHttpRequest
      modifies this, reqBuf
      ensures Valid() && (reqBuf == old(reqBuf) || fresh(reqBuf))
      ensures old(received) <= received
      ensures Classify(received) == TooLong <==> verdict == HeadersTooLong
      ensures !env.input.Data? ==> received == old(received)
      ensures env.input.Data? && env.input.bytes != [] && env.memory ==>
        Arrived(old(received), received, env.input.bytes, bufLen + 1 == bufAlloc)
      ensures env.input == Again && env.memory ==> state == EWaitingForHttpRequest
      ensures verdict == Open ==>
        (state == EWaitingForHttpRequest <==> Classify(received) == Incomplete)
    {
      hide Classify;
      var ok := AdjustBuffer(env);
      if !ok {
        state := EToDelete;
        return;
      }
      match env.input {
        case Again =>
        case Broken => state, verdict := EToDelete, Other;
        case Closed => state, verdict := EToDelete, Other;
        case Data(bytes) =>
          if bytes == [] {
            state, verdict := EToDelete, Other;
            return;
          }
          TakeRequest(env, bytes);
      }
    }

    /** Bytes arrive while the headers are incomplete; one byte of the buffer stays free for a zero. */
    method TakeRequest(env: Env, bytes: seq<Byte>)
      requires Valid() && state == EWaitingForHttpRequest && bufLen + SPACE <= bufAlloc && bytes != []
      modifies this, reqBuf
      ensures Valid() && reqBuf == old(reqBuf)
      ensures Arrived(old(received), received, bytes, bufLen + 1 == bufAlloc)
      ensures state == EWaitingForHttpRequest <==> Classify(received) == Incomplete
      ensures Classify(received) == TooLong <==> verdict == HeadersTooLong
    {
      hide Classify;
      var n := Receive(bytes, 1);
      ArrivedIs(old(received), received, bytes, n, bufLen + 1 == bufAlloc);
      hide Arrived;
      reqBuf[bufLen] := 0;
      assert reqBuf[..bufLen] == received;
      Decide(env);
    }

    /** The bytes just received may complete the headers or exceed their limit. */
    method Decide(env: Env)
      requires BufferOk() && bufLen > 0 && verdict == Open && reqBuf != null && reqBuf[..bufLen] == received
      requires state == EWaitingForHttpRequest && contentOff == 0
      modifies this`state, this`verdict, this`contentLen, this`contentOff, this`soapAction, this`expectContinue, reqBuf
      ensures Valid() && (state == EWaitingForHttpRequest <==> Classify(received) == Incomplete)
      ensures Classify(received) == TooLong <==> verdict == HeadersTooLong
    {
      var endHeaders := FindEndHeaders(reqBuf, bufLen);
      if endHeaders.Some? {
        contentOff := endHeaders.value + 4;
      }
      if contentOff >= HEADERS_LENGTH_LIMIT || (endHeaders.None? && bufLen >= HEADERS_LENGTH_LIMIT) {
        reqBuf[bufLen - 1] := 0;
        SendRespAndClose(env, HeadersTooLong);
        return;
      }
      if endHeaders.Some? {
        ProcessQuery(env);
      }
    }

    /** The second part of Process_upnphttp. */
    method ProcessContent(env: Env)
      requires Valid() && state == EWaitingForHttpContent
      modifies this, reqBuf
      ensures Valid() && (reqBuf == old(reqBuf) || fresh(reqBuf))
      ensures old(received) <= received
      ensures contentOff == old(contentOff) && contentLen == old(contentLen)
      ensures !env.input.Data? ==> received == old(received)
      ensures env.input.Data? && env.input.bytes != [] && env.memory ==>
        Arrived(old(received), received, env.input.bytes, bufLen == bufAlloc)
      ensures env.input == Again && env.memory ==> state == EWaitingForHttpContent
      ensures verdict == Executed || verdict == NoAction <==> |received| - contentOff >= contentLen
    {
      hide Classify;
      var ok := AdjustBuffer(env);
      if !ok {
        state := EToDelete;
        return;
      }
      match env.input {
        case Again =>
        case Broken => state, verdict := EToDelete, Other;
        case Closed => state, verdict := EToDelete, Other;
        case Data(bytes) =>
          if bytes == [] {
            state, verdict := EToDelete, Other;
            return;
          }
          TakeContent(env, bytes);
      }
    }

    /** Bytes of the body arrive. */
    method TakeContent(env: Env, bytes: seq<Byte>)
      requires Valid() && state == EWaitingForHttpContent && bufLen + SPACE <= bufAlloc && bytes != []
      modifies this, reqBuf
      ensures Valid() && reqBuf == old(reqBuf)
      ensures Arrived(old(received), received, bytes, bufLen == bufAlloc)
      ensures contentOff == old(contentOff) && contentLen == old(contentLen)
      ensures verdict == Executed || verdict == NoAction <==> |received| - contentOff >= contentLen
    {
      hide Classify;
      ghost var before := received;
      var n := Receive(bytes, 0);
      ArrivedIs(before, received, bytes, n, bufLen == bufAlloc);
      hide Arrived;
      DecisionIsStable(before, bytes[..n]);
      if bufLen - contentOff >= contentLen {
        ProcessPost(env);
      }
    }

    /** Nothing but the state may have changed. */
    twostate predicate Untouched()
      reads this
    {
      && reqBuf == old(reqBuf) && bufAlloc == old(bufAlloc) && bufLen == old(bufLen) && received == old(received)
      && contentLen == old(contentLen) && contentOff == old(contentOff) && verdict == old(verdict)
    }

    /** Process_upnphttp */
    method Process(env: Env)
      requires Valid()
      modifies this, reqBuf
      ensures Valid() && (reqBuf == old(reqBuf) || fresh(reqBuf))
      ensures old(received) <= received
      ensures old(state) == ESendingContinue ==>
        state == (if env.sent then EWaitingForHttpContent else ESendingContinue) && Untouched()
      ensures old(state) == ESendingAndClosing ==>
        state == (if env.sent then EToDelete else ESendingAndClosing) && Untouched()
      ensures old(state) == EToDelete ==> state == EToDelete && Untouched()
    {
      match state {
        case EWaitingForHttpRequest => ProcessRequest(env);
        case EWaitingForHttpContent => ProcessContent(env);
        case ESendingContinue =>
          if env.sent {
            state := EWaitingForHttpContent;
          }
        case ESendingAndClosing =>
          if env.sent {
            state := EToDelete;
          }
        case EToDelete =>
      }
    }

    /** Over every sequence of socket events the buffer stays within its bound, holds what was received,
        and the action runs only on a complete request. */
    method Run(envs: seq<Env>)
      requires Valid()
      modifies this, reqBuf
      ensures Valid() && bufLen <= bufAlloc < 1048576 + 65536 + 2048 + 262144 && old(received) <= received
      ensures verdict == Executed ==>
        Classify(received) == Complete(contentOff) && |received| >= contentOff + contentLen
    {
      hide Classify;
      var i := 0;
      while i < |envs|
        invariant i <= |envs| && Valid() && (reqBuf == old(reqBuf) || fresh(reqBuf)) && old(received) <= received
      {
        Process(envs[i]);
        i := i + 1;
      }
    }
  }
}
