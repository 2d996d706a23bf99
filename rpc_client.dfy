/**
 * RpcClient: the table of pending requests, keyed by the 32-bit message id,
 * and the demultiplexing of responses onto it.
 *
 * The `resolve` function of each caller's promise is an opaque `Resolver`
 * token, and every call `resolve(reader)` is appended to a log of
 * `Resolution`s, so "resolved once" and "resolved with its own response" are
 * statements about that log. `ClientState` is the value the class's fields
 * hold; `Register` and `Receive` are the specification of the two mutating
 * methods, and the lemmas below are stated over them.
 */
module Client {
  import opened Wrappers
  import opened Wire
  import opened Reader

  /** The `resolve` function of one caller's promise. */
  datatype Resolver = Resolver(call: nat)

  /** One call `resolve(responseReader)`. */
  datatype Resolution = Resolution(resolver: Resolver, response: NanoBufReader)

  datatype ClientState = ClientState(pending: map<Uint32, Resolver>, resolutions: seq<Resolution>)

  /** The correlation id of a response: the little-endian uint32 at offset 1 (None where `readUint32(1)` throws). */
  function ResponseMsgId(response: NanoBufReader): (id: Option<Uint32>)
    ensures id.Some? <==> |response.buffer| >= 5
    ensures id.Some? ==> EncodeUint32(id.value) == response.buffer[1..5]
  {
    response.ReadUint32(1)
  }

  /** `pendingRequests.set(msgId, resolve)`: adds or overwrites one entry, resolving nobody. */
  function Register(st: ClientState, msgId: Uint32, resolve: Resolver): (r: ClientState)
    ensures r.pending.Keys == st.pending.Keys + {msgId} && r.pending[msgId] == resolve
    ensures forall id :: id in st.pending && id != msgId ==> r.pending[id] == st.pending[id]
    ensures r.resolutions == st.resolutions
  {
    ClientState(st.pending[msgId := resolve], st.resolutions)
  }

  /**
   * `onResponseReceived`: a response whose id is pending removes that entry and
   * resolves its caller with the response; any other response changes nothing.
   * The table only shrinks and the log grows by at most one entry.
   */
  function Receive(st: ClientState, response: NanoBufReader): (r: ClientState)
    ensures ResponseMsgId(response).Some? && ResponseMsgId(response).value in st.pending ==>
      var id := ResponseMsgId(response).value;
      r == ClientState(st.pending - {id}, st.resolutions + [Resolution(st.pending[id], response)])
    ensures ResponseMsgId(response).None? || ResponseMsgId(response).value !in st.pending ==> r == st
    ensures r.pending.Keys <= st.pending.Keys
    ensures forall id :: id in r.pending ==> r.pending[id] == st.pending[id]
    ensures st.resolutions <= r.resolutions && |r.resolutions| <= |st.resolutions| + 1
  {
    match ResponseMsgId(response)
    case None => st
    case Some(msgId) =>
      if msgId in st.pending then
        ClientState(st.pending - {msgId}, st.resolutions + [Resolution(st.pending[msgId], response)])
      else st
  }

  /** The first draw that is not a pending id, if any: what the do-while loop of `newMessageId` settles on. */
  function FirstFresh(pending: map<Uint32, Resolver>, draws: seq<Uint32>): (r: Option<Uint32>)
    ensures r.Some? ==> r.value !in pending && r.value in draws
    ensures r.Some? ==> exists k :: 0 <= k < |draws| && draws[k] == r.value && forall j :: 0 <= j < k ==> draws[j] in pending
    ensures r.None? <==> forall k :: 0 <= k < |draws| ==> draws[k] in pending
  {
    if draws == [] then None
    else if draws[0] !in pending then Some(draws[0])
    else
      var r := FirstFresh(pending, draws[1..]);
      if r.Some? then
        var k :| 0 <= k < |draws[1..]| && draws[1..][k] == r.value && forall j :: 0 <= j < k ==> draws[1..][j] in pending;
        assert draws[k + 1] == r.value && forall j :: 0 <= j < k + 1 ==> draws[j] in pending;
        r
      else r
  }

  class RpcClient {
    var pendingRequests: map<Uint32, Resolver>
    var resolutions: seq<Resolution>

    function State(): ClientState
      reads this
    {
      ClientState(pendingRequests, resolutions)
    }

    constructor()
      ensures State() == ClientState(map[], [])
    {
      pendingRequests := map[];
      resolutions := [];
    }

    /**
     * Registers `resolve` under `msgId`, then returns `data` unchanged for the
     * channel: the entry exists before the channel sees the request, so a
     * reply delivered synchronously finds it.
     */
    method SendRequestData(msgId: Uint32, data: seq<Byte>, resolve: Resolver) returns (outbound: seq<Byte>)
      modifies this
      ensures State() == Register(old(State()), msgId, resolve)
      ensures outbound == data
    {
      pendingRequests := pendingRequests[msgId := resolve];
      outbound := data;
    }

    /**
     * `newMessageId`: `draws` are the successive values of
     * `Math.floor(Math.random() * 2^32)`. The loop returns the first one that is
     * not pending; should every draw be pending, it goes on drawing, which the
     * model stands for by choosing some free id (one exists while fewer than
     * 2^32 requests are pending). The table is not modified.
     */
    method NewMessageId(draws: seq<Uint32>) returns (id: Uint32)
      requires |pendingRequests| < 0x1_0000_0000
      ensures id !in pendingRequests
      ensures FirstFresh(pendingRequests, draws).Some? ==> id == FirstFresh(pendingRequests, draws).value
    {
      var i := 0;
      while i < |draws| && draws[i] in pendingRequests
        invariant 0 <= i <= |draws|
        invariant FirstFresh(pendingRequests, draws) == FirstFresh(pendingRequests, draws[i..])
      {
        assert draws[i..][1..] == draws[i + 1..];
        i := i + 1;
      }
      if i < |draws| {
        id := draws[i];
      } else {
        FreshIdExists(pendingRequests);
        id :| id !in pendingRequests;
      }
    }

    method OnResponseReceived(response: NanoBufReader)
      modifies this
      ensures State() == Receive(old(State()), response)
    {
      var msgId := response.ReadUint32(1);
      if msgId.Some? && msgId.value in pendingRequests {
        var handler := pendingRequests[msgId.value];
        pendingRequests := pendingRequests - {msgId.value};
        resolutions := resolutions + [Resolution(handler, response)];
      }
    }
  }

  // ---------------------------------------------------------------------------
  // Message ids

  /** The uint32 values below `n`. */
  function Below(n: nat): (s: set<Uint32>)
    requires n <= 0x1_0000_0000
    ensures |s| == n
    ensures forall i: Uint32 :: i in s <==> i < n
  {
    if n == 0 then {} else Below(n - 1) + {n - 1}
  }

  lemma SubsetCardinality(a: set<Uint32>, b: set<Uint32>)
    requires a <= b
    ensures |a| <= |b|
  {
    assert b == a + (b - a);
  }

  /** While fewer than 2^32 requests are pending, some uint32 is free. */
  lemma FreshIdExists(pending: map<Uint32, Resolver>)
    requires |pending| < 0x1_0000_0000
    ensures exists id: Uint32 :: id !in pending
  {
    var all := Below(0x1_0000_0000);
    if all <= pending.Keys {
      SubsetCardinality(all, pending.Keys);
      assert false;
    }
    var id :| id in all && id !in pending.Keys;
  }

  // ---------------------------------------------------------------------------
  // Demultiplexing

  /** The entry is made before the request leaves, so a reply that comes back synchronously resolves the caller. */
  lemma SynchronousReplyResolves(st: ClientState, msgId: Uint32, resolve: Resolver, response: NanoBufReader)
    requires ResponseMsgId(response) == Some(msgId)
    ensures Receive(Register(st, msgId, resolve), response)
         == ClientState(st.pending - {msgId}, st.resolutions + [Resolution(resolve, response)])
  {
    assert st.pending[msgId := resolve] - {msgId} == st.pending - {msgId};
  }

  /** Had the entry been made after the send, the synchronous reply would be dropped and the caller left pending. */
  lemma ReplyBeforeRegistrationIsLost(st: ClientState, msgId: Uint32, resolve: Resolver, response: NanoBufReader)
    requires ResponseMsgId(response) == Some(msgId) && msgId !in st.pending
    ensures Register(Receive(st, response), msgId, resolve) == Register(st, msgId, resolve)
  {
  }

  /** A second copy of a response is dropped: receiving the same response twice is receiving it once. */
  lemma DuplicateResponseDropped(st: ClientState, response: NanoBufReader)
    ensures Receive(Receive(st, response), response) == Receive(st, response)
  {
  }

  /** Two pending calls answered in either order each get their own response; only the order of the log differs. */
  lemma ResponsesInEitherOrder(st: ClientState, a: Uint32, ra: NanoBufReader, b: Uint32, rb: NanoBufReader)
    requires ResponseMsgId(ra) == Some(a) && ResponseMsgId(rb) == Some(b)
    requires a != b && a in st.pending && b in st.pending
    ensures Receive(Receive(st, ra), rb)
         == ClientState(st.pending - {a, b}, st.resolutions + [Resolution(st.pending[a], ra), Resolution(st.pending[b], rb)])
    ensures Receive(Receive(st, rb), ra)
         == ClientState(st.pending - {a, b}, st.resolutions + [Resolution(st.pending[b], rb), Resolution(st.pending[a], ra)])
  {
    assert st.pending - {a} - {b} == st.pending - {a, b};
    assert st.pending - {b} - {a} == st.pending - {a, b};
  }

  // ---------------------------------------------------------------------------
  // Every caller is resolved at most once

  /** The resolver has been handed to the client: it is pending or has been resolved. */
  ghost predicate Known(st: ClientState, resolve: Resolver)
  {
    resolve in st.pending.Values || exists k :: 0 <= k < |st.resolutions| && st.resolutions[k].resolver == resolve
  }

  /**
   * No resolver appears twice in the log, none that is pending appears in it,
   * and no two pending ids share one: each caller is resolved at most once.
   */
  ghost predicate SingleShot(st: ClientState)
  {
    && (forall i, j :: 0 <= i < j < |st.resolutions| ==> st.resolutions[i].resolver != st.resolutions[j].resolver)
    && (forall id, k :: id in st.pending && 0 <= k < |st.resolutions| ==> st.pending[id] != st.resolutions[k].resolver)
    && (forall a, b :: a in st.pending && b in st.pending && a != b ==> st.pending[a] != st.pending[b])
  }

  /** A call with a new promise keeps every caller single-shot, except that it may orphan a caller whose id it overwrites. */
  lemma RegisterKeepsSingleShot(st: ClientState, msgId: Uint32, resolve: Resolver)
    requires SingleShot(st) && !Known(st, resolve)
    ensures SingleShot(Register(st, msgId, resolve))
  {
    var r := Register(st, msgId, resolve);
    forall a, b | a in r.pending && b in r.pending && a != b
      ensures r.pending[a] != r.pending[b]
    {
      if a != msgId && b != msgId {
        assert r.pending[a] == st.pending[a] && r.pending[b] == st.pending[b];
      } else if a == msgId {
        assert st.pending[b] in st.pending.Values;
      } else {
        assert st.pending[a] in st.pending.Values;
      }
    }
  }

  /** Receiving a response keeps every caller single-shot. */
  lemma ReceiveKeepsSingleShot(st: ClientState, response: NanoBufReader)
    requires SingleShot(st)
    ensures SingleShot(Receive(st, response))
  {
    var r := Receive(st, response);
    if r != st {
      var msgId := ResponseMsgId(response).value;
      var n := |st.resolutions|;
      assert r.resolutions[n].resolver == st.pending[msgId];
      forall i, j | 0 <= i < j < |r.resolutions|
        ensures r.resolutions[i].resolver != r.resolutions[j].resolver
      {
        if j == n {
          assert r.resolutions[i] == st.resolutions[i];
        }
      }
      forall id, k | id in r.pending && 0 <= k < |r.resolutions|
        ensures r.pending[id] != r.resolutions[k].resolver
      {
        if k < n {
          assert r.resolutions[k] == st.resolutions[k];
        }
      }
    }
  }
}
