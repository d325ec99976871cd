/** Two peers, each both client and server, joined by two FIFO channels, and all their runs. */
module RpcProtocol {
  import opened JsonValue
  import opened JsonObject
  import opened Rpc

  datatype Side = Left | Right
  {
    function Other(): Side {
      if this == Left then Right else Left
    }
  }

  /** One thing for each side. */
  datatype Two<T> = Two(left: T, right: T)
  {
    function At(i: Side): T {
      if i == Left then left else right
    }

    function Put(i: Side, x: T): Two<T> {
      if i == Left then Two(x, right) else Two(left, x)
    }
  }

  /** chans.At(i) holds the messages on their way to peer i. */
  datatype System<S> = System(peers: Two<Peer<S>>, chans: Two<seq<Value>>)

  datatype Action =
    | Invoke(side: Side, call: Call)
    | Deliver(side: Side)
    | Expire(side: Side, id: int)

  predicate Enabled<S>(sys: System<S>, a: Action) {
    match a
    case Invoke(_, _) => true
    case Deliver(side) => sys.chans.At(side) != []
    case Expire(side, id) => id in sys.peers.At(side).waiting
  }

  function Next<S>(sv: Two<Service<S>>, sys: System<S>, a: Action): System<S>
    requires Enabled(sys, a)
  {
    var i, j := a.side, a.side.Other();
    var p, toP, toQ := sys.peers.At(i), sys.chans.At(i), sys.chans.At(j);
    match a
    case Invoke(_, call) =>
      System(sys.peers.Put(i, Invoked(p, call)), sys.chans.Put(j, toQ + [RequestMsg(p.nextId + 1, call)]))
    case Deliver(_) =>
      var r := Receive(sv.At(i), p, toP[0]);
      System(sys.peers.Put(i, r.peer), sys.chans.Put(i, toP[1..]).Put(j, toQ + r.sent))
    case Expire(_, id) =>
      System(sys.peers.Put(i, Expired(p, id)), sys.chans)
  }

  predicate Allowed<S>(sv: Two<Service<S>>, sys: System<S>, acts: seq<Action>)
    decreases |acts|
  {
    acts == [] || (Enabled(sys, acts[0]) && Allowed(sv, Next(sv, sys, acts[0]), acts[1..]))
  }

  function Exec<S>(sv: Two<Service<S>>, sys: System<S>, acts: seq<Action>): System<S>
    requires Allowed(sv, sys, acts)
    decreases |acts|
  {
    if acts == [] then sys else Exec(sv, Next(sv, sys, acts[0]), acts[1..])
  }

  function Init<S>(st0: Two<S>): System<S> {
    System(Two(Fresh(st0.left), Fresh(st0.right)), Two([], []))
  }

  // ----- serving calls directly, in order

  function StateAfter<S>(sv: Service<S>, st: S, calls: seq<Call>): S
    decreases |calls|
  {
    if calls == [] then st else StateAfter(sv, Dispatch(sv, st, IdValue(0), calls[0]).state, calls[1..])
  }

  function Replies<S>(sv: Service<S>, st: S, calls: seq<Call>, first: int): (r: seq<Value>)
    ensures |r| == |calls|
    decreases |calls|
  {
    if calls == [] then []
    else
      var served := Dispatch(sv, st, IdValue(first), calls[0]);
      [served.reply] + Replies(sv, served.state, calls[1..], first + 1)
  }

  function RequestMsgs(calls: seq<Call>, first: int): (r: seq<Value>)
    ensures |r| == |calls|
    decreases |calls|
  {
    if calls == [] then [] else [RequestMsg(first, calls[0])] + RequestMsgs(calls[1..], first + 1)
  }

  lemma {:induction false} ServeOneMore<S>(sv: Service<S>, st: S, calls: seq<Call>, c: Call, first: int)
    ensures var served := Dispatch(sv, StateAfter(sv, st, calls), IdValue(first + |calls|), c);
            && StateAfter(sv, st, calls + [c]) == served.state
            && Replies(sv, st, calls + [c], first) == Replies(sv, st, calls, first) + [served.reply]
    decreases |calls|
  {
    if calls == [] {
      assert [] + [c] == [c] && [c][1..] == [];
    } else {
      assert (calls + [c])[1..] == calls[1..] + [c];
      ServeOneMore(sv, Dispatch(sv, st, IdValue(0), calls[0]).state, calls[1..], c, first + 1);
    }
  }

  lemma {:induction false} RequestOneMore(calls: seq<Call>, c: Call, first: int)
    ensures RequestMsgs(calls + [c], first) == RequestMsgs(calls, first) + [RequestMsg(first + |calls|, c)]
    decreases |calls|
  {
    if calls == [] {
      assert [] + [c] == [c] && [c][1..] == [];
    } else {
      assert (calls + [c])[1..] == calls[1..] + [c];
      RequestOneMore(calls[1..], c, first + 1);
    }
  }

  lemma {:induction false} ReplyAt<S>(sv: Service<S>, st: S, calls: seq<Call>, first: int, k: nat)
    requires k < |calls|
    ensures Replies(sv, st, calls, first)[k]
         == Dispatch(sv, StateAfter(sv, st, calls[..k]), IdValue(first + k), calls[k]).reply
    decreases |calls|
  {
    if k > 0 {
      ReplyAt(sv, Dispatch(sv, st, IdValue(0), calls[0]).state, calls[1..], first + 1, k - 1);
      assert calls[..k][1..] == calls[1..][..k - 1] && calls[..k][0] == calls[0];
    } else {
      assert calls[..0] == [];
    }
  }

  // ----- the two kinds of message in a channel

  predicate IsRequest(v: Value) {
    v.Obj? && HasKey(v.keys, "method")
  }

  function Requests(ch: seq<Value>): seq<Value> {
    if ch == [] then [] else (if IsRequest(ch[0]) then [ch[0]] else []) + Requests(ch[1..])
  }

  function Responses(ch: seq<Value>): seq<Value> {
    if ch == [] then [] else (if IsRequest(ch[0]) then [] else [ch[0]]) + Responses(ch[1..])
  }

  lemma {:induction false} KindsAppend(ch: seq<Value>, v: Value)
    ensures Requests(ch + [v]) == Requests(ch) + (if IsRequest(v) then [v] else [])
    ensures Responses(ch + [v]) == Responses(ch) + (if IsRequest(v) then [] else [v])
  {
    hide IsRequest;
    if ch == [] {
      assert [] + [v] == [v] && [v][1..] == [];
    } else {
      assert (ch + [v])[1..] == ch[1..] + [v] && (ch + [v])[0] == ch[0];
      KindsAppend(ch[1..], v);
      var one, none := if IsRequest(ch[0]) then [ch[0]] else [], if IsRequest(ch[0]) then [] else [ch[0]];
      var last, rest := if IsRequest(v) then [v] else [], if IsRequest(v) then [] else [v];
      assert one + (Requests(ch[1..]) + last) == one + Requests(ch[1..]) + last;
      assert none + (Responses(ch[1..]) + rest) == none + Responses(ch[1..]) + rest;
    }
  }

  // ----- what every reachable state satisfies

  /** One direction of calls: responses received and in flight are the replies to the calls served
    * so far, the requests in flight are the calls not yet served, and the server's objects have
    * seen exactly the served calls, in order. */
  ghost predicate Pipe<S>(sv: Service<S>, st0: S, calls: seq<Call>, inbox: seq<Value>,
                          resp: seq<Value>, reqs: seq<Value>, state: S)
  {
    && |reqs| <= |calls|
    && var h := |calls| - |reqs|;
    && inbox + resp == Replies(sv, st0, calls[..h], 1)
    && reqs == RequestMsgs(calls[h..], h + 1)
    && state == StateAfter(sv, st0, calls[..h])
  }

  /** A peer's own tables: completed, timed-out and pending calls partition the ids given out,
    * exactly the pending ones wait, and each completed one holds the response of its number. */
  ghost predicate ClientOk<S>(p: Peer<S>) {
    && p.nextId == |p.calls|
    && p.pending == p.waiting
    && p.pending !! p.completed.Keys !! p.timedOut
    && (forall id :: id in p.completed || id in p.timedOut || id in p.pending <==> 1 <= id <= p.nextId)
    && |p.inbox| <= p.nextId
    && (forall id :: id in p.completed ==> 1 <= id <= |p.inbox| && p.completed[id] == p.inbox[id - 1])
    && (forall id :: id in p.pending ==> id > |p.inbox|)
  }

  /** Client p, with what is on its way to it and from it, and the state of its server. */
  ghost predicate Half<S>(sv: Service<S>, st0: S, p: Peer<S>, toClient: seq<Value>, toServer: seq<Value>, state: S)
  {
    ClientOk(p) && Pipe(sv, st0, p.calls, p.inbox, Responses(toClient), Requests(toServer), state)
  }

  ghost predicate SideOk<S>(sv: Two<Service<S>>, st0: Two<S>, sys: System<S>, i: Side)
  {
    Half(sv.At(i.Other()), st0.At(i.Other()), sys.peers.At(i), sys.chans.At(i), sys.chans.At(i.Other()),
         sys.peers.At(i.Other()).state)
  }

  ghost predicate Inv<S>(sv: Two<Service<S>>, st0: Two<S>, sys: System<S>)
  {
    SideOk(sv, st0, sys, Left) && SideOk(sv, st0, sys, Right)
  }

  // ----- each event, on one direction

  lemma PipeInvoke<S>(sv: Service<S>, st0: S, calls: seq<Call>, inbox: seq<Value>, resp: seq<Value>,
                      reqs: seq<Value>, state: S, c: Call)
    requires Pipe(sv, st0, calls, inbox, resp, reqs, state)
    ensures Pipe(sv, st0, calls + [c], inbox, resp, reqs + [RequestMsg(|calls| + 1, c)], state)
  {
    var h := |calls| - |reqs|;
    assert (calls + [c])[..h] == calls[..h] && (calls + [c])[h..] == calls[h..] + [c];
    RequestOneMore(calls[h..], c, h + 1);
  }

  lemma PipeServe<S>(sv: Service<S>, st0: S, calls: seq<Call>, inbox: seq<Value>, resp: seq<Value>,
                     reqs: seq<Value>, state: S)
    requires Pipe(sv, st0, calls, inbox, resp, reqs, state) && reqs != []
    ensures var h := |calls| - |reqs|;
            var served := Dispatch(sv, state, IdValue(h + 1), calls[h]);
            && reqs[0] == RequestMsg(h + 1, calls[h])
            && Pipe(sv, st0, calls, inbox, resp + [served.reply], reqs[1..], served.state)
  {
    var h := |calls| - |reqs|;
    assert calls[..h + 1] == calls[..h] + [calls[h]] && calls[h..][1..] == calls[h + 1..];
    ServeOneMore(sv, st0, calls[..h], calls[h], 1);
    var reply := Dispatch(sv, state, IdValue(h + 1), calls[h]).reply;
    assert inbox + (resp + [reply]) == inbox + resp + [reply];
  }

  lemma PipeConsume<S>(sv: Service<S>, st0: S, calls: seq<Call>, inbox: seq<Value>, resp: seq<Value>,
                       reqs: seq<Value>, state: S)
    requires Pipe(sv, st0, calls, inbox, resp, reqs, state) && resp != []
    ensures Pipe(sv, st0, calls, inbox + [resp[0]], resp[1..], reqs, state)
    ensures var n := |inbox|;
            && n < |calls|
            && resp[0] == Dispatch(sv, StateAfter(sv, st0, calls[..n]), IdValue(n + 1), calls[n]).reply
  {
    var h, n := |calls| - |reqs|, |inbox|;
    assert inbox + [resp[0]] + resp[1..] == inbox + resp;
    assert (inbox + resp)[n] == resp[0];
    ReplyAt(sv, st0, calls[..h], 1, n);
    assert calls[..h][..n] == calls[..n];
  }

  // ----- each event, on a peer's own tables

  lemma InvokedOk<S>(p: Peer<S>, call: Call)
    requires ClientOk(p)
    ensures ClientOk(Invoked(p, call))
  {
    assert p.nextId + 1 !in p.completed && p.nextId + 1 !in p.timedOut && p.nextId + 1 !in p.pending;
  }

  lemma ExpiredOk<S>(p: Peer<S>, id: int)
    requires ClientOk(p) && id in p.waiting
    ensures ClientOk(Expired(p, id)) && id in p.pending
  {
    var q := Expired(p, id);
    assert forall k :: k in q.timedOut <==> k in p.timedOut || k == id;
  }

  lemma ServedOk<S>(p: Peer<S>, state: S)
    requires ClientOk(p)
    ensures ClientOk(p.(state := state))
  {}

  // ----- each event, on both halves

  lemma InvokeHalves<S>(sv: Service<S>, st0: S, other: Service<S>, st1: S, p: Peer<S>, q: Peer<S>,
                        toP: seq<Value>, toQ: seq<Value>, call: Call)
    requires Half(sv, st0, p, toP, toQ, q.state) && Half(other, st1, q, toQ, toP, p.state)
    ensures var p', toQ' := Invoked(p, call), toQ + [RequestMsg(p.nextId + 1, call)];
            Half(sv, st0, p', toP, toQ', q.state) && Half(other, st1, q, toQ', toP, p'.state)
  {
    var msg := RequestMsg(p.nextId + 1, call);
    RequestKeys(p.nextId + 1, call);
    assert IsRequest(msg);
    assert p.nextId == |p.calls| by { assert ClientOk(p); }
    InvokedOk(p, call);
    hide ClientOk, Pipe, RequestMsg, Requests, Responses, IsRequest;
    KindsAppend(toQ, msg);
    PipeInvoke(sv, st0, p.calls, p.inbox, Responses(toP), Requests(toQ), q.state, call);
    assert Responses(toQ) + [] == Responses(toQ);
  }

  lemma ExpireHalves<S>(sv: Service<S>, st0: S, other: Service<S>, st1: S, p: Peer<S>, q: Peer<S>,
                        toP: seq<Value>, toQ: seq<Value>, id: int)
    requires Half(sv, st0, p, toP, toQ, q.state) && Half(other, st1, q, toQ, toP, p.state)
    requires id in p.waiting
    ensures id in p.pending
    ensures Half(sv, st0, Expired(p, id), toP, toQ, q.state) && Half(other, st1, q, toQ, toP, Expired(p, id).state)
  {
    ExpiredOk(p, id);
    hide ClientOk, Pipe, Requests, Responses;
  }

  /** A request in good form is dispatched, and its reply sent. */
  lemma ReceiveRequest<S>(sv: Service<S>, p: Peer<S>, id: int, call: Call)
    ensures IsRequest(RequestMsg(id, call))
    ensures var served := Dispatch(sv, p.state, IdValue(id), call);
            && Receive(sv, p, RequestMsg(id, call)) == Received(p.(state := served.state), [served.reply], false)
            && !IsRequest(served.reply)
  {
    RequestKeys(id, call);
    ReplyCarriesOutcome(sv, p.state, IdValue(id), call);
    assert RequestMsg(id, call).Obj?;
    hide Reply, RequestMsg, OutcomeOf, LocalOutcome, Dispatch;
  }

  lemma RequestHalves<S>(sv: Service<S>, st0: S, other: Service<S>, st1: S, p: Peer<S>, q: Peer<S>,
                         toP: seq<Value>, toQ: seq<Value>)
    requires Half(other, st1, p, toP, toQ, q.state) && Half(sv, st0, q, toQ, toP, p.state)
    requires toP != [] && IsRequest(toP[0])
    ensures var r := Receive(sv, p, toP[0]);
            && !r.raised
            && Half(other, st1, r.peer, toP[1..], toQ + r.sent, q.state)
            && Half(sv, st0, q, toQ + r.sent, toP[1..], r.peer.state)
  {
    var reqs := Requests(toP);
    var h: int := |q.calls| - |reqs|;
    assert reqs == [toP[0]] + Requests(toP[1..]) && Responses(toP) == Responses(toP[1..]);
    assert reqs[1..] == Requests(toP[1..]);
    hide ClientOk, Pipe, Dispatch, Receive, Requests, Responses, RequestMsg, IsRequest;
    PipeServe(sv, st0, q.calls, q.inbox, Responses(toQ), reqs, p.state);
    ReceiveRequest(sv, p, h + 1, q.calls[h]);
    var served := Dispatch(sv, p.state, IdValue(h + 1), q.calls[h]);
    ServedOk(p, served.state);
    KindsAppend(toQ, served.reply);
    assert Requests(toQ) + [] == Requests(toQ);
  }

  lemma ResponseKeepsClient<S>(p: Peer<S>, v: Value)
    requires ClientOk(p) && |p.inbox| < p.nextId && v.Obj?
    requires HasKey(v.keys, "id") && Lookup(v.keys, "id") == IdValue(|p.inbox| + 1)
    ensures var r := OnResponse(p, v);
            && ClientOk(r.peer) && !r.raised && r.sent == []
            && r.peer.inbox == p.inbox + [v] && r.peer.calls == p.calls && r.peer.state == p.state
  {
    WholeTruncates(|p.inbox| + 1);
    var id := |p.inbox| + 1;
    var q := OnResponse(p, v).peer;
    forall k | k in q.pending
      ensures k > |q.inbox|
    {
      assert k in p.pending && k != id;
    }
  }

  lemma ResponseHalves<S>(sv: Service<S>, st0: S, other: Service<S>, st1: S, own: Service<S>, p: Peer<S>, q: Peer<S>,
                          toP: seq<Value>, toQ: seq<Value>)
    requires Half(sv, st0, p, toP, toQ, q.state) && Half(other, st1, q, toQ, toP, p.state)
    requires toP != [] && !IsRequest(toP[0])
    ensures var r := Receive(own, p, toP[0]);
            && !r.raised
            && Half(sv, st0, r.peer, toP[1..], toQ + r.sent, q.state)
            && Half(other, st1, q, toQ + r.sent, toP[1..], r.peer.state)
  {
    var resp, n, v := Responses(toP), |p.inbox|, toP[0];
    assert resp == [v] + Responses(toP[1..]) && Requests(toP) == Requests(toP[1..]);
    assert resp[1..] == Responses(toP[1..]);
    assert p.nextId == |p.calls| by { assert ClientOk(p); }
    assert v.Obj? ==> Receive(own, p, v) == OnResponse(p, v);
    hide ClientOk, Pipe, Dispatch, Receive, OnResponse, Requests, Responses, LocalOutcome, OutcomeOf;
    PipeConsume(sv, st0, p.calls, p.inbox, resp, Requests(toQ), q.state);
    ReplyCarriesOutcome(sv, StateAfter(sv, st0, p.calls[..n]), IdValue(n + 1), p.calls[n]);
    ResponseKeepsClient(p, v);
    assert toQ + [] == toQ;
  }

  // ----- every step keeps the invariant

  /** What one step leaves, seen from the side that acts. */
  ghost predicate Leaves<S>(next: System<S>, i: Side, p: Peer<S>, q: Peer<S>, toP: seq<Value>, toQ: seq<Value>)
  {
    next.peers.At(i) == p && next.peers.At(i.Other()) == q && next.chans.At(i) == toP && next.chans.At(i.Other()) == toQ
  }

  lemma InvokeLeaves<S>(sv: Two<Service<S>>, sys: System<S>, i: Side, call: Call)
    requires Enabled(sys, Invoke(i, call))
    ensures Leaves(Next(sv, sys, Invoke(i, call)), i, Invoked(sys.peers.At(i), call), sys.peers.At(i.Other()),
                   sys.chans.At(i), sys.chans.At(i.Other()) + [RequestMsg(sys.peers.At(i).nextId + 1, call)])
  {
    hide Invoked, RequestMsg;
  }

  lemma ExpireLeaves<S>(sv: Two<Service<S>>, sys: System<S>, i: Side, id: int)
    requires Enabled(sys, Expire(i, id))
    ensures Leaves(Next(sv, sys, Expire(i, id)), i, Expired(sys.peers.At(i), id), sys.peers.At(i.Other()),
                   sys.chans.At(i), sys.chans.At(i.Other()))
  {
    hide Expired;
  }

  lemma DeliverLeaves<S>(sv: Two<Service<S>>, sys: System<S>, i: Side)
    requires sys.chans.At(i) != [] && Enabled(sys, Deliver(i))
    ensures var r := Receive(sv.At(i), sys.peers.At(i), sys.chans.At(i)[0]);
            Leaves(Next(sv, sys, Deliver(i)), i, r.peer, sys.peers.At(i.Other()), sys.chans.At(i)[1..],
                   sys.chans.At(i.Other()) + r.sent)
  {
    hide Receive;
  }

  lemma OpenInv<S>(sv: Two<Service<S>>, st0: Two<S>, sys: System<S>, i: Side)
    requires Inv(sv, st0, sys)
    ensures var j := i.Other();
            var p, q, toP, toQ := sys.peers.At(i), sys.peers.At(j), sys.chans.At(i), sys.chans.At(j);
            Half(sv.At(j), st0.At(j), p, toP, toQ, q.state) && Half(sv.At(i), st0.At(i), q, toQ, toP, p.state)
  {
    hide Half;
  }

  lemma CloseInv<S>(sv: Two<Service<S>>, st0: Two<S>, sys: System<S>, i: Side, p: Peer<S>, q: Peer<S>,
                    toP: seq<Value>, toQ: seq<Value>)
    requires Leaves(sys, i, p, q, toP, toQ)
    requires Half(sv.At(i.Other()), st0.At(i.Other()), p, toP, toQ, q.state)
    requires Half(sv.At(i), st0.At(i), q, toQ, toP, p.state)
    ensures Inv(sv, st0, sys)
  {
    hide Half;
  }

  lemma InvokeKeepsInv<S>(sv: Two<Service<S>>, st0: Two<S>, sys: System<S>, i: Side, call: Call)
    requires Enabled(sys, Invoke(i, call)) && Inv(sv, st0, sys)
    ensures Inv(sv, st0, Next(sv, sys, Invoke(i, call)))
  {
    var j := i.Other();
    hide *;
    var p, q, toP, toQ := sys.peers.At(i), sys.peers.At(j), sys.chans.At(i), sys.chans.At(j);
    OpenInv(sv, st0, sys, i);
    InvokeHalves(sv.At(j), st0.At(j), sv.At(i), st0.At(i), p, q, toP, toQ, call);
    InvokeLeaves(sv, sys, i, call);
    CloseInv(sv, st0, Next(sv, sys, Invoke(i, call)), i, Invoked(p, call), q, toP,
             toQ + [RequestMsg(p.nextId + 1, call)]);
  }

  lemma ExpireKeepsInv<S>(sv: Two<Service<S>>, st0: Two<S>, sys: System<S>, i: Side, id: int)
    requires Enabled(sys, Expire(i, id)) && Inv(sv, st0, sys)
    ensures Inv(sv, st0, Next(sv, sys, Expire(i, id)))
    ensures id in sys.peers.At(i).pending
  {
    var j := i.Other();
    assert id in sys.peers.At(i).waiting;
    hide *;
    var p, q, toP, toQ := sys.peers.At(i), sys.peers.At(j), sys.chans.At(i), sys.chans.At(j);
    OpenInv(sv, st0, sys, i);
    ExpireHalves(sv.At(j), st0.At(j), sv.At(i), st0.At(i), p, q, toP, toQ, id);
    ExpireLeaves(sv, sys, i, id);
    CloseInv(sv, st0, Next(sv, sys, Expire(i, id)), i, Expired(p, id), q, toP, toQ);
  }

  lemma DeliverKeepsInv<S>(sv: Two<Service<S>>, st0: Two<S>, sys: System<S>, i: Side)
    requires Enabled(sys, Deliver(i)) && Inv(sv, st0, sys)
    ensures Inv(sv, st0, Next(sv, sys, Deliver(i)))
    ensures !Receive(sv.At(i), sys.peers.At(i), sys.chans.At(i)[0]).raised
  {
    var j := i.Other();
    assert sys.chans.At(i) != [];
    hide *;
    var p, q, toP, toQ := sys.peers.At(i), sys.peers.At(j), sys.chans.At(i), sys.chans.At(j);
    OpenInv(sv, st0, sys, i);
    if IsRequest(toP[0]) {
      RequestHalves(sv.At(i), st0.At(i), sv.At(j), st0.At(j), p, q, toP, toQ);
    } else {
      ResponseHalves(sv.At(j), st0.At(j), sv.At(i), st0.At(i), sv.At(i), p, q, toP, toQ);
    }
    var r := Receive(sv.At(i), p, toP[0]);
    DeliverLeaves(sv, sys, i);
    CloseInv(sv, st0, Next(sv, sys, Deliver(i)), i, r.peer, q, toP[1..], toQ + r.sent);
  }

  /** Every enabled action keeps the invariant, no message makes `on_receive` raise, and a timeout
    * finds its id in the table. */
  lemma NextKeepsInv<S>(sv: Two<Service<S>>, st0: Two<S>, sys: System<S>, a: Action)
    requires Enabled(sys, a) && Inv(sv, st0, sys)
    ensures Inv(sv, st0, Next(sv, sys, a))
    ensures a.Deliver? ==> !Receive(sv.At(a.side), sys.peers.At(a.side), sys.chans.At(a.side)[0]).raised
    ensures a.Expire? ==> a.id in sys.peers.At(a.side).pending
  {
    hide *;
    match a
    case Invoke(i, call) => InvokeKeepsInv(sv, st0, sys, i, call);
    case Expire(i, id) => ExpireKeepsInv(sv, st0, sys, i, id);
    case Deliver(i) => DeliverKeepsInv(sv, st0, sys, i);
  }

  lemma {:induction false} ExecKeepsInv<S>(sv: Two<Service<S>>, st0: Two<S>, sys: System<S>, acts: seq<Action>)
    requires Allowed(sv, sys, acts) && Inv(sv, st0, sys)
    ensures Inv(sv, st0, Exec(sv, sys, acts))
    decreases |acts|
  {
    if acts != [] {
      NextKeepsInv(sv, st0, sys, acts[0]);
      ExecKeepsInv(sv, st0, Next(sv, sys, acts[0]), acts[1..]);
    }
  }

  /** The invariant holds in every reachable state. */
  lemma ReachableInv<S>(sv: Two<Service<S>>, st0: Two<S>, acts: seq<Action>)
    requires Allowed(sv, Init(st0), acts)
    ensures Inv(sv, st0, Exec(sv, Init(st0), acts))
  {
    assert SideOk(sv, st0, Init(st0), Left) && SideOk(sv, st0, Init(st0), Right);
    ExecKeepsInv(sv, st0, Init(st0), acts);
  }

  // ----- what a caller can rely on, in every run

  function IdOf(v: Value): int {
    if v.Obj? && HasKey(v.keys, "id") && Lookup(v.keys, "id").Num? then Truncate(Lookup(v.keys, "id").n) else 0
  }

  function Ids(vs: seq<Value>): (r: seq<int>)
    ensures |r| == |vs|
  {
    seq(|vs|, k requires 0 <= k < |vs| => IdOf(vs[k]))
  }

  function UpTo(n: int): (r: seq<int>)
    ensures n >= 0 ==> |r| == n
  {
    if n <= 0 then [] else seq(n, k => k + 1)
  }

  lemma {:induction false} RequestIdAt(calls: seq<Call>, first: int, k: nat)
    requires k < |calls|
    ensures IdOf(RequestMsgs(calls, first)[k]) == first + k
    decreases |calls|
  {
    if k == 0 {
      RequestKeys(first, calls[0]);
      WholeTruncates(first);
    } else {
      RequestIdAt(calls[1..], first + 1, k - 1);
    }
  }

  lemma ReplyIdAt<S>(sv: Service<S>, st: S, calls: seq<Call>, first: int, k: nat)
    requires k < |calls|
    ensures IdOf(Replies(sv, st, calls, first)[k]) == first + k
  {
    ReplyAt(sv, st, calls, first, k);
    ReplyCarriesOutcome(sv, StateAfter(sv, st, calls[..k]), IdValue(first + k), calls[k]);
    WholeTruncates(first + k);
  }

  lemma ReachedHalf<S>(sv: Two<Service<S>>, st0: Two<S>, acts: seq<Action>, i: Side)
    requires Allowed(sv, Init(st0), acts)
    ensures var sys := Exec(sv, Init(st0), acts);
            Half(sv.At(i.Other()), st0.At(i.Other()), sys.peers.At(i), sys.chans.At(i), sys.chans.At(i.Other()),
                 sys.peers.At(i.Other()).state)
  {
    ReachableInv(sv, st0, acts);
    hide Half, Exec, Allowed, Init;
  }

  lemma ResponseIds<S>(sv: Service<S>, st0: S, calls: seq<Call>, vs: seq<Value>, k: nat)
    requires vs == Replies(sv, st0, calls, 1) && k < |calls|
    ensures IdOf(vs[k]) == k + 1
  {
    hide *;
    ReplyIdAt(sv, st0, calls, 1, k);
  }

  lemma PipeIds<S>(sv: Service<S>, st0: S, calls: seq<Call>, inbox: seq<Value>, resp: seq<Value>,
                   reqs: seq<Value>, state: S)
    requires Pipe(sv, st0, calls, inbox, resp, reqs, state)
    ensures |inbox| + |resp| + |reqs| == |calls|
    ensures forall k :: 0 <= k < |inbox| ==> IdOf(inbox[k]) == k + 1
    ensures forall k :: 0 <= k < |resp| ==> IdOf(resp[k]) == |inbox| + k + 1
    ensures forall k :: 0 <= k < |reqs| ==> IdOf(reqs[k]) == |inbox| + |resp| + k + 1
  {
    var h := |calls| - |reqs|;
    hide IdOf, Replies, RequestMsgs, StateAfter;
    forall k | 0 <= k < |inbox|
      ensures IdOf(inbox[k]) == k + 1
    {
      ResponseIds(sv, st0, calls[..h], inbox + resp, k);
    }
    forall k | 0 <= k < |resp|
      ensures IdOf(resp[k]) == |inbox| + k + 1
    {
      ResponseIds(sv, st0, calls[..h], inbox + resp, |inbox| + k);
    }
    forall k | 0 <= k < |reqs|
      ensures IdOf(reqs[k]) == h + k + 1
    {
      RequestIdAt(calls[h..], h + 1, k);
    }
  }

  lemma JoinIds(a: seq<Value>, b: seq<Value>, c: seq<Value>, n: int)
    requires |a| + |b| + |c| == n
    requires forall k :: 0 <= k < |a| ==> IdOf(a[k]) == k + 1
    requires forall k :: 0 <= k < |b| ==> IdOf(b[k]) == |a| + k + 1
    requires forall k :: 0 <= k < |c| ==> IdOf(c[k]) == |a| + |b| + k + 1
    ensures Ids(a) + Ids(b) + Ids(c) == UpTo(n)
  {
    hide IdOf;
  }

  /** Conservation: the responses a peer has received, then those in flight to it, then its
    * requests in flight, carry exactly the ids 1 .. next_id, in order. */
  lemma PipelineConservation<S>(sv: Two<Service<S>>, st0: Two<S>, acts: seq<Action>, i: Side)
    requires Allowed(sv, Init(st0), acts)
    ensures var sys := Exec(sv, Init(st0), acts);
            var p := sys.peers.At(i);
            Ids(p.inbox) + Ids(Responses(sys.chans.At(i))) + Ids(Requests(sys.chans.At(i.Other()))) == UpTo(p.nextId)
  {
    ReachedHalf(sv, st0, acts, i);
    var sys := Exec(sv, Init(st0), acts);
    var p, q, toP, toQ := sys.peers.At(i), sys.peers.At(i.Other()), sys.chans.At(i), sys.chans.At(i.Other());
    assert p.nextId == |p.calls| by { assert ClientOk(p); }
    hide *;
    PipeIds(sv.At(i.Other()), st0.At(i.Other()), p.calls, p.inbox, Responses(toP), Requests(toQ), q.state);
    JoinIds(p.inbox, Responses(toP), Requests(toQ), p.nextId);
  }

  /** Matching: every id given out is exactly one of completed, timed out or pending; the waiting
    * calls are the pending ones; and a completed call never changes or times out afterwards. */
  lemma CallsArePartitioned<S>(sv: Two<Service<S>>, st0: Two<S>, acts: seq<Action>, i: Side, a: Action)
    requires Allowed(sv, Init(st0), acts)
    requires Enabled(Exec(sv, Init(st0), acts), a)
    ensures var sys := Exec(sv, Init(st0), acts);
            var p, q := sys.peers.At(i), Next(sv, sys, a).peers.At(i);
            && (forall id :: 1 <= id <= p.nextId <==> id in p.completed || id in p.timedOut || id in p.pending)
            && p.completed.Keys !! p.timedOut !! p.pending && p.waiting == p.pending
            && (forall id :: id in p.completed ==> id in q.completed && q.completed[id] == p.completed[id])
            && p.timedOut <= q.timedOut
  {
    ReachedHalf(sv, st0, acts, i);
    var sys := Exec(sv, Init(st0), acts);
    assert ClientOk(sys.peers.At(i));
    hide Pipe, Exec, Init, Allowed, Next;
    CompletedStays(sv, sys, a, i);
  }

  lemma CompletedStays<S>(sv: Two<Service<S>>, sys: System<S>, a: Action, i: Side)
    requires Enabled(sys, a)
    requires ClientOk(sys.peers.At(i))
    ensures var p, q := sys.peers.At(i), Next(sv, sys, a).peers.At(i);
            && p.timedOut <= q.timedOut
            && (forall id :: id in p.completed ==> id in q.completed && q.completed[id] == p.completed[id])
  {
    if a.Deliver? && a.side == i {
      ReceiveKeepsCompleted(sv.At(i), sys.peers.At(i), sys.chans.At(i)[0]);
    }
    hide Receive;
  }

  lemma ReceiveKeepsCompleted<S>(sv: Service<S>, p: Peer<S>, v: Value)
    requires ClientOk(p)
    ensures var q := Receive(sv, p, v).peer;
            && p.timedOut <= q.timedOut
            && (forall id :: id in p.completed ==> id in q.completed && q.completed[id] == p.completed[id])
  {
    hide Dispatch, Truncate, Lookup, HasKey, Reply;
  }

  /** A completed call ended as it would have on the peer's own objects, had all calls up to it
    * been made on them directly, in order. */
  lemma CompletedCallsAreLocal<S>(sv: Two<Service<S>>, st0: Two<S>, acts: seq<Action>, i: Side, id: int)
    requires Allowed(sv, Init(st0), acts)
    requires id in Exec(sv, Init(st0), acts).peers.At(i).completed
    ensures var p := Exec(sv, Init(st0), acts).peers.At(i);
            && 1 <= id <= |p.calls| && p.completed[id].Obj?
            && OutcomeOf(p.completed[id])
               == LocalOutcome(sv.At(i.Other()), StateAfter(sv.At(i.Other()), st0.At(i.Other()), p.calls[..id - 1]),
                   p.calls[id - 1])
  {
    ReachedHalf(sv, st0, acts, i);
    var sys := Exec(sv, Init(st0), acts);
    var p, q, toP, toQ := sys.peers.At(i), sys.peers.At(i.Other()), sys.chans.At(i), sys.chans.At(i.Other());
    assert ClientOk(p);
    hide Requests, Responses, Exec, Init, Allowed, Dispatch, LocalOutcome, OutcomeOf;
    PipeOutcome(sv.At(i.Other()), st0.At(i.Other()), p.calls, p.inbox, Responses(toP), Requests(toQ), q.state, id);
  }

  /** And it tells its caller how: with the method's result, with the text its handler raised, or with
    * the name of the method that is not there. */
  lemma CompletedCallsSayHow<S>(sv: Two<Service<S>>, st0: Two<S>, acts: seq<Action>, i: Side, id: int)
    requires Allowed(sv, Init(st0), acts)
    requires id in Exec(sv, Init(st0), acts).peers.At(i).completed
    ensures var p, s, st := Exec(sv, Init(st0), acts).peers.At(i), sv.At(i.Other()), st0.At(i.Other());
            && 1 <= id <= |p.calls| && p.completed[id].Obj?
            && EndsAs(s, StateAfter(s, st, p.calls[..id - 1]), p.calls[id - 1], OutcomeOf(p.completed[id]))
  {
    var s, st := sv.At(i.Other()), st0.At(i.Other());
    hide *;
    CompletedCallsAreLocal(sv, st0, acts, i, id);
    var p := Exec(sv, Init(st0), acts).peers.At(i);
    LocalOutcomeSays(s, StateAfter(s, st, p.calls[..id - 1]), p.calls[id - 1]);
  }

  lemma PipeOutcome<S>(sv: Service<S>, st0: S, calls: seq<Call>, inbox: seq<Value>, resp: seq<Value>,
                       reqs: seq<Value>, state: S, id: int)
    requires Pipe(sv, st0, calls, inbox, resp, reqs, state) && 1 <= id <= |inbox|
    ensures id <= |calls| && inbox[id - 1].Obj?
    ensures OutcomeOf(inbox[id - 1]) == LocalOutcome(sv, StateAfter(sv, st0, calls[..id - 1]), calls[id - 1])
  {
    var h := |calls| - |reqs|;
    assert inbox[id - 1] == (inbox + resp)[id - 1];
    hide Replies, StateAfter, Dispatch, RequestMsgs, LocalOutcome, OutcomeOf;
    ReplyAt(sv, st0, calls[..h], 1, id - 1);
    assert calls[..h][..id - 1] == calls[..id - 1];
    ReplyCarriesOutcome(sv, StateAfter(sv, st0, calls[..id - 1]), IdValue(id), calls[id - 1]);
  }

  /** When nothing is in flight, every call that did not time out has been answered, and the
    * peer's objects are as if all calls had been made on them directly. */
  lemma QuietMeansAnswered<S>(sv: Two<Service<S>>, st0: Two<S>, acts: seq<Action>, i: Side)
    requires Allowed(sv, Init(st0), acts)
    requires var sys := Exec(sv, Init(st0), acts); sys.chans.At(i) == [] && sys.chans.At(i.Other()) == []
    ensures var sys := Exec(sv, Init(st0), acts);
            && sys.peers.At(i).pending == {}
            && sys.peers.At(i.Other()).state == StateAfter(sv.At(i.Other()), st0.At(i.Other()), sys.peers.At(i).calls)
  {
    ReachedHalf(sv, st0, acts, i);
    var sys := Exec(sv, Init(st0), acts);
    var p, q := sys.peers.At(i), sys.peers.At(i.Other());
    assert Responses([]) == [] && Requests([]) == [];
    hide *;
    QuietHalf(sv.At(i.Other()), st0.At(i.Other()), p, sys.chans.At(i), sys.chans.At(i.Other()), q.state);
  }

  lemma QuietHalf<S>(sv: Service<S>, st0: S, p: Peer<S>, toP: seq<Value>, toQ: seq<Value>, state: S)
    requires Half(sv, st0, p, toP, toQ, state) && Responses(toP) == [] && Requests(toQ) == []
    ensures p.pending == {} && state == StateAfter(sv, st0, p.calls)
  {
    hide Requests, Responses, Replies, StateAfter, RequestMsgs;
    assert p.calls[..|p.calls|] == p.calls && p.inbox + [] == p.inbox;
    assert forall id :: id in p.pending ==> |p.inbox| < id <= p.nextId;
  }
}
