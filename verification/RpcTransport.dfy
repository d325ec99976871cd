/** The messages of a run travel as text: each channel of the protocol is what the TCP layer
  * delivers for the messages put on it. */
module RpcTransport {
  import opened JsonValue
  import opened JsonObject
  import JsonRoundTrip
  import JsonTokens
  import JsonTcp
  import Framer
  import opened Rpc
  import opened RpcProtocol

  // ----- messages the text form keeps

  predicate CleanKey(kv: KeyVal) {
    JsonTokens.Printable(kv.key) && JsonRoundTrip.Clean(kv.val)
  }

  lemma FirstClean(kv: KeyVal, keys: seq<KeyVal>)
    ensures JsonRoundTrip.CleanMembers([kv] + keys) <==> CleanKey(kv) && JsonRoundTrip.CleanMembers(keys)
  {
    assert ([kv] + keys)[1..] == keys;
    hide JsonRoundTrip.Clean, JsonTokens.Printable;
  }

  lemma ThreeClean(a: KeyVal, b: KeyVal, c: KeyVal)
    ensures JsonRoundTrip.Clean(Obj([a, b, c])) <==> CleanKey(a) && CleanKey(b) && CleanKey(c)
    ensures JsonRoundTrip.Clean(Obj([a, b])) <==> CleanKey(a) && CleanKey(b)
  {
    assert [a, b, c] == [a] + ([b] + ([c] + [])) && [a, b] == [a] + ([b] + []);
    assert JsonRoundTrip.Clean(Obj([a, b, c])) <==> JsonRoundTrip.CleanMembers([a, b, c]);
    assert JsonRoundTrip.Clean(Obj([a, b])) <==> JsonRoundTrip.CleanMembers([a, b]);
    assert JsonRoundTrip.CleanMembers([]);
    hide *;
    FirstClean(c, []);
    FirstClean(b, []);
    FirstClean(b, [c] + []);
    FirstClean(a, [b] + ([c] + []));
    FirstClean(a, [b] + []);
  }

  lemma Names()
    ensures JsonTokens.Printable("id") && JsonTokens.Printable("method") && JsonTokens.Printable("params")
    ensures JsonTokens.Printable("result") && JsonTokens.Printable("error")
    ensures JsonTokens.Printable("code") && JsonTokens.Printable("message")
    ensures JsonTokens.Printable("Unknown method '") && JsonTokens.Printable("'")
  {
    hide JsonTokens.Printable;
    JsonTokens.OrdinaryIsPrintable("id");
    JsonTokens.OrdinaryIsPrintable("method");
    JsonTokens.OrdinaryIsPrintable("params");
    JsonTokens.OrdinaryIsPrintable("result");
    JsonTokens.OrdinaryIsPrintable("error");
    JsonTokens.OrdinaryIsPrintable("code");
    JsonTokens.OrdinaryIsPrintable("message");
    JsonTokens.OrdinaryIsPrintable("Unknown method '");
    JsonTokens.OrdinaryIsPrintable("'");
  }

  lemma IdIsClean(id: int)
    ensures JsonRoundTrip.Clean(IdValue(id))
  {
    assert id as real == (id * 1000000) as real / 1000000.0;
    JsonTokens.WholeMillionthsMeaning(id as real, id * 1000000);
  }

  predicate CleanCall(c: Call) {
    JsonTokens.Printable(c.name) && JsonRoundTrip.Clean(c.params)
  }

  lemma RequestIsClean(id: int, c: Call)
    ensures JsonRoundTrip.Clean(RequestMsg(id, c)) <==> CleanCall(c)
  {
    assert JsonRoundTrip.Clean(Str(c.name)) <==> JsonTokens.Printable(c.name);
    Names();
    IdIsClean(id);
    ThreeClean(KeyVal("id", IdValue(id)), KeyVal("method", Str(c.name)), KeyVal("params", c.params));
    hide JsonTokens.Printable, JsonRoundTrip.Clean, IdValue;
  }

  predicate CleanEnd(e: Ended) {
    match e
    case Returned(v) => JsonRoundTrip.Clean(v)
    case Raised(partial, what) => JsonRoundTrip.Clean(partial) && JsonTokens.Printable(what)
  }

  lemma ErrorIsClean(what: string)
    requires JsonTokens.Printable(what)
    ensures JsonRoundTrip.Clean(ErrorValue(what))
  {
    assert JsonRoundTrip.Clean(Str(what));
    Names();
    IdIsClean(0);
    ThreeClean(KeyVal("code", IdValue(0)), KeyVal("message", Str(what)), KeyVal("", Null));
    hide JsonTokens.Printable, JsonRoundTrip.Clean, IdValue;
  }

  lemma ReplyIsClean(id: int, known: bool, name: string, ended: Ended)
    requires JsonTokens.Printable(name) && (known ==> CleanEnd(ended))
    ensures JsonRoundTrip.Clean(Reply(IdValue(id), known, name, ended))
  {
    hide JsonTokens.Printable, JsonRoundTrip.Clean, ErrorValue, IdValue;
    Names();
    IdIsClean(id);
    var idKey := KeyVal("id", IdValue(id));
    assert CleanKey(idKey);
    if !known {
      UnknownIsClean(name);
      ThreeClean(idKey, KeyVal("error", ErrorValue("Unknown method '" + name + "'")), idKey);
      assert Reply(IdValue(id), known, name, ended)
           == Obj([idKey, KeyVal("error", ErrorValue("Unknown method '" + name + "'"))]);
    } else if ended.Returned? {
      ThreeClean(idKey, KeyVal("result", ended.value), idKey);
      assert Reply(IdValue(id), known, name, ended) == Obj([idKey, KeyVal("result", ended.value)]);
    } else {
      ErrorIsClean(ended.what);
      ThreeClean(idKey, KeyVal("result", ended.partial), KeyVal("error", ErrorValue(ended.what)));
      assert Reply(IdValue(id), known, name, ended)
          == Obj([idKey, KeyVal("result", ended.partial), KeyVal("error", ErrorValue(ended.what))]);
    }
  }

  lemma UnknownIsClean(name: string)
    requires JsonTokens.Printable(name)
    ensures JsonRoundTrip.Clean(ErrorValue("Unknown method '" + name + "'"))
  {
    hide JsonTokens.Printable, JsonRoundTrip.Clean, ErrorValue;
    Names();
    JsonTokens.PrintableAppend("Unknown method '", name);
    JsonTokens.PrintableAppend("Unknown method '" + name, "'");
    ErrorIsClean("Unknown method '" + name + "'");
  }

  // ----- runs

  /** Handlers given clean parameters leave clean results and error messages. */
  ghost predicate CleanService<S(!new)>(sv: Service<S>) {
    forall st, name, params ::
      name in sv.methods && JsonRoundTrip.Clean(params) ==> CleanEnd(sv.run(st, name, params).ended)
  }

  predicate CleanCalls(calls: seq<Call>) {
    forall k :: 0 <= k < |calls| ==> CleanCall(calls[k])
  }

  predicate Sendable(v: Value) {
    v.Obj? && JsonRoundTrip.Clean(v) && Accepted(v)
  }

  predicate AllSendable(vs: seq<Value>) {
    forall k :: 0 <= k < |vs| ==> Sendable(vs[k])
  }

  lemma RequestSendable(id: int, c: Call)
    requires CleanCall(c)
    ensures Sendable(RequestMsg(id, c))
  {
    RequestIsClean(id, c);
    RequestKeys(id, c);
    hide CleanCall, JsonRoundTrip.Clean, HasKey, Lookup;
  }

  lemma ReplySendable(id: int, known: bool, name: string, ended: Ended)
    requires JsonTokens.Printable(name) && (known ==> CleanEnd(ended))
    ensures Sendable(Reply(IdValue(id), known, name, ended))
  {
    assert Reply(IdValue(id), known, name, ended).Obj?;
    hide JsonRoundTrip.Clean, JsonTokens.Printable, HasKey, Lookup, Reply, CleanEnd;
    ReplyIsClean(id, known, name, ended);
    ReplyKeys(IdValue(id), known, name, ended);
  }

  lemma {:induction false} RequestsSendable(calls: seq<Call>, first: int)
    requires CleanCalls(calls)
    ensures AllSendable(RequestMsgs(calls, first))
    decreases |calls|
  {
    if calls != [] {
      assert forall k :: 0 <= k < |calls| - 1 ==> calls[1..][k] == calls[k + 1];
      RequestsSendable(calls[1..], first + 1);
      hide Sendable, CleanCall;
      RequestSendable(first, calls[0]);
    }
  }

  lemma RepliesSendable<S(!new)>(sv: Service<S>, st: S, calls: seq<Call>)
    requires CleanService(sv) && CleanCalls(calls)
    ensures AllSendable(Replies(sv, st, calls, 1))
  {
    var rs := Replies(sv, st, calls, 1);
    forall k | 0 <= k < |rs|
      ensures Sendable(rs[k])
    {
      var c, before := calls[k], StateAfter(sv, st, calls[..k]);
      ReplyAt(sv, st, calls, 1, k);
      var ended := if c.name in sv.methods then sv.run(before, c.name, c.params).ended else Returned(Null);
      assert rs[k] == Reply(IdValue(1 + k), c.name in sv.methods, c.name, ended);
      assert CleanCall(c);
      hide JsonRoundTrip.Clean, JsonTokens.Printable, Replies, StateAfter, Sendable;
      ReplySendable(1 + k, c.name in sv.methods, c.name, ended);
    }
  }

  lemma {:induction false} SplitSendable(ch: seq<Value>)
    requires AllSendable(Requests(ch)) && AllSendable(Responses(ch))
    ensures AllSendable(ch)
  {
    if ch != [] {
      var rq, rs := Requests(ch), Responses(ch);
      hide Sendable, IsRequest;
      assert IsRequest(ch[0]) ==> rq[0] == ch[0] && rq[1..] == Requests(ch[1..]) && rs == Responses(ch[1..]);
      assert !IsRequest(ch[0]) ==> rs[0] == ch[0] && rs[1..] == Responses(ch[1..]) && rq == Requests(ch[1..]);
      SplitSendable(ch[1..]);
      assert forall k :: 0 < k < |ch| ==> ch[k] == ch[1..][k - 1];
    }
  }

  lemma HalfSendable<S(!new)>(sv: Service<S>, st0: S, p: Peer<S>, toP: seq<Value>, toQ: seq<Value>, state: S)
    requires Half(sv, st0, p, toP, toQ, state) && CleanService(sv) && CleanCalls(p.calls)
    ensures AllSendable(Responses(toP)) && AllSendable(Requests(toQ))
  {
    var h := |p.calls| - |Requests(toQ)|;
    var resp := Responses(toP);
    hide CleanCall, Sendable, Replies, RequestMsgs, StateAfter, CleanService, Requests, Responses, ClientOk;
    RepliesSendable(sv, st0, p.calls[..h]);
    RequestsSendable(p.calls[h..], h + 1);
    assert forall k :: 0 <= k < |resp| ==> resp[k] == (p.inbox + resp)[|p.inbox| + k];
  }

  /** Whatever a state of the invariant has in flight can be sent. */
  lemma InvSendable<S(!new)>(sv: Two<Service<S>>, st0: Two<S>, sys: System<S>, i: Side)
    requires Inv(sv, st0, sys) && CleanService(sv.left) && CleanService(sv.right)
    requires CleanCalls(sys.peers.left.calls) && CleanCalls(sys.peers.right.calls)
    ensures AllSendable(sys.chans.At(i))
  {
    var j := i.Other();
    assert j.Other() == i && CleanService(sv.At(i)) && CleanService(sv.At(j));
    assert CleanCalls(sys.peers.At(i).calls) && CleanCalls(sys.peers.At(j).calls);
    var p, q, toP, toQ := sys.peers.At(i), sys.peers.At(j), sys.chans.At(i), sys.chans.At(j);
    hide *;
    OpenInv(sv, st0, sys, i);
    HalfSendable(sv.At(j), st0.At(j), p, toP, toQ, q.state);
    HalfSendable(sv.At(i), st0.At(i), q, toQ, toP, p.state);
    SplitSendable(toP);
  }

  lemma {:induction false} SendableDelivered(vs: seq<Value>)
    requires AllSendable(vs)
    ensures JsonTcp.AllClean(vs) && JsonTcp.Containers(vs) == vs && JsonTcp.AllAccepted(vs)
  {
    if vs != [] {
      assert forall k :: 0 <= k < |vs| - 1 ==> vs[1..][k] == vs[k + 1];
      SendableDelivered(vs[1..]);
      assert Sendable(vs[0]);
      hide JsonRoundTrip.Clean, Accepted;
    }
  }

  /** In every reachable state, what is in flight to a peer is exactly what framing and reading the
    * concatenated text of those messages delivers, provided calls and handlers are clean. */
  lemma ChannelsTravelAsText<S(!new)>(sv: Two<Service<S>>, st0: Two<S>, acts: seq<Action>, i: Side)
    requires Allowed(sv, Init(st0), acts)
    requires CleanService(sv.left) && CleanService(sv.right)
    requires var peers := Exec(sv, Init(st0), acts).peers; CleanCalls(peers.left.calls) && CleanCalls(peers.right.calls)
    ensures var inFlight := Exec(sv, Init(st0), acts).chans.At(i);
            JsonTcp.Deliver(Framer.Run(Framer.Start, JsonTcp.Stream(inFlight)).frames)
            == JsonTcp.Delivery(inFlight, false)
  {
    var ch := Exec(sv, Init(st0), acts).chans.At(i);
    hide *;
    ReachableInv(sv, st0, acts);
    InvSendable(sv, st0, Exec(sv, Init(st0), acts), i);
    SendableDelivered(ch);
    JsonTcp.EndToEnd(ch);
  }
}
