/** Delivering what is in flight comes to an end, in whatever order it is done, and answers every call. */
module RpcProgress {
  import opened JsonValue
  import opened JsonObject
  import opened Rpc
  import opened RpcProtocol

  /** A request in flight stands for two deliveries, its own and that of its reply. */
  function Load(ch: seq<Value>): nat {
    if ch == [] then 0 else (if IsRequest(ch[0]) then 2 else 1) + Load(ch[1..])
  }

  function Work<S>(sys: System<S>): nat {
    Load(sys.chans.left) + Load(sys.chans.right)
  }

  lemma {:induction false} LoadAppend(a: seq<Value>, b: seq<Value>)
    ensures Load(a + b) == Load(a) + Load(b)
  {
    hide IsRequest;
    if a == [] {
      assert a + b == b;
    } else {
      assert (a + b)[1..] == a[1..] + b;
      LoadAppend(a[1..], b);
    }
  }

  /** Only a request is answered, with one message, which is not a request. */
  lemma SentIsAnswer<S>(sv: Service<S>, p: Peer<S>, v: Value)
    ensures var sent := Receive(sv, p, v).sent;
            sent != [] ==> |sent| == 1 && IsRequest(v) && !IsRequest(sent[0])
  {
    var r := Receive(sv, p, v);
    if IsRequest(v) && HasKey(v.keys, "id") {
      var name, id := NameText(Lookup(v.keys, "method")), Lookup(v.keys, "id");
      var params := if HasKey(v.keys, "params") then Lookup(v.keys, "params") else Null;
      hide NameText, Lookup, HasKey, Reply;
      ReplyKeys(id, true, name, Raised(Null, "unknown key 'params'"));
      ReplyCarriesOutcome(sv, p.state, id, Call(name, params));
      hide Dispatch, OutcomeOf;
    }
  }

  lemma SentLoad<S>(sv: Service<S>, p: Peer<S>, v: Value)
    ensures Load(Receive(sv, p, v).sent) < (if IsRequest(v) then 2 else 1)
  {
    hide Receive, IsRequest;
    SentIsAnswer(sv, p, v);
    var sent := Receive(sv, p, v).sent;
    assert sent != [] ==> sent[1..] == [];
  }

  /** Any delivery at all, in any state, leaves less to deliver. It makes no call and times none out. */
  lemma DeliveryIsProgress<S>(sv: Two<Service<S>>, sys: System<S>, i: Side, k: Side)
    requires sys.chans.At(i) != []
    ensures var next := Next(sv, sys, Deliver(i));
            && Work(next) < Work(sys)
            && next.peers.At(k).calls == sys.peers.At(k).calls
            && next.peers.At(k).nextId == sys.peers.At(k).nextId
            && next.peers.At(k).timedOut == sys.peers.At(k).timedOut
  {
    var p, v := sys.peers.At(i), sys.chans.At(i)[0];
    var r := Receive(sv.At(i), p, v);
    SentLoad(sv.At(i), p, v);
    LoadAppend(sys.chans.At(i.Other()), r.sent);
    ReceiveMakesNoCall(sv.At(i), p, v);
    hide Receive, IsRequest;
  }

  lemma ReceiveMakesNoCall<S>(sv: Service<S>, p: Peer<S>, v: Value)
    ensures var q := Receive(sv, p, v).peer;
            q.calls == p.calls && q.nextId == p.nextId && q.timedOut == p.timedOut
  {
    hide Dispatch, Reply, Truncate, NameText, Lookup, HasKey;
  }

  predicate Deliveries(acts: seq<Action>) {
    forall k :: 0 <= k < |acts| ==> acts[k].Deliver?
  }

  lemma {:induction false} DeliveriesShrink<S>(sv: Two<Service<S>>, sys: System<S>, acts: seq<Action>, k: Side)
    requires Allowed(sv, sys, acts) && Deliveries(acts)
    ensures var end := Exec(sv, sys, acts);
            && |acts| + Work(end) <= Work(sys)
            && end.peers.At(k).calls == sys.peers.At(k).calls
            && end.peers.At(k).nextId == sys.peers.At(k).nextId
            && end.peers.At(k).timedOut == sys.peers.At(k).timedOut
    decreases |acts|
  {
    hide Next, Work;
    if acts != [] {
      assert acts[0] == Deliver(acts[0].side);
      DeliveryIsProgress(sv, sys, acts[0].side, k);
      DeliveriesShrink(sv, Next(sv, sys, acts[0]), acts[1..], k);
    }
  }

  /** After any run, deliveries can go on only so long; and when none is possible any more, in whatever order
    * they were made, every call that was pending has been completed, and the objects at the other end have
    * seen every call. */
  lemma DeliveriesAnswer<S>(sv: Two<Service<S>>, st0: Two<S>, acts: seq<Action>, more: seq<Action>, i: Side)
    requires Allowed(sv, Init(st0), acts) && Allowed(sv, Exec(sv, Init(st0), acts), more) && Deliveries(more)
    ensures var sys := Exec(sv, Init(st0), acts);
            var end := Exec(sv, sys, more);
            var p, q := sys.peers.At(i), end.peers.At(i);
            && |more| <= Work(sys)
            && (!Enabled(end, Deliver(Left)) && !Enabled(end, Deliver(Right)) ==>
                  && q.pending == {} && q.calls == p.calls
                  && (forall id :: id in p.pending ==> id in q.completed)
                  && end.peers.At(i.Other()).state
                     == StateAfter(sv.At(i.Other()), st0.At(i.Other()), p.calls))
  {
    var sys, end, j := Exec(sv, Init(st0), acts), Exec(sv, Exec(sv, Init(st0), acts), more), i.Other();
    hide *;
    ReachableInv(sv, st0, acts);
    ExecKeepsInv(sv, st0, sys, more);
    DeliveriesShrink(sv, sys, more, i);
    OneSide(sv, st0, sys, i);
    OneSide(sv, st0, end, i);
    if !Enabled(end, Deliver(Left)) && !Enabled(end, Deliver(Right)) {
      Quiet(end, i);
      QuietHalf(sv.At(j), st0.At(j), end.peers.At(i), end.chans.At(i), end.chans.At(j), end.peers.At(j).state);
      AllCompleted(sys.peers.At(i), end.peers.At(i));
    }
  }

  lemma Quiet<S>(sys: System<S>, i: Side)
    requires !Enabled(sys, Deliver(Left)) && !Enabled(sys, Deliver(Right))
    ensures Responses(sys.chans.At(i)) == [] && Requests(sys.chans.At(i.Other())) == []
  {}

  lemma AllCompleted<S>(p: Peer<S>, q: Peer<S>)
    requires Parted(p) && Parted(q)
    requires q.nextId == p.nextId && q.timedOut == p.timedOut && q.pending == {}
    ensures forall id :: id in p.pending ==> id in q.completed
  {}

  ghost predicate Parted<S>(p: Peer<S>) {
    && p.pending !! p.timedOut
    && (forall id :: id in p.completed || id in p.timedOut || id in p.pending <==> 1 <= id <= p.nextId)
  }

  /** What the invariant says of one side's tables. */
  lemma OneSide<S>(sv: Two<Service<S>>, st0: Two<S>, sys: System<S>, i: Side)
    requires Inv(sv, st0, sys)
    ensures var p, j := sys.peers.At(i), i.Other();
            && Half(sv.At(j), st0.At(j), p, sys.chans.At(i), sys.chans.At(j), sys.peers.At(j).state)
            && Parted(p)
  {
    hide Pipe;
  }

  /** The deliveries that empty both channels, the left one first. */
  function Drain<S>(sv: Two<Service<S>>, sys: System<S>): (acts: seq<Action>)
    ensures Deliveries(acts) && Allowed(sv, sys, acts) && Exec(sv, sys, acts).chans == Two([], [])
    decreases Work(sys)
  {
    if sys.chans.left != [] then
      DeliveryIsProgress(sv, sys, Left, Left);
      [Deliver(Left)] + Drain(sv, Next(sv, sys, Deliver(Left)))
    else if sys.chans.right != [] then
      DeliveryIsProgress(sv, sys, Right, Right);
      [Deliver(Right)] + Drain(sv, Next(sv, sys, Deliver(Right)))
    else []
  }

  /** So any run can be continued, by deliveries alone, to one after which no call waits and each that was
    * pending has been completed. */
  lemma EveryCallCanBeAnswered<S>(sv: Two<Service<S>>, st0: Two<S>, acts: seq<Action>, i: Side)
    requires Allowed(sv, Init(st0), acts)
    ensures var sys := Exec(sv, Init(st0), acts);
            exists more: seq<Action> ::
              && Deliveries(more) && Allowed(sv, sys, more)
              && var end := Exec(sv, sys, more);
                 && end.peers.At(i).pending == {}
                 && forall id :: id in sys.peers.At(i).pending ==> id in end.peers.At(i).completed
  {
    var sys := Exec(sv, Init(st0), acts);
    var more := Drain(sv, sys);
    DeliveriesAnswer(sv, st0, acts, more, i);
    hide Next, Work, Exec, Allowed, StateAfter;
  }
}
