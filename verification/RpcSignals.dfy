/** Signals over a connection: the server forwards a signal only while the client has slots for it. */
module RpcSignals {
  import opened JsonValue
  import opened JsonObject
  import opened Rpc
  import opened RpcProtocol

  const CONNECT := "rpc_connect_signal"

  /** What the handlers of a peer act on: its forwarding connections, blocked or not, by signal name,
    * and its other objects. */
  datatype Hub<+S> = Hub(blocked: map<string, bool>, objects: S)

  /** `rpc_connect_signal`: an unknown signal is ignored. */
  function Connected(blocked: map<string, bool>, sig: string, count: int): map<string, bool> {
    if sig in blocked then blocked[sig := count == 0] else blocked
  }

  /** The parameters of `rpc_connect_signal`: a string and a number that is cut to an int. */
  predicate ConnectParams(v: Value) {
    v.Arr? && |v.vals| >= 2 && v.vals[0].Str? && v.vals[1].Num?
  }

  function RunOn<S>(inner: Service<S>, hub: Hub<S>, name: string, params: Value): Ran<Hub<S>> {
    if name == CONNECT then
      if ConnectParams(params)
      then Ran(hub.(blocked := Connected(hub.blocked, params.vals[0].s, Truncate(params.vals[1].n))), Returned(Null))
      else Ran(hub, Raised(Null, "boost::bad_get: failed value get using boost::get"))
    else
      var ran := inner.run(hub.objects, name, params);
      Ran(hub.(objects := ran.state), ran.ended)
  }

  /** A connection's own method table: `rpc_connect_signal` before the methods of the served objects. */
  function WithSignals<S>(inner: Service<S>): Service<Hub<S>> {
    Service(inner.methods + {CONNECT}, (hub, name, params) => RunOn(inner, hub, name, params))
  }

  /** The call `rpc_connect_delegate` makes when the number of slots becomes count. */
  function Report(sig: string, count: int): Call {
    Call(CONNECT, Arr([Str(sig), Num(count as real)]))
  }

  predicate Reports(c: Call, sig: string) {
    c.name == CONNECT && ConnectParams(c.params) && c.params.vals[0].s == sig
  }

  /** The count in the last report of sig among calls; a signal starts with no slots. */
  function LastCount(calls: seq<Call>, sig: string): int {
    if calls == [] then 0
    else
      var c := calls[|calls| - 1];
      if Reports(c, sig) then Truncate(c.params.vals[1].n) else LastCount(calls[..|calls| - 1], sig)
  }

  lemma ReportIsCounted(calls: seq<Call>, sig: string, count: int)
    ensures LastCount(calls + [Report(sig, count)], sig) == count
  {
    WholeTruncates(count);
    assert (calls + [Report(sig, count)])[|calls|] == Report(sig, count);
  }

  lemma {:induction false} LastCountSkips(calls: seq<Call>, more: seq<Call>, sig: string)
    requires forall k :: 0 <= k < |more| ==> !Reports(more[k], sig)
    ensures LastCount(calls + more, sig) == LastCount(calls, sig)
    decreases |more|
  {
    if more == [] {
      assert calls + more == calls;
    } else {
      var n := |more| - 1;
      assert (calls + more)[..|calls| + n] == calls + more[..n] && (calls + more)[|calls| + n] == more[n];
      LastCountSkips(calls, more[..n], sig);
    }
  }

  // ----- direct calls

  lemma OneCall<S>(inner: Service<S>, hub: Hub<S>, id: Value, c: Call, sig: string)
    requires sig in hub.blocked
    ensures var blocked := Dispatch(WithSignals(inner), hub, id, c).state.blocked;
            && sig in blocked
            && blocked[sig] == if Reports(c, sig) then Truncate(c.params.vals[1].n) == 0 else hub.blocked[sig]
  {
    var sv := WithSignals(inner);
    assert sv.run(hub, c.name, c.params) == RunOn(inner, hub, c.name, c.params);
    assert Reports(c, sig) ==> c.name in sv.methods;
    hide Truncate, Reply, WithSignals;
  }

  /** A subscription in full: the named signal, if there is one, is blocked exactly when the number's whole
    * part is 0. Other signals and the objects stay as they were, and what follows in the array is ignored. */
  lemma Subscription<S>(inner: Service<S>, hub: Hub<S>, id: Value, sig: string, x: real, more: seq<Value>)
    ensures var c := Call("rpc_connect_signal", Arr([Str(sig), Num(x)] + more));
            var out := Dispatch(WithSignals(inner), hub, id, c).state;
            && out.objects == hub.objects && out.blocked.Keys == hub.blocked.Keys
            && forall name :: name in hub.blocked ==>
                 (out.blocked[name] <==> if name == sig then -1.0 < x < 1.0 else hub.blocked[name])
  {
    var vals := [Str(sig), Num(x)] + more;
    assert vals[0] == Str(sig) && vals[1] == Num(x);
    var sv, c := WithSignals(inner), Call(CONNECT, Arr(vals));
    assert sv.run(hub, c.name, c.params) == RunOn(inner, hub, c.name, c.params) && c.name in sv.methods;
    assert Truncate(x) == 0 <==> -1.0 < x < 1.0;
    hide Truncate, Reply, WithSignals;
  }

  /** With other parameters nothing is blocked or unblocked, and the caller is told so. */
  lemma SubscriptionRefused<S>(inner: Service<S>, hub: Hub<S>, id: Value, params: Value)
    requires !(params.Arr? && |params.vals| >= 2 && params.vals[0].Str? && params.vals[1].Num?)
    ensures var c := Call("rpc_connect_signal", params);
            var served := Dispatch(WithSignals(inner), hub, id, c);
            && served.state == hub && served.reply.Obj? && HasKey(served.reply.keys, "error")
            && Says(Lookup(served.reply.keys, "error"), "boost::bad_get: failed value get using boost::get")
  {
    var sv, c := WithSignals(inner), Call(CONNECT, params);
    assert sv.run(hub, c.name, c.params) == RunOn(inner, hub, c.name, c.params) && c.name in sv.methods;
    ReplyHolds(sv, hub, id, c);
    hide Reply, WithSignals, Says;
  }

  /** After any calls made directly on a hub whose connections all started blocked, a connection is
    * blocked exactly when the last count reported for it is 0. */
  lemma {:induction false} BlockedIffNoSlots<S>(inner: Service<S>, hub: Hub<S>, calls: seq<Call>, sig: string)
    requires sig in hub.blocked && hub.blocked[sig]
    ensures var blocked := StateAfter(WithSignals(inner), hub, calls).blocked;
            sig in blocked && (blocked[sig] <==> LastCount(calls, sig) == 0)
    decreases |calls|
  {
    if calls != [] {
      var n := |calls| - 1;
      BlockedIffNoSlots(inner, hub, calls[..n], sig);
      assert calls[..n] + [calls[n]] == calls;
      ServeOneMore(WithSignals(inner), hub, calls[..n], calls[n], 1);
      OneCall(inner, StateAfter(WithSignals(inner), hub, calls[..n]), IdValue(1 + n), calls[n], sig);
      hide WithSignals, StateAfter, Dispatch, Truncate, Reports;
    }
  }

  // ----- runs

  /** The calls of peer i that the other peer has served so far. */
  function Delivered<S>(sys: System<S>, i: Side): seq<Call> {
    var p, n := sys.peers.At(i), |Requests(sys.chans.At(i.Other()))|;
    if n <= |p.calls| then p.calls[..|p.calls| - n] else []
  }

  /** In every reachable state, the server's forwarding connection is blocked exactly when the last
    * count delivered to it was 0, or none was. */
  lemma BlockedFollowsDeliveries<S>(inner: Service<S>, sv: Two<Service<Hub<S>>>, st0: Two<Hub<S>>,
                                    acts: seq<Action>, i: Side, sig: string)
    requires sv.At(i.Other()) == WithSignals(inner) && Allowed(sv, Init(st0), acts)
    requires sig in st0.At(i.Other()).blocked && st0.At(i.Other()).blocked[sig]
    ensures var sys := Exec(sv, Init(st0), acts);
            var blocked := sys.peers.At(i.Other()).state.blocked;
            sig in blocked && (blocked[sig] <==> LastCount(Delivered(sys, i), sig) == 0)
  {
    ReachedHalf(sv, st0, acts, i);
    var sys := Exec(sv, Init(st0), acts);
    assert sys.peers.At(i.Other()).state == StateAfter(WithSignals(inner), st0.At(i.Other()), Delivered(sys, i));
    hide *;
    BlockedIffNoSlots(inner, st0.At(i.Other()), Delivered(sys, i), sig);
  }

  /** Agreement: with no `rpc_connect_signal` in flight to the server, it is blocked exactly when
    * the count its client last reported is 0. */
  lemma SidesAgree<S>(inner: Service<S>, sv: Two<Service<Hub<S>>>, st0: Two<Hub<S>>,
                      acts: seq<Action>, i: Side, sig: string)
    requires sv.At(i.Other()) == WithSignals(inner) && Allowed(sv, Init(st0), acts)
    requires sig in st0.At(i.Other()).blocked && st0.At(i.Other()).blocked[sig]
    requires var sys := Exec(sv, Init(st0), acts);
             NoneConnect(Requests(sys.chans.At(i.Other())))
    ensures var sys := Exec(sv, Init(st0), acts);
            var blocked := sys.peers.At(i.Other()).state.blocked;
            sig in blocked && (blocked[sig] <==> LastCount(sys.peers.At(i).calls, sig) == 0)
  {
    BlockedFollowsDeliveries(inner, sv, st0, acts, i, sig);
    ReachedHalf(sv, st0, acts, i);
    var sys := Exec(sv, Init(st0), acts);
    var p, reqs := sys.peers.At(i), Requests(sys.chans.At(i.Other()));
    var done, rest := Delivered(sys, i), p.calls[|p.calls| - |reqs|..];
    assert done + rest == p.calls && reqs == RequestMsgs(rest, |done| + 1);
    hide *;
    NoneReport(rest, |done| + 1, sig);
    LastCountSkips(done, rest, sig);
  }

  predicate IsConnect(v: Value) {
    v.Obj? && HasKey(v.keys, "method") && Lookup(v.keys, "method") == Str(CONNECT)
  }

  predicate NoneConnect(vs: seq<Value>) {
    forall k :: 0 <= k < |vs| ==> !IsConnect(vs[k])
  }

  lemma {:induction false} NoneReport(calls: seq<Call>, first: int, sig: string)
    requires NoneConnect(RequestMsgs(calls, first))
    ensures forall k :: 0 <= k < |calls| ==> !Reports(calls[k], sig)
    decreases |calls|
  {
    if calls != [] {
      var vs := RequestMsgs(calls, first);
      assert vs[0] == RequestMsg(first, calls[0]) && vs[1..] == RequestMsgs(calls[1..], first + 1);
      RequestKeys(first, calls[0]);
      assert !IsConnect(vs[0]);
      assert forall k :: 0 <= k < |vs| - 1 ==> vs[1..][k] == vs[k + 1];
      NoneReport(calls[1..], first + 1, sig);
      assert forall k :: 0 < k < |calls| ==> calls[k] == calls[1..][k - 1];
    }
  }

  // ----- emissions

  datatype Emission = Emission(sig: string, args: Value)

  /** What reaches a server's signals: a report of the client's slots, an emission made by the server's
    * own objects, and one the client asks for. */
  datatype Event = Reported(sig: string, count: int) | Emitted(e: Emission) | Asked(e: Emission)

  /** The forwarding connections, and the emissions sent to the client. */
  datatype Signals = Signals(blocked: map<string, bool>, forwarded: seq<Emission>)

  /** The slots of a signal are called: the forwarding one sends, unless it is blocked. */
  function Emit(t: Signals, e: Emission): Signals {
    if e.sig in t.blocked && !t.blocked[e.sig] then t.(forwarded := t.forwarded + [e]) else t
  }

  function Block(t: Signals, sig: string, b: bool): Signals {
    t.(blocked := t.blocked[sig := b])
  }

  /** A client's emission is made under a guard that blocks an open forwarding connection and opens it
    * again afterwards. */
  function EmitGuarded(t: Signals, e: Emission): Signals {
    if e.sig in t.blocked && !t.blocked[e.sig] then Block(Emit(Block(t, e.sig, true), e), e.sig, false)
    else Emit(t, e)
  }

  function Take(t: Signals, ev: Event): Signals {
    match ev
    case Reported(sig, count) => t.(blocked := Connected(t.blocked, sig, count))
    case Emitted(e) => Emit(t, e)
    case Asked(e) => EmitGuarded(t, e)
  }

  function TakeAll(t: Signals, evs: seq<Event>): Signals {
    if evs == [] then t else Take(TakeAll(t, evs[..|evs| - 1]), evs[|evs| - 1])
  }

  /** The last count reported for a signal; it starts with no slots. */
  function CountAfter(evs: seq<Event>, sig: string): int {
    if evs == [] then 0
    else
      var last := evs[|evs| - 1];
      if last.Reported? && last.sig == sig then last.count else CountAfter(evs[..|evs| - 1], sig)
  }

  /** The server's own emissions of known signals, each made while its last reported count was not 0. */
  function Heard(known: set<string>, evs: seq<Event>): seq<Emission> {
    if evs == [] then []
    else
      var before, last := evs[..|evs| - 1], evs[|evs| - 1];
      Heard(known, before)
      + (if last.Emitted? && last.e.sig in known && CountAfter(before, last.e.sig) != 0 then [last.e] else [])
  }

  /** An emission the client asks for is never sent back to it, and leaves the table as it was. */
  lemma NoEcho(t: Signals, e: Emission)
    ensures EmitGuarded(t, e) == t
  {
    if e.sig in t.blocked && !t.blocked[e.sig] {
      assert t.blocked[e.sig := true][e.sig := false] == t.blocked;
    }
  }

  lemma {:induction false} BlockedByCount(t: Signals, evs: seq<Event>, sig: string)
    requires sig in t.blocked && t.blocked[sig]
    ensures var u := TakeAll(t, evs); sig in u.blocked && (u.blocked[sig] <==> CountAfter(evs, sig) == 0)
  {
    if evs != [] {
      var before, last := evs[..|evs| - 1], evs[|evs| - 1];
      BlockedByCount(t, before, sig);
      if last.Asked? {
        NoEcho(TakeAll(t, before), last.e);
      }
      hide EmitGuarded;
    }
  }

  lemma {:induction false} KnownStays(t: Signals, evs: seq<Event>)
    ensures TakeAll(t, evs).blocked.Keys == t.blocked.Keys
  {
    if evs != [] {
      var before, last := evs[..|evs| - 1], evs[|evs| - 1];
      KnownStays(t, before);
      if last.Asked? {
        NoEcho(TakeAll(t, before), last.e);
      }
      hide EmitGuarded;
    }
  }

  /** After any events, on connections that all started blocked, what has been sent to the client is
    * exactly what the server's objects emitted while the client had slots for it, in order. */
  lemma {:induction false} ForwardsWhatIsHeard(t: Signals, evs: seq<Event>)
    requires forall sig :: sig in t.blocked ==> t.blocked[sig]
    ensures TakeAll(t, evs).forwarded == t.forwarded + Heard(t.blocked.Keys, evs)
  {
    if evs == [] {
      assert t.forwarded + [] == t.forwarded;
    } else {
      var before, last := evs[..|evs| - 1], evs[|evs| - 1];
      var u, heard := TakeAll(t, before), Heard(t.blocked.Keys, before);
      ForwardsWhatIsHeard(t, before);
      KnownStays(t, before);
      assert t.forwarded + (heard + []) == t.forwarded + heard;
      match last {
        case Reported(sig, count) => {}
        case Asked(e) => NoEcho(u, e);
        case Emitted(e) =>
          if e.sig in t.blocked {
            BlockedByCount(t, before, e.sig);
          }
          assert t.forwarded + (heard + [e]) == t.forwarded + heard + [e];
      }
      hide EmitGuarded;
    }
  }

  function WithoutAsked(evs: seq<Event>): seq<Event> {
    if evs == [] then []
    else WithoutAsked(evs[..|evs| - 1]) + (if evs[|evs| - 1].Asked? then [] else [evs[|evs| - 1]])
  }

  /** Nothing the client emits makes a difference to what is sent to it, then or later. */
  lemma {:induction false} AskedMakesNoDifference(t: Signals, evs: seq<Event>)
    ensures TakeAll(t, evs) == TakeAll(t, WithoutAsked(evs))
  {
    if evs != [] {
      var before, last := evs[..|evs| - 1], evs[|evs| - 1];
      AskedMakesNoDifference(t, before);
      var rest := WithoutAsked(before);
      if last.Asked? {
        NoEcho(TakeAll(t, before), last.e);
        assert rest + [] == rest;
      } else {
        assert (rest + [last])[..|rest|] == rest;
      }
      hide EmitGuarded;
    }
  }

  // ----- the table as it is updated in place

  class SignalTable {
    var blocked: map<string, bool>
    var forwarded: seq<Emission>

    function View(): Signals
      reads this
    {
      Signals(blocked, forwarded)
    }

    constructor ()
      ensures View() == Signals(map[], [])
    {
      blocked, forwarded := map[], [];
    }

    /** A signal is connected for forwarding, blocked, and then added under its name. */
    method AddSignalConnection(name: string)
      modifies this
      ensures View() == Block(old(View()), name, true)
    {
      blocked := blocked[name := true];
    }

    method ConnectSignal(sig: string, count: int)
      modifies this
      ensures View() == Take(old(View()), Reported(sig, count))
    {
      if sig in blocked {
        blocked := blocked[sig := count == 0];
      }
    }

    /** An emission: the forwarding slot is one of those called. */
    method EmitSignal(sig: string, args: Value)
      modifies this
      ensures View() == Take(old(View()), Emitted(Emission(sig, args)))
    {
      if sig in blocked {
        if !blocked[sig] {
          forwarded := forwarded + [Emission(sig, args)];
        }
      }
    }

    /** The client's emission, as its method call is handled: with the guard around the emission. */
    method HandleEmission(sig: string, args: Value)
      modifies this
      ensures View() == Take(old(View()), Asked(Emission(sig, args))) == old(View())
    {
      var unblock := false;
      if sig in blocked && !blocked[sig] {
        unblock := true;
        blocked := blocked[sig := true];
      }
      EmitSignal(sig, args);
      if unblock {
        blocked := blocked[sig := false];
      }
      NoEcho(old(View()), Emission(sig, args));
    }
  }
}
