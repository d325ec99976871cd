/** Two peers joined by byte streams: each side's read loop takes its incoming bytes one at a time.
  * Its runs are runs of the message protocol. */
module RpcBytes {
  import opened JsonValue
  import opened JsonObject
  import opened JsonGrammar
  import opened Framer
  import opened JsonTcp
  import opened Rpc
  import opened RpcProtocol
  import opened RpcTransport

  /** One side: its tables, the variables of its read loop, the bytes written to it that the loop has
    * not reached, and whether an exception has ended the loop. */
  datatype End<S> = End(peer: Peer<S>, scan: Scan, incoming: string, down: bool)
  {
    function Gets(text: string): End<S> {
      this.(incoming := incoming + text)
    }
  }

  /** What one or more turns of the read loop come to: the end afterwards, and the text written. */
  datatype Turn<S> = Turn(end: End<S>, text: string)

  /** The same actions as in the message protocol, except that Deliver is one byte. */
  predicate Enabled<S>(ends: Two<End<S>>, a: Action) {
    match a
    case Invoke(_, _) => true
    case Deliver(side) => !ends.At(side).down && ends.At(side).incoming != ""
    case Expire(side, id) => id in ends.At(side).peer.waiting
  }

  /** One turn of the read loop. */
  function HearByte<S>(sv: Service<S>, e: End<S>): Turn<S>
    requires e.incoming != ""
  {
    var scan, rest := Step(e.scan, e.incoming[0]), e.incoming[1..];
    if scan.frames == [] then Turn(End(e.peer, scan, rest, false), "")
    else
      match Read(scan.frames[0])
      case Fail => Turn(e.(incoming := rest, down := true), "")
      case Got(v, _) =>
        var r := Receive(sv, e.peer, v);
        Turn(End(r.peer, scan.(frames := []), rest, r.raised), Stream(r.sent))
  }

  function Next<S>(sv: Two<Service<S>>, ends: Two<End<S>>, a: Action): Two<End<S>>
    requires Enabled(ends, a)
  {
    var i, j := a.side, a.side.Other();
    var e, f := ends.At(i), ends.At(j);
    match a
    case Invoke(_, call) =>
      var text := CompactText(RequestMsg(e.peer.nextId + 1, call));
      ends.Put(i, e.(peer := Invoked(e.peer, call))).Put(j, f.Gets(text))
    case Deliver(_) =>
      var turn := HearByte(sv.At(i), e);
      ends.Put(i, turn.end).Put(j, f.Gets(turn.text))
    case Expire(_, id) =>
      ends.Put(i, e.(peer := Expired(e.peer, id)))
  }

  predicate Allowed<S>(sv: Two<Service<S>>, ends: Two<End<S>>, acts: seq<Action>)
    decreases |acts|
  {
    acts == [] || (Enabled(ends, acts[0]) && Allowed(sv, Next(sv, ends, acts[0]), acts[1..]))
  }

  function Exec<S>(sv: Two<Service<S>>, ends: Two<End<S>>, acts: seq<Action>): Two<End<S>>
    requires Allowed(sv, ends, acts)
    decreases |acts|
  {
    if acts == [] then ends else Exec(sv, Next(sv, ends, acts[0]), acts[1..])
  }

  function Init<S>(st0: Two<S>): Two<End<S>> {
    Two(End(Fresh(st0.left), Start, "", false), End(Fresh(st0.right), Start, "", false))
  }

  // ----- byte by byte, a read loop does what it does on the whole stream

  function HearAll<S>(sv: Service<S>, e: End<S>): Turn<S>
    decreases |e.incoming|
  {
    if e.down || e.incoming == "" then Turn(e, "")
    else
      var first := HearByte(sv, e);
      var more := HearAll(sv, first.end);
      Turn(more.end, first.text + more.text)
  }

  lemma {:induction false} FramesApart(st: Scan, done: seq<string>, s: string)
    ensures Run(st.(frames := done + st.frames), s)
         == Run(st, s).(frames := done + Run(st, s).frames)
    decreases |s|
  {
    if s != "" {
      var st' := Step(st, s[0]);
      assert Step(st.(frames := done + st.frames), s[0]) == st'.(frames := done + st'.frames);
      FramesApart(st', done, s[1..]);
    }
  }

  /** A frame handed over before the rest. */
  lemma FirstFrame<S>(sv: Service<S>, p: Peer<S>, f: string, frames: seq<string>)
    ensures Read(f).Fail? ==> JsonTcp.Deliver([f] + frames) == Delivery([], true)
    ensures Read(f).Got? ==>
            var d, r := JsonTcp.Deliver([f] + frames), Receive(sv, p, Read(f).value);
            var more := ReceiveAll(sv, r.peer, JsonTcp.Deliver(frames).values);
            && d.threw == (r.raised || JsonTcp.Deliver(frames).threw)
            && ReceiveAll(sv, p, d.values)
               == if r.raised then r else Received(more.peer, r.sent + more.sent, more.raised)
  {
    assert ([f] + frames)[1..] == frames;
    hide Read, Receive, Accepted;
    if Read(f).Got? {
      var v, values := Read(f).value, JsonTcp.Deliver(frames).values;
      RaisesIffRefused(sv, p, v);
      assert [v][1..] == [] && ([v] + values)[1..] == values;
    }
  }

  /** What the loop on the bytes of e comes to, given the frames they complete. */
  ghost predicate Heard<S>(sv: Service<S>, e: End<S>, frames: seq<string>) {
    var d := JsonTcp.Deliver(frames);
    var r := ReceiveAll(sv, e.peer, d.values);
    var turn := HearAll(sv, e);
    turn.end.peer == r.peer && turn.text == Stream(r.sent) && turn.end.down == d.threw
  }

  /** The read loop on bytes that are all there: the frames are handed over, and the replies written,
    * up to the first frame that cannot be read or whose message is refused. */
  lemma {:induction false} LoopOnBytes<S>(sv: Service<S>, e: End<S>)
    requires !e.down && e.scan.frames == []
    ensures Heard(sv, e, Run(e.scan, e.incoming).frames)
    decreases |e.incoming|, 1
  {
    if e.incoming == "" {
      assert JsonTcp.Deliver([]) == Delivery([], false);
    } else {
      var scan, rest, e' := Step(e.scan, e.incoming[0]), e.incoming[1..], HearByte(sv, e).end;
      assert Run(e.scan, e.incoming) == Run(scan, rest);
      if scan.frames == [] {
        LoopOnBytes(sv, e');
        hide Step, JsonTcp.Deliver, ReceiveAll, Stream, Run;
        assert "" + HearAll(sv, e').text == HearAll(sv, e').text;
      } else {
        LoopOnFrame(sv, e, scan.frames[0], scan.(frames := []));
      }
    }
  }

  lemma {:induction false} LoopOnFrame<S>(sv: Service<S>, e: End<S>, f: string, idle: Scan)
    requires !e.down && e.incoming != "" && idle.frames == []
    requires Step(e.scan, e.incoming[0]) == idle.(frames := [f])
    ensures Heard(sv, e, Run(e.scan, e.incoming).frames)
    decreases |e.incoming|, 0
  {
    var rest, e' := e.incoming[1..], HearByte(sv, e).end;
    var frames := Run(idle, rest).frames;
    assert Run(e.scan, e.incoming) == Run(idle.(frames := [f]), rest);
    assert [f] + idle.frames == [f];
    assert e'.down ==> HearAll(sv, e') == Turn(e', "");
    hide Step, Run, Read, Receive, JsonTcp.Deliver, ReceiveAll, Stream;
    FramesApart(idle, [f], rest);
    FirstFrame(sv, e.peer, f, frames);
    NothingSent(sv, e.peer);
    if Read(f).Got? {
      var r := Receive(sv, e.peer, Read(f).value);
      assert Stream(r.sent) + "" == Stream(r.sent);
      if !r.raised {
        LoopOnBytes(sv, e');
        StreamAppend(r.sent, ReceiveAll(sv, r.peer, JsonTcp.Deliver(frames).values).sent);
      }
    }
  }

  lemma NothingSent<S>(sv: Service<S>, p: Peer<S>)
    ensures Stream(ReceiveAll(sv, p, []).sent) == "" && "" + "" == "" && ReceiveAll(sv, p, []).peer == p
  {}

  // ----- what a byte means

  /** The message action that an action on bytes completes, if any. */
  function Completes<S>(ends: Two<End<S>>, a: Action): seq<Action>
    requires Enabled(ends, a)
  {
    var e := ends.At(a.side);
    if a.Deliver? && Step(e.scan, e.incoming[0]).frames == [] then [] else [a]
  }

  function Messages<S>(sv: Two<Service<S>>, ends: Two<End<S>>, acts: seq<Action>): seq<Action>
    requires Allowed(sv, ends, acts)
    decreases |acts|
  {
    if acts == [] then [] else Completes(ends, acts[0]) + Messages(sv, Next(sv, ends, acts[0]), acts[1..])
  }

  /** The messages ch are on their way to a reader: the part of the first that its loop holds, and
    * the bytes that follow. */
  ghost predicate Carries(scan: Scan, incoming: string, ch: seq<Value>) {
    && AllSendable(ch) && scan.frames == [] && scan == Run(Start, scan.buf)
    && scan.buf + incoming == Stream(ch)
    && if ch == [] then scan.buf == "" else |scan.buf| < |CompactText(ch[0])|
  }

  lemma TextIsFrame(v: Value)
    requires Sendable(v)
    ensures IsFrame(CompactText(v)) && Read(CompactText(v)) == Got(v, "")
  {
    hide Accepted, IsFrame, Read, Level;
    CleanNoQuotes(v);
    RenderLevel(Compact, v, 0);
    ReadCompact(v);
  }

  /** Part of a frame leaves the loop inside it, and the whole of it leaves the loop as at the start. */
  lemma FramePrefix(f: string, n: nat)
    requires IsFrame(f) && n <= |f|
    ensures n < |f| ==> Run(Start, f[..n]).buf == f[..n] && Run(Start, f[..n]).frames == []
    ensures n == |f| ==> Run(Start, f[..n]) == Start.(frames := [f])
  {
    if n == |f| {
      assert f[..n] == f && [] + [f] == [f];
      RunFrame([], f);
    } else if n > 0 {
      var body := f[..|f| - 1];
      assert body[..n] == f[..n] && body == f[..n] + body[n..];
      InsidePrefix(Pos(0, false), body, n);
      RunOpen(Start, f[..n]);
      assert "" + f[..n] == f[..n];
    }
  }

  lemma {:induction false} InsidePrefix(p: Pos, s: string, n: nat)
    requires Inside(p, s) && n <= |s|
    ensures Inside(p, s[..n])
    decreases |s|
  {
    if n > 0 {
      InsidePrefix(Move(p, s[0]), s[1..], n - 1);
      assert s[..n][1..] == s[1..][..n - 1];
    }
  }

  /** The next byte is the next of the first message's text. */
  lemma NextByte(buf: string, incoming: string, f: string, rest: string)
    requires buf + incoming == f + rest && |buf| < |f|
    ensures incoming != "" && buf + [incoming[0]] == f[..|buf| + 1]
    ensures (buf + [incoming[0]]) + incoming[1..] == f + rest
    ensures |buf| + 1 == |f| ==> incoming[1..] == rest
  {
    var all := buf + incoming;
    assert all[..|buf| + 1] == (f + rest)[..|buf| + 1] && all[|buf|] == incoming[0];
    assert all[|buf| + 1..] == incoming[1..] && (f + rest)[|f|..] == rest;
  }

  lemma OneMoreStep(scan: Scan, c: char)
    requires scan == Run(Start, scan.buf)
    ensures Step(scan, c) == Run(Start, scan.buf + [c])
  {
    RunAppend(Start, scan.buf, [c]);
    assert [c][1..] == "";
    hide Step;
  }

  lemma HearFirst(scan: Scan, incoming: string, ch: seq<Value>)
    requires Carries(scan, incoming, ch) && incoming != ""
    ensures ch != [] && Sendable(ch[0])
    ensures var f, scan' := CompactText(ch[0]), Step(scan, incoming[0]);
            && Read(f) == Got(ch[0], "")
            && if |scan.buf| + 1 < |f| then scan'.frames == [] && Carries(scan', incoming[1..], ch)
               else scan' == Start.(frames := [f]) && Carries(Start, incoming[1..], ch[1..])
  {
    hide Sendable, Step, CompactText, Read, IsFrame;
    assert ch != [] by { assert Stream([]) == ""; }
    var f, rest := CompactText(ch[0]), Stream(ch[1..]);
    TextIsFrame(ch[0]);
    NextByte(scan.buf, incoming, f, rest);
    OneMoreStep(scan, incoming[0]);
    FramePrefix(f, |scan.buf| + 1);
    if |scan.buf| + 1 == |f| {
      assert forall k :: 0 <= k < |ch| - 1 ==> ch[1..][k] == ch[k + 1];
      NothingHeld(rest, ch[1..]);
    }
  }

  lemma NothingHeld(incoming: string, ch: seq<Value>)
    requires AllSendable(ch) && incoming == Stream(ch)
    ensures Carries(Start, incoming, ch)
  {
    assert "" + incoming == incoming && Run(Start, "") == Start;
    hide AllSendable, CompactText;
    if ch != [] {
      FirstText(ch);
    }
  }

  lemma FirstText(ch: seq<Value>)
    requires AllSendable(ch) && ch != []
    ensures CompactText(ch[0]) != ""
  {
    hide Sendable, CompactText, Read;
    TextIsFrame(ch[0]);
  }

  /** What is written joins the messages on their way. */
  lemma Written(scan: Scan, incoming: string, ch: seq<Value>, more: seq<Value>)
    requires Carries(scan, incoming, ch) && AllSendable(ch + more)
    ensures Carries(scan, incoming + Stream(more), ch + more)
  {
    hide AllSendable, CompactText, Stream, Run;
    StreamAppend(ch, more);
    assert scan.buf + (incoming + Stream(more)) == (scan.buf + incoming) + Stream(more);
    if ch == [] {
      if more != [] {
        FirstText(ch + more);
      }
    } else {
      assert (ch + more)[0] == ch[0];
    }
  }

  // ----- the simulation

  ghost predicate EndOk<S>(e: End<S>, p: Peer<S>, ch: seq<Value>) {
    e.peer == p && !e.down && Carries(e.scan, e.incoming, ch) && CleanCalls(p.calls)
  }

  ghost predicate Simulates<S>(sv: Two<Service<S>>, st0: Two<S>, ends: Two<End<S>>, sys: System<S>) {
    && Inv(sv, st0, sys)
    && EndOk(ends.left, sys.peers.left, sys.chans.left) && EndOk(ends.right, sys.peers.right, sys.chans.right)
  }

  predicate CleanAction(a: Action) {
    a.Invoke? ==> CleanCall(a.call)
  }

  lemma EndInvoked<S>(e: End<S>, p: Peer<S>, ch: seq<Value>, call: Call)
    requires EndOk(e, p, ch) && CleanCall(call)
    ensures EndOk(e.(peer := Invoked(p, call)), Invoked(p, call), ch)
  {
    hide CleanCall, Carries;
  }

  /** What one action does to the two ends of a simulated state. */
  lemma EndWritten<S>(e: End<S>, p: Peer<S>, ch: seq<Value>, more: seq<Value>)
    requires EndOk(e, p, ch) && AllSendable(ch + more)
    ensures EndOk(e.Gets(Stream(more)), p, ch + more)
  {
    hide CleanCalls, AllSendable, Carries, Stream;
    Written(e.scan, e.incoming, ch, more);
  }

  lemma ReceiveKeepsCalls<S>(sv: Service<S>, p: Peer<S>, v: Value)
    ensures Receive(sv, p, v).peer.calls == p.calls
  {
    hide Dispatch, Reply, NameText, Truncate, HasKey, Lookup;
  }

  /** A byte that does not complete a message changes nothing but the loop's variables; one that does
    * hands the message over. */
  lemma EndHears<S>(sv: Service<S>, e: End<S>, p: Peer<S>, ch: seq<Value>)
    requires EndOk(e, p, ch) && e.incoming != ""
    ensures ch != []
    ensures var scan, turn := Step(e.scan, e.incoming[0]), HearByte(sv, e);
            scan.frames == [] ==> EndOk(turn.end, p, ch) && turn.text == "" && turn.end.scan == scan
    ensures var turn, r := HearByte(sv, e), Receive(sv, p, ch[0]);
            Step(e.scan, e.incoming[0]).frames != [] ==>
              && !r.raised && EndOk(turn.end, r.peer, ch[1..])
              && turn.text == Stream(r.sent) && turn.end.scan == Start
  {
    hide Carries, Sendable, Step, Receive, CleanCall, CompactText, Read, Accepted, Stream;
    HearFirst(e.scan, e.incoming, ch);
    SendableAccepted(ch[0]);
    RaisesIffRefused(sv, p, ch[0]);
    ReceiveKeepsCalls(sv, p, ch[0]);
  }

  lemma SendableAccepted(v: Value)
    requires Sendable(v)
    ensures Accepted(v)
  {}

  function RequestOf<S>(p: Peer<S>, call: Call): seq<Value> {
    [RequestMsg(p.nextId + 1, call)]
  }

  lemma RequestText<S>(p: Peer<S>, call: Call)
    ensures Stream(RequestOf(p, call)) == CompactText(RequestMsg(p.nextId + 1, call))
  {
    var v := RequestMsg(p.nextId + 1, call);
    assert [v][1..] == [] && CompactText(v) + "" == CompactText(v);
    hide CompactText, RequestMsg;
  }

  lemma PeersAgree<S>(e: End<S>, p: Peer<S>, ch: seq<Value>)
    requires EndOk(e, p, ch)
    ensures e.peer == p
  {}

  lemma OpenSimulation<S>(sv: Two<Service<S>>, st0: Two<S>, ends: Two<End<S>>, sys: System<S>, i: Side)
    requires Simulates(sv, st0, ends, sys)
    ensures Inv(sv, st0, sys)
    ensures EndOk(ends.At(i), sys.peers.At(i), sys.chans.At(i))
    ensures EndOk(ends.At(i.Other()), sys.peers.At(i.Other()), sys.chans.At(i.Other()))
  {
    hide EndOk, Inv;
  }

  /** After an action of side i that writes the messages more to the other side. */
  lemma CloseSimulation<S(!new)>(sv: Two<Service<S>>, st0: Two<S>, ends: Two<End<S>>, sys: System<S>, i: Side,
                                 f: End<S>, toQ: seq<Value>, more: seq<Value>)
    requires Inv(sv, st0, sys) && CleanService(sv.left) && CleanService(sv.right)
    requires EndOk(ends.At(i), sys.peers.At(i), sys.chans.At(i))
    requires EndOk(f, sys.peers.At(i.Other()), toQ) && sys.chans.At(i.Other()) == toQ + more
    requires ends.At(i.Other()) == f.Gets(Stream(more))
    ensures Simulates(sv, st0, ends, sys)
  {
    hide Inv, CleanService, CleanCalls, Carries, AllSendable, Stream;
    InvSendable(sv, st0, sys, i.Other());
    EndWritten(f, sys.peers.At(i.Other()), toQ, more);
  }

  lemma InvokeEnds<S>(sv: Two<Service<S>>, ends: Two<End<S>>, i: Side, call: Call)
    ensures Enabled(ends, Invoke(i, call))
    ensures var ends', e, f := Next(sv, ends, Invoke(i, call)), ends.At(i), ends.At(i.Other());
            && ends'.At(i) == e.(peer := Invoked(e.peer, call))
            && ends'.At(i.Other()) == f.Gets(Stream(RequestOf(e.peer, call)))
  {
    RequestText(ends.At(i).peer, call);
    hide Invoked, RequestMsg, CompactText, Stream, RequestOf;
  }

  lemma InvokeMessages<S>(sv: Two<Service<S>>, st0: Two<S>, sys: System<S>, i: Side, call: Call)
    requires Inv(sv, st0, sys)
    ensures RpcProtocol.Enabled(sys, Invoke(i, call))
    ensures var sys', p := RpcProtocol.Next(sv, sys, Invoke(i, call)), sys.peers.At(i);
            && Inv(sv, st0, sys')
            && sys'.peers.At(i) == Invoked(p, call) && sys'.peers.At(i.Other()) == sys.peers.At(i.Other())
            && sys'.chans.At(i) == sys.chans.At(i)
            && sys'.chans.At(i.Other()) == sys.chans.At(i.Other()) + RequestOf(p, call)
  {
    hide Inv, Invoked, RequestMsg;
    InvokeKeepsInv(sv, st0, sys, i, call);
    InvokeLeaves(sv, sys, i, call);
  }

  lemma SimulateInvoke<S(!new)>(sv: Two<Service<S>>, st0: Two<S>, ends: Two<End<S>>, sys: System<S>,
                                i: Side, call: Call)
    requires Simulates(sv, st0, ends, sys) && CleanService(sv.left) && CleanService(sv.right) && CleanCall(call)
    ensures Simulates(sv, st0, Next(sv, ends, Invoke(i, call)), RpcProtocol.Next(sv, sys, Invoke(i, call)))
  {
    var a := Invoke(i, call);
    var e, f, p, toP, toQ := ends.At(i), ends.At(i.Other()), sys.peers.At(i), sys.chans.At(i), sys.chans.At(i.Other());
    hide *;
    OpenSimulation(sv, st0, ends, sys, i);
    InvokeMessages(sv, st0, sys, i, call);
    InvokeEnds(sv, ends, i, call);
    PeersAgree(e, p, toP);
    EndInvoked(e, p, toP, call);
    var sys' := RpcProtocol.Next(sv, sys, a);
    CloseSimulation(sv, st0, Next(sv, ends, a), sys', i, f, toQ, RequestOf(p, call));
  }

  lemma SimulateExpire<S(!new)>(sv: Two<Service<S>>, st0: Two<S>, ends: Two<End<S>>, sys: System<S>,
                                i: Side, id: int)
    requires Simulates(sv, st0, ends, sys) && CleanService(sv.left) && CleanService(sv.right)
    requires Enabled(ends, Expire(i, id))
    ensures RpcProtocol.Enabled(sys, Expire(i, id))
    ensures Simulates(sv, st0, Next(sv, ends, Expire(i, id)), RpcProtocol.Next(sv, sys, Expire(i, id)))
  {
    var j, a := i.Other(), Expire(i, id);
    var p, toQ := sys.peers.At(i), sys.chans.At(j);
    assert Stream([]) == "" && toQ + [] == toQ && ends.At(j).incoming + "" == ends.At(j).incoming;
    hide Simulates, Inv, CleanService, EndOk, Stream, Expired;
    OpenSimulation(sv, st0, ends, sys, i);
    PeersAgree(ends.At(i), p, sys.chans.At(i));
    ExpireLeaves(sv, sys, i, id);
    NextKeepsInv(sv, st0, sys, a);
    EndExpired(ends.At(i), p, sys.chans.At(i), id);
    CloseSimulation(sv, st0, Next(sv, ends, a), RpcProtocol.Next(sv, sys, a), i, ends.At(j), toQ, []);
  }

  lemma EndExpired<S>(e: End<S>, p: Peer<S>, ch: seq<Value>, id: int)
    requires EndOk(e, p, ch)
    ensures EndOk(e.(peer := Expired(p, id)), Expired(p, id), ch)
  {
    hide CleanCalls, Carries;
  }

  /** A byte inside a message is no step of the protocol; the last byte of a message is its delivery. */
  lemma SimulateByte<S(!new)>(sv: Two<Service<S>>, st0: Two<S>, ends: Two<End<S>>, sys: System<S>, i: Side)
    requires Simulates(sv, st0, ends, sys) && CleanService(sv.left) && CleanService(sv.right)
    requires Enabled(ends, Deliver(i))
    ensures if Completes(ends, Deliver(i)) == [] then Simulates(sv, st0, Next(sv, ends, Deliver(i)), sys)
            else (&& RpcProtocol.Enabled(sys, Deliver(i))
                  && Simulates(sv, st0, Next(sv, ends, Deliver(i)), RpcProtocol.Next(sv, sys, Deliver(i))))
  {
    var j, a := i.Other(), Deliver(i);
    var e, f, p, toP, toQ := ends.At(i), ends.At(j), sys.peers.At(i), sys.chans.At(i), sys.chans.At(j);
    var r := Receive(sv.At(i), p, toP[0]);
    assert Stream([]) == "" && toQ + [] == toQ;
    hide Simulates, Inv, CleanService, EndOk, Stream, Receive, HearByte, Step;
    OpenSimulation(sv, st0, ends, sys, i);
    EndHears(sv.At(i), e, p, toP);
    if Completes(ends, a) == [] {
      CloseSimulation(sv, st0, Next(sv, ends, a), sys, i, f, toQ, []);
    } else {
      DeliverLeaves(sv, sys, i);
      NextKeepsInv(sv, st0, sys, a);
      CloseSimulation(sv, st0, Next(sv, ends, a), RpcProtocol.Next(sv, sys, a), i, f, toQ, r.sent);
    }
  }

  lemma SimulateNext<S(!new)>(sv: Two<Service<S>>, st0: Two<S>, ends: Two<End<S>>, sys: System<S>, a: Action)
    requires Simulates(sv, st0, ends, sys) && CleanService(sv.left) && CleanService(sv.right)
    requires Enabled(ends, a) && CleanAction(a)
    ensures if Completes(ends, a) == [] then Simulates(sv, st0, Next(sv, ends, a), sys)
            else (&& Completes(ends, a) == [a] && RpcProtocol.Enabled(sys, a)
                  && Simulates(sv, st0, Next(sv, ends, a), RpcProtocol.Next(sv, sys, a)))
  {
    assert Completes(ends, a) == [] || Completes(ends, a) == [a];
    hide Simulates, CleanService, CleanCall, Next, RpcProtocol.Next;
    match a
    case Invoke(i, call) => SimulateInvoke(sv, st0, ends, sys, i, call);
    case Expire(i, id) => SimulateExpire(sv, st0, ends, sys, i, id);
    case Deliver(i) => SimulateByte(sv, st0, ends, sys, i);
  }

  lemma {:induction false} SimulateAll<S(!new)>(sv: Two<Service<S>>, st0: Two<S>, ends: Two<End<S>>,
                                                sys: System<S>, acts: seq<Action>)
    requires Simulates(sv, st0, ends, sys) && CleanService(sv.left) && CleanService(sv.right)
    requires Allowed(sv, ends, acts) && forall a :: a in acts ==> CleanAction(a)
    ensures var msgs := Messages(sv, ends, acts);
            && RpcProtocol.Allowed(sv, sys, msgs)
            && Simulates(sv, st0, Exec(sv, ends, acts), RpcProtocol.Exec(sv, sys, msgs))
    decreases |acts|
  {
    hide Simulates, CleanService, CleanAction, Next, RpcProtocol.Next, Completes, Enabled, RpcProtocol.Enabled;
    if acts != [] {
      var a, done := acts[0], Completes(ends, acts[0]);
      var more := Messages(sv, Next(sv, ends, a), acts[1..]);
      SimulateNext(sv, st0, ends, sys, a);
      if done == [] {
        SimulateAll(sv, st0, Next(sv, ends, a), sys, acts[1..]);
        assert done + more == more;
      } else {
        SimulateAll(sv, st0, Next(sv, ends, a), RpcProtocol.Next(sv, sys, a), acts[1..]);
        assert ([a] + more)[1..] == more;
      }
    }
  }

  /** Refinement: every run on bytes, with clean calls and handlers, is the run of the message
    * protocol whose deliveries are the bytes that complete a message. The two end with the same
    * tables and objects, no exception has ended a read loop, and the bytes on their way are the text
    * of the messages in flight, less the part of the first that the reader holds. */
  lemma BytesRefineMessages<S(!new)>(sv: Two<Service<S>>, st0: Two<S>, acts: seq<Action>, i: Side)
    requires CleanService(sv.left) && CleanService(sv.right)
    requires Allowed(sv, Init(st0), acts) && forall a :: a in acts ==> CleanAction(a)
    ensures var e, msgs := Exec(sv, Init(st0), acts).At(i), Messages(sv, Init(st0), acts);
            && RpcProtocol.Allowed(sv, RpcProtocol.Init(st0), msgs)
            && var sys := RpcProtocol.Exec(sv, RpcProtocol.Init(st0), msgs);
            && e.peer == sys.peers.At(i) && !e.down
            && e.scan.buf + e.incoming == Stream(sys.chans.At(i)) && e.scan == Run(Start, e.scan.buf)
  {
    var msgs := Messages(sv, Init(st0), acts);
    hide CleanService, CleanAction, Exec, RpcProtocol.Exec, Messages, Run, CleanCalls;
    InitSimulates(sv, st0);
    SimulateAll(sv, st0, Init(st0), RpcProtocol.Init(st0), acts);
    var sys := RpcProtocol.Exec(sv, RpcProtocol.Init(st0), msgs);
    OpenSimulation(sv, st0, Exec(sv, Init(st0), acts), sys, i);
  }

  lemma InitSimulates<S(!new)>(sv: Two<Service<S>>, st0: Two<S>)
    ensures Simulates(sv, st0, Init(st0), RpcProtocol.Init(st0))
  {
    hide Inv, EndOk;
    ReachableInv(sv, st0, []);
    FreshOk(st0.left);
    FreshOk(st0.right);
  }

  lemma FreshOk<S>(st: S)
    ensures EndOk(End(Fresh(st), Start, "", false), Fresh(st), [])
  {
    assert AllSendable([]) && Stream([]) == "";
    hide Carries, Stream;
    NothingHeld("", []);
  }

  /** So what a caller can rely on holds byte by byte: a completed call ended as it would have on the
    * other side's own objects, had all calls up to it been made on them directly. */
  lemma CompletedCallsAreLocal<S(!new)>(sv: Two<Service<S>>, st0: Two<S>, acts: seq<Action>, i: Side, id: int)
    requires CleanService(sv.left) && CleanService(sv.right)
    requires Allowed(sv, Init(st0), acts) && forall a :: a in acts ==> CleanAction(a)
    requires id in Exec(sv, Init(st0), acts).At(i).peer.completed
    ensures var p, s, st := Exec(sv, Init(st0), acts).At(i).peer, sv.At(i.Other()), st0.At(i.Other());
            && 1 <= id <= |p.calls| && p.completed[id].Obj?
            && OutcomeOf(p.completed[id]) == LocalOutcome(s, StateAfter(s, st, p.calls[..id - 1]), p.calls[id - 1])
  {
    hide *;
    BytesRefineMessages(sv, st0, acts, i);
    RpcProtocol.CompletedCallsAreLocal(sv, st0, Messages(sv, Init(st0), acts), i, id);
  }

  // ----- and every run of messages is one of bytes

  /** Both read loops are between messages. */
  predicate Idle<S>(ends: Two<End<S>>) {
    ends.left.scan == Start && ends.right.scan == Start
  }

  function Bytes(i: Side, n: nat): seq<Action>
    decreases n
  {
    if n == 0 then [] else [Deliver(i)] + Bytes(i, n - 1)
  }

  /** A run of messages spelled out: each delivery is as many bytes as the message's text has. */
  function Spell<S>(sv: Two<Service<S>>, sys: System<S>, acts: seq<Action>): seq<Action>
    requires RpcProtocol.Allowed(sv, sys, acts)
    decreases |acts|
  {
    if acts == [] then []
    else
      (match acts[0]
       case Deliver(i) => Bytes(i, |CompactText(sys.chans.At(i)[0])|)
       case _ => [acts[0]])
      + Spell(sv, RpcProtocol.Next(sv, sys, acts[0]), acts[1..])
  }

  lemma {:induction false} ExecAppend<S>(sv: Two<Service<S>>, ends: Two<End<S>>, a: seq<Action>, b: seq<Action>)
    requires Allowed(sv, ends, a) && Allowed(sv, Exec(sv, ends, a), b)
    ensures Allowed(sv, ends, a + b) && Exec(sv, ends, a + b) == Exec(sv, Exec(sv, ends, a), b)
    ensures Messages(sv, ends, a + b) == Messages(sv, ends, a) + Messages(sv, Exec(sv, ends, a), b)
    decreases |a|
  {
    hide Next, Enabled, Completes;
    if a == [] {
      assert a + b == b;
    } else {
      assert (a + b)[0] == a[0] && (a + b)[1..] == a[1..] + b;
      ExecAppend(sv, Next(sv, ends, a[0]), a[1..], b);
    }
  }

  lemma ByteLeft<S>(e: End<S>, p: Peer<S>, ch: seq<Value>)
    requires EndOk(e, p, ch) && ch != []
    ensures !e.down && e.incoming != "" && |e.scan.buf| < |CompactText(ch[0])|
    ensures var scan := Step(e.scan, e.incoming[0]);
            && (scan.frames == [] <==> |e.scan.buf| + 1 < |CompactText(ch[0])|)
            && (scan.frames == [] ==> |scan.buf| == |e.scan.buf| + 1)
  {
    var f := CompactText(ch[0]);
    assert e.scan.buf + e.incoming == f + Stream(ch[1..]);
    hide Sendable, Step, CompactText, Read, AllSendable, Run, Stream;
    assert |e.scan.buf| + |e.incoming| == |f| + |Stream(ch[1..])|;
    HearFirst(e.scan, e.incoming, ch);
    if |e.scan.buf| + 1 < |f| {
      SameLength(e.scan, e.incoming, ch);
      SameLength(Step(e.scan, e.incoming[0]), e.incoming[1..], ch);
    }
  }

  lemma SameLength(scan: Scan, incoming: string, ch: seq<Value>)
    requires Carries(scan, incoming, ch)
    ensures |scan.buf| + |incoming| == |Stream(ch)|
  {
    hide Stream, Run, AllSendable;
  }

  lemma HearEnds<S>(sv: Two<Service<S>>, ends: Two<End<S>>, i: Side)
    requires Enabled(ends, Deliver(i))
    ensures var ends' := Next(sv, ends, Deliver(i));
            ends'.At(i) == HearByte(sv.At(i), ends.At(i)).end && ends'.At(i.Other()).scan == ends.At(i.Other()).scan
  {
    hide HearByte;
  }

  /** One byte of the first message on its way: it is done, or one byte less of it is left. */
  lemma HearOne<S(!new)>(sv: Two<Service<S>>, st0: Two<S>, ends: Two<End<S>>, sys: System<S>, i: Side, n: int)
    requires Simulates(sv, st0, ends, sys) && CleanService(sv.left) && CleanService(sv.right)
    requires sys.chans.At(i) != [] && n == |CompactText(sys.chans.At(i)[0])| - |ends.At(i).scan.buf|
    ensures n > 0 && Enabled(ends, Deliver(i)) && RpcProtocol.Enabled(sys, Deliver(i))
    ensures var ends' := Next(sv, ends, Deliver(i));
            && ends'.At(i.Other()).scan == ends.At(i.Other()).scan
            && if n == 1 then
                 && Completes(ends, Deliver(i)) == [Deliver(i)] && ends'.At(i).scan == Start
                 && Simulates(sv, st0, ends', RpcProtocol.Next(sv, sys, Deliver(i)))
               else
                 && Completes(ends, Deliver(i)) == [] && Simulates(sv, st0, ends', sys)
                 && n - 1 == |CompactText(sys.chans.At(i)[0])| - |ends'.At(i).scan.buf|
  {
    var e, p, ch := ends.At(i), sys.peers.At(i), sys.chans.At(i);
    hide Simulates, Inv, CleanService, EndOk, Step, HearByte, CompactText, Next, RpcProtocol.Next;
    OpenSimulation(sv, st0, ends, sys, i);
    ByteLeft(e, p, ch);
    SimulateByte(sv, st0, ends, sys, i);
    EndHears(sv.At(i), e, p, ch);
    HearEnds(sv, ends, i);
  }

  lemma {:induction false} HearRest<S(!new)>(sv: Two<Service<S>>, st0: Two<S>, ends: Two<End<S>>, sys: System<S>,
                                             i: Side, n: nat)
    requires Simulates(sv, st0, ends, sys) && CleanService(sv.left) && CleanService(sv.right)
    requires sys.chans.At(i) != [] && n == |CompactText(sys.chans.At(i)[0])| - |ends.At(i).scan.buf|
    ensures Allowed(sv, ends, Bytes(i, n)) && Messages(sv, ends, Bytes(i, n)) == [Deliver(i)]
    ensures RpcProtocol.Enabled(sys, Deliver(i))
    ensures var ends' := Exec(sv, ends, Bytes(i, n));
            && Simulates(sv, st0, ends', RpcProtocol.Next(sv, sys, Deliver(i)))
            && ends'.At(i).scan == Start && ends'.At(i.Other()).scan == ends.At(i.Other()).scan
    decreases n
  {
    hide Simulates, CleanService, CompactText, Next, RpcProtocol.Next, Completes, Enabled;
    HearOne(sv, st0, ends, sys, i, n);
    assert Bytes(i, n)[0] == Deliver(i) && Bytes(i, n)[1..] == Bytes(i, n - 1);
    if n > 1 {
      HearRest(sv, st0, Next(sv, ends, Deliver(i)), sys, i, n - 1);
    }
  }

  /** Any other action is one action on bytes, and leaves the read loops alone. */
  lemma SameAction<S(!new)>(sv: Two<Service<S>>, st0: Two<S>, ends: Two<End<S>>, sys: System<S>, a: Action)
    requires Simulates(sv, st0, ends, sys) && CleanService(sv.left) && CleanService(sv.right)
    requires RpcProtocol.Enabled(sys, a) && CleanAction(a) && !a.Deliver?
    ensures Allowed(sv, ends, [a]) && Messages(sv, ends, [a]) == [a]
    ensures var ends' := Exec(sv, ends, [a]);
            && Simulates(sv, st0, ends', RpcProtocol.Next(sv, sys, a))
            && ends'.At(a.side).scan == ends.At(a.side).scan
            && ends'.At(a.side.Other()).scan == ends.At(a.side.Other()).scan
  {
    OpenSimulation(sv, st0, ends, sys, a.side);
    PeersAgree(ends.At(a.side), sys.peers.At(a.side), sys.chans.At(a.side));
    assert [a][1..] == [] && Enabled(ends, a);
    hide Simulates, Inv, EndOk, CleanService, CleanCall, RpcProtocol.Next, Invoked, Expired, CompactText, RequestMsg;
    SimulateNext(sv, st0, ends, sys, a);
    assert Messages(sv, ends, [a]) == [a] + [];
  }

  /** Between messages on both sides, the rest of a run of messages can be spelled out. */
  lemma {:induction false} MessagesHaveBytes<S(!new)>(sv: Two<Service<S>>, st0: Two<S>, ends: Two<End<S>>,
                                                      sys: System<S>, acts: seq<Action>)
    requires CleanService(sv.left) && CleanService(sv.right) && forall a :: a in acts ==> CleanAction(a)
    requires Simulates(sv, st0, ends, sys) && Idle(ends) && RpcProtocol.Allowed(sv, sys, acts)
    ensures var bytes := Spell(sv, sys, acts);
            && Allowed(sv, ends, bytes) && Messages(sv, ends, bytes) == acts && Idle(Exec(sv, ends, bytes))
            && Simulates(sv, st0, Exec(sv, ends, bytes), RpcProtocol.Exec(sv, sys, acts))
    decreases |acts|
  {
    hide Simulates, CleanService, CleanAction, Next, RpcProtocol.Next, CompactText, Bytes;
    if acts != [] {
      var a, sys' := acts[0], RpcProtocol.Next(sv, sys, acts[0]);
      var first: seq<Action>;
      match a {
        case Deliver(i) =>
          first := Bytes(i, |CompactText(sys.chans.At(i)[0])|);
          HearRest(sv, st0, ends, sys, i, |CompactText(sys.chans.At(i)[0])|);
        case _ =>
          first := [a];
          SameAction(sv, st0, ends, sys, a);
      }
      var ends' := Exec(sv, ends, first);
      MessagesHaveBytes(sv, st0, ends', sys', acts[1..]);
      ExecAppend(sv, ends, first, Spell(sv, sys', acts[1..]));
      assert [a] + acts[1..] == acts;
    }
  }

  /** Completeness: every run of messages, with clean calls and handlers, is spelled out by a run on
    * bytes that makes the same deliveries, ends with the same tables and objects, and leaves on its
    * way exactly the text of the messages in flight. */
  lemma MessagesRefineBytes<S(!new)>(sv: Two<Service<S>>, st0: Two<S>, acts: seq<Action>, i: Side)
    requires CleanService(sv.left) && CleanService(sv.right) && forall a :: a in acts ==> CleanAction(a)
    requires RpcProtocol.Allowed(sv, RpcProtocol.Init(st0), acts)
    ensures var bytes := Spell(sv, RpcProtocol.Init(st0), acts);
            && Allowed(sv, Init(st0), bytes) && Messages(sv, Init(st0), bytes) == acts
            && var e, sys := Exec(sv, Init(st0), bytes).At(i), RpcProtocol.Exec(sv, RpcProtocol.Init(st0), acts);
            && e.peer == sys.peers.At(i) && !e.down && e.scan == Start && e.incoming == Stream(sys.chans.At(i))
  {
    var bytes, sys := Spell(sv, RpcProtocol.Init(st0), acts), RpcProtocol.Exec(sv, RpcProtocol.Init(st0), acts);
    assert Idle(Init(st0));
    hide *;
    InitSimulates(sv, st0);
    MessagesHaveBytes(sv, st0, Init(st0), RpcProtocol.Init(st0), acts);
    OpenSimulation(sv, st0, Exec(sv, Init(st0), bytes), sys, i);
    IdleHolds(Exec(sv, Init(st0), bytes), i);
    NothingInHand(Exec(sv, Init(st0), bytes).At(i), sys.peers.At(i), sys.chans.At(i));
  }

  lemma IdleHolds<S>(ends: Two<End<S>>, i: Side)
    requires Idle(ends)
    ensures ends.At(i).scan == Start
  {}

  lemma NothingInHand<S>(e: End<S>, p: Peer<S>, ch: seq<Value>)
    requires EndOk(e, p, ch) && e.scan == Start
    ensures e.peer == p && !e.down && e.incoming == Stream(ch)
  {
    assert e.scan.buf + e.incoming == e.incoming;
    hide Stream, CleanCalls, AllSendable, Run;
  }
}
