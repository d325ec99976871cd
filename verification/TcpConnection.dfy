/** The TCP connection class: messages written to a socket, and the loop that reads them. */
module TcpConnection {
  import opened JsonValue
  import opened JsonGrammar
  import opened JsonPrinter
  import opened Framer
  import opened JsonTcp
  import opened Rpc
  import RpcConnection

  lemma StreamStep(wire: string, vs: seq<Value>, i: nat)
    requires i < |vs|
    ensures wire + Stream(vs[i..]) == (wire + CompactText(vs[i])) + Stream(vs[i + 1..])
  {
    assert vs[i..][1..] == vs[i + 1..];
    hide CompactText;
  }

  // ----- frames handed over one by one

  lemma {:induction false} AcceptedNeverRaises<S>(sv: Service<S>, p: Peer<S>, vs: seq<Value>)
    requires AllAccepted(vs)
    ensures !ReceiveAll(sv, p, vs).raised
    decreases |vs|
  {
    hide Receive, Accepted;
    if vs != [] {
      RaisesIffRefused(sv, p, vs[0]);
      AcceptedNeverRaises(sv, Receive(sv, p, vs[0]).peer, vs[1..]);
    }
  }

  lemma {:induction false} DeliveredAccepted(frames: seq<string>)
    ensures !Deliver(frames).threw ==> AllAccepted(Deliver(frames).values)
  {
    hide Read, Accepted;
    if frames != [] {
      DeliveredAccepted(frames[1..]);
      var d := Deliver(frames);
      assert !d.threw ==> d.values[1..] == Deliver(frames[1..]).values;
    }
  }

  /** One more value handed over, whether it is refused or not. */
  lemma HandOver<S>(sv: Service<S>, p: Peer<S>, frames: seq<string>, v: Value)
    requires !Deliver(frames).threw
    ensures var before := ReceiveAll(sv, p, Deliver(frames).values);
            var r := Receive(sv, before.peer, v);
            && (r.raised <==> !Accepted(v))
            && ReceiveAll(sv, p, Deliver(frames).values + [v]) == Received(r.peer, before.sent + r.sent, r.raised)
  {
    hide *;
    DeliveredAccepted(frames);
    AcceptedNeverRaises(sv, p, Deliver(frames).values);
    ReceiveAllAppend(sv, p, Deliver(frames).values, v);
    RaisesIffRefused(sv, ReceiveAll(sv, p, Deliver(frames).values).peer, v);
  }

  /** The same, for what has been sent and written since the peer was p. */
  lemma HandOverSends<S>(sv: Service<S>, p: Peer<S>, frames: seq<string>, v: Value, r: Received<S>,
                         sent0: seq<Value>, wire0: string, sent: seq<Value>, wire: string)
    requires !Deliver(frames).threw
    requires var before := ReceiveAll(sv, p, Deliver(frames).values);
             r == Receive(sv, before.peer, v) && sent == sent0 + before.sent && wire == wire0 + Stream(before.sent)
    ensures r.raised <==> !Accepted(v)
    ensures var after := ReceiveAll(sv, p, Deliver(frames).values + [v]);
            && r.peer == after.peer && sent + r.sent == sent0 + after.sent
            && wire + Stream(r.sent) == wire0 + Stream(after.sent)
  {
    hide *;
    HandOver(sv, p, frames, v);
    var before := ReceiveAll(sv, p, Deliver(frames).values);
    StreamAppend(before.sent, r.sent);
    assert sent0 + before.sent + r.sent == sent0 + (before.sent + r.sent);
    assert wire0 + Stream(before.sent) + Stream(r.sent) == wire0 + (Stream(before.sent) + Stream(r.sent));
  }

  class Connection<S> {
    const base: RpcConnection.Connection<S>  // the tables of the base class
    var connected: bool
    var wire: string                         // bytes written to the socket
    var disconnects: nat                     // emissions of the disconnected signal

    ghost predicate Valid()
      reads base, base.promises.Values
    {
      base.Valid()
    }

    ghost function Serves(): Service<S>
      reads base
    {
      RpcConnection.ServiceOf(base.methods)
    }

    constructor (state: S)
      ensures Valid() && fresh(base) && base.View() == Fresh(state) && base.methods == map[]
      ensures !connected && wire == "" && disconnects == 0
    {
      base := new RpcConnection.Connection(state);
      connected, wire, disconnects := false, "", 0;
    }

    method Send(v: Value)
      modifies this`wire
      ensures wire == old(wire) + CompactText(v)
    {
      var ss := new Ostream();
      Write(ss, v, false);
      assert ss.text == CompactText(v);
      wire := wire + ss.text;
    }

    method SendAll(vs: seq<Value>)
      modifies this`wire
      ensures wire == old(wire) + Stream(vs)
    {
      assert vs[0..] == vs && vs[|vs|..] == [] && Stream([]) == "";
      hide *;
      for i := 0 to |vs|
        invariant wire + Stream(vs[i..]) == old(wire) + Stream(vs)
      {
        StreamStep(wire, vs, i);
        Send(vs[i]);
      }
    }

    /** The base class's `on_receive`, whose `send` writes to this socket. */
    method OnReceive(v: Value) returns (raised: bool)
      requires Valid()
      modifies this`wire, base, base.promises.Values
      ensures Valid() && base.methods == old(base.methods) && base.promises == old(base.promises)
      ensures var r := Receive(Serves(), old(base.View()), v);
              && base.View() == r.peer && raised == r.raised
              && base.sent == old(base.sent) + r.sent && wire == old(wire) + Stream(r.sent)
    {
      var n := |base.sent|;
      raised := base.OnReceive(v);
      hide Receive;
      SendAll(base.sent[n..]);
    }

    /** The values vs have been handed to `on_receive`, starting from p, and the replies sent. */
    ghost predicate Handled(sv: Service<S>, p: Peer<S>, vs: seq<Value>, sent0: seq<Value>, wire0: string)
      reads this`wire, base
    {
      var r := ReceiveAll(sv, p, vs);
      base.View() == r.peer && base.sent == sent0 + r.sent && wire == wire0 + Stream(r.sent)
    }

    lemma NothingHandled()
      ensures !Deliver([]).threw && Handled(Serves(), base.View(), Deliver([]).values, base.sent, wire)
      ensures Run(Start, "") == Scan(Pos(0, false), false, "", [])
    {
      assert ReceiveAll(Serves(), base.View(), []) == Received(base.View(), [], false);
      assert base.sent + [] == base.sent && wire + "" == wire;
    }

    method HandleValue(v: Value, ghost frames: seq<string>, ghost p: Peer<S>, ghost sent0: seq<Value>,
                       ghost wire0: string) returns (raised: bool)
      requires Valid() && !Deliver(frames).threw
      requires Handled(Serves(), p, Deliver(frames).values, sent0, wire0)
      modifies this`wire, base, base.promises.Values
      ensures Valid() && base.methods == old(base.methods) && base.promises == old(base.promises)
      ensures raised == !Accepted(v)
      ensures Handled(Serves(), p, Deliver(frames).values + [v], sent0, wire0)
    {
      ghost var sv, view, sent1, wire1 := Serves(), base.View(), base.sent, wire;
      hide Deliver, Receive, ReceiveAll, Accepted, Stream, Valid, RpcConnection.ServiceOf;
      hide RpcConnection.Connection.View;
      HandOverSends(sv, p, frames, v, Receive(sv, view, v), sent0, wire0, sent1, wire1);
      raised := OnReceive(v);
    }

    /** One frame: read it and hand it over. */
    method HandleFrame(buf: string, ghost frames: seq<string>, ghost p: Peer<S>, ghost sent0: seq<Value>,
                       ghost wire0: string) returns (threw: bool)
      requires Valid() && !Deliver(frames).threw
      requires Handled(Serves(), p, Deliver(frames).values, sent0, wire0)
      modifies this`wire, base, base.promises.Values
      ensures Valid() && base.methods == old(base.methods) && base.promises == old(base.promises)
      ensures threw == Deliver(frames + [buf]).threw
      ensures Handled(Serves(), p, Deliver(frames + [buf]).values, sent0, wire0)
    {
      hide Read, Deliver, Handled, Accepted, Valid;
      OneFrame(buf);
      DeliverAppend(frames, [buf]);
      var parsed := Read(buf);
      if parsed.Fail? {
        assert Deliver(frames).values + [] == Deliver(frames).values;
        threw := true;
      } else {
        threw := HandleValue(parsed.value, frames, p, sent0, wire0);
      }
    }

    /** Reads the socket to its end. A frame that cannot be read, or a value that `on_receive`
      * refuses, raises an exception out of the loop: nothing after it is read, the connection still
      * counts as connected, and no disconnect is signalled. */
    method ReadLoop(input: string) returns (threw: bool)
      requires Valid()
      modifies this, base, base.promises.Values
      ensures Valid() && base.methods == old(base.methods)
      ensures var d := Deliver(Run(Start, input).frames);
              threw == d.threw && Handled(Serves(), old(base.View()), d.values, old(base.sent), old(wire))
      ensures connected == threw
      ensures disconnects == old(disconnects) + (if threw then 0 else 1)
    {
      hide *;
      connected := true;
      NothingHandled();
      var buf, depth, quote, found := "", 0, 0, false;
      ghost var p, sent0, wire0 := base.View(), base.sent, wire;
      ghost var frames: seq<string> := [];
      assert input[..0] == "" && input[..|input|] == input;
      for i := 0 to |input|
        invariant quote == 0 || quote == 1
        invariant connected && disconnects == old(disconnects)
        invariant Valid() && base.methods == old(base.methods) && base.promises == old(base.promises)
        invariant Scan(Pos(depth, quote == 1), found, buf, frames) == Run(Start, input[..i])
        invariant !Deliver(frames).threw && Handled(Serves(), p, Deliver(frames).values, sent0, wire0)
      {
        var c := input[i];
        OneMoreChar(input, i);
        ScanStep(depth, quote, found, buf, frames, c);
        if quote == 0 {
          if c == '{' || c == '[' {
            depth := depth + 1;
          } else if c == '}' || c == ']' {
            depth := depth - 1;
          } else if c == '"' {
            quote := 1;
          }
          if depth > 0 {
            found := true;
          }
        } else if c == '"' {
          quote := 0;
        }
        if found {
          buf := buf + [c];
        }
        if found && depth == 0 {
          found := false;
          threw := HandleFrame(buf, frames, p, sent0, wire0);
          if threw {
            LastFrame(input, i + 1, frames + [buf]);
            return;
          }
          frames := frames + [buf];
          buf := "";
        }
      }
      connected := false;
      disconnects := disconnects + 1;
      threw := false;
    }
  }

  /** One side sends clean values and the other reads the socket. The reader handles the objects
    * and arrays in order up to the first refused one; it gets through them all, and only then
    * disconnects in good order, exactly when none is refused. */
  method Transport<S>(a: Connection<S>, b: Connection<S>, vs: seq<Value>) returns (threw: bool)
    requires a != b && a.wire == "" && AllClean(vs) && b.Valid()
    modifies a`wire, b, b.base, b.base.promises.Values
    ensures b.Valid() && b.base.methods == old(b.base.methods)
    ensures b.Handled(b.Serves(), old(b.base.View()), UpToRefused(Containers(vs)), old(b.base.sent), old(b.wire))
    ensures !threw <==> AllAccepted(Containers(vs))
    ensures b.connected == threw && b.disconnects == old(b.disconnects) + (if threw then 0 else 1)
  {
    a.SendAll(vs);
    assert "" + Stream(vs) == Stream(vs);
    hide *;
    EndToEnd(vs);
    threw := b.ReadLoop(a.wire);
  }
}
