/** Calls and replies of a JSON-RPC connection, as messages. */
module Rpc {
  import opened JsonValue
  import opened JsonObject

  datatype Call = Call(name: string, params: Value)

  /** How a registered handler ends: with a result, or with an exception raised after leaving
    * something in the result slot. */
  datatype Ended = Returned(value: Value) | Raised(partial: Value, what: string)

  datatype Ran<+S> = Ran(state: S, ended: Ended)

  /** The objects behind a connection's method table: known names, and how a handler acts on them. */
  datatype Service<!S> = Service(methods: set<string>, run: (S, string, Value) -> Ran<S>)

  // ----- messages

  function IdValue(id: int): Value {
    Num(id as real)
  }

  /** The message object kept by `rpc_send_functor`, before its first use. */
  function Template(name: string): seq<KeyVal> {
    [KeyVal("id", IdValue(0)), KeyVal("method", Str(name)), KeyVal("params", Arr([]))]
  }

  function RequestMsg(id: int, call: Call): Value {
    Obj([KeyVal("id", IdValue(id)), KeyVal("method", Str(call.name)), KeyVal("params", call.params)])
  }

  /** `pack` of an `error_object` with code 0 and a message. */
  function ErrorValue(what: string): Value {
    Obj([KeyVal("code", IdValue(0)), KeyVal("message", Str(what))])
  }

  function Reply(id: Value, known: bool, name: string, ended: Ended): Value {
    Obj([KeyVal("id", id)]
        + (if !known then [KeyVal("error", ErrorValue("Unknown method '" + name + "'"))]
           else match ended
             case Returned(v) => [KeyVal("result", v)]
             case Raised(partial, what) => [KeyVal("result", partial), KeyVal("error", ErrorValue(what))]))
  }

  /** One request dispatched: the service's new state and the reply. */
  datatype Served<+S> = Served(state: S, reply: Value)

  function Dispatch<S>(sv: Service<S>, st: S, id: Value, call: Call): Served<S> {
    if call.name in sv.methods then
      var ran := sv.run(st, call.name, call.params);
      Served(ran.state, Reply(id, true, call.name, ran.ended))
    else Served(st, Reply(id, false, call.name, Returned(Null)))
  }

  // ----- what a caller gets

  datatype Outcome = Success(value: Value) | Failure(what: Value)

  /** `rpc_send_functor::operator()` on the returned message: an error wins over a result. */
  function OutcomeOf(reply: Value): Outcome
    requires reply.Obj?
  {
    if HasKey(reply.keys, "error") then Failure(Lookup(reply.keys, "error"))
    else if HasKey(reply.keys, "result") then Success(Lookup(reply.keys, "result"))
    else Failure(ErrorValue("invalid json RPC message, missing result or error"))
  }

  /** What calling the object directly would have given. */
  function LocalOutcome<S>(sv: Service<S>, st: S, call: Call): Outcome {
    if call.name !in sv.methods then Failure(ErrorValue("Unknown method '" + call.name + "'"))
    else match sv.run(st, call.name, call.params).ended
      case Returned(v) => Success(v)
      case Raised(_, what) => Failure(ErrorValue(what))
  }

  /** A call through the wire ends as the same call on the object: with its result, or with an
    * error exactly when the method is unknown or the handler failed. */
  lemma ReplyCarriesOutcome<S>(sv: Service<S>, st: S, id: Value, call: Call)
    ensures var served := Dispatch(sv, st, id, call);
            && served.reply.Obj? && !HasKey(served.reply.keys, "method")
            && HasKey(served.reply.keys, "id") && Lookup(served.reply.keys, "id") == id
            && OutcomeOf(served.reply) == LocalOutcome(sv, st, call)
            && (OutcomeOf(served.reply).Failure? <==>
                call.name !in sv.methods || sv.run(st, call.name, call.params).ended.Raised?)
  {
    ReplyKeys(id, call.name in sv.methods, call.name,
              if call.name in sv.methods then sv.run(st, call.name, call.params).ended else Returned(Null));
  }

  lemma ReplyKeys(id: Value, known: bool, name: string, ended: Ended)
    ensures var keys := Reply(id, known, name, ended).keys;
            && HasKey(keys, "id") && Lookup(keys, "id") == id && !HasKey(keys, "method")
            && (HasKey(keys, "error") <==> !known || ended.Raised?)
            && (HasKey(keys, "result") <==> known)
            && (!known ==> Lookup(keys, "error") == ErrorValue("Unknown method '" + name + "'"))
            && (known && ended.Raised? ==> Lookup(keys, "error") == ErrorValue(ended.what))
            && (known && ended.Returned? ==> Lookup(keys, "result") == ended.value)
  {
    var keys := Reply(id, known, name, ended).keys;
    LookupAt(keys, 0, "id");
    NoKey(keys, "method");
    if !known {
      LookupAt(keys, 1, "error");
      NoKey(keys, "result");
    } else {
      LookupAt(keys, 1, "result");
      if ended.Raised? {
        LookupAt(keys, 2, "error");
      } else {
        NoKey(keys, "error");
      }
    }
  }

  /** An error as a caller sees it: code 0, and a text. */
  predicate Says(e: Value, text: string) {
    && e.Obj? && HasKey(e.keys, "code") && Lookup(e.keys, "code") == Num(0.0)
    && HasKey(e.keys, "message") && Lookup(e.keys, "message") == Str(text)
  }

  lemma ErrorSays(what: string)
    ensures Says(ErrorValue(what), what)
  {
    LookupAt(ErrorValue(what).keys, 0, "code");
    LookupAt(ErrorValue(what).keys, 1, "message");
  }

  lemma OneText(e: Value, s: string, t: string)
    requires Says(e, s) && Says(e, t)
    ensures s == t
  {}

  /** What a reply holds: a result alone, what a failed handler had left and an error with its text, or
    * an error alone that names the unknown method. Only a handler changes the objects. */
  lemma ReplyHolds<S>(sv: Service<S>, st: S, id: Value, call: Call)
    ensures Dispatch(sv, st, id, call).state ==
            if call.name in sv.methods then sv.run(st, call.name, call.params).state else st
    ensures var reply := Dispatch(sv, st, id, call).reply;
            && reply.Obj? && HasKey(reply.keys, "id") && Lookup(reply.keys, "id") == id && !HasKey(reply.keys, "method")
            && if call.name !in sv.methods then
                 && !HasKey(reply.keys, "result") && HasKey(reply.keys, "error")
                 && Says(Lookup(reply.keys, "error"), "Unknown method '" + call.name + "'")
               else
                 var ended := sv.run(st, call.name, call.params).ended;
                 && HasKey(reply.keys, "result") && (HasKey(reply.keys, "error") <==> ended.Raised?)
                 && Lookup(reply.keys, "result") == (if ended.Raised? then ended.partial else ended.value)
                 && (ended.Raised? ==> Says(Lookup(reply.keys, "error"), ended.what))
  {
    var known := call.name in sv.methods;
    var ended := if known then sv.run(st, call.name, call.params).ended else Returned(Null);
    ReplyKeys(id, known, call.name, ended);
    assert known ==> Lookup(Reply(id, known, call.name, ended).keys, "result")
                     == (if ended.Raised? then ended.partial else ended.value) by {
      if known {
        LookupAt(Reply(id, known, call.name, ended).keys, 1, "result");
      }
    }
    ErrorSays("Unknown method '" + call.name + "'");
    if ended.Raised? {
      ErrorSays(ended.what);
    }
    hide Reply, ErrorValue, Says;
  }

  /** How a call ends: with its result, or with the text of what went wrong. */
  ghost predicate EndsAs<S>(sv: Service<S>, st: S, call: Call, outcome: Outcome) {
    if call.name !in sv.methods then
      outcome.Failure? && Says(outcome.what, "Unknown method '" + call.name + "'")
    else
      match sv.run(st, call.name, call.params).ended
      case Returned(v) => outcome == Success(v)
      case Raised(_, what) => outcome.Failure? && Says(outcome.what, what)
  }

  /** The caller gets the handler's result, or an error with the text of what went wrong. */
  lemma OutcomeSays<S>(sv: Service<S>, st: S, id: Value, call: Call)
    ensures var reply := Dispatch(sv, st, id, call).reply;
            && reply.Obj?
            && EndsAs(sv, st, call, OutcomeOf(reply))
  {
    ReplyHolds(sv, st, id, call);
    hide Dispatch, Says;
  }

  lemma LocalOutcomeSays<S>(sv: Service<S>, st: S, call: Call)
    ensures EndsAs(sv, st, call, LocalOutcome(sv, st, call))
  {
    ReplyCarriesOutcome(sv, st, Null, call);
    OutcomeSays(sv, st, Null, call);
    hide Dispatch, OutcomeOf, LocalOutcome, Says;
  }

  /** Calls that fail with different texts end differently. */
  lemma DifferentTexts<S>(sv: Service<S>, st: S, id: Value, call: Call,
                          sv': Service<S>, st': S, id': Value, call': Call)
    requires call.name in sv.methods && sv.run(st, call.name, call.params).ended.Raised?
    requires call'.name in sv'.methods && sv'.run(st', call'.name, call'.params).ended.Raised?
    requires sv.run(st, call.name, call.params).ended.what != sv'.run(st', call'.name, call'.params).ended.what
    ensures var reply, reply' := Dispatch(sv, st, id, call).reply, Dispatch(sv', st', id', call').reply;
            reply.Obj? && reply'.Obj? && OutcomeOf(reply) != OutcomeOf(reply')
  {
    OutcomeSays(sv, st, id, call);
    OutcomeSays(sv', st', id', call');
    var reply, reply' := Dispatch(sv, st, id, call).reply, Dispatch(sv', st', id', call').reply;
    hide Dispatch, OutcomeOf, Says;
    if OutcomeOf(reply) == OutcomeOf(reply') {
      OneText(OutcomeOf(reply).what, sv.run(st, call.name, call.params).ended.what,
              sv'.run(st', call'.name, call'.params).ended.what);
    }
  }

  /** A response with neither a result nor an error is a failure that says so; an error wins over a
    * result. */
  lemma OutcomeOfResponse(reply: Value)
    requires reply.Obj?
    ensures HasKey(reply.keys, "error") ==> OutcomeOf(reply) == Failure(Lookup(reply.keys, "error"))
    ensures !HasKey(reply.keys, "error") && HasKey(reply.keys, "result") ==>
              OutcomeOf(reply) == Success(Lookup(reply.keys, "result"))
    ensures !HasKey(reply.keys, "error") && !HasKey(reply.keys, "result") ==>
              && OutcomeOf(reply).Failure?
              && Says(OutcomeOf(reply).what, "invalid json RPC message, missing result or error")
  {
    ErrorSays("invalid json RPC message, missing result or error");
    hide ErrorValue, Says, Lookup, HasKey;
  }

  /** The functor's message, with params and then the id stored into it, is the request. */
  lemma TemplateBecomesRequest(id: int, old_id: int, call: Call, params: Value)
    ensures SetKey(SetKey(Template(call.name), "params", call.params), "id", IdValue(id)) == RequestMsg(id, call).keys
    ensures SetKey(SetKey(RequestMsg(old_id, call.(params := params)).keys, "params", call.params), "id", IdValue(id))
         == RequestMsg(id, call).keys
  {
    ThreeKeys(IdValue(0), Str(call.name), Arr([]), IdValue(id), call.params);
    ThreeKeys(IdValue(old_id), Str(call.name), params, IdValue(id), call.params);
  }

  lemma ThreeKeys(a: Value, b: Value, c: Value, id: Value, params: Value)
    ensures SetKey(SetKey([KeyVal("id", a), KeyVal("method", b), KeyVal("params", c)], "params", params), "id", id)
         == [KeyVal("id", id), KeyVal("method", b), KeyVal("params", params)]
  {
    var keys := [KeyVal("id", a), KeyVal("method", b), KeyVal("params", c)];
    LookupAt(keys, 2, "params");
    LookupAt(keys[2 := KeyVal("params", params)], 0, "id");
  }

  lemma RequestKeys(id: int, call: Call)
    ensures var keys := RequestMsg(id, call).keys;
            && HasKey(keys, "id") && Lookup(keys, "id") == IdValue(id) == Num(id as real)
            && HasKey(keys, "method") && Lookup(keys, "method") == Str(call.name)
            && HasKey(keys, "params") && Lookup(keys, "params") == call.params
  {
    var keys := RequestMsg(id, call).keys;
    LookupAt(keys, 0, "id");
    LookupAt(keys, 1, "method");
    LookupAt(keys, 2, "params");
  }

  // ----- one peer

  /** A connection's own tables, and what has become of its calls. */
  datatype Peer<S> = Peer(
    nextId: int,
    pending: set<int>,            // keys of pending_req
    waiting: set<int>,            // calls blocked on a promise that is not set
    completed: map<int, Value>,   // promises set, with the message they were set to
    timedOut: set<int>,
    inbox: seq<Value>,            // responses received so far
    calls: seq<Call>,             // calls made so far
    state: S)                     // the objects its handlers act on

  function Fresh<S>(st: S): Peer<S> {
    Peer(0, {}, {}, map[], {}, [], [], st)
  }

  /** `invoke`, up to the wait. */
  function Invoked<S>(p: Peer<S>, call: Call): Peer<S> {
    var id := p.nextId + 1;
    p.(nextId := id, pending := p.pending + {id}, waiting := p.waiting + {id}, calls := p.calls + [call])
  }

  /** The wait runs out: `pending_req.erase(pending_req.find(id))`, and the exception goes on. */
  function Expired<S>(p: Peer<S>, id: int): Peer<S> {
    p.(pending := p.pending - {id}, waiting := p.waiting - {id}, timedOut := p.timedOut + {id})
  }

  /** What `on_receive` does with a message: new tables, what it sends, and whether it raises. */
  datatype Received<S> = Received(peer: Peer<S>, sent: seq<Value>, raised: bool)

  /** `std::string name = v["method"]`. */
  function NameText(v: Value): string {
    match v
    case Str(s) => s
    case Bool(b) => if b then "1" else "0"
    case _ => ""
  }

  function OnRequest<S>(sv: Service<S>, p: Peer<S>, keys: seq<KeyVal>): Received<S>
    requires HasKey(keys, "method")
  {
    var name := NameText(Lookup(keys, "method"));
    if !HasKey(keys, "id") then Received(p, [], true)
    else
      var id := Lookup(keys, "id");
      if name in sv.methods && !HasKey(keys, "params") then
        Received(p, [Reply(id, true, name, Raised(Null, "unknown key 'params'"))], false)
      else
        var params := if HasKey(keys, "params") then Lookup(keys, "params") else Null;
        var served := Dispatch(sv, p.state, id, Call(name, params));
        Received(p.(state := served.state), [served.reply], false)
  }

  function OnResponse<S>(p: Peer<S>, v: Value): Received<S>
    requires v.Obj?
  {
    if !HasKey(v.keys, "id") then Received(p, [], false)
    else if !Lookup(v.keys, "id").Num? then Received(p, [], true)
    else
      var id := Truncate(Lookup(v.keys, "id").n);
      var q := p.(inbox := p.inbox + [v]);
      if id in p.pending
      then Received(q.(pending := p.pending - {id}, waiting := p.waiting - {id}, completed := p.completed[id := v]),
                    [], false)
      else Received(q, [], false)
  }

  /** `on_receive`. A value that is not an object makes `contains` raise. */
  function Receive<S>(sv: Service<S>, p: Peer<S>, v: Value): Received<S> {
    if !v.Obj? then Received(p, [], true)
    else if HasKey(v.keys, "method") then OnRequest(sv, p, v.keys)
    else OnResponse(p, v)
  }

  /** The messages `on_receive` takes: an object that, if it names a method, has an id, and if it
    * does not, has a number for an id or none. */
  predicate Accepted(v: Value) {
    && v.Obj?
    && if HasKey(v.keys, "method") then HasKey(v.keys, "id")
       else HasKey(v.keys, "id") ==> Lookup(v.keys, "id").Num?
  }

  /** Whatever the tables hold, `on_receive` raises on exactly the other messages, and then changes
    * and sends nothing. */
  lemma RaisesIffRefused<S>(sv: Service<S>, p: Peer<S>, v: Value)
    ensures var r := Receive(sv, p, v);
            (r.raised <==> !Accepted(v)) && (r.raised ==> r == Received(p, [], true))
  {
    hide Dispatch, Reply, NameText, Truncate;
  }

  /** A message after another, as long as none is refused. */
  function ReceiveAll<S>(sv: Service<S>, p: Peer<S>, vs: seq<Value>): Received<S>
    decreases |vs|
  {
    if vs == [] then Received(p, [], false)
    else
      var r := Receive(sv, p, vs[0]);
      if r.raised then r
      else
        var more := ReceiveAll(sv, r.peer, vs[1..]);
        Received(more.peer, r.sent + more.sent, more.raised)
  }

  lemma {:induction false} ReceiveAllAppend<S>(sv: Service<S>, p: Peer<S>, vs: seq<Value>, v: Value)
    requires !ReceiveAll(sv, p, vs).raised
    ensures var r := ReceiveAll(sv, p, vs);
            var last := Receive(sv, r.peer, v);
            ReceiveAll(sv, p, vs + [v]) == Received(last.peer, r.sent + last.sent, last.raised)
    decreases |vs|
  {
    hide Receive;
    if vs == [] {
      assert [] + [v] == [v] && [v][1..] == [];
      RaisesIffRefused(sv, p, v);
      var last := Receive(sv, p, v);
      assert last.sent + [] == last.sent && [] + last.sent == last.sent;
    } else {
      assert (vs + [v])[1..] == vs[1..] + [v];
      ReceiveAllAppend(sv, Receive(sv, p, vs[0]).peer, vs[1..], v);
    }
  }

  // ----- what each kind of message does

  /** A method's name: a string, or a flag printed as 1 or 0. */
  predicate NamedBy(m: Value, name: string) {
    m == Str(name) || (m == Bool(true) && name == "1") || (m == Bool(false) && name == "0")
  }

  /** A request for a known method runs it on the peer's objects and sends the reply to it; without
    * params the method does not run, and the reply says what is missing; a request for an unknown
    * method changes nothing. */
  lemma RequestAnswered<S>(sv: Service<S>, p: Peer<S>, v: Value, name: string)
    requires v.Obj? && HasKey(v.keys, "method") && HasKey(v.keys, "id") && NamedBy(Lookup(v.keys, "method"), name)
    ensures var r, id := Receive(sv, p, v), Lookup(v.keys, "id");
            && !r.raised && |r.sent| == 1
            && if name in sv.methods && HasKey(v.keys, "params") then
                 var served := Dispatch(sv, p.state, id, Call(name, Lookup(v.keys, "params")));
                 r.sent == [served.reply] && r.peer == p.(state := served.state)
               else
                 && r.peer == p && r.sent[0].Obj?
                 && HasKey(r.sent[0].keys, "id") && Lookup(r.sent[0].keys, "id") == id
                 && HasKey(r.sent[0].keys, "error")
                 && Says(Lookup(r.sent[0].keys, "error"),
                         if name in sv.methods then "unknown key 'params'" else "Unknown method '" + name + "'")
  {
    var id := Lookup(v.keys, "id");
    ErrorSays("unknown key 'params'");
    ErrorSays("Unknown method '" + name + "'");
    ReplyKeys(id, true, name, Raised(Null, "unknown key 'params'"));
    ReplyKeys(id, false, name, Returned(Null));
    assert Receive(sv, p, v) == OnRequest(sv, p, v.keys) && NameText(Lookup(v.keys, "method")) == name;
    hide Reply, ErrorValue, Says, Lookup, HasKey, Receive, NameText;
  }

  /** A response goes to the pending call whose number its id has for a whole part: that call is done,
    * with the response, and no longer pends. With another number it is only recorded, and without an id
    * it is ignored. Nothing is ever sent. */
  lemma ResponseTaken<S>(sv: Service<S>, p: Peer<S>, v: Value, id: int)
    requires v.Obj? && !HasKey(v.keys, "method")
    ensures !HasKey(v.keys, "id") ==> Receive(sv, p, v) == Received(p, [], false)
    ensures HasKey(v.keys, "id") && Lookup(v.keys, "id").Num? ==>
            var x := Lookup(v.keys, "id").n;
            (if x >= 0.0 then id as real <= x < id as real + 1.0 else id as real - 1.0 < x <= id as real) ==>
            var q := Receive(sv, p, v).peer;
            && !Receive(sv, p, v).raised && Receive(sv, p, v).sent == []
            && q.inbox == p.inbox + [v] && q.nextId == p.nextId && q.calls == p.calls && q.state == p.state
            && q.timedOut == p.timedOut
            && (if id in p.pending
                then
                   && q.pending == p.pending - {id} && q.waiting == p.waiting - {id}
                   && q.completed == p.completed[id := v]
                else q.pending == p.pending && q.waiting == p.waiting && q.completed == p.completed)
  {
    if HasKey(v.keys, "id") && Lookup(v.keys, "id").Num? {
      var x := Lookup(v.keys, "id").n;
      if if x >= 0.0 then id as real <= x < id as real + 1.0 else id as real - 1.0 < x <= id as real {
        assert Truncate(x) == id;
      }
    }
    hide Truncate, Lookup, HasKey, OnRequest;
  }
}
