/** The connection class: pending-call table, method table, and the functors that call through it. */
module RpcConnection {
  import opened Wrappers
  import opened JsonValue
  import opened JsonObject
  import opened Rpc

  class Promise {
    var value: Option<Value>

    constructor ()
      ensures value == None
    {
      value := None;
    }

    method SetValue(v: Value)
      requires value == None
      modifies this
      ensures value == Some(v)
    {
      value := Some(v);
    }
  }

  type Handler<!S> = (S, Value) -> Ran<S>

  function ServiceOf<S>(methods: map<string, Handler<S>>): Service<S> {
    Service(methods.Keys,
            (st, name, params) => if name in methods then methods[name](st, params) else Ran(st, Returned(Null)))
  }

  /** The table holds the promises of exactly the calls that are neither completed nor timed out. */
  ghost predicate Shape(nextId: int, pendingReq: map<int, Promise>, promises: map<int, Promise>,
                        completed: set<int>, timedOut: set<int>)
  {
    && nextId >= 0 && (forall id :: id in promises ==> 1 <= id <= nextId)
    && (forall i, j :: i in promises && j in promises && promises[i] == promises[j] ==> i == j)
    && completed + timedOut <= promises.Keys && completed !! timedOut
    && (forall id :: id in pendingReq ==> id in promises && pendingReq[id] == promises[id])
    && pendingReq.Keys == promises.Keys - completed - timedOut
  }

  /** Ids are given out once; each has its own promise, set exactly for the completed calls. */
  ghost predicate Tables(nextId: int, pendingReq: map<int, Promise>, promises: map<int, Promise>,
                         completed: map<int, Value>, timedOut: set<int>)
    reads promises.Values
  {
    && Shape(nextId, pendingReq, promises, completed.Keys, timedOut)
    && (forall id :: id in promises ==> promises[id].value == if id in completed then Some(completed[id]) else None)
  }

  lemma TablesGrow(nextId: int, pendingReq: map<int, Promise>, promises: map<int, Promise>,
                   completed: map<int, Value>, timedOut: set<int>, p: Promise)
    requires Tables(nextId, pendingReq, promises, completed, timedOut)
    requires p !in promises.Values && p.value == None
    ensures Tables(nextId + 1, pendingReq[nextId + 1 := p], promises[nextId + 1 := p], completed, timedOut)
    ensures pendingReq[nextId + 1 := p].Keys == pendingReq.Keys + {nextId + 1}
    ensures nextId + 1 !in completed && nextId + 1 !in timedOut
  {}

  lemma TablesShrink(nextId: int, pendingReq: map<int, Promise>, promises: map<int, Promise>,
                     completed: map<int, Value>, timedOut: set<int>, id: int)
    requires Tables(nextId, pendingReq, promises, completed, timedOut)
    requires id in promises && promises[id].value == None && id !in timedOut
    ensures id in pendingReq
    ensures Tables(nextId, pendingReq - {id}, promises, completed, timedOut + {id})
    ensures (pendingReq - {id}).Keys == pendingReq.Keys - {id}
  {}

  lemma OwnPromise(nextId: int, pendingReq: map<int, Promise>, promises: map<int, Promise>,
                   completed: set<int>, timedOut: set<int>, id: int)
    requires Shape(nextId, pendingReq, promises, completed, timedOut) && id in pendingReq
    ensures id in promises && pendingReq[id] == promises[id] && id !in completed && id !in timedOut
    ensures forall k :: k in promises && k != id ==> promises[k] != promises[id]
    ensures Shape(nextId, pendingReq - {id}, promises, completed + {id}, timedOut)
    ensures (pendingReq - {id}).Keys == pendingReq.Keys - {id}
  {}

  class Connection<S> {
    var nextId: int
    var pendingReq: map<int, Promise>
    var methods: map<string, Handler<S>>
    var state: S
    var sent: seq<Value>

    // what has become of the calls so far
    ghost var promises: map<int, Promise>
    ghost var completed: map<int, Value>
    ghost var timedOut: set<int>
    ghost var inbox: seq<Value>
    ghost var calls: seq<Call>

    ghost predicate Valid()
      reads this, promises.Values
    {
      Tables(nextId, pendingReq, promises, completed, timedOut)
    }

    /** Calls whose promise is not set and whose wait has not run out. */
    ghost function Waiting(): set<int>
      reads this
    {
      promises.Keys - completed.Keys - timedOut
    }

    ghost function View(): Peer<S>
      reads this
    {
      Peer(nextId, pendingReq.Keys, Waiting(), completed, timedOut, inbox, calls, state)
    }

    constructor (state: S)
      ensures Valid() && View() == Fresh(state) && sent == [] && methods == map[] && promises == map[]
    {
      nextId, pendingReq, methods, sent := 0, map[], map[], [];
      this.state := state;
      promises, completed, timedOut, inbox, calls := map[], map[], {}, [], [];
    }

    method AddMethodHandler(name: string, h: Handler<S>)
      requires Valid()
      modifies this`methods
      ensures Valid() && View() == old(View())
      ensures methods == old(methods)[name := h]
    {
      methods := methods[name := h];
    }

    /** `invoke` up to the wait: a new id is put into msg, its promise into the table, and msg, whatever
      * else it holds, is sent. The call is what the history remembers it as. */
    method Begin(msg: Object, ghost call: Call) returns (id: int, p: Promise)
      requires Valid()
      modifies this, msg
      ensures Valid() && View() == Invoked(old(View()), call)
      ensures id == nextId && msg.keys == SetKey(old(msg.keys), "id", IdValue(id))
      ensures sent == old(sent) + [Obj(msg.keys)]
      ensures fresh(p) && promises == old(promises)[id := p] && methods == old(methods)
    {
      hide Tables, SetKey, RequestMsg, IdValue;
      nextId := nextId + 1;
      id := nextId;
      msg.Assign("id", IdValue(id));
      p := new Promise();
      TablesGrow(id - 1, pendingReq, promises, completed, timedOut, p);
      pendingReq := pendingReq[id := p];
      promises := promises[id := p];
      calls := calls + [call];
      sent := sent + [Obj(msg.keys)];
      assert Waiting() == old(Waiting()) + {id};
    }

    /** The wait for a promise: its value, or, when time runs out, the call is taken out of the table. */
    method Await(id: int, p: Promise) returns (reply: Option<Value>)
      requires Valid() && id in promises && promises[id] == p && id !in timedOut
      modifies this
      ensures Valid() && sent == old(sent) && methods == old(methods) && promises == old(promises)
      ensures p.value.Some? ==> reply == p.value && View() == old(View())
      ensures p.value.None? ==> reply == None && View() == Expired(old(View()), id)
    {
      hide Tables;
      reply := p.value;
      if reply == None {
        TablesShrink(nextId, pendingReq, promises, completed, timedOut, id);
        pendingReq := pendingReq - {id};
        timedOut := timedOut + {id};
      }
    }

    method OnReceive(v: Value) returns (raised: bool)
      requires Valid()
      modifies this, promises.Values
      ensures Valid() && methods == old(methods) && promises == old(promises)
      ensures var r := Receive(ServiceOf(methods), old(View()), v);
              View() == r.peer && sent == old(sent) + r.sent && raised == r.raised
    {
      raised := !v.Obj?;
      if v.Obj? {
        var o := new Object(v.keys);
        var isRequest := o.Contains("method");
        if isRequest {
          raised := OnRequest(o);
        } else {
          raised := OnResponse(o);
        }
      }
    }

    method OnRequest(v: Object) returns (raised: bool)
      requires Valid() && HasKey(v.keys, "method")
      modifies this`state, this`sent
      ensures Valid()
      ensures var r := Rpc.OnRequest(ServiceOf(methods), old(View()), v.keys);
              View() == r.peer && sent == old(sent) + r.sent && raised == r.raised
    {
      var m := v.At("method");
      var name := NameText(m.value);
      var id := v.At("id");
      if id == None {
        return true;
      }
      var params := v.At("params");
      hide Tables, Reply, NameText, ServiceOf;
      var result: Value;
      if name in methods && params == None {
        result := Fail(name, id.value);
      } else {
        result := Dispatch(Call(name, if params == None then Null else params.value), id.value);
      }
      sent := sent + [result];
      raised := false;
    }

    /** The handler's `params` argument does not exist: the lookup raises before the handler runs. */
    method Fail(name: string, id: Value) returns (reply: Value)
      ensures reply == Reply(id, true, name, Raised(Null, "unknown key 'params'"))
    {
      var result := new Object([]);
      result.Assign("id", id);
      ReplyKeysInOrder(id, name, Raised(Null, "unknown key 'params'"));
      result.Assign("result", Null);
      result.Assign("error", ErrorValue("unknown key 'params'"));
      reply := Obj(result.keys);
    }

    /** The body of the try block: run the handler on the result slot, or say that there is none. */
    method Dispatch(call: Call, id: Value) returns (reply: Value)
      modifies this`state
      ensures Served(state, reply) == Rpc.Dispatch(ServiceOf(methods), old(state), id, call)
    {
      var result := new Object([]);
      result.Assign("id", id);
      if call.name in methods {
        var ran := methods[call.name](state, call.params);
        state := ran.state;
        ReplyKeysInOrder(id, call.name, ran.ended);
        match ran.ended {
          case Returned(r) =>
            result.Assign("result", r);
          case Raised(partial, what) =>
            result.Assign("result", partial);
            result.Assign("error", ErrorValue(what));
        }
      } else {
        UnknownReply(id, call.name);
        result.Assign("error", ErrorValue("Unknown method '" + call.name + "'"));
      }
      reply := Obj(result.keys);
    }

    method OnResponse(v: Object) returns (raised: bool)
      requires Valid()
      modifies this, promises.Values
      ensures Valid() && methods == old(methods) && promises == old(promises)
      ensures var r := Rpc.OnResponse(old(View()), Obj(v.keys));
              View() == r.peer && sent == old(sent) && raised == r.raised
    {
      var idValue := v.At("id");
      if idValue == None {
        return false;
      }
      if !idValue.value.Num? {
        return true;
      }
      var id := Truncate(idValue.value.n);
      inbox := inbox + [Obj(v.keys)];
      if id in pendingReq {
        OwnPromise(nextId, pendingReq, promises, completed.Keys, timedOut, id);
        assert completed[id := Obj(v.keys)].Keys == completed.Keys + {id};
        hide Shape, Truncate;
        pendingReq[id].SetValue(Obj(v.keys));
        pendingReq := pendingReq - {id};
        completed := completed[id := Obj(v.keys)];
        assert Waiting() == old(Waiting()) - {id};
      }
      raised := false;
    }
  }

  lemma ReplyKeysInOrder(id: Value, name: string, ended: Ended)
    ensures var keys := SetKey([], "id", id);
            Reply(id, true, name, ended).keys ==
            match ended
            case Returned(v) => SetKey(keys, "result", v)
            case Raised(partial, what) => SetKey(SetKey(keys, "result", partial), "error", ErrorValue(what))
  {
    NoKey([], "id");
    NoKey([KeyVal("id", id)], "result");
    assert SetKey([], "id", id) == [KeyVal("id", id)];
    match ended
    case Returned(v) => {}
    case Raised(partial, what) => NoKey([KeyVal("id", id), KeyVal("result", partial)], "error");
  }

  lemma UnknownReply(id: Value, name: string)
    ensures Reply(id, false, name, Returned(Null))
         == Obj(SetKey(SetKey([], "id", id), "error", ErrorValue("Unknown method '" + name + "'")))
  {
    NoKey([], "id");
    NoKey([KeyVal("id", id)], "error");
  }

  /** `rpc_send_functor`: one remote method, with the message object it reuses for every call. */
  class SendFunctor<S> {
    const con: Connection<S>
    const name: string
    const msg: Object
    ghost var lastId: int
    ghost var lastParams: Value

    ghost predicate Valid()
      reads this, msg
    {
      msg.keys == RequestMsg(lastId, Call(name, lastParams)).keys
    }

    constructor (con: Connection<S>, name: string)
      ensures Valid() && fresh(msg) && this.con == con && this.name == name
      ensures msg.keys == Template(name)
    {
      this.con, this.name := con, name;
      msg := new Object([]);
      lastId, lastParams := 0, Arr([]);
      new;
      NoKey([], "id");
      NoKey([KeyVal("id", IdValue(0))], "method");
      NoKey([KeyVal("id", IdValue(0)), KeyVal("method", Str(name))], "params");
      msg.Assign("id", IdValue(0));
      msg.Assign("method", Str(name));
      msg.Assign("params", Arr([]));
    }

    /** The call up to the wait. */
    method Begin(params: Value) returns (id: int, p: Promise)
      requires Valid() && con.Valid()
      modifies this, con, msg
      ensures Valid() && con.Valid()
      ensures con.View() == Invoked(old(con.View()), Call(name, params))
      ensures id == con.nextId && con.sent == old(con.sent) + [RequestMsg(id, Call(name, params))]
      ensures fresh(p) && con.promises == old(con.promises)[id := p]
    {
      TemplateBecomesRequest(con.nextId + 1, lastId, Call(name, params), lastParams);
      msg.Assign("params", params);
      id, p := con.Begin(msg, Call(name, params));
      lastId, lastParams := id, params;
    }

    /** What the caller gets from the message the wait returned. */
    method Finish(rtn: Value) returns (r: Outcome)
      requires rtn.Obj?
      ensures r == OutcomeOf(rtn)
    {
      var o := new Object(rtn.keys);
      var failed := o.Contains("error");
      if failed {
        var e := o.At("error");
        return Failure(e.value);
      }
      var ok := o.Contains("result");
      if ok {
        var v := o.At("result");
        return Success(v.value);
      }
      r := Failure(ErrorValue("invalid json RPC message, missing result or error"));
    }
  }
}
