/** The asynchronous API over the event loop, step by step: contexts, their adapters, the file events
    of the loop and the connections. Freed contexts leave the memory map, so that every access proves
    that the context is alive. Callbacks are arbitrary calls of the same API. */
module AsyncWorld {
  import opened Bytes
  import opened Resp
  import opened Arrival
  import opened EventTable
  import opened AsyncState
  import F = Formatter

  /** Whether an assertion has ended the program, and which: a disconnect with replies pending, or a
      reply nobody waits for. */
  datatype Halt = Running | PendingReplies(id: nat) | Spontaneous(id: nat)

  // What the system answers.
  datatype SocketStatus = Ready | InProgress | Refused
  datatype ReadResult = ReadAgain | ReadError | Data(chunk: seq<Byte>)
  datatype WriteResult = WriteAgain | WriteError | Wrote(n: nat)
  datatype ConnectResult = NoContext | FailedContext | Started(fd: int)

  /** The bytes a read brings in. */
  function Arrived(input: ReadResult): seq<Byte> {
    if input.Data? then input.chunk else []
  }

  /** The read event gets as far as processing replies. */
  predicate Reads(c: Context, status: SocketStatus, input: ReadResult) {
    (c.connected || status == Ready) && !c.err && !input.ReadError?
    && !(c.reader.Failed? && input.Data?)
  }

  /** The write event gets as far as writing. */
  predicate Writes(c: Context, status: SocketStatus, room: WriteResult) {
    (c.connected || status == Ready) && !c.err && (room.WriteError? ==> c.obuf == [])
  }

  /** Some of the output buffer, as much as the socket took, has gone out. */
  predicate Written(c: Context, d: Context, room: WriteResult) {
    var k := if room.Wrote? && room.n < |c.obuf| then room.n else if room.Wrote? then |c.obuf| else 0;
    && d.obuf == c.obuf[k..] && d.sent == c.sent + c.obuf[..k]
    && d == c.(obuf := d.obuf, sent := d.sent, connected := d.connected, ev := d.ev)
  }

  /** What the system answers to a handler. */
  datatype Answer = Answer(status: SocketStatus, input: ReadResult, room: WriteResult)

  /** A descriptor that fired, and the answers its handlers will get. */
  datatype Fired = Fired(fd: int, mask: Mask, onRead: Answer, onWrite: Answer)

  // ---------- what an event does, between two states of the world ----------

  /** The whole state of the world. */
  datatype Snapshot = Snapshot(now: Moment, events: Table, halt: Halt)

  predicate Known(s: Snapshot, id: nat) {
    id in s.now.cs || id in s.now.graves
  }

  /** The context, alive or freed. */
  function LastIn(s: Snapshot, id: nat): Context
    requires Known(s, id)
  {
    if id in s.now.cs then s.now.cs[id] else s.now.graves[id]
  }

  /** If an assertion ended the program, it had reason to. */
  ghost predicate JustifiedIn(s: Snapshot) {
    match s.halt
    case Running => true
    case PendingReplies(id) => Known(s, id) && TripsPending(LastIn(s, id))
    case Spontaneous(id) => Known(s, id) && TripsSpontaneous(LastIn(s, id))
  }

  /** An assertion ended the program, or it runs on and the assertion had no reason to trip. */
  ghost predicate JudgedIn(s: Snapshot, id: nat) {
    && Known(s, id)
    && (s.halt == Running || s.halt == PendingReplies(id) || s.halt == Spontaneous(id)) && JustifiedIn(s)
    && (!LastIn(s, id).freeing ==>
          && (s.halt == PendingReplies(id) <==> TripsPending(LastIn(s, id)))
          && (s.halt == Spontaneous(id) <==> TripsSpontaneous(LastIn(s, id))))
  }

  /** A connection in its initial state has tried to connect: it got no context, a context with an error
      that belongs to nobody, or one that is connecting. */
  function Attempting(a: Moment, k: nat, r: ConnectResult): Moment
    requires k in a.conns
  {
    if a.conns[k].state != Init then a
    else
      match r
      case NoContext => a.(conns := a.conns[k := a.conns[k].(ctx := None)])
      case FailedContext =>
        a.(cs := a.cs[a.next := NewContext(-1, true, None, None)],
           conns := a.conns[k := a.conns[k].(ctx := Some(a.next))], next := a.next + 1)
      case Started(fd) =>
        a.(cs := a.cs[a.next := NewContext(fd, false, Some(Adapter(false, true)), Some(k))],
           conns := a.conns[k := a.conns[k].(state := Connecting, ctx := Some(a.next))], next := a.next + 1)
  }

  lemma AttemptingConns(a: Moment, k: nat, r: ConnectResult)
    requires k in a.conns && a.conns[k].state == Init
    ensures var c := Attempting(a, k, r).conns;
            && c.Keys == a.conns.Keys && (forall j :: j in c && j != k ==> c[j] == a.conns[j])
            && c[k].port == a.conns[k].port && c[k].newOpt == a.conns[k].newOpt
            && (if r.Started? then c[k].state == Connecting && c[k].ctx.Some? else c[k].state == Init)
  {
  }

  /** The attempt to connect is still pending, or has succeeded. */
  function Attempted(a: Moment, id: nat, status: SocketStatus): Moment
    requires id in a.cs
  {
    var c := a.cs[id];
    if status == Ready then a.(cs := a.cs[id := c.(connected := true)], conns := Established(c, a.conns))
    else a.(cs := a.cs[id := c.(err := true)])
  }

  /** The context c is gone: every callback it had queued has run, and no connection points to it. */
  predicate Freed(c: Context, b: Moment, id: nat) {
    && id !in b.cs && id in b.graves && b.graves[id].replies == [] && b.graves[id].sent == c.sent
    && forall k :: k in b.conns ==> b.conns[k].ctx != Some(id)
  }

  /** The same, and a connection that pointed to it is back in its initial state. */
  predicate Closed(a: Moment, b: Moment, id: nat)
    requires id in a.cs
  {
    Freed(a.cs[id], b, id) && forall k :: k in a.conns && a.conns[k].ctx == Some(id) ==>
      k in b.conns && b.conns[k].state == Init && b.conns[k].ctx == None
  }

  /** The attempt to connect has failed. With no callback queued nothing else happens. */
  predicate RefusedEffect(a: Moment, b: Moment, id: nat)
    requires id in a.cs
  {
    && Freed(a.cs[id], b, id) && b.graves[id].received == a.cs[id].received
    && (a.cs[id].replies == [] ==> b.cs == a.cs - {id} && b.conns == Forgotten(a.cs[id], a.conns) && b.next == a.next)
  }

  /** From s to t the socket of a context was found readable. */
  ghost predicate ReadEffect(s: Snapshot, t: Snapshot, id: nat, status: SocketStatus, input: ReadResult)
    requires id in s.now.cs
  {
    var c := s.now.cs[id];
    if !c.connected && status == Refused then t.halt == Running && RefusedEffect(s.now, t.now, id)
    else if !c.connected && status == InProgress then t == s.(now := Attempted(s.now, id, status))
    else if !Reads(c, status, input) then t.halt == Running && Closed(s.now, t.now, id)
    else
      && JudgedIn(t, id) && Progressed(c, LastIn(t, id), Arrived(input))
      && (t.halt == Running ==>
            if id in t.now.cs then UpToDate(t.now.cs[id]) && IsReading(t.now.cs[id]) else Closed(s.now, t.now, id))
  }

  predicate IsReading(c: Context) {
    c.connected && c.ev.Some? && c.ev.value.reading
  }

  /** Bytes were read and replies taken; after a disconnect nothing new is sent. Without a new reply
      nobody frees the context. */
  ghost predicate Progressed(c: Context, d: Context, bytes: seq<Byte>) {
    && d.received == c.received + bytes && d.sent == c.sent
    && (c.disconnecting ==> d.disconnecting && d.accepted == c.accepted && d.obuf == c.obuf)
    && (UpToDate(Received(c, bytes)) ==> !d.freeing)
  }

  /** From s to t the socket of a context was found writable. No callback runs unless it is freed. */
  ghost predicate WriteEffect(s: Snapshot, t: Snapshot, id: nat, status: SocketStatus, room: WriteResult)
    requires id in s.now.cs
  {
    var c := s.now.cs[id];
    && t.halt == Running
    && if !c.connected && status == Refused then RefusedEffect(s.now, t.now, id)
       else if !c.connected && status == InProgress then t == s.(now := Attempted(s.now, id, status))
       else if !Writes(c, status, room) then Closed(s.now, t.now, id) && t.now.graves[id].received == c.received
       else
         && id in t.now.cs && Written(c, t.now.cs[id], room)
         && t.now.cs[id].connected && t.now.cs[id].ev == Some(Adapter(true, t.now.cs[id].obuf != []))
         && var a := if c.connected then s.now else Attempted(s.now, id, Ready);
            t.now == a.(cs := a.cs[id := t.now.cs[id]])
  }

  function Lower(b: Byte): Byte {
    if 65 <= b <= 90 then b + 32 else b
  }

  /** The text starts with the word, which is in lower case, ignoring case. */
  predicate StartsWith(text: seq<Byte>, word: seq<Byte>) {
    |word| <= |text| && forall i :: 0 <= i < |word| ==> Lower(text[i]) == word[i]
  }

  const SUBSCRIBE: seq<Byte> := [115, 117, 98, 115, 99, 114, 105, 98, 101, 13, 10]
  const UNSUBSCRIBE: seq<Byte> := [117, 110] + SUBSCRIBE
  const MONITOR: seq<Byte> := [109, 111, 110, 105, 116, 111, 114, 13, 10]

  /** The command name is the given one, or its variant with a p in front. */
  predicate Named(name: seq<Byte>, word: seq<Byte>) {
    var text := name + CRLF;
    StartsWith(if Lower(text[0]) == 112 then text[1..] else text, word)
  }

  /** Commands other than those that open a subscription or the monitor. */
  predicate Ordinary(argv: seq<seq<Byte>>) {
    argv != [] && !(|argv| > 1 && Named(argv[0], SUBSCRIBE)) && !Named(argv[0], MONITOR)
  }

  // ---------- the API, between two moments ----------

  /** A command is accepted unless a disconnect or a free was asked for, or it is an unsubscribe. */
  predicate Accepts(c: Context, argv: seq<seq<Byte>>)
    requires argv != []
  {
    !c.disconnecting && !c.freeing && !Named(argv[0], UNSUBSCRIBE)
  }

  /** A command was sent, if it is accepted. */
  function Sent(a: Moment, id: nat, cb: Callback, argv: seq<seq<Byte>>): Moment
    requires id in a.cs && argv != []
  {
    if Accepts(a.cs[id], argv)
      then a.(cs := a.cs[id := WithWriting(WithCommand(a.cs[id], AsyncState.Command(argv, cb)), true)]) else a
  }

  /** A connection has a context, and the callback object is the last one created. */
  predicate Usable(a: Moment, k: nat, opt: nat)
    requires k in a.conns
  {
    a.conns[k].ctx.Some? && a.conns[k].newOpt == Some(opt)
  }

  function SentOn(a: Moment, k: nat, opt: nat, argv: seq<seq<Byte>>): Moment
    requires k in a.conns && argv != [] && (a.conns[k].ctx.Some? ==> a.conns[k].ctx.value in a.cs)
  {
    if !Usable(a, k, opt) then a
    else Sent(a.(conns := a.conns[k := a.conns[k].(newOpt := None)]), a.conns[k].ctx.value, Function(opt), argv)
  }

  function Initialised(a: Moment, k: nat, port: int, r: ConnectResult): Moment
    requires k in a.conns
  {
    if a.conns[k].port != 0 then a else Attempting(a.(conns := a.conns[k := a.conns[k].(port := port)]), k, r)
  }

  function Alone(a: Moment, fd: int): Moment {
    a.(cs := a.cs[a.next := NewContext(fd, false, Some(Adapter(false, false)), None)], next := a.next + 1)
  }

  /** A call of the API. */
  datatype Api =
    | Send(id: nat, cb: Callback, argv: seq<seq<Byte>>)
    | AskDisconnect(id: nat)
    | AskFree(id: nat)
    | SendOn(k: nat, opt: nat, argv: seq<seq<Byte>>)
    | CreateOpt(k: nat, opt: nat)
    | CreateConn(k: nat)
    | InitOn(k: nat, port: int, r: ConnectResult)
    | ConnectTo(fd: int)

  /** What the caller must see to. A context that a connection still waits for is not disconnected or
      freed by anybody else. */
  predicate Allowed(cs: Contexts, conns: Conns, act: Api) {
    match act
    case Send(id, _, argv) => id in cs && Ordinary(argv)
    case AskDisconnect(id) => id in cs && (cs[id].inCallback || Releasable(id, cs, conns))
    case AskFree(id) => id in cs && (cs[id].inCallback || Releasable(id, cs, conns))
    case SendOn(k, _, argv) => k in conns && Ordinary(argv) && (conns[k].ctx.Some? ==> conns[k].ctx.value in cs)
    case CreateOpt(k, _) => k in conns
    case CreateConn(k) => k !in conns
    case InitOn(k, _, r) => k in conns && (r.Started? ==> FdFree(cs, r.fd))
    case ConnectTo(fd) => FdFree(cs, fd)
  }

  /** What a call does from a to b; one that is not allowed is not made. */
  ghost predicate ApiEffect(a: Moment, b: Moment, act: Api) {
    if !Allowed(a.cs, a.conns, act) then b == a
    else
      match act
      case Send(id, cb, argv) => b == Sent(a, id, cb, argv)
      case AskDisconnect(id) =>
        if a.cs[id].inCallback || a.cs[id].replies != [] then b == a.(cs := a.cs[id := a.cs[id].(disconnecting := true)])
        else Freed(a.cs[id], b, id)
      case AskFree(id) =>
        if a.cs[id].inCallback then b == a.(cs := a.cs[id := a.cs[id].(freeing := true)])
        else Freed(a.cs[id], b, id)
      case SendOn(k, opt, argv) => b == SentOn(a, k, opt, argv)
      case CreateOpt(k, opt) => b == a.(conns := a.conns[k := a.conns[k].(newOpt := Some(opt))])
      case CreateConn(k) => b == a.(conns := a.conns[k := Conn(0, Init, None, None)])
      case InitOn(k, port, r) => b == Initialised(a, k, port, r)
      case ConnectTo(fd) => b == Alone(a, fd)
  }

  /** A piece of user code: the moments between its calls. */
  ghost predicate IsCode(acts: seq<Api>, moments: seq<Moment>) {
    |moments| == |acts| + 1 && forall i :: 0 <= i < |acts| ==> ApiEffect(moments[i], moments[i + 1], acts[i])
  }

  /** From a to b a callback ran acts, with its context marked as being in a callback. */
  ghost predicate RanCode(a: Moment, moments: seq<Moment>, b: Moment, id: nat, cb: Callback, reply: Option<Reply>, acts: seq<Api>)
    requires id in a.cs
  {
    && IsCode(acts, moments) && id in moments[|acts|].cs
    && moments[0] == a.(cs := a.cs[id := Called(a.cs[id], cb, reply).(inCallback := true)])
    && b == moments[|acts|].(cs := moments[|acts|].cs[id := moments[|acts|].cs[id].(inCallback := false)])
  }

  /** The context once cb has been called with reply. */
  ghost function Called(c: Context, cb: Callback, reply: Option<Reply>): Context {
    if cb.Function? then c.(ran := c.ran + [Ran(cb, reply)]) else c
  }

  class World {
    const behaviour: nat -> seq<Api>     // what the n-th callback called does
    var served: nat                      // how many callbacks were called
    var ctxs: Contexts
    var events: Table
    var conns: Conns
    var next: nat
    var halt: Halt
    ghost var graves: Contexts

    ghost function Now(): Moment
      reads this
    {
      Moment(ctxs, conns, graves, next)
    }

    ghost function Snap(): Snapshot
      reads this
    {
      Snapshot(Now(), events, halt)
    }

    /** All is well, except that the context x may be in the middle of an operation. */
    ghost predicate Sound(x: Option<nat>)
      reads this
    {
      && halt == Running
      && Settled(ctxs, x) && Mirror(ctxs, events) && Links(ctxs, conns)
      && Addresses(ctxs, graves, next) && Buried(graves)
    }

    /** Control is in no callback. */
    ghost predicate Quiet()
      reads this
    {
      forall id :: id in ctxs ==> !ctxs[id].inCallback
    }

    /** The context between two steps of an operation on it. */
    ghost predicate Between(id: nat)
      reads this
    {
      Sound(Some(id)) && id in ctxs && !ctxs[id].inCallback && Coherent(ctxs[id])
    }

    constructor (behaviour: nat -> seq<Api>)
      ensures Sound(None) && Quiet() && ctxs == map[] && conns == map[] && next == 0
      ensures this.behaviour == behaviour && served == 0
    {
      this.behaviour, served := behaviour, 0;
      ctxs, events, conns, graves := map[], map[], map[], map[];
      next, halt := 0, Running;
    }

    // ---------- the adapter ----------

    /** Stores what a context waits for together with the new table. */
    method Arm(id: nat, e: Adapter, t: Table, ghost x: Option<nat>)
      requires Sound(x) && id in ctxs && ctxs[id].ev.Some?
      requires Slot(t, ctxs[id].fd) == Wanted(id, e)
      requires forall fd :: fd != ctxs[id].fd ==> Slot(t, fd) == Slot(events, fd)
      requires ctxs[id].inCallback ==> WaitsOn(ctxs[id], ctxs[id].(ev := Some(e)))
      modifies this`ctxs, this`events
      ensures Sound(x) && Later(old(Now()), Now())
      ensures ctxs == old(ctxs)[id := old(ctxs)[id].(ev := Some(e))] && events == t
    {
      hide Mirror, Links, Addresses, Buried, Coherent, Slot, Wanted, Later;
      var d := ctxs[id].(ev := Some(e));
      Rewatch(ctxs, id, e, events, t);
      RewatchLinks(ctxs, id, e, conns);
      AddressesKept(ctxs, id, d, graves, next);
      WatchDoesNotMatter(ctxs[id], d);
      ChangeIsLater(Now(), id, d);
      ctxs, events := ctxs[id := d], t;
    }

    method AddRead(id: nat, ghost x: Option<nat>)
      requires Sound(x) && id in ctxs
      modifies this`ctxs, this`events
      ensures Sound(x) && Later(old(Now()), Now())
      ensures ctxs == old(ctxs)[id := WithReading(old(ctxs)[id], true)]
    {
      hide Settled, Mirror, Links, Addresses, Buried, Later;
      LaterRefl(Now());
      var c := ctxs[id];
      if c.ev.Some? && !c.ev.value.reading {
        WantedSlot(ctxs, events, id);
        Arm(id, c.ev.value.(reading := true), Created(events, c.fd, READABLE, ReadEvent, id), x);
      }
    }

    method DelRead(id: nat, ghost x: Option<nat>)
      requires Sound(x) && id in ctxs && !ctxs[id].inCallback
      modifies this`ctxs, this`events
      ensures Sound(x) && Later(old(Now()), Now())
      ensures ctxs == old(ctxs)[id := WithReading(old(ctxs)[id], false)]
    {
      hide Settled, Mirror, Links, Addresses, Buried, Later;
      LaterRefl(Now());
      var c := ctxs[id];
      if c.ev.Some? && c.ev.value.reading {
        WantedSlot(ctxs, events, id);
        Arm(id, c.ev.value.(reading := false), Deleted(events, c.fd, READABLE), x);
      }
    }

    method AddWrite(id: nat, ghost x: Option<nat>)
      requires Sound(x) && id in ctxs
      modifies this`ctxs, this`events
      ensures Sound(x) && Later(old(Now()), Now())
      ensures ctxs == old(ctxs)[id := WithWriting(old(ctxs)[id], true)]
    {
      hide Settled, Mirror, Links, Addresses, Buried, Later;
      LaterRefl(Now());
      var c := ctxs[id];
      if c.ev.Some? && !c.ev.value.writing {
        WantedSlot(ctxs, events, id);
        Arm(id, c.ev.value.(writing := true), Created(events, c.fd, WRITABLE, WriteEvent, id), x);
      }
    }

    method DelWrite(id: nat, ghost x: Option<nat>)
      requires Sound(x) && id in ctxs && !ctxs[id].inCallback
      modifies this`ctxs, this`events
      ensures Sound(x) && Later(old(Now()), Now())
      ensures ctxs == old(ctxs)[id := WithWriting(old(ctxs)[id], false)]
    {
      hide Settled, Mirror, Links, Addresses, Buried, Later;
      LaterRefl(Now());
      var c := ctxs[id];
      if c.ev.Some? && c.ev.value.writing {
        WantedSlot(ctxs, events, id);
        Arm(id, c.ev.value.(writing := false), Deleted(events, c.fd, WRITABLE), x);
      }
    }

    /** The context waits for nothing any more. */
    method Cleanup(id: nat, ghost x: Option<nat>)
      requires Sound(x) && id in ctxs && !ctxs[id].inCallback
      modifies this`ctxs, this`events
      ensures Sound(x) && Later(old(Now()), Now())
      ensures ctxs == old(ctxs)[id := WithWriting(WithReading(old(ctxs)[id], false), false)]
    {
      hide Settled, Mirror, Links, Addresses, Buried, Later;
      DelRead(id, x);
      ghost var now := Now();
      DelWrite(id, x);
      LaterTrans(old(Now()), now, Now());
    }

    /** Stores new values of fields that neither the loop nor a connection looks at. */
    method Store(id: nat, d: Context, ghost x: Option<nat>)
      requires Sound(x) && id in ctxs && SameShape(ctxs[id], d) && Coherent(d)
      requires x == Some(id) || Calm(d)
      requires ctxs[id].inCallback == d.inCallback && (d.inCallback ==> Held(ctxs[id], d))
      modifies this`ctxs
      ensures Sound(x) && ctxs == old(ctxs)[id := d] && Later(old(Now()), Now())
    {
      hide Coherent, Calm, Mirror, Links, Addresses, Buried, Later, Held;
      Replace(ctxs, id, d, events, conns);
      AddressesKept(ctxs, id, d, graves, next);
      ChangeIsLater(Now(), id, d);
      ctxs := ctxs[id := d];
    }

    // ---------- callbacks ----------

    /** Takes the callback at the head of the queue: it is owed the reply of its command. */
    method ShiftCallback(id: nat) returns (cb: Callback)
      requires Between(id) && ctxs[id].replies != []
      modifies this`ctxs
      ensures cb == old(ctxs)[id].replies[0]
      ensures ctxs == old(ctxs)[id := old(ctxs)[id].(replies := old(ctxs)[id].replies[1..])]
      ensures Shifted(old(ctxs)[id]) >= 0 && Sound(Some(id))
      ensures Coherent(Called(ctxs[id], cb, ReplyFor(ctxs[id].popped, Shifted(old(ctxs)[id]))))
    {
      hide Coherent, Mirror, Links, Addresses, Buried;
      var c := ctxs[id];
      ShiftOwes(c);
      cb := c.replies[0];
      Replace(ctxs, id, c.(replies := c.replies[1..]), events, conns);
      AddressesKept(ctxs, id, c.(replies := c.replies[1..]), graves, next);
      ctxs := ctxs[id := c.(replies := c.replies[1..])];
    }

    method EnterCallback(id: nat, cb: Callback, reply: Option<Reply>)
      requires Sound(Some(id)) && id in ctxs && cb.Function? && Coherent(Called(ctxs[id], cb, reply))
      modifies this`ctxs
      ensures Sound(None)
      ensures id in ctxs && ctxs[id] == Called(old(ctxs)[id], cb, reply).(inCallback := true)
      ensures Now() == old(Now()).(cs := old(ctxs)[id := ctxs[id]])
    {
      hide Coherent, Mirror, Links, Addresses, Buried;
      var c := ctxs[id].(ran := ctxs[id].ran + [Ran(cb, reply)], inCallback := true);
      CoherentInCallback(Called(ctxs[id], cb, reply), true);
      Replace(ctxs, id, c, events, conns);
      AddressesKept(ctxs, id, c, graves, next);
      ctxs := ctxs[id := c];
    }

    method LeaveCallback(id: nat)
      requires Sound(None) && id in ctxs
      modifies this`ctxs
      ensures Between(id) && ctxs[id] == old(ctxs)[id].(inCallback := false)
      ensures Now() == old(Now()).(cs := old(ctxs)[id := ctxs[id]])
    {
      hide Coherent, Mirror, Links, Addresses, Buried;
      var c := ctxs[id].(inCallback := false);
      CoherentInCallback(ctxs[id], false);
      Replace(ctxs, id, c, events, conns);
      AddressesKept(ctxs, id, c, graves, next);
      ctxs := ctxs[id := c];
    }

    /** Calls a callback, if it is a function; what it does is a finite piece of user code. */
    method RunCallback(id: nat, cb: Callback, reply: Option<Reply>, fuel: nat) returns (ghost moments: seq<Moment>)
      requires Sound(Some(id)) && id in ctxs && !ctxs[id].inCallback && Coherent(Called(ctxs[id], cb, reply))
      modifies this
      ensures Between(id) && Later(old(Now()), Now())
      ensures Held(Called(old(ctxs)[id], cb, reply), ctxs[id])
      ensures cb == NoFunction ==> Snap() == old(Snap())
      ensures cb.Function? ==> RanCode(old(Now()), moments, Now(), id, cb, reply,
                                   if fuel > 0 then behaviour(old(served)) else [])
      decreases fuel, 0
    {
      hide Coherent, Settled, Mirror, Links, Addresses, Buried, Later, Held, IsCode;
      LaterRefl(Now());
      ghost var c := Called(ctxs[id], cb, reply);
      moments := [];
      if cb.Function? {
        EnterCallback(id, cb, reply);
        ghost var called := Now();
        LaterRefl(called);
        var acts := if fuel > 0 then behaviour(served) else [];
        served := served + 1;
        moments := [Now()];
        NoCode(Now());
        if fuel > 0 {
          moments := UserCode(acts, fuel - 1);
        }
        ghost var returned := Now();
        LaterHolds(called, returned, id);
        HeldOutside(c, ctxs[id]);
        LeaveCallback(id);
        LaterAround(old(Now()), called, returned, Now(), id);
      } else {
        HeldRefl(c);
      }
    }

    /** Runs the next queued callback of a context being freed with NULL. */
    method RunNextWithNull(id: nat, fuel: nat, ghost c: Context)
      requires Between(id) && Releasable(id, ctxs, conns) && Emptying(c, ctxs[id]) && ctxs[id].replies != []
      modifies this
      ensures Between(id) && Releasable(id, ctxs, conns) && Emptying(c, ctxs[id])
      ensures |ctxs[id].replies| < |old(ctxs)[id].replies| && Later(old(Now()), Now())
      decreases fuel, 1, 0
    {
      hide Coherent, Settled, Mirror, Links, Buried, Kept;
      ghost var g := ctxs[id];
      var cb := ShiftCallback(id);
      ghost var called := Called(ctxs[id], cb, None);
      ghost var shifted := Now();
      ghost var _ := RunCallback(id, cb, None, fuel);
      EmptyingStep(c, g, called, ctxs[id]);
      ReleasableStays(id, old(ctxs), old(conns), ctxs, conns, old(next));
      LaterShift(old(Now()), shifted, Now(), id);
    }

    /** The last steps of freeing a context whose queue is empty. */
    method BuryContext(id: nat)
      requires Between(id) && Releasable(id, ctxs, conns) && ctxs[id].replies == []
      modifies this
      ensures Sound(None) && Later(old(Now()), Now())
      ensures ctxs == old(ctxs) - {id} && conns == Reported(old(ctxs)[id], old(conns)) && next == old(next)
      ensures id in graves && graves[id] == old(ctxs)[id].(ev := graves[id].ev) && graves == old(graves)[id := graves[id]]
      ensures graves[id].ev.Some? == old(ctxs)[id].ev.Some? && Told(graves[id], conns)
    {
      hide Coherent, Settled, Mirror, Links, Addresses, Buried, Later, Releasable;
      ghost var c := ctxs[id];
      Cleanup(id, Some(id));
      ghost var cleaned := Now();
      WatchDoesNotMatter(c, ctxs[id]);
      ReleasableFlags(id, old(ctxs), ctxs[id], conns);
      Bury(id);
      LaterTrans(old(Now()), cleaned, Now());
    }

    /** Reports the end of a context that waits for nothing, and gives its memory back. */
    method Bury(id: nat)
      requires Between(id) && Releasable(id, ctxs, conns) && ctxs[id].replies == []
      requires ctxs[id].ev.Some? ==> ctxs[id].ev == Some(Adapter(false, false))
      modifies this
      ensures Sound(None) && Later(old(Now()), Now())
      ensures ctxs == old(ctxs) - {id} && conns == Reported(old(ctxs)[id], old(conns)) && next == old(next)
      ensures graves == old(graves)[id := old(ctxs)[id]] && Told(graves[id], conns)
    {
      hide Coherent, Settled, Mirror, Links, Addresses, Buried, Later, Releasable;
      ghost var g := ctxs[id];
      NotRefusedConnected(ctxs[id]);
      ReportedIsTold(id, ctxs, conns);
      BuriedWell(id, ctxs, conns, events, graves, next);
      BuryIsLater(Now(), id, g, Reported(g, conns));
      graves := graves[id := g];
      conns := Reported(ctxs[id], conns);
      ctxs := ctxs - {id};
    }

    /** Frees a context: its remaining callbacks run with NULL, the loop forgets it, its connection is
        told if it was connected. Nothing refers to it afterwards. */
    method FreeContext(id: nat, fuel: nat)
      requires Between(id) && Releasable(id, ctxs, conns)
      requires ctxs[id].replies != [] ==>
        (ctxs[id].disconnecting || ctxs[id].freeing) && |ctxs[id].popped| <= Shifted(ctxs[id])
      modifies this
      ensures Sound(None) && Later(old(Now()), Now())
      ensures id !in ctxs && id in graves && LastState(old(ctxs)[id], graves[id]) && Told(graves[id], conns)
      ensures halt == old(halt)
      ensures old(ctxs)[id].replies == [] ==>
        ctxs == old(ctxs) - {id} && conns == Reported(old(ctxs)[id], old(conns)) && next == old(next)
      decreases fuel, 1
    {
      hide Coherent, Settled, Mirror, Links, Addresses, Buried, Later, Releasable, Emptying, LastState;
      ghost var start, c := Now(), ctxs[id];
      EmptyingStart(c);
      LaterRefl(start);
      while ctxs[id].replies != []
        invariant Between(id) && Later(start, Now()) && Releasable(id, ctxs, conns) && Emptying(c, ctxs[id])
        invariant c.replies == [] ==> Now() == start
        decreases |ctxs[id].replies|
      {
        ghost var before := Now();
        RunNextWithNull(id, fuel, c);
        LaterTrans(start, before, Now());
      }
      ghost var before := Now();
      ghost var g := ctxs[id];
      BuryContext(id);
      LaterTrans(start, before, Now());
      EmptyingEnd(c, g, graves[id]);
      assert Running == halt == old(halt);
    }

    /** Disconnects for good. Without an error there must be no callback left: the assertion ends the
        program otherwise. With one, the callbacks left run with NULL and can issue no new command. */
    method DisconnectContext(id: nat, fuel: nat)
      requires Between(id) && Releasable(id, ctxs, conns)
      requires ctxs[id].replies != [] && ctxs[id].err ==> |ctxs[id].popped| <= Shifted(ctxs[id])
      modifies this
      ensures halt == if old(ctxs)[id].err || old(ctxs)[id].replies == [] then Running else PendingReplies(id)
      ensures halt != Running ==> ctxs == old(ctxs)
      ensures halt == Running ==>
        && Sound(None) && Later(old(Now()), Now()) && id !in ctxs && id in graves
        && LastState(old(ctxs)[id].(disconnecting := old(ctxs)[id].disconnecting || old(ctxs)[id].err), graves[id])
        && Told(graves[id], conns)
        && (old(ctxs)[id].replies == [] ==>
              ctxs == old(ctxs) - {id} && conns == Reported(old(ctxs)[id], old(conns)) && next == old(next))
      decreases fuel, 2
    {
      hide Coherent, Settled, Mirror, Links, Addresses, Buried, Later, Releasable, LastState;
      if !ctxs[id].err {
        if ctxs[id].replies != [] {
          halt := PendingReplies(id);
          return;
        }
      } else {
        SetDisconnecting(id, Some(id));
      }
      ghost var flagged := Now();
      FreeContext(id, fuel);
      if old(ctxs)[id].err {
        LaterTrans(old(Now()), flagged, Now());
      }
    }

    method SetDisconnecting(id: nat, ghost x: Option<nat>)
      requires Sound(x) && id in ctxs && Coherent(ctxs[id])
      modifies this`ctxs
      ensures Sound(x) && ctxs == old(ctxs)[id := old(ctxs)[id].(disconnecting := true)] && Coherent(ctxs[id])
      ensures Releasable(id, old(ctxs), conns) ==> Releasable(id, ctxs, conns)
      ensures Later(old(Now()), Now())
    {
      var d := ctxs[id].(disconnecting := true);
      FlagsDoNotMatter(ctxs[id], d);
      Store(id, d, x);
    }

    // ---------- the API ----------

    /** Stops new commands, and disconnects at once if there is nothing to wait for. */
    method AsyncDisconnect(id: nat, fuel: nat)
      requires Sound(None) && id in ctxs
      requires ctxs[id].inCallback || Releasable(id, ctxs, conns)
      modifies this
      ensures Sound(None) && Later(old(Now()), Now())
      ensures id in ctxs <==> old(ctxs)[id].inCallback || old(ctxs)[id].replies != []
      ensures id in ctxs ==> Now() == old(Now()).(cs := old(ctxs)[id := old(ctxs)[id].(disconnecting := true)])
      ensures id !in ctxs ==>
        id in graves && LastState(old(ctxs)[id].(disconnecting := true), graves[id]) && Told(graves[id], conns)
      decreases fuel, 3
    {
      hide Coherent, Mirror, Links, Addresses, Buried, Later, Releasable, LastState;
      SetDisconnecting(id, None);
      ghost var flagged := Now();
      if !ctxs[id].inCallback && ctxs[id].replies == [] {
        DisconnectContext(id, fuel);
        LaterTrans(old(Now()), flagged, Now());
      }
    }

    /** Frees the context: at once, or when the callback it is in returns. */
    method AsyncFree(id: nat, fuel: nat)
      requires Sound(None) && id in ctxs
      requires ctxs[id].inCallback || Releasable(id, ctxs, conns)
      modifies this
      ensures Sound(None) && Later(old(Now()), Now())
      ensures id in ctxs <==> old(ctxs)[id].inCallback
      ensures id in ctxs ==> Now() == old(Now()).(cs := old(ctxs)[id := old(ctxs)[id].(freeing := true)])
      ensures id !in ctxs ==>
        id in graves && LastState(old(ctxs)[id].(freeing := true), graves[id]) && Told(graves[id], conns)
      decreases fuel, 3
    {
      hide Coherent, Mirror, Links, Addresses, Buried, Later, Releasable, LastState;
      var d := ctxs[id].(freeing := true);
      FlagsDoNotMatter(ctxs[id], d);
      ReleasableFlags(id, ctxs, d, conns);
      if ctxs[id].inCallback {
        Store(id, d, None);
      } else {
        Store(id, d, Some(id));
        ghost var flagged := Now();
        FreeContext(id, fuel);
        LaterTrans(old(Now()), flagged, Now());
      }
    }

    /** Formats a command and finds its name again in the bytes: it is never missing. */
    method CommandBytes(argv: seq<seq<Byte>>) returns (cmd: seq<Byte>, name: seq<Byte>)
      requires argv != []
      ensures cmd == F.Command(argv) && name == argv[0]
    {
      var buf, len := F.FormatCommandArgv(argv);
      cmd := buf[..len];
      F.FirstArgument(argv);
      var first := F.NextArgument(cmd + [NUL]);
      assert first.Found?;
      name := first.arg;
    }

    /** Sends a command. It is refused once a disconnect or a free was asked for. */
    method AsyncCommand(id: nat, cb: Callback, argv: seq<seq<Byte>>) returns (ok: bool)
      requires Sound(None) && id in ctxs && Ordinary(argv)
      modifies this`ctxs, this`events
      ensures Sound(None) && Later(old(Now()), Now())
      ensures ok <==> Accepts(old(ctxs)[id], argv)
      ensures Now() == Sent(old(Now()), id, cb, argv)
    {
      hide Coherent, Mirror, Links, Addresses, Buried, Later, Named, Held;
      LaterRefl(Now());
      var c := ctxs[id];
      if c.disconnecting || c.freeing {
        return false;
      }
      var cmd, name := CommandBytes(argv);
      if Named(name, UNSUBSCRIBE) {
        return false;
      }
      var d := c.(replies := c.replies + [cb], accepted := c.accepted + [AsyncState.Command(argv, cb)], obuf := c.obuf + cmd);
      AcceptIsCoherent(c, AsyncState.Command(argv, cb));
      AcceptIsHeld(c, AsyncState.Command(argv, cb));
      Store(id, d, None);
      ghost var stored := Now();
      AddWrite(id, None);
      LaterTrans(old(Now()), stored, Now());
      return true;
    }

    // ---------- connections ----------

    /** A context at a new address. */
    method Allocate(d: Context, newConns: Conns) returns (id: nat)
      requires Sound(None) && Links(ctxs[next := d], newConns) && NoNewPointers(conns, newConns, next)
      requires Coherent(d) && Calm(d) && !d.inCallback
      requires d.ev.Some? ==> d.ev.value == Adapter(false, false) && FdFree(ctxs, d.fd)
      modifies this
      ensures Sound(None) && Later(old(Now()), Now())
      ensures id == old(next) && id !in old(ctxs) && served == old(served)
      ensures Now() == old(Now()).(cs := old(ctxs)[id := d], conns := newConns, next := id + 1)
    {
      hide Coherent, Calm, Settled, Mirror, Links, Addresses, Buried, Later, NoNewPointers;
      AddKeepsRest(ctxs, next, d, graves);
      AddKeepsMirror(ctxs, next, d, events);
      AddIsLater(Now(), d, newConns, graves);
      id := next;
      ctxs, conns, next := ctxs[id := d], newConns, next + 1;
    }

    /** Starts connecting a connection that has no context in use. */
    method Connect(k: nat, r: ConnectResult) returns (ok: bool)
      requires Sound(None) && k in conns && (r.Started? ==> FdFree(ctxs, r.fd))
      modifies this
      ensures Sound(None) && Later(old(Now()), Now())
      ensures ok <==> old(conns)[k].state == Init && r.Started?
      ensures Now() == Attempting(old(Now()), k, r) && served == old(served)
    {
      hide Settled, Mirror, Links, Addresses, Buried, Later;
      LaterRefl(Now());
      var conn := conns[k];
      if conn.state != Init {
        return false;
      }
      match r
      case NoContext =>
        DropKeepsLinks(ctxs, conns, k);
        ForgetIsLater(Now(), k);
        conns := conns[k := conn.(ctx := None)];
        return false;
      case FailedContext =>
        NewContextIsCoherent(-1, true, None, None);
        var _ := AllocateFor(k, NewContext(-1, true, None, None), Init);
        return false;
      case Started(fd) =>
        NewContextIsCoherent(fd, false, Some(Adapter(false, false)), Some(k));
        var id := AllocateFor(k, NewContext(fd, false, Some(Adapter(false, false)), Some(k)), Connecting);
        ghost var added := Now();
        AddWrite(id, None);
        LaterTrans(old(Now()), added, Now());
        return true;
    }

    method AllocateFor(k: nat, d: Context, state: State) returns (id: nat)
      requires Sound(None) && k in conns && conns[k].state == Init && Coherent(d) && Calm(d)
      requires !d.connected && !d.refused && !d.inCallback
      requires if d.data == None then d.ev == None && state == Init else d.data == Some(k) && state == Connecting
      requires d.ev.Some? ==> d.ev.value == Adapter(false, false) && FdFree(ctxs, d.fd)
      modifies this
      ensures Sound(None) && Later(old(Now()), Now())
      ensures id == old(next) && id !in old(ctxs) && served == old(served)
      ensures Now() == old(Now()).(cs := old(ctxs)[id := d], next := id + 1,
                                   conns := old(conns)[k := old(conns)[k].(state := state, ctx := Some(id))])
    {
      hide Coherent, Calm, Settled, Mirror, Links, Buried, Later;
      var conn := conns[k].(state := state, ctx := Some(next));
      AttachKeepsLinks(ctxs, next, d, conns, k, conn);
      id := Allocate(d, conns[k := conn]);
    }

    /** Stores fields of a connection, new or old, other than its state and its context. */
    method StoreConn(k: nat, conn: Conn)
      requires Sound(None)
      requires if k in conns then conn.state == conns[k].state && conn.ctx == conns[k].ctx
               else conn.state == Init && conn.ctx == None
      modifies this`conns
      ensures Sound(None) && Later(old(Now()), Now()) && conns == old(conns)[k := conn]
    {
      hide Settled, Mirror, Links, Addresses, Buried, Later;
      OptKeepsLinks(ctxs, conns, k, conn);
      OptIsLater(Now(), k, conn);
      conns := conns[k := conn];
    }

    method InitConn(k: nat, port: int, r: ConnectResult) returns (ok: bool)
      requires Sound(None) && k in conns && (r.Started? ==> FdFree(ctxs, r.fd))
      modifies this
      ensures Sound(None) && Later(old(Now()), Now())
      ensures ok <==> old(conns)[k].port == 0 && old(conns)[k].state == Init && r.Started?
      ensures Now() == Initialised(old(Now()), k, port, r) && served == old(served)
    {
      hide Settled, Mirror, Links, Addresses, Buried, Later;
      LaterRefl(Now());
      if conns[k].port != 0 {
        return false;
      }
      StoreConn(k, conns[k].(port := port));
      ghost var stored := Now();
      ok := Connect(k, r);
      LaterTrans(old(Now()), stored, Now());
    }

    /** Sends a command through a connection; the callback object must be the last one created. */
    method AsyncCmdArgv(k: nat, opt: nat, argv: seq<seq<Byte>>) returns (ok: bool)
      requires Sound(None) && k in conns && Ordinary(argv)
      modifies this
      ensures Sound(None) && Later(old(Now()), Now())
      ensures old(conns)[k].ctx.Some? ==> old(conns)[k].ctx.value in old(ctxs)
      ensures ok <==> Usable(old(Now()), k, opt) && Accepts(old(ctxs)[old(conns)[k].ctx.value], argv)
      ensures Now() == SentOn(old(Now()), k, opt, argv) && served == old(served)
    {
      hide Settled, Mirror, Addresses, Buried, Later, Named;
      LaterRefl(Now());
      assert LinkOk(k, conns[k], ctxs);
      if conns[k].ctx == None {
        return false;
      }
      if conns[k].newOpt != Some(opt) {
        return false;
      }
      StoreConn(k, conns[k].(newOpt := None));
      ghost var stored := Now();
      ok := AsyncCommand(conns[k].ctx.value, Function(opt), argv);
      LaterTrans(old(Now()), stored, Now());
    }

    /** A context of its own, attached to the loop, that belongs to no connection. */
    method ConnectAlone(fd: int) returns (id: nat)
      requires Sound(None) && FdFree(ctxs, fd)
      modifies this
      ensures Sound(None) && Later(old(Now()), Now())
      ensures id == old(next) && id !in old(ctxs) && served == old(served)
      ensures Now() == Alone(old(Now()), fd)
    {
      hide Settled, Mirror, Links, Buried, Later;
      var d := NewContext(fd, false, Some(Adapter(false, false)), None);
      NewContextIsCoherent(fd, false, Some(Adapter(false, false)), None);
      AddKeepsLinks(ctxs, next, d, conns);
      id := Allocate(d, conns);
    }

    // ---------- user code ----------

    /** One call of the API, whichever it is. */
    method UserAction(act: Api, fuel: nat)
      requires Sound(None)
      modifies this
      ensures Sound(None) && Later(old(Now()), Now())
      ensures ApiEffect(old(Now()), Now(), act)
      decreases fuel, 4
    {
      hide Coherent, Calm, Settled, Mirror, Links, Addresses, Buried, Later, Ordinary, Accepts, LastState;
      LaterRefl(Now());
      if !Allowed(ctxs, conns, act) {
        return;
      }
      match act {
        case Send(id, cb, argv) =>
          CommandNamed(argv);
          var _ := AsyncCommand(id, cb, argv);
        case AskDisconnect(id) =>
          AsyncDisconnect(id, fuel);
          if id !in ctxs {
            LastStateKeeps(old(ctxs)[id].(disconnecting := true), graves[id]);
            NoPointers(id, ctxs, conns);
          }
        case AskFree(id) =>
          AsyncFree(id, fuel);
          if id !in ctxs {
            LastStateKeeps(old(ctxs)[id].(freeing := true), graves[id]);
            NoPointers(id, ctxs, conns);
          }
        case SendOn(k, opt, argv) =>
          CommandNamed(argv);
          var _ := AsyncCmdArgv(k, opt, argv);
        case CreateOpt(k, opt) =>
          StoreConn(k, conns[k].(newOpt := Some(opt)));
        case CreateConn(k) =>
          StoreConn(k, Conn(0, Init, None, None));
        case InitOn(k, port, r) =>
          var _ := InitConn(k, port, r);
        case ConnectTo(fd) =>
          var _ := ConnectAlone(fd);
      }
    }

    /** What a callback does: any number of calls, each of which may run further callbacks, nested as
        deep as the fuel allows. */
    method UserCode(acts: seq<Api>, fuel: nat) returns (ghost moments: seq<Moment>)
      requires Sound(None)
      modifies this
      ensures Sound(None) && Later(old(Now()), Now())
      ensures IsCode(acts, moments) && moments[0] == old(Now()) && moments[|acts|] == Now()
      decreases fuel, 5
    {
      hide Settled, Mirror, Links, Addresses, Buried, Later, ApiEffect;
      LaterRefl(Now());
      moments := [Now()];
      for i := 0 to |acts|
        invariant Sound(None) && Later(old(Now()), Now())
        invariant |moments| == i + 1 && moments[0] == old(Now()) && moments[i] == Now()
        invariant forall j :: 0 <= j < i ==> ApiEffect(moments[j], moments[j + 1], acts[j])
      {
        ghost var now := Now();
        UserAction(acts[i], fuel);
        LaterTrans(old(Now()), now, Now());
        moments := moments + [Now()];
      }
    }

    // ---------- events ----------

    /** The context, alive or freed. */
    ghost function Last(id: nat): Context
      requires id in ctxs || id in graves
      reads this
    {
      LastIn(Snap(), id)
    }

    /** Asks the reader for a reply. */
    method GetReplyOf(id: nat) returns (ok: bool, v: Option<Reply>)
      requires Sound(None) && id in ctxs && !ctxs[id].inCallback && !ctxs[id].err
      modifies this`ctxs
      ensures Between(id) && Later(old(Now()), Now())
      ensures ValidReader(old(ctxs)[id].reader) && v == GetReply(old(ctxs)[id].reader).1
      ensures ctxs == old(ctxs)[id := Asked(old(ctxs)[id])]
      ensures ok == !ctxs[id].err && (!ok ==> v == None)
    {
      hide Coherent, Mirror, Links, Addresses, Buried, Later, Held;
      var c := ctxs[id];
      PopIsCoherent(c);
      var (r, reply) := GetReply(c.reader);
      FlagsDoNotMatter(c.(reader := r, popped := Taken(c.popped, reply)), Asked(c));
      Store(id, c.(reader := r, popped := Taken(c.popped, reply), err := r.Failed?), Some(id));
      return !r.Failed?, reply;
    }

    ghost predicate Justified()
      reads this
    {
      JustifiedIn(Snap())
    }

    ghost predicate Judged(id: nat)
      reads this
    {
      JudgedIn(Snap(), id)
    }

    /** A context that was c goes on waiting for what it waited for, or is gone: then all its callbacks
        have run and its connection was told. */
    ghost predicate Settles(c: Context, id: nat)
      reads this
    {
      if id in ctxs then WaitsOn(c, ctxs[id]) else id in graves && graves[id].replies == [] && Told(graves[id], conns)
    }

    /** Disconnects where the outcome of the assertion is decided. */
    method EndByDisconnect(id: nat, fuel: nat)
      requires Between(id) && Releasable(id, ctxs, conns) && Decided(ctxs[id])
      modifies this
      ensures halt == Running ==>
        Sound(None) && Later(old(Now()), Now()) && id !in ctxs && id in graves && graves[id].replies == []
        && Told(graves[id], conns)
      ensures halt != Running ==> ctxs == old(ctxs)
      ensures Judged(id) && Processing(old(ctxs)[id], Last(id))
      ensures !old(ctxs)[id].err ==> Last(id).freeing == old(ctxs)[id].freeing
    {
      hide Coherent, Mirror, Links, Addresses, Buried, Later, Releasable, LastState, TripsPending, TripsSpontaneous;
      ghost var c := ctxs[id];
      DisconnectContext(id, fuel);
      if halt == Running {
        DecidedStays(c, graves[id]);
        NothingQueued(c, graves[id]);
      }
    }

    /** One turn of the loop over the replies. */
    method ProcessReply(id: nat, fuel: nat) returns (go: bool)
      requires Sound(None) && id in ctxs && !ctxs[id].inCallback && !ctxs[id].err
      requires ctxs[id].connected && ctxs[id].ev.Some?
      modifies this
      ensures halt == Running ==> Sound(None) && Later(old(Now()), Now())
      ensures id in ctxs || id in graves
      ensures Processing(old(ctxs)[id], Last(id))
      ensures go ==>
        && halt == Running && id in ctxs && !ctxs[id].inCallback && !ctxs[id].err
        && Unread(ctxs[id].reader) < Unread(old(ctxs)[id].reader)
      ensures Justified() && (!go ==> Judged(id))
      ensures !go && halt == Running && id in ctxs ==> UpToDate(ctxs[id])
      ensures UpToDate(old(ctxs)[id]) ==> !go && !Last(id).freeing
      ensures Settles(old(ctxs)[id], id)
    {
      hide Coherent, Mirror, Links, Addresses, Buried, Later, Releasable, LastState, TripsPending, TripsSpontaneous, Decided;
      ghost var c := ctxs[id];
      if UpToDate(c) {
        AskedUpToDate(c);
      }
      ConnectedIsReleasable(id, ctxs, conns);
      var ok, v := GetReplyOf(id);
      ReleasableFlags(id, old(ctxs), ctxs[id], conns);
      ghost var asked := Now();
      if !ok {
        AskedFailed(c);
        EndByDisconnect(id, fuel);
        if halt == Running {
          LaterTrans(old(Now()), asked, Now());
        }
        return false;
      }
      if v == None {
        AskedDry(c);
        if ctxs[id].disconnecting && |ctxs[id].obuf| == 0 {
          EndByDisconnect(id, fuel);
          if halt == Running {
            LaterTrans(old(Now()), asked, Now());
          }
        }
        return false;
      }
      if ctxs[id].replies == [] {
        AskedTooMany(c);
        if v.value.Error? {
          SetError(id);
          ghost var marked := Now();
          LaterTrans(old(Now()), asked, marked);
          EndByDisconnect(id, fuel);
          if halt == Running {
            LaterTrans(old(Now()), marked, Now());
          }
        } else {
          halt := Spontaneous(id);
        }
        return false;
      }
      AskedReply(c);
      go := Deliver(id, v.value, fuel);
      LaterTrans(old(Now()), asked, Now());
    }

    method SetError(id: nat)
      requires Between(id)
      modifies this`ctxs
      ensures Between(id) && ctxs == old(ctxs)[id := old(ctxs)[id].(err := true)]
      ensures Releasable(id, old(ctxs), conns) ==> Releasable(id, ctxs, conns)
      ensures Later(old(Now()), Now())
    {
      hide Coherent, Mirror, Links, Addresses, Buried, Later;
      FlagsDoNotMatter(ctxs[id], ctxs[id].(err := true));
      Store(id, ctxs[id].(err := true), Some(id));
    }

    /** Hands a reply to the callback at the head of the queue, and frees the context if the callback
        asked for it. */
    method Deliver(id: nat, reply: Reply, fuel: nat) returns (go: bool)
      requires Between(id) && ctxs[id].connected && ctxs[id].ev.Some? && !ctxs[id].err && ctxs[id].replies != []
      requires |ctxs[id].popped| == Shifted(ctxs[id]) + 1
      requires ReplyFor(ctxs[id].popped, Shifted(ctxs[id])) == Some(reply) && !ctxs[id].freeing && !ctxs[id].refused
      modifies this
      ensures Sound(None) && Later(old(Now()), Now())
      ensures id in ctxs || id in graves
      ensures Processing(old(ctxs)[id], Last(id))
      ensures go ==> id in ctxs && !ctxs[id].inCallback && !ctxs[id].err && ctxs[id].reader == old(ctxs)[id].reader
      ensures id in ctxs ==> WaitsOn(old(ctxs)[id], ctxs[id])
      ensures !go ==> id !in ctxs && Last(id).freeing && Last(id).replies == [] && Told(Last(id), conns)
    {
      hide Coherent, Mirror, Links, Addresses, Buried, Later, Releasable;
      var cb := ShiftCallback(id);
      ghost var shifted := Now();
      ghost var _ := RunCallback(id, cb, Some(reply), fuel);
      LaterShift(old(Now()), shifted, Now(), id);
      if cb.Function? && ctxs[id].freeing {
        ghost var back := Now();
        ConnectedIsReleasable(id, ctxs, conns);
        FreeContext(id, fuel);
        LaterTrans(old(Now()), back, Now());
        return false;
      }
      return true;
    }

    /** Hands every complete reply to its callback. Afterwards an assertion has ended the program
        exactly when it had to; otherwise the context is gone or no complete reply is left. */
    method ProcessCallbacks(id: nat, fuel: nat)
      requires Sound(None) && id in ctxs && !ctxs[id].inCallback && !ctxs[id].err
      requires ctxs[id].connected && ctxs[id].ev.Some?
      modifies this
      ensures halt == Running ==> Sound(None) && Later(old(Now()), Now())
      ensures (id in ctxs || id in graves) && Judged(id) && Processing(old(ctxs)[id], Last(id)) && Justified()
      ensures halt == Running && id in ctxs ==> UpToDate(ctxs[id])
      ensures UpToDate(old(ctxs)[id]) ==> !Last(id).freeing
      ensures Settles(old(ctxs)[id], id)
    {
      hide Coherent, Calm, Settled, Mirror, Links, Addresses, Buried, Later, Judged;
      LaterRefl(Now());
      var go := true;
      while go
        invariant halt == Running ==> Sound(None) && Later(old(Now()), Now())
        invariant (id in ctxs || id in graves) && Processing(old(ctxs)[id], Last(id))
        invariant go ==> halt == Running && id in ctxs && !ctxs[id].inCallback && !ctxs[id].err
        invariant Justified() && (!go ==> Judged(id))
        invariant !go && halt == Running && id in ctxs ==> UpToDate(ctxs[id])
        invariant Settles(old(ctxs)[id], id)
        invariant UpToDate(old(ctxs)[id]) ==> if go then ctxs[id] == old(ctxs)[id] else !Last(id).freeing
        decreases go, if id in ctxs then Unread(ctxs[id].reader) else 0
      {
        ghost var now, c := Now(), ctxs[id];
        go := ProcessReply(id, fuel);
        ProcessingTrans(old(ctxs)[id], c, Last(id));
        if halt == Running {
          LaterTrans(old(Now()), now, Now());
        }
      }
    }

    /** The first event on a context tells whether its connection attempt succeeded. */
    method HandleConnect(id: nat, status: SocketStatus, fuel: nat) returns (ok: bool)
      requires Sound(None) && id in ctxs && !ctxs[id].inCallback && ctxs[id].ev.Some? && !ctxs[id].connected
      modifies this
      ensures Sound(None) && Later(old(Now()), Now())
      ensures ok <==> status != Refused
      ensures ok ==> halt == old(halt) && events == old(events) && Now() == Attempted(old(Now()), id, status)
      ensures !ok ==> RefusedEffect(old(Now()), Now(), id)
    {
      hide Coherent, Mirror, Links, Addresses, Buried, Later, LastState;
      match status
      case InProgress =>
        FlagsDoNotMatter(ctxs[id], ctxs[id].(err := true));
        Store(id, ctxs[id].(err := true), None);
        return true;
      case Refused =>
        OnRefused(id);
        ghost var told := Now();
        DisconnectContext(id, fuel);
        LaterTrans(old(Now()), told, Now());
        LastStateKeeps(told.cs[id].(disconnecting := true), graves[id]);
        NoPointers(id, ctxs, conns);
        return false;
      case Ready =>
        OnConnected(id);
        return true;
    }

    /** The error is noted and the connection is told that the attempt failed. */
    method OnRefused(id: nat)
      requires Sound(None) && id in ctxs && !ctxs[id].inCallback && ctxs[id].ev.Some? && !ctxs[id].connected
      modifies this`ctxs, this`conns
      ensures Between(id) && Releasable(id, ctxs, conns) && Later(old(Now()), Now())
      ensures ctxs == old(ctxs)[id := old(ctxs)[id].(refused := true, err := true)]
      ensures conns == Forgotten(old(ctxs)[id], old(conns)) && |ctxs[id].popped| == Shifted(ctxs[id])
    {
      hide Coherent, Mirror, Links, Addresses, Buried, Later, Releasable;
      var d := ctxs[id].(refused := true, err := true);
      RefuseKeepsLinks(ctxs, id, conns, events);
      AddressesKept(ctxs, id, d, graves, next);
      RefuseIsCoherent(ctxs[id], d);
      ConnsAreLater(Now(), id, d, Forgotten(ctxs[id], conns));
      conns := Forgotten(ctxs[id], conns);
      ctxs := ctxs[id := d];
    }

    /** The connection is told that the attempt succeeded. */
    method OnConnected(id: nat)
      requires Sound(None) && id in ctxs && !ctxs[id].inCallback && ctxs[id].ev.Some? && !ctxs[id].connected
      modifies this`ctxs, this`conns
      ensures Sound(None) && Later(old(Now()), Now())
      ensures Now() == Attempted(old(Now()), id, Ready)
    {
      hide Coherent, Mirror, Links, Addresses, Buried, Later;
      var d := ctxs[id].(connected := true);
      EstablishKeepsLinks(ctxs, id, conns, events);
      AddressesKept(ctxs, id, d, graves, next);
      ConnectIsCoherent(ctxs[id], d);
      ConnsAreLater(Now(), id, d, Established(ctxs[id], conns));
      conns := Established(ctxs[id], conns);
      ctxs := ctxs[id := d];
    }

    /** Reads what there is to read from the socket. */
    method BufferRead(id: nat, input: ReadResult) returns (ok: bool)
      requires Sound(None) && id in ctxs && !ctxs[id].inCallback
      modifies this`ctxs
      ensures Sound(None) && Later(old(Now()), Now()) && id in ctxs
      ensures ok <==> Reads(old(ctxs)[id].(connected := true), Ready, input)
      ensures ok ==> ctxs[id] == Received(old(ctxs)[id], Arrived(input))
      ensures !ok ==> ctxs[id] == old(ctxs)[id].(err := true)
      ensures ctxs == old(ctxs)[id := ctxs[id]]
    {
      hide Coherent, Mirror, Links, Addresses, Buried, Later, Feed;
      LaterRefl(Now());
      var c := ctxs[id];
      if c.err {
        return false;
      }
      match input
      case ReadAgain =>
        ReceivedNothing(c);
        return true;
      case ReadError =>
        FlagsDoNotMatter(c, c.(err := true));
        Store(id, c.(err := true), None);
        return false;
      case Data(chunk) =>
        if c.reader.Failed? {
          FlagsDoNotMatter(c, c.(err := true));
          Store(id, c.(err := true), None);
          return false;
        }
        FeedIsCoherent(c, chunk);
        Store(id, c.(reader := Feed(c.reader, chunk), received := c.received + chunk), None);
        return true;
    }

    /** The socket of a connected context is readable. */
    method HandleReadable(id: nat, input: ReadResult, fuel: nat)
      requires Sound(None) && id in ctxs && !ctxs[id].inCallback && ctxs[id].ev.Some? && ctxs[id].connected
      modifies this
      ensures halt == Running ==> Sound(None) && Later(old(Now()), Now())
      ensures ReadEffect(old(Snap()), Snap(), id, Ready, input) && Known(Snap(), id)
      ensures Justified()
    {
      hide Coherent, Mirror, Links, Addresses, Buried, Later, JudgedIn, Releasable, LastState;
      var ok := BufferRead(id, input);
      ghost var fed := Now();
      if !ok {
        ConnectedIsReleasable(id, ctxs, conns);
        DisconnectContext(id, fuel);
        LastStateKeeps(fed.cs[id].(disconnecting := true), graves[id]);
        TellsAll(old(Now()), Now(), id);
        LaterTrans(old(Now()), fed, Now());
      } else {
        AddRead(id, None);
        ghost var added := Now();
        LaterTrans(old(Now()), fed, added);
        ProcessCallbacks(id, fuel);
        if halt == Running {
          LaterTrans(old(Now()), added, Now());
          if id !in ctxs {
            TellsAll(old(Now()), Now(), id);
          }
        }
      }
    }

    /** The socket is readable. */
    method HandleRead(id: nat, status: SocketStatus, input: ReadResult, fuel: nat)
      requires Sound(None) && id in ctxs && !ctxs[id].inCallback && ctxs[id].ev.Some?
      modifies this
      ensures halt == Running ==> Sound(None) && Later(old(Now()), Now())
      ensures ReadEffect(old(Snap()), Snap(), id, status, input) && Known(Snap(), id)
      ensures Justified()
    {
      hide Coherent, Calm, Settled, Mirror, Links, Addresses, Buried, Later, Judged, Releasable, LastState;
      hide TripsPending, TripsSpontaneous, ReadEffect, RefusedEffect, Attempted;
      ghost var s := Snap();
      AttemptConnects(s.now, id, status);
      if !ctxs[id].connected {
        var ok := HandleConnect(id, status, fuel);
        if !ok {
          NotRead(s, Snap(), id, status, input);
          return;
        }
        if !ctxs[id].connected {
          NotRead(s, Snap(), id, status, input);
          return;
        }
      }
      ghost var now, m := Now(), Snap();
      HandleReadable(id, input, fuel);
      AttemptThenRead(s, m, Snap(), id, status, input);
      if halt == Running {
        LaterTrans(old(Now()), now, Now());
      }
    }

    /** Writes what the socket takes of the output buffer. */
    method BufferWrite(id: nat, room: WriteResult) returns (ok: bool, done: bool)
      requires Sound(None) && id in ctxs && !ctxs[id].inCallback && ctxs[id].connected
      modifies this`ctxs
      ensures Sound(None) && Later(old(Now()), Now()) && id in ctxs
      ensures ok <==> Writes(old(ctxs)[id], Ready, room)
      ensures ok ==> done == (ctxs[id].obuf == []) && Written(old(ctxs)[id], ctxs[id], room)
      ensures ok ==> SameShape(old(ctxs)[id], ctxs[id])
      ensures !ok ==> ctxs[id] == old(ctxs)[id].(err := true)
      ensures ctxs == old(ctxs)[id := ctxs[id]]
    {
      hide Coherent, Mirror, Links, Addresses, Buried, Later;
      LaterRefl(Now());
      var c := ctxs[id];
      if c.err {
        return false, false;
      }
      if |c.obuf| > 0 {
        match room
        case WriteAgain =>
        case WriteError =>
          FlagsDoNotMatter(c, c.(err := true));
          Store(id, c.(err := true), None);
          return false, false;
        case Wrote(n) =>
          var k := if n < |c.obuf| then n else |c.obuf|;
          WriteIsCoherent(c, k);
          Store(id, c.(obuf := c.obuf[k..], sent := c.sent + c.obuf[..k]), None);
      }
      return true, |ctxs[id].obuf| == 0;
    }

    /** The socket is writable. */
    method HandleWrite(id: nat, status: SocketStatus, room: WriteResult, fuel: nat)
      requires Sound(None) && id in ctxs && !ctxs[id].inCallback && ctxs[id].ev.Some?
      modifies this
      ensures Sound(None) && Later(old(Now()), Now())
      ensures WriteEffect(old(Snap()), Snap(), id, status, room) && Known(Snap(), id)
    {
      hide Coherent, Calm, Settled, Mirror, Links, Addresses, Buried, Later, Releasable, LastState, WriteEffect, RefusedEffect, Attempted;
      ghost var s := Snap();
      AttemptConnects(s.now, id, status);
      if !ctxs[id].connected {
        var ok := HandleConnect(id, status, fuel);
        if !ok {
          NotWrite(s, Snap(), id, status, room);
          return;
        }
        if !ctxs[id].connected {
          NotWrite(s, Snap(), id, status, room);
          return;
        }
      }
      ghost var now, m := Now(), Snap();
      HandleWritable(id, room, fuel);
      AttemptThenWrite(s, m, Snap(), id, status, room);
      LaterTrans(old(Now()), now, Now());
    }

    /** The socket of a connected context is writable. */
    method HandleWritable(id: nat, room: WriteResult, fuel: nat)
      requires Sound(None) && id in ctxs && !ctxs[id].inCallback && ctxs[id].ev.Some? && ctxs[id].connected
      modifies this
      ensures Sound(None) && Later(old(Now()), Now())
      ensures WriteEffect(old(Snap()), Snap(), id, Ready, room) && Known(Snap(), id)
    {
      hide Coherent, Mirror, Links, Addresses, Buried, Later, Releasable, LastState;
      var ok, done := BufferWrite(id, room);
      ghost var written := Now();
      if !ok {
        ConnectedIsReleasable(id, ctxs, conns);
        DisconnectContext(id, fuel);
        LastStateKeeps(written.cs[id].(disconnecting := true), graves[id]);
        TellsAll(old(Now()), Now(), id);
      } else {
        Rewait(id, done);
      }
      LaterTrans(old(Now()), written, Now());
    }

    /** Goes on writing if there is something left, and always reads. */
    method Rewait(id: nat, done: bool)
      requires Sound(None) && id in ctxs && !ctxs[id].inCallback && ctxs[id].ev.Some?
      modifies this`ctxs, this`events
      ensures Sound(None) && Later(old(Now()), Now())
      ensures ctxs == old(ctxs)[id := old(ctxs)[id].(ev := Some(Adapter(true, !done)))]
    {
      hide Settled, Mirror, Links, Addresses, Buried, Later;
      if !done {
        AddWrite(id, None);
      } else {
        DelWrite(id, None);
      }
      ghost var now := Now();
      AddRead(id, None);
      LaterTrans(old(Now()), now, Now());
    }
  }

  // ---------- the loop ----------

  /** A call of a handler: the answer it got, and the world before and after. */
  datatype Call = HandlerCall(handler: Handler, data: nat, answer: Answer, before: Snapshot, after: Snapshot)

  /** In state s the handler h was called with data, which is a context that is alive, and has done what
      such a handler does. */
  ghost predicate IsCall(k: Call, h: Handler, data: nat, answer: Answer, s: Snapshot) {
    && k.handler == h && k.data == data && k.answer == answer && k.before == s && data in s.now.cs
    && match h
       case ReadEvent => ReadEffect(s, k.after, data, answer.status, answer.input)
       case WriteEvent => WriteEffect(s, k.after, data, answer.status, answer.room)
       case Other(_) => false
  }

  predicate FiresRead(s: Snapshot, f: Fired) {
    f.mask.readable && f.fd in s.events && s.events[f.fd].onRead.Some?
  }

  predicate FiresWrite(s: Snapshot, f: Fired) {
    f.mask.writable && f.fd in s.events && s.events[f.fd].onWrite.Some?
  }

  /** The calls made for a descriptor that fired in state s, which lead to state t: exactly the handlers
      of its directions that are registered, each at the moment it is called. */
  ghost predicate Dispatched(f: Fired, s: Snapshot, ks: seq<Call>, t: Snapshot) {
    if FiresRead(s, f) then
      && ks != [] && IsCall(ks[0], s.events[f.fd].onRead.value, s.events[f.fd].data, f.onRead, s)
      && WriteDispatched(f, ks[0].after, ks[1..], t)
    else WriteDispatched(f, s, ks, t)
  }

  ghost predicate WriteDispatched(f: Fired, s: Snapshot, ks: seq<Call>, t: Snapshot) {
    if s.halt == Running && FiresWrite(s, f) then
      |ks| == 1 && IsCall(ks[0], s.events[f.fd].onWrite.value, s.events[f.fd].data, f.onWrite, s) && t == ks[0].after
    else ks == [] && t == s
  }

  /** The calls made for the descriptors of a batch, one after the other until an assertion ends the
      program: states[j] is the state in which the j-th is looked at, and parts[j] the calls for it. */
  ghost predicate Batched(fired: seq<Fired>, states: seq<Snapshot>, parts: seq<seq<Call>>) {
    && |states| == |parts| + 1 <= |fired| + 1
    && (forall j :: 0 <= j < |parts| ==>
          states[j].halt == Running && Dispatched(fired[j], states[j], parts[j], states[j + 1]))
    && (|parts| == |fired| || states[|parts|].halt != Running)
  }

  /** What the program is asked to do next. */
  datatype Act = Poll(fired: seq<Fired>) | Tick | Do(act: Api)

  /** What it has done then. */
  datatype Turn = Turn(before: Snapshot, after: Snapshot, states: seq<Snapshot>, parts: seq<seq<Call>>,
                       answers: map<nat, ConnectResult>)

  ghost predicate IsTurn(act: Act, t: Turn) {
    match act
    case Poll(fired) => Batched(fired, t.states, t.parts) && t.states[0] == t.before && t.states[|t.parts|] == t.after
    case Tick => Retried(t.before.now.conns, t.after.now.conns, t.answers)
    case Do(a) => t.after.halt == Running && ApiEffect(t.before.now, t.after.now, a)
  }

  /** Every connection in its initial state, and no other, has tried to connect, and is connecting if the
      system let it. */
  ghost predicate Retried(a: Conns, b: Conns, answers: map<nat, ConnectResult>) {
    && b.Keys == a.Keys
    && (forall k :: k in answers <==> k in a && a[k].state == Init)
    && (forall k :: k in a ==>
          && b[k].port == a[k].port && b[k].newOpt == a[k].newOpt
          && (if k !in answers then b[k] == a[k]
              else if answers[k].Started? then b[k].state == Connecting && b[k].ctx.Some?
              else b[k].state == Init))
  }

  /** The first acts were carried out one after the other, which led from s to t. */
  ghost predicate Leads(acts: seq<Act>, s: Snapshot, turns: seq<Turn>, t: Snapshot) {
    && |turns| <= |acts|
    && (forall i :: 0 <= i < |turns| ==> turns[i].before == StartOf(s, turns, i) && IsTurn(acts[i], turns[i]))
    && t == StartOf(s, turns, |turns|)
  }

  /** The state in which turn i begins: where the one before ended. */
  ghost function StartOf(s: Snapshot, turns: seq<Turn>, i: nat): Snapshot
    requires i <= |turns|
  {
    if i == 0 then s else turns[i - 1].after
  }

  /** A whole run, act by act, until an assertion ends the program. */
  ghost predicate IsRun(acts: seq<Act>, s: Snapshot, turns: seq<Turn>, t: Snapshot) {
    Leads(acts, s, turns, t) && (|turns| == |acts| || t.halt != Running)
  }

  lemma LeadsNowhere(acts: seq<Act>, s: Snapshot)
    ensures Leads(acts, s, [], s)
  {
  }

  lemma LeadsOn(acts: seq<Act>, s: Snapshot, turns: seq<Turn>, turn: Turn)
    requires Leads(acts, s, turns, turn.before) && |turns| < |acts| && IsTurn(acts[|turns|], turn)
    ensures Leads(acts, s, turns + [turn], turn.after)
  {
    hide IsTurn;
    var us := turns + [turn];
    forall i | 0 <= i < |us| ensures us[i].before == StartOf(s, us, i) && IsTurn(acts[i], us[i]) {
      assert StartOf(s, us, i) == StartOf(s, turns, i);
      assert i < |turns| ==> us[i] == turns[i];
    }
  }

  class Loop {
    const w: World

    constructor (w: World)
      ensures this.w == w
    {
      this.w := w;
    }

    /** All is well between events. */
    ghost predicate Idle()
      reads w
    {
      w.Sound(None) && w.Quiet()
    }

    /** A handler is called with what was registered with it: a context that is alive. */
    method CallHandler(h: Handler, data: nat, answer: Answer, fuel: nat) returns (ghost k: Call)
      requires Idle() && data in w.ctxs && w.ctxs[data].ev.Some? && !h.Other?
      modifies w
      ensures IsCall(k, h, data, answer, old(w.Snap())) && k.after == w.Snap()
      ensures w.Justified() && (w.halt == Running ==> Idle() && Later(old(w.Now()), w.Now()))
    {
      hide Coherent, Calm, Settled, Mirror, Links, Addresses, Buried, Later, TripsPending, TripsSpontaneous;
      hide ReadEffect, WriteEffect;
      match h {
        case ReadEvent =>
          w.HandleRead(data, answer.status, answer.input, fuel);
        case WriteEvent =>
          w.HandleWrite(data, answer.status, answer.room, fuel);
          WriteRunsOn(old(w.Snap()), w.Snap(), data, answer.status, answer.room);
      }
      k := HandlerCall(h, data, answer, old(w.Snap()), w.Snap());
      if w.halt == Running {
        LaterQuiet(old(w.Now()), w.Now());
      }
    }

    /** Calls the handlers of a descriptor that fired, those that are registered by then: an earlier
        handler, or the read handler for the write handler, may have removed them, or put another
        context behind the descriptor. */
    method ProcessFired(f: Fired, fuel: nat) returns (ghost ks: seq<Call>)
      requires Idle()
      modifies w
      ensures w.Justified() && (w.halt == Running ==> Idle() && Later(old(w.Now()), w.Now()))
      ensures Dispatched(f, old(w.Snap()), ks, w.Snap())
    {
      hide Coherent, Calm, Settled, Links, Addresses, Buried, Later, World.Justified, IsCall;
      NothingYet();
      var rfired := false;
      ks := [];
      if MaskOf(w.events, f.fd).readable && f.mask.readable {
        rfired := true;
        ghost var k := CallHandler(w.events[f.fd].onRead.value, w.events[f.fd].data, f.onRead, fuel);
        ks := [k];
        if w.halt != Running {
          return;
        }
      }
      ghost var now := w.Now();
      if MaskOf(w.events, f.fd).writable && f.mask.writable {
        if !rfired || w.events[f.fd].onWrite != w.events[f.fd].onRead {
          ghost var k := CallHandler(w.events[f.fd].onWrite.value, w.events[f.fd].data, f.onWrite, fuel);
          ks := ks + [k];
          if w.halt == Running {
            LaterTrans(old(w.Now()), now, w.Now());
          }
        }
      }
    }

    lemma NothingYet()
      requires Idle()
      ensures w.Justified() && Later(w.Now(), w.Now())
    {
      LaterRefl(w.Now());
    }

    /** Goes through the descriptors that fired. */
    method ProcessEvents(fired: seq<Fired>, fuel: nat)
      returns (processed: nat, ghost states: seq<Snapshot>, ghost parts: seq<seq<Call>>)
      requires Idle()
      modifies w
      ensures w.Justified() && (w.halt == Running ==> Idle() && Later(old(w.Now()), w.Now()) && processed == |fired|)
      ensures Batched(fired, states, parts) && states[0] == old(w.Snap()) && states[|parts|] == w.Snap()
    {
      hide Coherent, Calm, Settled, Mirror, Links, Addresses, Buried, Later, World.Justified, Dispatched;
      NothingYet();
      processed, states, parts := 0, [w.Snap()], [];
      for j := 0 to |fired|
        invariant processed == j && w.halt == Running && Idle() && Later(old(w.Now()), w.Now()) && w.Justified()
        invariant |states| == j + 1 && |parts| == j && states[0] == old(w.Snap()) && states[j] == w.Snap()
        invariant forall i :: 0 <= i < j ==>
          states[i].halt == Running && Dispatched(fired[i], states[i], parts[i], states[i + 1])
      {
        ghost var now := w.Now();
        ghost var ks := ProcessFired(fired[j], fuel);
        states, parts := states + [w.Snap()], parts + [ks];
        if w.halt != Running {
          return;
        }
        LaterTrans(old(w.Now()), now, w.Now());
        processed := processed + 1;
      }
    }

    /** The timer of the event manager: every connection without a context in use tries again, and is
        connecting afterwards if the system let it. */
    method ReconnectTimer() returns (ghost answers: map<nat, ConnectResult>)
      requires Idle()
      modifies w
      ensures Idle() && Later(old(w.Now()), w.Now()) && Retried(old(w.conns), w.conns, answers)
    {
      hide Coherent, Calm, Settled, Mirror, Links, Addresses, Buried, Later;
      LaterRefl(w.Now());
      answers := map[];
      var todo := w.conns.Keys;
      while todo != {}
        invariant w.Sound(None) && Later(old(w.Now()), w.Now())
        invariant todo <= w.conns.Keys == old(w.conns).Keys
        invariant forall k :: k in answers <==> k in old(w.conns) && k !in todo && old(w.conns)[k].state == Init
        invariant forall k :: k in old(w.conns) ==>
          && w.conns[k].port == old(w.conns)[k].port && w.conns[k].newOpt == old(w.conns)[k].newOpt
          && (if k !in answers then w.conns[k] == old(w.conns)[k]
              else if answers[k].Started? then w.conns[k].state == Connecting && w.conns[k].ctx.Some?
              else w.conns[k].state == Init)
      {
        ghost var now := w.Now();
        var k: nat :| k in todo;
        todo := todo - {k};
        var r: ConnectResult := *;
        if r.Started? && !FdFree(w.ctxs, r.fd) {
          r := NoContext;
        }
        if w.conns[k].state == Init {
          AttemptingConns(w.Now(), k, r);
          var _ := w.Connect(k, r);
          answers := answers[k := r];
          LaterTrans(old(w.Now()), now, w.Now());
        }
      }
      LaterQuiet(old(w.Now()), w.Now());
    }

    /** Any finite run of the program from here on: batches of events, the reconnect timer, and calls of
        the API from outside, in any order. */
    method Run(acts: seq<Act>, fuel: nat) returns (ghost turns: seq<Turn>)
      requires Idle()
      modifies w
      ensures w.Justified() && (w.halt == Running ==> Idle() && Later(old(w.Now()), w.Now()))
      ensures IsRun(acts, old(w.Snap()), turns, w.Snap())
    {
      hide Coherent, Calm, Settled, Mirror, Links, Addresses, Buried, Later, World.Justified, IsTurn, Leads;
      NothingYet();
      turns := [];
      LeadsNowhere(acts, w.Snap());
      for i := 0 to |acts|
        invariant w.halt == Running && Idle() && Later(old(w.Now()), w.Now()) && w.Justified()
        invariant |turns| == i && Leads(acts, old(w.Snap()), turns, w.Snap())
      {
        ghost var now := w.Now();
        ghost var turn := Perform(acts[i], fuel);
        LeadsOn(acts, old(w.Snap()), turns, turn);
        turns := turns + [turn];
        if w.halt != Running {
          return;
        }
        LaterTrans(old(w.Now()), now, w.Now());
        LaterQuiet(old(w.Now()), w.Now());
        NothingYet();
      }
    }

    method Perform(act: Act, fuel: nat) returns (ghost turn: Turn)
      requires Idle()
      modifies w
      ensures w.Justified() && (w.halt == Running ==> Idle() && Later(old(w.Now()), w.Now()))
      ensures IsTurn(act, turn) && turn.before == old(w.Snap()) && turn.after == w.Snap()
    {
      hide Coherent, Calm, Settled, Mirror, Links, Addresses, Buried, Later, World.Justified, Batched, Retried;
      ghost var states, parts, answers := [], [], map[];
      match act {
        case Poll(fired) =>
          var processed;
          processed, states, parts := ProcessEvents(fired, fuel);
        case Tick =>
          answers := ReconnectTimer();
          NothingYet();
        case Do(a) =>
          w.UserAction(a, fuel);
          LaterQuiet(old(w.Now()), w.Now());
          NothingYet();
      }
      turn := Turn(old(w.Snap()), w.Snap(), states, parts, answers);
    }
  }

  // ---------- the assertion of a disconnect ----------

  /** A disconnect asked for while replies are pending, and then a read event: the assertion ends the
      program only when everything was written and the bytes received by then hold fewer replies than
      there are commands, and always then unless a callback frees the context first. */
  method DisconnectThenRead(w: World, id: nat, input: ReadResult, fuel: nat)
    requires w.Sound(None) && id in w.ctxs && Reads(w.ctxs[id], InProgress, input)
    requires !w.ctxs[id].inCallback && w.ctxs[id].ev.Some? && w.ctxs[id].replies != []
    modifies w
    ensures id in w.ctxs || id in w.graves
    ensures var c, s := old(w.ctxs)[id], ParseStream(old(w.ctxs)[id].received + Arrived(input));
            var early := c.obuf == [] && !s.failed && |s.replies| < |c.accepted|;
            && (w.halt == PendingReplies(id) ==> early)
            && (early && !w.Last(id).freeing ==> w.halt == PendingReplies(id))
    ensures UpToDate(Received(old(w.ctxs)[id], Arrived(input))) ==> !w.Last(id).freeing
  {
    hide Coherent, Calm, Settled, Mirror, Links, Addresses, Buried, Later, Releasable;
    ConnectedIsReleasable(id, w.ctxs, w.conns);
    w.AsyncDisconnect(id, fuel);
    w.HandleRead(id, InProgress, input, fuel);
  }

  /** One such run from the start: connect, send one command, disconnect before its reply arrives. Each
      event is one the context waits for. */
  method EarlyDisconnect() returns (w: World)
    ensures fresh(w) && w.halt == PendingReplies(0)
  {
    hide Coherent, Calm, Settled, Mirror, Links, Addresses, Buried, Later;
    w := new World(_ => []);
    var id := w.ConnectAlone(7);
    var ping: seq<seq<Byte>> := [[112, 105, 110, 103]];
    var ok := w.AsyncCommand(id, Function(0), ping);
    assert w.ctxs[id].ev.value.writing;
    w.HandleWrite(id, Ready, Wrote(|w.ctxs[id].obuf|), 0);
    assert w.ctxs[id].ev.value.reading;
    assert w.ctxs[id].received + Arrived(ReadAgain) == [] && ParseStream([]) == Stream([], false);
    DisconnectThenRead(w, id, ReadAgain, 0);
  }

  lemma AttemptConnects(a: Moment, id: nat, status: SocketStatus)
    requires id in a.cs
    ensures var c := a.cs[id];
            && id in Attempted(a, id, status).cs
            && Attempted(a, id, status).cs[id]
               == (if status == Ready then c.(connected := true) else c.(err := true))
  {
  }

  // An event on a context that is not connected yet is an attempt first.

  lemma NotRead(s: Snapshot, t: Snapshot, id: nat, status: SocketStatus, input: ReadResult)
    requires id in s.now.cs && !s.now.cs[id].connected && status != Ready
    requires if status == Refused then t.halt == Running && RefusedEffect(s.now, t.now, id)
             else t == s.(now := Attempted(s.now, id, status))
    ensures ReadEffect(s, t, id, status, input) && Known(t, id)
  {
  }

  lemma NotWrite(s: Snapshot, t: Snapshot, id: nat, status: SocketStatus, room: WriteResult)
    requires s.halt == Running && id in s.now.cs && !s.now.cs[id].connected && status != Ready
    requires if status == Refused then t.halt == Running && RefusedEffect(s.now, t.now, id)
             else t == s.(now := Attempted(s.now, id, status))
    ensures WriteEffect(s, t, id, status, room) && Known(t, id)
  {
  }

  predicate Connected(s: Snapshot, m: Snapshot, id: nat, status: SocketStatus)
    requires id in s.now.cs
  {
    if s.now.cs[id].connected then m == s else status == Ready && m == s.(now := Attempted(s.now, id, Ready))
  }

  lemma ClosedAfterAttempt(a: Moment, b: Moment, id: nat)
    requires id in a.cs && Closed(Attempted(a, id, Ready), b, id)
    ensures Closed(a, b, id)
  {
    var m := Attempted(a, id, Ready);
    assert forall k :: k in a.conns ==> k in m.conns && m.conns[k].ctx == a.conns[k].ctx;
  }

  lemma AttemptThenRead(s: Snapshot, m: Snapshot, t: Snapshot, id: nat, status: SocketStatus, input: ReadResult)
    requires id in s.now.cs && Connected(s, m, id, status) && ReadEffect(m, t, id, Ready, input)
    ensures ReadEffect(s, t, id, status, input)
  {
    hide Closed, JudgedIn, Established;
    if !s.now.cs[id].connected && Closed(m.now, t.now, id) {
      ClosedAfterAttempt(s.now, t.now, id);
    }
  }

  lemma AttemptThenWrite(s: Snapshot, m: Snapshot, t: Snapshot, id: nat, status: SocketStatus, room: WriteResult)
    requires id in s.now.cs && Connected(s, m, id, status) && WriteEffect(m, t, id, Ready, room)
    ensures WriteEffect(s, t, id, status, room)
  {
    hide Closed, Established, Written, RefusedEffect;
    var c := s.now.cs[id];
    if !c.connected {
      AttemptConnects(s.now, id, Ready);
      ConnectedBefore(c, if id in t.now.cs then t.now.cs[id] else c, room);
      if Closed(m.now, t.now, id) {
        ClosedAfterAttempt(s.now, t.now, id);
      }
    }
  }

  lemma ConnectedBefore(c: Context, d: Context, room: WriteResult)
    ensures Written(c.(connected := true), d, room) <==> Written(c, d, room)
    ensures Writes(c.(connected := true), Ready, room) <==> Writes(c, Ready, room)
  {
  }

  lemma WriteRunsOn(s: Snapshot, t: Snapshot, id: nat, status: SocketStatus, room: WriteResult)
    requires id in s.now.cs && WriteEffect(s, t, id, status, room)
    ensures t.halt == Running
  {
  }

  lemma NothingQueued(c: Context, g: Context)
    requires LastState(c.(disconnecting := c.disconnecting || c.err), g)
    ensures g.replies == []
  {
  }

  lemma LastStateKeeps(c: Context, g: Context)
    requires LastState(c, g)
    ensures g.received == c.received && g.sent == c.sent && g.replies == [] && g.connected == c.connected && g.data == c.data
  {
  }

  lemma NoPointers(id: nat, cs: Contexts, conns: Conns)
    requires Links(cs, conns) && id !in cs
    ensures forall k :: k in conns ==> conns[k].ctx != Some(id)
  {
    forall k | k in conns ensures conns[k].ctx != Some(id) {
      assert LinkOk(k, conns[k], cs);
    }
  }

  /** Once its own connection was told, no other can have pointed to the context. */
  lemma TellsAll(a: Moment, b: Moment, id: nat)
    requires Links(a.cs, a.conns) && Links(b.cs, b.conns) && id in a.cs && a.cs[id].ev.Some?
    requires id !in b.cs && id in b.graves && b.graves[id].replies == [] && b.graves[id].sent == a.cs[id].sent
    requires b.graves[id].connected && b.graves[id].data == a.cs[id].data && Told(b.graves[id], b.conns)
    ensures Closed(a, b, id)
  {
    NoPointers(id, b.cs, b.conns);
    forall k | k in a.conns && a.conns[k].ctx == Some(id)
      ensures k in b.conns && b.conns[k].state == Init && b.conns[k].ctx == None
    {
      assert LinkOk(k, a.conns[k], a.cs);
    }
  }

  lemma NotRefusedConnected(c: Context)
    requires Coherent(c)
    ensures c.refused ==> !c.connected
  {
  }

  lemma BuriedWell(id: nat, cs: Contexts, conns: Conns, t: Table, graves: Contexts, next: nat)
    requires Settled(cs, Some(id)) && Mirror(cs, t) && Links(cs, conns) && Addresses(cs, graves, next) && Buried(graves)
    requires id in cs && Coherent(cs[id]) && Releasable(id, cs, conns) && cs[id].replies == []
    requires cs[id].ev.Some? ==> cs[id].ev == Some(Adapter(false, false))
    ensures Settled(cs - {id}, None) && Mirror(cs - {id}, t) && Links(cs - {id}, Reported(cs[id], conns))
    ensures Addresses(cs - {id}, graves[id := cs[id]], next) && Buried(graves[id := cs[id]]) && id !in graves
  {
    hide Settled, Mirror, Links, Addresses, Buried, Releasable, Reported;
    assert cs[id].refused ==> !cs[id].connected;
    RemoveKeepsMirror(cs, id, t);
    RemoveKeepsLinks(cs, id, conns);
    BuryKeeps(cs, id, cs[id], graves, next);
  }

  lemma RefuseIsCoherent(c: Context, d: Context)
    requires Coherent(c) && !c.connected && d == c.(refused := true, err := true)
    ensures Coherent(d)
  {
  }

  lemma ConnectIsCoherent(c: Context, d: Context)
    requires Coherent(c) && !c.refused && c.ev.Some? && d == c.(connected := true)
    ensures Coherent(d)
  {
  }

  lemma FlagsDoNotMatter(c: Context, d: Context)
    requires d == c.(disconnecting := d.disconnecting, freeing := d.freeing, err := d.err, inCallback := d.inCallback)
    ensures Coherent(c) <==> Coherent(d)
  {
  }

  lemma ReleasableFlags(id: nat, cs: Contexts, d: Context, conns: Conns)
    requires id in cs && cs[id].connected == d.connected && cs[id].data == d.data
    ensures Releasable(id, cs, conns) ==> Releasable(id, cs[id := d], conns)
  {
  }

  lemma NoCode(a: Moment)
    ensures IsCode([], [a])
  {
  }

  lemma CommandNamed(argv: seq<seq<Byte>>)
    requires Ordinary(argv)
    ensures argv != []
  {
  }

  lemma HeldOutside(c: Context, d: Context)
    requires !c.inCallback && Held(c.(inCallback := true), d)
    ensures Held(c, d.(inCallback := false))
  {
  }

  lemma HeldRefl(c: Context)
    ensures Held(c, c)
  {
  }

  lemma CoherentInCallback(c: Context, on: bool)
    ensures Coherent(c) <==> Coherent(c.(inCallback := on))
  {
  }

  lemma WatchDoesNotMatter(c: Context, d: Context)
    requires d == c.(ev := d.ev) && (c.ev.Some? <==> d.ev.Some?)
    ensures (Coherent(c) <==> Coherent(d)) && (Calm(c) <==> Calm(d))
    ensures Coherent(c) ==> d.refused ==> !d.connected
    ensures WaitsOn(c, d) ==> Held(c, d)
  {
    hide Follows, Wire, Calls;
  }

  lemma WantedSlot(cs: Contexts, t: Table, id: nat)
    requires Mirror(cs, t) && id in cs && cs[id].ev.Some?
    ensures Slot(t, cs[id].fd) == Wanted(id, cs[id].ev.value)
  {
  }

  lemma AddressesKept(cs: Contexts, id: nat, d: Context, graves: Contexts, next: nat)
    requires id in cs
    ensures Addresses(cs, graves, next) ==> Addresses(cs[id := d], graves, next)
  {
  }
}
