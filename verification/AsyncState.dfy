/** The state behind the asynchronous API, context by context, what stays true of it, and what code
    called back in the middle of an operation can and cannot change. */
module AsyncState {
  import opened Bytes
  import opened Resp
  import opened Arrival
  import opened EventTable
  import F = Formatter

  datatype Callback = NoFunction | Function(privdata: nat)

  datatype Command = Command(argv: seq<seq<Byte>>, cb: Callback)

  /** A callback taken from the queue and what it was given: a reply, or NULL. */
  datatype Ran = Ran(cb: Callback, reply: Option<Reply>)

  /** The adapter between a context and the loop: what the context is waiting for. */
  datatype Adapter = Adapter(reading: bool, writing: bool)

  /** An asynchronous context. The fields from received on are its history: the bytes read and
      written, the commands accepted, the replies taken from the reader and the callbacks run. */
  datatype Context = Context(
    fd: int, connected: bool, disconnecting: bool, freeing: bool, inCallback: bool, err: bool,
    reader: Reader, obuf: seq<Byte>, replies: seq<Callback>, ev: Option<Adapter>, data: Option<nat>,
    refused: bool, received: seq<Byte>, sent: seq<Byte>, accepted: seq<Command>, popped: seq<Reply>, ran: seq<Ran>)

  type Contexts = map<nat, Context>

  function NewContext(fd: int, err: bool, ev: Option<Adapter>, data: Option<nat>): Context {
    Context(fd, false, false, false, false, err, Start.reader, [], [], ev, data, false, [], [], [], [], [])
  }

  // ---------- one context ----------

  /** The replies taken so far and all that will ever be taken are the replies of the byte stream. */
  ghost predicate Follows(r: Reader, popped: seq<Reply>, received: seq<Byte>) {
    ValidReader(r) && forall t: seq<Byte> :: Verdict(Session(r, popped), t) == ParseStream(received + t)
  }

  function Wire(cmds: seq<Command>): seq<Byte> {
    if cmds == [] then [] else Wire(cmds[..|cmds| - 1]) + F.Command(cmds[|cmds| - 1].argv)
  }

  /** What the i-th callback is given: the i-th reply of the stream if it came, otherwise NULL. */
  function ReplyFor(popped: seq<Reply>, i: nat): Option<Reply> {
    if i < |popped| then Some(popped[i]) else None
  }

  /** The calls the first n accepted commands give rise to: each function is called once, in order,
      with its own reply. */
  function Calls(cmds: seq<Command>, popped: seq<Reply>, n: nat): seq<Ran>
    requires n <= |cmds|
  {
    if n == 0 then []
    else
      var front := Calls(cmds, popped, n - 1);
      if cmds[n - 1].cb.Function? then front + [Ran(cmds[n - 1].cb, ReplyFor(popped, n - 1))] else front
  }

  /** The number of callbacks taken off the queue. */
  function Shifted(c: Context): int {
    |c.accepted| - |c.replies|
  }

  /** The callbacks run are those of the commands taken off the queue; the queue holds those of the
      others, in order. */
  ghost predicate Ledger(c: Context) {
    && |c.replies| <= |c.accepted|
    && (forall i :: 0 <= i < |c.replies| ==> c.replies[i] == c.accepted[Shifted(c) + i].cb)
    && c.ran == Calls(c.accepted, c.popped, Shifted(c))
  }

  ghost predicate Coherent(c: Context) {
    && Ledger(c)
    && Follows(c.reader, c.popped, c.received)
    && c.sent + c.obuf == Wire(c.accepted)
    && (c.data.Some? || c.connected ==> c.ev.Some?)
    && (c.refused ==> !c.connected)
  }

  /** No operation is in the middle of c: as many callbacks were taken as replies. */
  ghost predicate Calm(c: Context) {
    c.inCallback || (!c.freeing && !c.refused && Shifted(c) == |c.popped|)
  }

  lemma {:induction false} CallsAgree(cmds: seq<Command>, cmds': seq<Command>, popped: seq<Reply>, popped': seq<Reply>, n: nat)
    requires n <= |cmds| && cmds <= cmds' && popped <= popped' && (popped == popped' || n <= |popped|)
    ensures Calls(cmds, popped, n) == Calls(cmds', popped', n)
    decreases n
  {
    if n > 0 {
      CallsAgree(cmds, cmds', popped, popped', n - 1);
    }
  }

  /** How many of the first n commands have a function. */
  function Functions(cmds: seq<Command>, n: nat): nat
    requires n <= |cmds|
  {
    if n == 0 then 0 else Functions(cmds, n - 1) + (if cmds[n - 1].cb.Function? then 1 else 0)
  }

  /** Every function of a command taken off the queue was called exactly once, at its place in the
      order of the commands, and no other call was made. */
  lemma {:induction false} CallOf(cmds: seq<Command>, popped: seq<Reply>, n: nat, i: nat)
    requires i < n <= |cmds| && cmds[i].cb.Function?
    ensures |Calls(cmds, popped, n)| == Functions(cmds, n) > Functions(cmds, i)
    ensures Calls(cmds, popped, n)[Functions(cmds, i)] == Ran(cmds[i].cb, ReplyFor(popped, i))
    decreases n
  {
    CallsCount(cmds, popped, n - 1);
    if i < n - 1 {
      CallOf(cmds, popped, n - 1, i);
    }
  }

  lemma {:induction false} CallsCount(cmds: seq<Command>, popped: seq<Reply>, n: nat)
    requires n <= |cmds|
    ensures |Calls(cmds, popped, n)| == Functions(cmds, n)
    decreases n
  {
    if n > 0 {
      CallsCount(cmds, popped, n - 1);
    }
  }

  lemma NewContextIsCoherent(fd: int, err: bool, ev: Option<Adapter>, data: Option<nat>)
    requires data.Some? ==> ev.Some?
    ensures Coherent(NewContext(fd, err, ev, data)) && Calm(NewContext(fd, err, ev, data))
  {
    forall t: seq<Byte> ensures Verdict(Start, t) == ParseStream([] + t) {
      FreshStream([], t);
      var more := StreamFrom(Start.reader.m, t).replies;
      assert [] + more == more;
    }
  }

  lemma FollowsFeed(r: Reader, popped: seq<Reply>, received: seq<Byte>, chunk: seq<Byte>)
    requires Follows(r, popped, received)
    ensures Follows(Feed(r, chunk), popped, received + chunk)
  {
    var x := Session(r, popped);
    assert Apply(x, FeedOp(chunk)) == Session(Feed(r, chunk), popped);
    forall t: seq<Byte> ensures Verdict(Session(Feed(r, chunk), popped), t) == ParseStream(received + chunk + t) {
      FeedShiftsVerdict(x, chunk, t);
      assert received + chunk + t == received + (chunk + t);
    }
  }

  /** The replies taken once one more was asked for. */
  function Taken(popped: seq<Reply>, v: Option<Reply>): seq<Reply> {
    if v.Some? then popped + [v.value] else popped
  }

  lemma FollowsGet(r: Reader, popped: seq<Reply>, received: seq<Byte>)
    requires Follows(r, popped, received)
    ensures Follows(GetReply(r).0, Taken(popped, GetReply(r).1), received)
  {
    var x := Session(r, popped);
    var y := Session(GetReply(r).0, Taken(popped, GetReply(r).1));
    assert Apply(x, GetOp) == y;
    forall t: seq<Byte> ensures Verdict(y, t) == ParseStream(received + t) {
      GetKeepsVerdict(x, t);
    }
  }

  /** A reader with nothing more to give has given every reply of the bytes received. */
  lemma FollowsDry(r: Reader, popped: seq<Reply>, received: seq<Byte>)
    requires Follows(r, popped, received)
    ensures r.Failed? ==> ParseStream(received) == Stream(popped, true)
    ensures r.Live? && Drive(r.m).Blocked? ==> ParseStream(received) == Stream(popped, false)
  {
    assert received + [] == received;
    assert Verdict(Session(r, popped), []) == ParseStream(received + []);
    if r.Live? {
      DriveKeepsOutlook(r.m, []);
      assert popped + [] == popped;
    }
  }

  /** The replies taken are always the first replies of the stream. */
  lemma FollowsPrefix(r: Reader, popped: seq<Reply>, received: seq<Byte>)
    requires Follows(r, popped, received)
    ensures popped <= ParseStream(received).replies
  {
    assert received + [] == received;
    assert Verdict(Session(r, popped), []) == ParseStream(received + []);
  }

  // ---------- what called-back code may do to a context in the middle of an operation ----------

  /** c is in a callback; d is the same context when the callback returns. */
  ghost predicate Held(c: Context, d: Context) {
    && d == c.(disconnecting := d.disconnecting, freeing := d.freeing, obuf := d.obuf, replies := d.replies,
               ev := d.ev, accepted := d.accepted)
    && (c.disconnecting ==> d.disconnecting) && (c.freeing ==> d.freeing)
    && c.replies <= d.replies && c.accepted <= d.accepted && Shifted(c) == Shifted(d)
    && (c.disconnecting || c.freeing ==>
          d.replies == c.replies && d.accepted == c.accepted && d.obuf == c.obuf)
    && d.ev.Some? == c.ev.Some? && WaitsOn(c, d)
  }

  /** What c waits for, d waits for too. */
  predicate WaitsOn(c: Context, d: Context) {
    c.ev.Some? && d.ev.Some? ==>
      (c.ev.value.reading ==> d.ev.value.reading) && (c.ev.value.writing ==> d.ev.value.writing)
  }

  /** From a to b nothing in a callback was freed, and no address below next came to life. */
  ghost predicate Kept(a: Contexts, b: Contexts, next: nat) {
    && (forall id :: id in a && a[id].inCallback ==> id in b && Held(a[id], b[id]))
    && (forall id :: id in b && b[id].inCallback ==> id in a && a[id].inCallback)
    && (forall id :: id in b && id < next ==> id in a)
  }

  lemma KeptRefl(a: Contexts, next: nat)
    ensures Kept(a, a, next)
  {
  }

  lemma KeptTrans(a: Contexts, b: Contexts, c: Contexts, next: nat, next': nat)
    requires Kept(a, b, next) && Kept(b, c, next') && next <= next'
    ensures Kept(a, c, next)
  {
  }

  // ---------- the loop mirrors the adapters ----------

  /** What the table must hold for a context: nothing, or its own handlers with its own address. */
  function Wanted(id: nat, e: Adapter): Option<FileEvent> {
    if !e.reading && !e.writing then None
    else
      Some(FileEvent(if e.reading then Some(ReadEvent) else None, if e.writing then Some(WriteEvent) else None, id))
  }

  function Slot(t: Table, fd: int): Option<FileEvent> {
    if fd in t then Some(t[fd]) else None
  }

  ghost predicate Mirror(cs: Contexts, t: Table) {
    && (forall id :: id in cs && cs[id].ev.Some? ==> Slot(t, cs[id].fd) == Wanted(id, cs[id].ev.value))
    && (forall fd :: fd in t ==> t[fd].data in cs && cs[t[fd].data].ev.Some? && cs[t[fd].data].fd == fd)
    && (forall i, j :: i in cs && j in cs && cs[i].ev.Some? && cs[j].ev.Some? && cs[i].fd == cs[j].fd ==> i == j)
  }

  /** The context once it waits, or no longer waits, to read or to write; one that was never attached
      to the loop waits for nothing. */
  function WithReading(c: Context, on: bool): Context {
    if c.ev.Some? then c.(ev := Some(c.ev.value.(reading := on))) else c
  }

  function WithWriting(c: Context, on: bool): Context {
    if c.ev.Some? then c.(ev := Some(c.ev.value.(writing := on))) else c
  }

  // ---------- connections ----------

  datatype State = Init | Connecting | Proc

  datatype Conn = Conn(port: int, state: State, ctx: Option<nat>, newOpt: Option<nat>)

  type Conns = map<nat, Conn>

  /** A connection's pointer never dangles and its state matches the context it points to. */
  ghost predicate LinkOk(k: nat, conn: Conn, cs: Contexts) {
    && (conn.ctx.Some? ==> conn.ctx.value in cs)
    && (conn.state != Init ==>
          && conn.ctx.Some? && cs[conn.ctx.value].data == Some(k)
          && (conn.state == Proc <==> cs[conn.ctx.value].connected))
    && (conn.ctx.Some? && conn.state == Init ==> cs[conn.ctx.value].data == None && cs[conn.ctx.value].ev == None)
  }

  /** A context that may still report to a connection is the one the connection points to. */
  ghost predicate BackLinkOk(id: nat, c: Context, conns: Conns) {
    c.data.Some? && !c.refused ==>
      && c.data.value in conns && conns[c.data.value].ctx == Some(id) && conns[c.data.value].state != Init
  }

  ghost predicate Links(cs: Contexts, conns: Conns) {
    && (forall k :: k in conns ==> LinkOk(k, conns[k], cs))
    && (forall id :: id in cs ==> BackLinkOk(id, cs[id], conns))
  }

  /** The connections pointing to a context will be told when it goes away. */
  predicate Releasable(id: nat, cs: Contexts, conns: Conns) {
    id in cs && forall k :: k in conns && conns[k].ctx == Some(id) ==> cs[id].connected && cs[id].data == Some(k)
  }

  /** The connections once a context is gone: only a connected one reports. */
  function Reported(c: Context, conns: Conns): Conns {
    if c.connected && c.data.Some? && c.data.value in conns
      then conns[c.data.value := conns[c.data.value].(state := Init, ctx := None)] else conns
  }

  /** The connection of a connected context was told that it is gone. */
  predicate Told(c: Context, conns: Conns) {
    c.connected && c.data.Some? ==>
      c.data.value in conns && conns[c.data.value].state == Init && conns[c.data.value].ctx == None
  }

  lemma ReportedIsTold(id: nat, cs: Contexts, conns: Conns)
    requires Links(cs, conns) && id in cs && (cs[id].refused ==> !cs[id].connected)
    ensures Told(cs[id], Reported(cs[id], conns))
  {
    assert BackLinkOk(id, cs[id], conns);
  }

  ghost predicate Dangling(cs: Contexts, conns: Conns) {
    exists k :: k in conns && conns[k].ctx.Some? && conns[k].ctx.value !in cs
  }

  /** Freeing a context leaves no dangling pointer exactly when every connection pointing to it is
      told: a connection that is still connecting is not. */
  lemma FreeLeavesNoDanglingIffReleasable(id: nat, cs: Contexts, conns: Conns)
    requires Links(cs, conns) && id in cs
    ensures !Dangling(cs - {id}, Reported(cs[id], conns)) <==> Releasable(id, cs, conns)
  {
    var conns' := Reported(cs[id], conns);
    if Releasable(id, cs, conns) {
      forall k | k in conns' && conns'[k].ctx.Some? ensures conns'[k].ctx.value in cs - {id} {
        assert LinkOk(k, conns[k], cs);
      }
    } else {
      var k :| k in conns && conns[k].ctx == Some(id) && !(cs[id].connected && cs[id].data == Some(k));
      assert conns'[k].ctx == Some(id);
    }
  }

  /** One such state: a connection that is still connecting, whose context somebody else frees. */
  lemma ConnectingIsNotTold() returns (cs: Contexts, conns: Conns)
    ensures Links(cs, conns) && 0 in cs && Coherent(cs[0]) && Calm(cs[0])
    ensures Dangling(cs - {0}, Reported(cs[0], conns))
  {
    hide Coherent, Calm;
    var c := NewContext(7, false, Some(Adapter(false, true)), Some(0));
    NewContextIsCoherent(7, false, Some(Adapter(false, true)), Some(0));
    cs, conns := map[0 := c], map[0 := Conn(6379, Connecting, Some(0), None)];
    assert Reported(c, conns)[0].ctx == Some(0);
  }

  // ---------- the whole world ----------

  /** Everything but the context x, if any, is between operations; x is in the middle of one. */
  ghost predicate Settled(cs: Contexts, x: Option<nat>) {
    forall id :: id in cs && x != Some(id) ==> Coherent(cs[id]) && Calm(cs[id])
  }

  /** Addresses are used once. */
  ghost predicate Addresses(cs: Contexts, graves: Contexts, next: nat) {
    && (forall id :: id in cs ==> id < next)
    && (forall id :: id in graves ==> id < next && id !in cs)
  }

  /** A freed context had all its callbacks run. */
  ghost predicate Buried(graves: Contexts) {
    forall id :: id in graves ==> Coherent(graves[id]) && graves[id].replies == []
  }

  lemma {:induction false} WireAppend(cmds: seq<Command>, cmd: Command)
    ensures Wire(cmds + [cmd]) == Wire(cmds) + F.Command(cmd.argv)
  {
    assert (cmds + [cmd])[..|cmds|] == cmds;
  }

  /** All that a called-back piece of code can change. */
  datatype Moment = Moment(cs: Contexts, conns: Conns, graves: Contexts, next: nat)

  /** No connection got to point to an address it did not point to, other than a new one. */
  ghost predicate NoNewPointers(a: Conns, b: Conns, next: nat) {
    forall k :: k in b && b[k].ctx.Some? && b[k].ctx.value < next ==> k in a && a[k].ctx == b[k].ctx
  }

  ghost predicate Later(a: Moment, b: Moment) {
    && a.next <= b.next
    && Kept(a.cs, b.cs, a.next)
    && NoNewPointers(a.conns, b.conns, a.next)
    && (forall id :: id in a.graves ==> id in b.graves && b.graves[id] == a.graves[id])
  }

  lemma LaterRefl(a: Moment)
    ensures Later(a, a)
  {
    KeptRefl(a.cs, a.next);
  }

  lemma LaterTrans(a: Moment, b: Moment, c: Moment)
    requires Later(a, b) && Later(b, c)
    ensures Later(a, c)
  {
    KeptTrans(a.cs, b.cs, c.cs, a.next, b.next);
  }

  // ---------- changes of one context ----------

  /** c and d differ in nothing the loop or a connection can see. */
  predicate SameShape(c: Context, d: Context) {
    c.fd == d.fd && c.ev == d.ev && c.data == d.data && c.connected == d.connected && c.refused == d.refused
  }

  lemma Replace(cs: Contexts, id: nat, d: Context, t: Table, conns: Conns)
    requires id in cs && SameShape(cs[id], d)
    ensures Mirror(cs, t) ==> Mirror(cs[id := d], t)
    ensures Links(cs, conns) ==> Links(cs[id := d], conns)
  {
    hide Wanted, Slot;
    var cs' := cs[id := d];
    if Links(cs, conns) {
      forall k | k in conns ensures LinkOk(k, conns[k], cs') {
        assert LinkOk(k, conns[k], cs);
      }
      forall i | i in cs' ensures BackLinkOk(i, cs'[i], conns) {
        assert BackLinkOk(i, cs[i], conns);
      }
    }
  }

  /** What a context waits for changes together with its slot of the table. */
  lemma Rewatch(cs: Contexts, id: nat, e: Adapter, t: Table, t': Table)
    requires Mirror(cs, t) && id in cs && cs[id].ev.Some?
    requires Slot(t', cs[id].fd) == Wanted(id, e)
    requires forall fd :: fd != cs[id].fd ==> Slot(t', fd) == Slot(t, fd)
    ensures Mirror(cs[id := cs[id].(ev := Some(e))], t')
  {
    var cs' := cs[id := cs[id].(ev := Some(e))];
    forall fd | fd in t'
      ensures t'[fd].data in cs' && cs'[t'[fd].data].ev.Some? && cs'[t'[fd].data].fd == fd
    {
      assert Slot(t', fd) == Some(t'[fd]);
      if fd != cs[id].fd {
        assert Slot(t, fd) == Some(t'[fd]);
      }
    }
  }

  lemma RewatchLinks(cs: Contexts, id: nat, e: Adapter, conns: Conns)
    requires Links(cs, conns) && id in cs && cs[id].ev.Some?
    ensures Links(cs[id := cs[id].(ev := Some(e))], conns)
  {
    var cs' := cs[id := cs[id].(ev := Some(e))];
    forall k | k in conns ensures LinkOk(k, conns[k], cs') {
      assert LinkOk(k, conns[k], cs);
    }
    forall i | i in cs' ensures BackLinkOk(i, cs'[i], conns) {
      assert BackLinkOk(i, cs[i], conns);
    }
  }

  /** The next callback is taken off the queue: once it has run, if it is a function, c is in order. */
  lemma ShiftOwes(c: Context)
    requires Coherent(c) && c.replies != []
    ensures Shifted(c) >= 0
    ensures var cb, reply := c.replies[0], ReplyFor(c.popped, Shifted(c));
            var d := c.(replies := c.replies[1..]);
            Coherent(if cb.Function? then d.(ran := d.ran + [Ran(cb, reply)]) else d)
  {
    hide Follows, Wire;
  }

  /** The context with one more command. */
  function WithCommand(c: Context, cmd: Command): Context {
    c.(replies := c.replies + [cmd.cb], accepted := c.accepted + [cmd], obuf := c.obuf + F.Command(cmd.argv))
  }

  lemma AcceptIsHeld(c: Context, cmd: Command)
    requires !c.disconnecting && !c.freeing
    ensures Held(c, WithCommand(c, cmd)) && (Calm(c) ==> Calm(WithCommand(c, cmd)))
  {
  }

  /** A command joins the end of the queue and its bytes the end of the output buffer. */
  lemma AcceptIsCoherent(c: Context, cmd: Command)
    requires Coherent(c)
    ensures Coherent(WithCommand(c, cmd))
  {
    hide Follows, Wire, Calls, F.Command;
    WireAppend(c.accepted, cmd);
    CallsAgree(c.accepted, c.accepted + [cmd], c.popped, c.popped, Shifted(c));
    assert c.sent + (c.obuf + F.Command(cmd.argv)) == c.sent + c.obuf + F.Command(cmd.argv);
  }

  /** The context once its reader was asked for a reply; an error of the reader becomes its own. */
  ghost function Asked(c: Context): Context
    requires ValidReader(c.reader)
  {
    var (r, v) := GetReply(c.reader);
    c.(reader := r, popped := Taken(c.popped, v), err := r.Failed?)
  }

  lemma PopIsCoherent(c: Context)
    requires Coherent(c) && Shifted(c) == |c.popped|
    ensures ValidReader(c.reader)
    ensures Coherent(c.(reader := GetReply(c.reader).0, popped := Taken(c.popped, GetReply(c.reader).1)))
  {
    FollowsGet(c.reader, c.popped, c.received);
    var popped' := Taken(c.popped, GetReply(c.reader).1);
    CallsAgree(c.accepted, c.accepted, c.popped, popped', Shifted(c));
  }

  /** The context once bytes were read. */
  function Received(c: Context, bytes: seq<Byte>): Context {
    c.(reader := Feed(c.reader, bytes), received := c.received + bytes)
  }

  lemma ReceivedNothing(c: Context)
    ensures Received(c, []) == c
  {
    assert c.received + [] == c.received;
    if c.reader.Live? {
      assert c.reader.m.pending + [] == c.reader.m.pending;
    }
  }

  lemma FeedIsCoherent(c: Context, chunk: seq<Byte>)
    requires Coherent(c)
    ensures Coherent(Received(c, chunk))
  {
    FollowsFeed(c.reader, c.popped, c.received, chunk);
  }

  /** The first n bytes of the output buffer go out. */
  lemma WriteIsCoherent(c: Context, n: nat)
    requires Coherent(c) && n <= |c.obuf|
    ensures Coherent(c.(obuf := c.obuf[n..], sent := c.sent + c.obuf[..n]))
  {
    hide Follows, Wire;
    assert c.sent + c.obuf[..n] + c.obuf[n..] == c.sent + c.obuf;
  }

  /** What is left of a context when it is freed: the callbacks still queued have run. */
  ghost predicate LastState(c: Context, g: Context) {
    && g == c.(ran := g.ran, replies := [], disconnecting := g.disconnecting, freeing := g.freeing, ev := g.ev)
    && g.ev.Some? == c.ev.Some?
    && (c.disconnecting ==> g.disconnecting) && (c.freeing ==> g.freeing)
    && (c.replies == [] ==> g.ran == c.ran && g.disconnecting == c.disconnecting && g.freeing == c.freeing)
  }

  /** A context being freed: its remaining callbacks are taken off the queue one by one. */
  ghost predicate Emptying(c: Context, g: Context) {
    && g == c.(ran := g.ran, replies := g.replies, disconnecting := g.disconnecting, freeing := g.freeing, ev := g.ev)
    && g.ev.Some? == c.ev.Some?
    && (c.disconnecting ==> g.disconnecting) && (c.freeing ==> g.freeing)
    && (c.replies == [] ==> g == c)
    && (g.replies != [] ==> (g.disconnecting || g.freeing) && |g.popped| <= Shifted(g))
  }

  lemma EmptyingStart(c: Context)
    requires c.replies != [] ==> (c.disconnecting || c.freeing) && |c.popped| <= Shifted(c)
    ensures Emptying(c, c)
  {
  }

  lemma EmptyingEnd(c: Context, g: Context, d: Context)
    requires Emptying(c, g) && g.replies == [] && d == g.(ev := d.ev) && d.ev.Some? == g.ev.Some?
    ensures LastState(c, d)
  {
  }

  lemma EmptyingStep(c: Context, g: Context, called: Context, d: Context)
    requires Emptying(c, g) && g.replies != [] && Held(called, d)
    requires called == g.(replies := g.replies[1..], ran := called.ran)
    ensures Emptying(c, d) && |d.replies| < |g.replies|
  {
  }

  /** The context is in a callback from b on; a and e are the moments before and after. */
  lemma LaterAround(a: Moment, b: Moment, d: Moment, e: Moment, id: nat)
    requires id in a.cs && !a.cs[id].inCallback && id in b.cs && b.cs[id].inCallback && Later(b, d)
    requires b == a.(cs := a.cs[id := b.cs[id]])
    requires id in d.cs && id in e.cs && e == d.(cs := d.cs[id := e.cs[id]]) && !e.cs[id].inCallback
    ensures Later(a, e)
  {
    LaterAroundKept(a, b, d, e, id);
  }

  lemma LaterAroundKept(a: Moment, b: Moment, d: Moment, e: Moment, id: nat)
    requires id in a.cs && !a.cs[id].inCallback && id in b.cs && Kept(b.cs, d.cs, a.next)
    requires b.cs == a.cs[id := b.cs[id]]
    requires id in d.cs && id in e.cs && e.cs == d.cs[id := e.cs[id]] && !e.cs[id].inCallback
    ensures Kept(a.cs, e.cs, a.next)
  {
    hide Held;
  }

  lemma LaterHolds(a: Moment, b: Moment, id: nat)
    requires Later(a, b) && id in a.cs && a.cs[id].inCallback
    ensures id in b.cs && b.cs[id].inCallback && Held(a.cs[id], b.cs[id])
  {
  }

  /** A change of a context that is in no callback is nothing to anybody else. */
  lemma LaterShift(a: Moment, b: Moment, e: Moment, id: nat)
    requires id in a.cs && !a.cs[id].inCallback && id in b.cs && !b.cs[id].inCallback
    requires b == a.(cs := a.cs[id := b.cs[id]]) && Later(b, e)
    ensures Later(a, e)
  {
  }

  /** A context moves from the memory to the graves. */
  lemma BuryKeeps(cs: Contexts, id: nat, g: Context, graves: Contexts, next: nat)
    requires Settled(cs, Some(id)) && Addresses(cs, graves, next) && Buried(graves) && id in cs
    requires Coherent(g) && g.replies == []
    ensures Settled(cs - {id}, None)
    ensures Addresses(cs - {id}, graves[id := g], next) && Buried(graves[id := g]) && id !in graves
  {
    hide Coherent, Calm;
  }

  lemma BuryIsLater(a: Moment, id: nat, g: Context, conns: Conns)
    requires id in a.cs && !a.cs[id].inCallback && id !in a.graves
    requires conns == Reported(a.cs[id], a.conns)
    ensures Later(a, Moment(a.cs - {id}, conns, a.graves[id := g], a.next))
  {
  }

  /** A context that waits for nothing can leave the memory without a trace in the table. */
  lemma RemoveKeepsMirror(cs: Contexts, id: nat, t: Table)
    requires Mirror(cs, t) && id in cs
    requires cs[id].ev.Some? ==> cs[id].ev == Some(Adapter(false, false))
    ensures Mirror(cs - {id}, t)
  {
    assert cs[id].ev.Some? ==> cs[id].fd !in t;
  }

  lemma RemoveKeepsLinks(cs: Contexts, id: nat, conns: Conns)
    requires Links(cs, conns) && Releasable(id, cs, conns) && (cs[id].refused ==> !cs[id].connected)
    ensures Links(cs - {id}, Reported(cs[id], conns))
  {
    var cs', conns' := cs - {id}, Reported(cs[id], conns);
    forall k | k in conns' ensures LinkOk(k, conns'[k], cs') {
      assert LinkOk(k, conns[k], cs);
    }
    forall i | i in cs' ensures BackLinkOk(i, cs'[i], conns') {
      assert BackLinkOk(i, cs[i], conns) && BackLinkOk(id, cs[id], conns);
    }
  }

  /** What makes a context releasable outlasts any called-back code. */
  lemma ReleasableStays(id: nat, a: Contexts, conns: Conns, b: Contexts, conns': Conns, next: nat)
    requires Releasable(id, a, conns) && NoNewPointers(conns, conns', next) && id < next
    requires id in b && a[id].connected == b[id].connected && a[id].data == b[id].data
    ensures Releasable(id, b, conns')
  {
  }

  /** A connected context can always be released. */
  lemma ConnectedIsReleasable(id: nat, cs: Contexts, conns: Conns)
    requires Links(cs, conns) && id in cs && cs[id].connected && cs[id].ev.Some?
    ensures Releasable(id, cs, conns)
  {
    forall k | k in conns && conns[k].ctx == Some(id) ensures cs[id].data == Some(k) {
      assert LinkOk(k, conns[k], cs);
    }
  }

  /** The connect callback of a failed attempt: the connection forgets the context. */
  lemma RefuseKeepsLinks(cs: Contexts, id: nat, conns: Conns, t: Table)
    requires Links(cs, conns) && Mirror(cs, t) && id in cs && cs[id].ev.Some? && !cs[id].connected && !cs[id].refused
    ensures var d := cs[id].(refused := true, err := true);
            var conns' := Forgotten(cs[id], conns);
            Links(cs[id := d], conns') && Mirror(cs[id := d], t) && Releasable(id, cs[id := d], conns')
  {
    hide Wanted, Slot;
    var cs', conns' := cs[id := cs[id].(refused := true, err := true)], Forgotten(cs[id], conns);
    forall k | k in conns' ensures LinkOk(k, conns'[k], cs') && conns'[k].ctx != Some(id) {
      assert LinkOk(k, conns[k], cs);
    }
    forall i | i in cs' ensures BackLinkOk(i, cs'[i], conns') {
      assert BackLinkOk(i, cs[i], conns) && BackLinkOk(id, cs[id], conns);
    }
  }

  /** The connections once the connection of c has been told that c will not do. */
  function Forgotten(c: Context, conns: Conns): Conns {
    if c.data.Some? && c.data.value in conns
      then conns[c.data.value := conns[c.data.value].(state := Init, ctx := None)] else conns
  }

  /** The connections once the connection of c has been told that c is connected. */
  function Established(c: Context, conns: Conns): Conns {
    if c.data.Some? && c.data.value in conns
      then conns[c.data.value := conns[c.data.value].(state := Proc)] else conns
  }

  lemma EstablishKeepsLinks(cs: Contexts, id: nat, conns: Conns, t: Table)
    requires Links(cs, conns) && Mirror(cs, t) && id in cs && cs[id].ev.Some? && !cs[id].refused
    ensures var d := cs[id].(connected := true);
            Links(cs[id := d], Established(cs[id], conns)) && Mirror(cs[id := d], t)
  {
    hide Wanted, Slot;
    var cs', conns' := cs[id := cs[id].(connected := true)], Established(cs[id], conns);
    forall k | k in conns' ensures LinkOk(k, conns'[k], cs') {
      assert LinkOk(k, conns[k], cs) && BackLinkOk(id, cs[id], conns);
    }
    forall i | i in cs' ensures BackLinkOk(i, cs'[i], conns') {
      assert BackLinkOk(i, cs[i], conns) && BackLinkOk(id, cs[id], conns);
    }
  }

  /** A new context at a new address, waiting for nothing yet. */
  lemma AddKeepsMirror(cs: Contexts, id: nat, d: Context, t: Table)
    requires Mirror(cs, t) && id !in cs
    requires d.ev.Some? ==> d.ev.value == Adapter(false, false) && FdFree(cs, d.fd)
    ensures Mirror(cs[id := d], t)
  {
  }

  /** No attached context uses the descriptor. */
  predicate FdFree(cs: Contexts, fd: int) {
    forall id :: id in cs && cs[id].ev.Some? ==> cs[id].fd != fd
  }

  lemma AddKeepsLinks(cs: Contexts, id: nat, d: Context, conns: Conns)
    requires Links(cs, conns) && id !in cs && d.data == None
    ensures Links(cs[id := d], conns)
  {
    var cs' := cs[id := d];
    forall k | k in conns ensures LinkOk(k, conns[k], cs') {
      assert LinkOk(k, conns[k], cs);
    }
    forall i | i in cs' ensures BackLinkOk(i, cs'[i], conns) {
      assert i != id ==> BackLinkOk(i, cs[i], conns);
    }
  }

  /** A connection without a context, or with one that failed at once, is given a new one. */
  lemma AttachKeepsLinks(cs: Contexts, id: nat, d: Context, conns: Conns, k: nat, conn: Conn)
    requires Links(cs, conns) && id !in cs && k in conns && conns[k].state == Init
    requires !d.connected && !d.refused && conn.ctx == Some(id)
    requires if d.data == None then d.ev == None && conn.state == Init
             else d.data == Some(k) && conn.state == Connecting
    ensures Links(cs[id := d], conns[k := conn])
  {
    var cs', conns' := cs[id := d], conns[k := conn];
    forall j | j in conns' ensures LinkOk(j, conns'[j], cs') {
      assert j != k ==> LinkOk(j, conns[j], cs);
    }
    forall i | i in cs' ensures BackLinkOk(i, cs'[i], conns') {
      assert i != id ==> BackLinkOk(i, cs[i], conns);
    }
  }

  /** A change a callback may make to the context it was called for, or to any other. */
  lemma ChangeIsLater(a: Moment, id: nat, d: Context)
    requires id in a.cs && a.cs[id].inCallback == d.inCallback
    requires d.inCallback ==> Held(a.cs[id], d)
    ensures Later(a, a.(cs := a.cs[id := d]))
  {
  }

  lemma OptIsLater(a: Moment, k: nat, conn: Conn)
    requires if k in a.conns then conn.ctx == a.conns[k].ctx else conn.ctx == None
    ensures Later(a, a.(conns := a.conns[k := conn]))
  {
    KeptRefl(a.cs, a.next);
  }

  lemma ForgetIsLater(a: Moment, k: nat)
    requires k in a.conns
    ensures Later(a, a.(conns := a.conns[k := a.conns[k].(ctx := None)]))
  {
    KeptRefl(a.cs, a.next);
  }

  lemma AddIsLater(a: Moment, d: Context, conns: Conns, graves: Contexts)
    requires Addresses(a.cs, graves, a.next) && !d.inCallback && NoNewPointers(a.conns, conns, a.next)
    ensures Later(a, Moment(a.cs[a.next := d], conns, a.graves, a.next + 1))
  {
  }

  lemma AddKeepsRest(cs: Contexts, id: nat, d: Context, graves: Contexts)
    requires Settled(cs, None) && Addresses(cs, graves, id) && Coherent(d) && Calm(d)
    ensures Settled(cs[id := d], None) && Addresses(cs[id := d], graves, id + 1) && id !in cs
  {
    hide Coherent, Calm;
  }

  /** A connection lets go of a context that failed at once. */
  lemma DropKeepsLinks(cs: Contexts, conns: Conns, k: nat)
    requires Links(cs, conns) && k in conns && conns[k].state == Init
    ensures Links(cs, conns[k := conns[k].(ctx := None)])
  {
    var conns' := conns[k := conns[k].(ctx := None)];
    forall j | j in conns' ensures LinkOk(j, conns'[j], cs) {
      assert LinkOk(j, conns[j], cs);
    }
    forall i | i in cs ensures BackLinkOk(i, cs[i], conns') {
      assert BackLinkOk(i, cs[i], conns);
    }
  }

  /** Changes of a connection other than of its state and its context. */
  lemma OptKeepsLinks(cs: Contexts, conns: Conns, k: nat, conn: Conn)
    requires Links(cs, conns)
    requires if k in conns then conn.state == conns[k].state && conn.ctx == conns[k].ctx
             else conn.state == Init && conn.ctx == None
    ensures Links(cs, conns[k := conn])
  {
    var conns' := conns[k := conn];
    forall j | j in conns' ensures LinkOk(j, conns'[j], cs) {
      assert j in conns ==> LinkOk(j, conns[j], cs);
    }
    forall i | i in cs ensures BackLinkOk(i, cs[i], conns') {
      assert BackLinkOk(i, cs[i], conns);
    }
  }

  // ---------- when the assertions trip ----------

  /** A disconnect was asked for and everything was written, but the bytes received hold fewer replies
      than there are commands, and no protocol error. */
  ghost predicate TripsPending(c: Context) {
    var s := ParseStream(c.received);
    !s.failed && |s.replies| < |c.accepted| && c.disconnecting && c.obuf == []
  }

  /** The bytes received hold a reply, other than an error, that no command asked for. */
  ghost predicate TripsSpontaneous(c: Context) {
    var s := ParseStream(c.received);
    |s.replies| > |c.accepted| && !s.replies[|c.accepted|].Error?
  }

  /** The two assertions judge a context by these fields alone. */
  lemma TripsSame(c: Context, g: Context)
    requires c.received == g.received && c.accepted == g.accepted && c.obuf == g.obuf
    ensures TripsSpontaneous(c) <==> TripsSpontaneous(g)
    ensures c.disconnecting == g.disconnecting ==> (TripsPending(c) <==> TripsPending(g))
    ensures ParseStream(c.received).failed || |ParseStream(c.received).replies| >= |c.accepted| ==> !TripsPending(g)
  {
  }

  /** A disconnect now trips the assertion exactly when it must, and nothing else can. */
  ghost predicate Decided(c: Context) {
    && !TripsSpontaneous(c)
    && (TripsPending(c) <==> !c.err && c.replies != [])
    && (c.err ==> ParseStream(c.received).failed || |ParseStream(c.received).replies| >= |c.accepted|)
    && (c.replies != [] ==> |c.popped| <= Shifted(c))
  }

  lemma DecidedStays(c: Context, g: Context)
    requires Decided(c) && LastState(c.(disconnecting := c.disconnecting || c.err), g) && (c.err || c.replies == [])
    ensures !TripsPending(g) && !TripsSpontaneous(g) && Processing(c, g)
    ensures !c.err ==> g.freeing == c.freeing
  {
    TripsSame(c, g);
  }

  /** The reader is broken. */
  lemma AskedFailed(c: Context)
    requires Coherent(c) && Shifted(c) == |c.popped| && Asked(c).err
    ensures var a := Asked(c);
            ParseStream(a.received) == Stream(a.popped, true) && Decided(a)
  {
    PopIsCoherent(c);
    FollowsDry(Asked(c).reader, Asked(c).popped, c.received);
  }

  /** No complete reply is left. */
  lemma AskedDry(c: Context)
    requires Coherent(c) && Shifted(c) == |c.popped| && !Asked(c).err && GetReply(c.reader).1 == None
    ensures var a := Asked(c);
            && ParseStream(a.received) == Stream(a.popped, false) && Calm(c) == Calm(a)
            && !TripsSpontaneous(a)
            && if a.disconnecting && a.obuf == [] then Decided(a) else !TripsPending(a)
  {
    FollowsDry(c.reader, c.popped, c.received);
  }

  /** A reply came that no command asked for. */
  lemma AskedTooMany(c: Context)
    requires Coherent(c) && Shifted(c) == |c.popped| && !Asked(c).err && GetReply(c.reader).1.Some? && c.replies == []
    ensures var a := Asked(c);
            && !TripsPending(a)
            && (TripsSpontaneous(a) <==> !GetReply(c.reader).1.value.Error?)
            && (GetReply(c.reader).1.value.Error? ==> Decided(a.(err := true)))
  {
    PopIsCoherent(c);
    var a := Asked(c);
    FollowsPrefix(a.reader, a.popped, a.received);
    assert a.popped[|a.accepted|] == GetReply(c.reader).1.value;
    TripsSame(a, a.(err := true));
  }

  /** Every complete reply was taken, and the protocol is not broken. */
  ghost predicate UpToDate(c: Context) {
    ParseStream(c.received) == Stream(c.popped, false)
  }

  lemma AskedUpToDate(c: Context)
    requires Coherent(c) && Shifted(c) == |c.popped| && UpToDate(c)
    ensures !Asked(c).err && GetReply(c.reader).1 == None
  {
    PopIsCoherent(c);
    var a := Asked(c);
    FollowsPrefix(a.reader, a.popped, a.received);
    if a.err {
      FollowsDry(a.reader, a.popped, a.received);
    }
  }

  /** A reply is taken for the command at the head of the queue; the reader has less left to read. */
  lemma AskedReply(c: Context)
    requires Coherent(c) && Shifted(c) == |c.popped| && !Asked(c).err && GetReply(c.reader).1.Some?
    ensures var a := Asked(c);
            && |a.popped| == Shifted(a) + 1 && ReplyFor(a.popped, Shifted(a)) == GetReply(c.reader).1
            && Unread(a.reader) < Unread(c.reader)
  {
  }

  /** The number of bytes a reader holds that are not part of a finished reply. */
  function Unread(r: Reader): nat {
    if r.Live? then |r.m.pending| else 0
  }

  /** What stays of a context while its replies are being processed. */
  ghost predicate Processing(c: Context, d: Context) {
    && d.received == c.received && d.sent == c.sent && d.connected == c.connected && d.data == c.data && d.ev.Some? == c.ev.Some?
    && (c.disconnecting ==> d.disconnecting && d.accepted == c.accepted && d.obuf == c.obuf)
  }

  lemma LaterQuiet(a: Moment, b: Moment)
    requires Later(a, b) && forall id :: id in a.cs ==> !a.cs[id].inCallback
    ensures forall id :: id in b.cs ==> !b.cs[id].inCallback
  {
  }

  lemma ProcessingTrans(c: Context, d: Context, e: Context)
    requires Processing(c, d) && Processing(d, e)
    ensures Processing(c, e)
  {
  }

  lemma ConnsAreLater(a: Moment, id: nat, d: Context, conns: Conns)
    requires id in a.cs && !a.cs[id].inCallback && !d.inCallback
    requires forall k :: k in conns && conns[k].ctx.Some? ==> k in a.conns && a.conns[k].ctx == conns[k].ctx
    ensures Later(a, Moment(a.cs[id := d], conns, a.graves, a.next))
  {
  }

  // ---------- what the history of a context says ----------

  /** Every callback taken off the queue that is a function was called exactly once, in the order of
      the commands, the i-th with the i-th reply of the bytes received, or with NULL if there is none. */
  lemma EachCallbackGetsItsReply(c: Context, i: nat)
    requires Coherent(c) && i < Shifted(c) && c.accepted[i].cb.Function?
    ensures |c.popped| <= |ParseStream(c.received).replies|
    ensures Functions(c.accepted, i) < |c.ran| == Functions(c.accepted, Shifted(c))
    ensures c.ran[Functions(c.accepted, i)]
         == Ran(c.accepted[i].cb, if i < |c.popped| then Some(ParseStream(c.received).replies[i]) else None)
  {
    FollowsPrefix(c.reader, c.popped, c.received);
    CallOf(c.accepted, c.popped, Shifted(c), i);
  }

  /** By the time a context is freed, each function it was ever given was called exactly once. */
  lemma FreedContextServedAll(graves: Contexts, id: nat, i: nat)
    requires Buried(graves) && id in graves && i < |graves[id].accepted| && graves[id].accepted[i].cb.Function?
    ensures var c := graves[id];
            && |c.popped| <= |ParseStream(c.received).replies|
            && |c.ran| == Functions(c.accepted, |c.accepted|) > Functions(c.accepted, i)
            && c.ran[Functions(c.accepted, i)].cb == c.accepted[i].cb
            && c.ran[Functions(c.accepted, i)].reply
               == if i < |c.popped| then Some(ParseStream(c.received).replies[i]) else None
  {
    EachCallbackGetsItsReply(graves[id], i);
  }

  /** What was written to the socket so far is the beginning of the commands accepted. */
  lemma SentIsPrefixOfCommands(c: Context)
    requires Coherent(c)
    ensures c.sent <= Wire(c.accepted) && (c.obuf == [] <==> c.sent == Wire(c.accepted))
  {
  }
}
