/** Arrival independence: how a byte stream is cut into feeds, and when replies are asked for in
    between, has no effect on the replies or on the error status. */
module Arrival {
  import opened Bytes
  import opened Resp
  import opened ReaderMachine

  /** The reader between calls: broken for good, or a machine waiting for bytes. */
  datatype Reader = Failed | Live(m: Machine)

  ghost predicate ValidReader(r: Reader) {
    r.Live? ==> Valid(r.m)
  }

  function Feed(r: Reader, chunk: seq<Byte>): Reader {
    match r
    case Failed => Failed
    case Live(m) => Live(m.(pending := m.pending + chunk))
  }

  /** Steps until the root reply is finished, the input is exhausted or the protocol is broken. */
  function Drive(m: Machine): (r: StepResult)
    requires Valid(m)
    ensures Shaped(r, |m.pending|) || r.Blocked?
    ensures r.Blocked? ==> Valid(r.m)
    ensures !r.Next?
    decreases |m.pending|
  {
    StepShape(m);
    match Step(m)
    case Next(m') => Drive(m')
    case r => r
  }

  /** One request for a reply: the reader afterwards and the reply, if there is one. */
  function GetReply(r: Reader): (Reader, Option<Reply>)
    requires ValidReader(r)
  {
    match r
    case Failed => (Failed, None)
    case Live(m) =>
      match Drive(m)
      case Blocked(m') => (Live(m'), None)
      case Broken => (Failed, None)
      case Emit(v, rest) => (Live(Fresh(rest)), Some(v))
  }

  datatype Op = FeedOp(chunk: seq<Byte>) | GetOp

  /** The reader and the replies handed out so far. */
  datatype Session = Session(reader: Reader, out: seq<Reply>)

  const Start := Session(Live(Fresh([])), [])

  function Apply(x: Session, op: Op): (y: Session)
    requires ValidReader(x.reader)
    ensures ValidReader(y.reader)
  {
    match op
    case FeedOp(chunk) => Session(Feed(x.reader, chunk), x.out)
    case GetOp =>
      var (r, v) := GetReply(x.reader);
      Session(r, if v.Some? then x.out + [v.value] else x.out)
  }

  function Run(x: Session, ops: seq<Op>): (y: Session)
    requires ValidReader(x.reader)
    ensures ValidReader(y.reader)
    decreases |ops|
  {
    if ops == [] then x else Run(Apply(x, ops[0]), ops[1..])
  }

  function Chunk(op: Op): seq<Byte> {
    match op
    case FeedOp(chunk) => chunk
    case GetOp => []
  }

  /** All the bytes a schedule feeds. */
  function Fed(ops: seq<Op>): seq<Byte> {
    if ops == [] then []
    else Chunk(ops[0]) + Fed(ops[1..])
  }

  /** Nothing more can be had from the reader until it is fed again. */
  ghost predicate Drained(r: Reader)
    requires ValidReader(r)
  {
    GetReply(r).1 == None && (r.Live? ==> Drive(r.m) != Broken)
  }

  // ---------- the invariant: past replies and future verdict together are the whole stream ----------

  ghost function StreamFrom(m: Machine, t: seq<Byte>): Stream
    requires Valid(m)
  {
    match Outlook(m, t)
    case NeedMore => Stream([], false)
    case Fail => Stream([], true)
    case Done(v, rest) =>
      var more := ParseStream(rest);
      Stream([v] + more.replies, more.failed)
  }

  ghost function Verdict(x: Session, t: seq<Byte>): Stream
    requires ValidReader(x.reader)
  {
    match x.reader
    case Failed => Stream(x.out, true)
    case Live(m) => Stream(x.out + StreamFrom(m, t).replies, StreamFrom(m, t).failed)
  }

  lemma FreshStream(s: seq<Byte>, t: seq<Byte>)
    ensures Valid(Fresh(s))
    ensures StreamFrom(Fresh(s), t) == ParseStream(s + t)
  {
  }

  lemma {:induction false} DriveKeepsOutlook(m: Machine, t: seq<Byte>)
    requires Valid(m)
    ensures Agrees(Drive(m), Outlook(m, t), t)
    ensures Drive(m).Blocked? ==> Outlook(m, []) == NeedMore
    decreases |m.pending|
  {
    StepKeepsOutlook(m, t);
    StepKeepsOutlook(m, []);
    StepShape(m);
    if Step(m).Next? {
      DriveKeepsOutlook(Step(m).m, t);
    }
  }

  lemma GetKeepsVerdict(x: Session, t: seq<Byte>)
    requires ValidReader(x.reader)
    ensures Verdict(Apply(x, GetOp), t) == Verdict(x, t)
  {
    if x.reader.Live? {
      var m := x.reader.m;
      DriveKeepsOutlook(m, t);
      match Drive(m)
      case Emit(v, rest) =>
        FreshStream(rest, t);
        var more := ParseStream(rest + t);
        assert x.out + ([v] + more.replies) == x.out + [v] + more.replies;
      case Blocked(m') =>
      case Broken =>
        assert x.out + [] == x.out;
    }
  }

  lemma FeedShiftsVerdict(x: Session, chunk: seq<Byte>, t: seq<Byte>)
    requires ValidReader(x.reader)
    ensures Verdict(Apply(x, FeedOp(chunk)), t) == Verdict(x, chunk + t)
  {
    if x.reader.Live? {
      assert x.reader.m.pending + chunk + t == x.reader.m.pending + (chunk + t);
    }
  }

  /** Whatever operations are carried out, past replies and future verdict still add up. */
  lemma {:induction false} RunKeepsVerdict(x: Session, ops: seq<Op>, t: seq<Byte>)
    requires ValidReader(x.reader)
    ensures Verdict(Run(x, ops), t) == Verdict(x, Fed(ops) + t)
    decreases |ops|
  {
    if ops == [] {
      assert Fed(ops) + t == t;
    } else {
      RunKeepsVerdict(Apply(x, ops[0]), ops[1..], t);
      assert Fed(ops) + t == Chunk(ops[0]) + (Fed(ops[1..]) + t);
      ApplyKeepsVerdict(x, ops[0], Fed(ops[1..]) + t);
    }
  }

  lemma ApplyKeepsVerdict(x: Session, op: Op, t: seq<Byte>)
    requires ValidReader(x.reader)
    ensures Verdict(Apply(x, op), t) == Verdict(x, Chunk(op) + t)
  {
    if op.GetOp? {
      GetKeepsVerdict(x, t);
      assert Chunk(op) + t == t;
    } else {
      FeedShiftsVerdict(x, op.chunk, t);
    }
  }

  /** Whatever the schedule, a drained reader has handed out exactly the replies of the stream it
      was fed and is broken exactly when that stream breaks the protocol. */
  lemma DrainedSessionIsTheStream(ops: seq<Op>)
    requires Drained(Run(Start, ops).reader)
    ensures var x := Run(Start, ops);
            ParseStream(Fed(ops)) == Stream(x.out, x.reader.Failed?)
  {
    var x := Run(Start, ops);
    RunKeepsVerdict(Start, ops, []);
    FreshStream([], Fed(ops));
    assert Fed(ops) + [] == Fed(ops) == [] + Fed(ops);
    if x.reader.Live? {
      DriveKeepsOutlook(x.reader.m, []);
      assert x.out + [] == x.out;
    }
  }

  /** Two schedules that feed the same bytes and are drained gave the same replies and status. */
  lemma ArrivalIndependence(ops: seq<Op>, ops': seq<Op>)
    requires Fed(ops) == Fed(ops')
    requires Drained(Run(Start, ops).reader) && Drained(Run(Start, ops').reader)
    ensures Run(Start, ops).out == Run(Start, ops').out
    ensures Run(Start, ops).reader.Failed? == Run(Start, ops').reader.Failed?
  {
    DrainedSessionIsTheStream(ops);
    DrainedSessionIsTheStream(ops');
  }

  /** Asking once more than there are pending bytes always drains the reader. */
  lemma {:induction false} AskingDrains(x: Session, n: nat)
    requires ValidReader(x.reader)
    requires x.reader.Live? ==> n > |x.reader.m.pending|
    ensures Drained(Run(x, seq(n, _ => GetOp)).reader)
    decreases n
  {
    var ops := seq(n, _ => GetOp);
    if n > 0 {
      assert ops[1..] == seq(n - 1, _ => GetOp);
      var y := Apply(x, GetOp);
      if x.reader.Live? && Drive(x.reader.m).Blocked? {
        BlockedStaysBlocked(x, n);
      } else {
        AskingDrains(y, n - 1);
      }
    }
  }

  lemma {:induction false} BlockedStaysBlocked(x: Session, n: nat)
    requires ValidReader(x.reader) && x.reader.Live? && Drive(x.reader.m).Blocked?
    ensures Drained(Run(x, seq(n, _ => GetOp)).reader)
    decreases n
  {
    var ops := seq(n, _ => GetOp);
    if n > 0 {
      assert ops[1..] == seq(n - 1, _ => GetOp);
      DriveBlockedIsFixed(x.reader.m);
      BlockedStaysBlocked(Apply(x, GetOp), n - 1);
    }
  }

  lemma {:induction false} DriveBlockedIsFixed(m: Machine)
    requires Valid(m) && Drive(m).Blocked?
    ensures Drive(Drive(m).m) == Drive(m)
    decreases |m.pending|
  {
    StepShape(m);
    if Step(m).Next? {
      DriveBlockedIsFixed(Step(m).m);
    } else {
      StepBlockedIsFixed(m);
    }
  }

  lemma StepBlockedIsFixed(m: Machine)
    requires Valid(m) && Step(m).Blocked?
    ensures Valid(Step(m).m) && Step(Step(m).m) == Step(m)
  {
    StepShape(m);
    if m.kind.Some? {
      BodyStepShape(m.open, m.kind.value, m.pending);
    } else if m.pending != [] {
      BodyStepShape(m.open, KindOf(m.pending[0]).value, m.pending[1..]);
    }
  }
}
