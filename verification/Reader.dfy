/** The reader object: a byte buffer with a cursor, a fixed stack of nine read tasks, and the loops
    that fill and drain them. Every method does what the pure machine does on the state it stands for. */
module Reader {
  import opened Bytes
  import opened Resp
  import opened ReaderMachine
  import A = Arrival

  const STACK_SLOTS := 9
  const REDIS_READER_MAX_BUF: nat := 1024 * 16
  const DISCARD_THRESHOLD: nat := 1024
  const SDS_MAX_PREALLOC: nat := 1024 * 1024

  /** A slot of the task stack. obj holds the elements of the array under construction; they are
      moved up when the array is full, where the program links the array object at its creation. */
  datatype ReadTask = ReadTask(kind: Option<Kind>, elements: int, idx: int, obj: seq<Reply>)

  ghost function Frames(tasks: seq<ReadTask>): seq<Frame> {
    seq(|tasks|, i requires 0 <= i < |tasks| => Frame(tasks[i].elements, tasks[i].obj))
  }

  /** The first CR LF pair, found by skipping from one CR to the next. */
  method SeekNewline(s: seq<Byte>) returns (r: Option<nat>)
    ensures r == FindNewline(s)
  {
    var pos, last := 0, |s| - 1;
    while pos < last
      invariant 0 <= pos <= last + 1
      invariant forall j :: 0 <= j < pos && j < last ==> !(s[j] == CR && s[j + 1] == LF)
    {
      while pos < last && s[pos] != CR
        invariant pos <= last
        invariant forall j :: 0 <= j < pos && j < last ==> !(s[j] == CR && s[j + 1] == LF)
      {
        pos := pos + 1;
      }
      if s[pos] != CR {
        NoNewline(s);
        return None;
      }
      // Behind the last byte stands the terminating NUL, which is no line feed.
      if pos < last && s[pos + 1] == LF {
        FindNewlineIs(s, pos);
        return Some(pos);
      }
      pos := pos + 1;
    }
    NoNewline(s);
    return None;
  }

  lemma NoNewline(s: seq<Byte>)
    requires forall j :: 0 <= j < |s| - 1 ==> !(s[j] == CR && s[j + 1] == LF)
    ensures FindNewline(s) == None
  {
  }

  /** Reads the number at the start of s, which stops at the first CR. */
  method ReadLongLong(s: seq<Byte>) returns (v: int)
    requires FindNewline(s).Some?
    ensures v == LongLong(s[..FindNewline(s).value])
  {
    ghost var k := FindNewline(s).value;
    ghost var line := s[..k];
    var i, mult := 0, 1;
    if s[0] == MINUS {
      mult, i := -1, 1;
    } else if s[0] == PLUS {
      i := 1;
    }
    ghost var digits := line[i..];
    v := 0;
    while s[i] != CR
      invariant i <= k
      invariant Digits(line[i..], v) == Digits(digits, 0)
      decreases k - i
    {
      if !IsDigit(s[i]) {
        return -1;
      }
      v := v * 10 + (s[i] - ZERO);
      i := i + 1;
    }
    v := mult * v;
  }

  class RedisReader {
    var err: bool                  // set once, by a protocol error
    var buf: seq<Byte>
    var pos: nat
    var avail: nat                 // bytes allocated behind buf and not used
    const rstack: array<ReadTask>
    var ridx: int
    var reply: Option<Reply>

    ghost predicate Valid()
      reads this, rstack
    {
      && rstack.Length == STACK_SLOTS
      && pos <= |buf|
      && -1 <= ridx < STACK_SLOTS
      && (err ==> ridx == -1 && reply == None)
      && (ridx >= 0 ==> reply == None)
      && (forall i :: 0 <= i < ridx ==>
            && rstack[i].kind == Some(ArrayKind)
            && |rstack[i].obj| < rstack[i].elements
            && rstack[i + 1].idx == |rstack[i].obj|)
      && (ridx >= 0 && rstack[ridx].kind == Some(ArrayKind) ==> ridx < MAX_DEPTH)
    }

    ghost function Mach(): (m: Machine)
      reads this, rstack
      requires Valid()
      ensures ReaderMachine.Valid(m)
    {
      if ridx == -1 then Fresh(buf[pos..])
      else Machine(Frames(rstack[..ridx]), rstack[ridx].kind, buf[pos..])
    }

    ghost function State(): (r: A.Reader)
      reads this, rstack
      requires Valid()
      ensures A.ValidReader(r)
    {
      if err then A.Failed else A.Live(Mach())
    }

    /** The object is in the state that r, the result of a machine step, asks for. */
    ghost predicate Reflects(r: StepResult, ok: bool)
      reads this, rstack
      requires Valid()
    {
      match r
      case Blocked(m) => !ok && !err && ridx >= 0 && Mach() == m
      case Broken => !ok && err
      case Next(m) => ok && !err && ridx >= 0 && Mach() == m
      case Emit(v, rest) => ok && !err && ridx == -1 && reply == Some(v) && buf[pos..] == rest
    }

    constructor ()
      ensures Valid() && State() == A.Live(Fresh([])) && reply == None && buf == [] && avail == 0
      ensures fresh(rstack)
    {
      err, buf, pos, avail, ridx, reply := false, [], 0, 0, -1, None;
      rstack := new ReadTask[STACK_SLOTS](_ => ReadTask(None, -1, -1, []));
    }

    method SetError()
      requires Valid()
      modifies this
      ensures Valid() && err && buf == [] && pos == 0
    {
      reply := None;
      buf, pos := [], 0;
      ridx := -1;
      err := true;
    }

    /** Hands v to the task below and pops every array this completes. */
    method MoveToNextTask(value: Reply)
      requires Valid() && ridx >= 0 && !err
      modifies this`ridx, this`reply, rstack
      ensures Valid()
      ensures Reflects(Complete(old(Frames(rstack[..ridx])), value, buf[pos..]), true)
    {
      hide Complete;
      var v := value;
      while ridx >= 0
        invariant Valid()
        invariant ridx >= 0 ==> (Complete(Frames(rstack[..ridx]), v, buf[pos..])
                              == Complete(old(Frames(rstack[..ridx])), value, buf[pos..]))
        invariant ridx < 0 ==> Reflects(Complete(old(Frames(rstack[..ridx])), value, buf[pos..]), true)
        decreases ridx
      {
        if ridx == 0 {
          CompleteRoot(v, buf[pos..]);
          assert Frames(rstack[..0]) == [];
          ridx, reply := -1, Some(v);
          return;
        }
        var cur, prv := rstack[ridx], rstack[ridx - 1];
        ghost var outer := Frames(rstack[..ridx - 1]);
        var obj := prv.obj + [v];
        assert Frames(rstack[..ridx]) == outer + [Frame(prv.elements, prv.obj)];
        CompleteStep(outer, Frame(prv.elements, prv.obj), v, buf[pos..]);
        if cur.idx == prv.elements - 1 {
          v := Array(prv.elements, obj);
          ridx := ridx - 1;
        } else {
          NextElement(v);
          return;
        }
      }
    }

    /** The array below is not full yet: its next element is read. */
    method NextElement(v: Reply)
      requires Valid() && ridx > 0 && !err && rstack[ridx].idx != rstack[ridx - 1].elements - 1
      modifies rstack
      ensures Valid() && Reflects(Complete(Frames(old(rstack[..ridx])), v, buf[pos..]), true)
    {
      hide Complete;
      var cur, prv := rstack[ridx], rstack[ridx - 1];
      ghost var outer := Frames(rstack[..ridx - 1]);
      assert Frames(rstack[..ridx]) == outer + [Frame(prv.elements, prv.obj)];
      CompleteStep(outer, Frame(prv.elements, prv.obj), v, buf[pos..]);
      rstack[ridx - 1] := prv.(obj := prv.obj + [v]);
      rstack[ridx] := ReadTask(None, -1, cur.idx + 1, cur.obj);
      assert Frames(rstack[..ridx]) == outer + [Frame(prv.elements, prv.obj + [v])];
    }

    /** The item in progress, as the machine sees it. */
    ghost predicate Typed(kind: Kind)
      reads this, rstack
    {
      Valid() && !err && ridx >= 0 && rstack[ridx].kind == Some(kind)
    }

    method ProcessLineItem(kind: Kind) returns (ok: bool)
      requires Typed(kind) && kind in {ErrorKind, StatusKind, IntegerKind}
      modifies this`pos, this`ridx, this`reply, rstack
      ensures Valid()
      ensures Reflects(old(BodyStep(Frames(rstack[..ridx]), kind, buf[pos..])), ok)
    {
      hide FindNewline, LongLong, Complete;
      var p := buf[pos..];
      var s := SeekNewline(p);
      if s == None {
        return false;
      }
      pos := pos + s.value + 2;
      assert buf[pos..] == p[s.value + 2..];
      var value;
      if kind == IntegerKind {
        var n := ReadLongLong(p);
        value := Integer(n);
      } else {
        value := if kind == ErrorKind then Error(p[..s.value]) else Status(p[..s.value]);
      }
      MoveToNextTask(value);
      return true;
    }

    method ProcessBulkItem() returns (ok: bool)
      requires Typed(BulkKind)
      modifies this`pos, this`ridx, this`reply, rstack
      ensures Valid()
      ensures Reflects(old(BodyStep(Frames(rstack[..ridx]), BulkKind, buf[pos..])), ok)
    {
      hide FindNewline, LongLong, Complete;
      var p := buf[pos..];
      var s := SeekNewline(p);
      if s == None {
        return false;
      }
      var bytelen := s.value + 2;
      var len := ReadLongLong(p);
      var value := Nil;
      if len >= 0 {
        bytelen := bytelen + len + 2;
        if pos + bytelen > |buf| {
          return false;
        }
        value := Bulk(p[s.value + 2..s.value + 2 + len]);
      }
      pos := pos + bytelen;
      assert buf[pos..] == p[bytelen..];
      MoveToNextTask(value);
      return true;
    }

    /** Opens an array of the given size on the stack. */
    method PushTask(elements: int)
      requires Typed(ArrayKind) && elements > 0
      modifies this`ridx, rstack
      ensures Valid() && ridx >= 0
      ensures Mach() == Machine(old(Frames(rstack[..ridx])) + [Frame(elements, [])], None, buf[pos..])
    {
      ghost var open := Frames(rstack[..ridx]);
      rstack[ridx] := rstack[ridx].(elements := elements, obj := []);
      ridx := ridx + 1;
      rstack[ridx] := ReadTask(None, -1, 0, []);
      assert Frames(rstack[..ridx]) == open + [Frame(elements, [])];
    }

    method ProcessMultiBulkItem() returns (ok: bool)
      requires Typed(ArrayKind) || (Valid() && !err && ridx == MAX_DEPTH)
      modifies this, rstack
      ensures Valid()
      ensures Reflects(old(BodyStep(Frames(rstack[..ridx]), ArrayKind, buf[pos..])), ok)
      ensures buf == old(buf) || err
    {
      if ridx == 8 {
        SetError();
        return false;
      }
      var p := buf[pos..];
      var s := SeekNewline(p);
      if s == None {
        return false;
      }
      pos := pos + s.value + 2;
      assert buf[pos..] == p[s.value + 2..];
      var elements := ReadLongLong(p);
      if elements == -1 {
        MoveToNextTask(Nil);
      } else if elements > 0 {
        PushTask(elements);
      } else {
        MoveToNextTask(Array(elements, []));
      }
      return true;
    }

    method ProcessItem() returns (ok: bool)
      requires Valid() && !err && ridx >= 0
      modifies this, rstack
      ensures Valid()
      ensures Reflects(old(Step(Mach())), ok)
    {
      var cur := rstack[ridx];
      ghost var open := Frames(rstack[..ridx]);
      ghost var bytes := buf[pos..];
      var kind;
      if cur.kind == None {
        if |buf| - pos < 1 {
          return false;
        }
        var k := KindOf(buf[pos]);
        pos := pos + 1;
        assert buf[pos..] == bytes[1..];
        if k == None {
          SetError();
          return false;
        }
        kind := k.value;
        if kind == ArrayKind && ridx == MAX_DEPTH {
          ok := ProcessMultiBulkItem();
          return;
        }
        rstack[ridx] := cur.(kind := k);
        assert Frames(rstack[..ridx]) == open;
      } else {
        kind := cur.kind.value;
      }
      match kind
      case BulkKind => ok := ProcessBulkItem();
      case ArrayKind => ok := ProcessMultiBulkItem();
      case _ => ok := ProcessLineItem(kind);
    }

    method Feed(chunk: seq<Byte>) returns (ok: bool)
      requires Valid() && (err || reply == None)
      modifies this
      ensures Valid() && ok == !err && reply == old(reply)
      ensures State() == A.Feed(old(State()), chunk)
      ensures |old(buf)| == 0 && old(avail) > 16384 && 0 < |chunk| < 1048576 && ok ==> avail == |chunk|
      ensures !(|old(buf)| == 0 && old(avail) > 16384) && ok ==> buf == old(buf) + chunk && pos == old(pos)
    {
      if err {
        return false;
      }
      if |chunk| >= 1 {
        if |buf| == 0 && avail > REDIS_READER_MAX_BUF {
          buf, pos, avail := [], 0, 0;
        }
        ghost var before := buf[pos..];
        CatLen(chunk);
        assert buf[pos..] == before + chunk;
      } else {
        assert buf[pos..] + chunk == buf[pos..];
      }
      return true;
    }

    /** Appends a chunk. If the room left is too small there is as much room afterwards as there is text,
        but no more than a megabyte. */
    method CatLen(chunk: seq<Byte>)
      modifies this`buf, this`avail
      ensures buf == old(buf) + chunk
      ensures avail == if old(avail) >= |chunk| then old(avail) - |chunk| else if |buf| < 1048576 then |buf| else 1048576
    {
      if avail < |chunk| {
        var newlen := |buf| + |chunk|;
        newlen := if newlen < SDS_MAX_PREALLOC then newlen * 2 else newlen + SDS_MAX_PREALLOC;
        avail := newlen - |buf|;
      }
      avail := avail - |chunk|;
      buf := buf + chunk;
    }

    /** The item loop: runs until the root reply is finished or an item cannot be. */
    method ProcessItems() returns (ok: bool)
      requires Valid() && !err && ridx >= 0
      modifies this, rstack
      ensures Valid() && Reflects(A.Drive(old(Mach())), ok)
    {
      ok := true;
      while ridx >= 0 && ok
        invariant Valid()
        invariant ok && ridx >= 0 ==> !err && A.Drive(Mach()) == A.Drive(old(Mach()))
        invariant ok && ridx < 0 ==> Reflects(A.Drive(old(Mach())), true)
        invariant !ok ==> Reflects(A.Drive(old(Mach())), false)
        decreases ok, ridx >= 0, |buf[pos..]|
      {
        StepShape(Mach());
        ok := ProcessItem();
      }
    }

    /** Drops the consumed part of the buffer once it has 1024 bytes; its room becomes free. */
    method Discard()
      requires Valid()
      modifies this`buf, this`pos, this`avail
      ensures Valid() && buf[pos..] == old(buf[pos..]) && avail + |buf| == old(avail + |buf|)
      ensures pos == if old(pos) < 1024 then old(pos) else 0
    {
      if pos >= DISCARD_THRESHOLD {
        avail := avail + pos;
        buf := buf[pos..];
        pos := 0;
      }
    }

    method GetReply() returns (ok: bool, r: Option<Reply>)
      requires Valid() && reply == None
      modifies this, rstack
      ensures Valid() && reply == None && ok == !err
      ensures (State(), r) == A.GetReply(old(State()))
      ensures ok && old(|buf|) > 0 ==> pos < 1024
    {
      hide A.Drive, ReaderMachine.Valid;
      if err {
        return false, None;
      }
      if |buf| == 0 {
        EmptyInputBlocks(Mach());
        return true, None;
      }
      if ridx == -1 {
        rstack[0] := ReadTask(None, -1, -1, []);
        ridx := 0;
        assert Frames(rstack[..ridx]) == [];
      }
      assert Mach() == old(Mach());
      var _ := ProcessItems();
      if err {
        return false, None;
      }
      Discard();
      if ridx == -1 {
        r, reply := reply, None;
        return true, r;
      }
      return true, None;
    }
  }

  /** With no bytes left the machine cannot move. */
  lemma EmptyInputBlocks(m: Machine)
    requires ReaderMachine.Valid(m) && m.pending == []
    ensures A.Drive(m) == Blocked(m)
  {
  }

  /** Carries out a schedule of feeds and requests on a new reader and collects the replies. */
  method RunSchedule(ops: seq<A.Op>) returns (out: seq<Reply>, failed: bool)
    ensures out == A.Run(A.Start, ops).out
    ensures failed == A.Run(A.Start, ops).reader.Failed?
  {
    hide A.ValidReader, A.GetReply, A.Feed;
    var reader := new RedisReader();
    out := [];
    var i := 0;
    assert ops[0..] == ops;
    while i < |ops|
      invariant 0 <= i <= |ops|
      invariant reader.Valid() && reader.reply == None && fresh(reader) && fresh(reader.rstack)
      invariant A.Run(A.Session(reader.State(), out), ops[i..]) == A.Run(A.Start, ops)
    {
      assert ops[i..][1..] == ops[i + 1..];
      match ops[i] {
        case FeedOp(chunk) => var _ := reader.Feed(chunk);
        case GetOp =>
          var _, r := reader.GetReply();
          if r.Some? {
            out := out + [r.value];
          }
      }
      i := i + 1;
    }
    return out, reader.err;
  }
}
