/** The reader as a pure machine: the open arrays of the task stack, the type of the item in
    progress if its type byte was read, and the bytes not yet consumed. Whatever the machine has
    done so far, what it will say about all future input is what the reference parser says. */
module ReaderMachine {
  import opened Bytes
  import opened Resp

  /** An array whose header was read: its element count and the elements finished so far. */
  datatype Frame = Frame(count: int, done: seq<Reply>)

  datatype Machine = Machine(open: seq<Frame>, kind: Option<Kind>, pending: seq<Byte>)

  ghost predicate Valid(m: Machine) {
    && |m.open| <= MAX_DEPTH
    && (forall i :: 0 <= i < |m.open| ==> |m.open[i].done| < m.open[i].count)
    && (m.kind == Some(ArrayKind) ==> |m.open| < MAX_DEPTH)
  }

  function Fresh(pending: seq<Byte>): Machine {
    Machine([], None, pending)
  }

  datatype StepResult =
    | Blocked(m: Machine)                    // more bytes are needed
    | Broken                                 // protocol error
    | Next(m: Machine)                       // an item is finished, the root reply is not
    | Emit(reply: Reply, rest: seq<Byte>)    // the root reply is finished

  /** Attaches a finished value to the innermost open array and closes the arrays it fills. */
  function Complete(open: seq<Frame>, v: Reply, rest: seq<Byte>): StepResult
    requires forall i :: 0 <= i < |open| ==> |open[i].done| < open[i].count
    decreases |open|
  {
    if open == [] then Emit(v, rest)
    else
      var outer, f := open[..|open| - 1], open[|open| - 1];
      var done := f.done + [v];
      if |done| == f.count then Complete(outer, Array(f.count, done), rest)
      else Next(Machine(outer + [Frame(f.count, done)], None, rest))
  }

  lemma CompleteRoot(v: Reply, rest: seq<Byte>)
    ensures Complete([], v, rest) == Emit(v, rest)
  {
  }

  /** The value goes to the innermost open array, which may now be full. */
  lemma CompleteStep(outer: seq<Frame>, f: Frame, v: Reply, rest: seq<Byte>)
    requires |f.done| < f.count && forall i :: 0 <= i < |outer| ==> |outer[i].done| < outer[i].count
    ensures Complete(outer + [f], v, rest)
         == if |f.done| + 1 == f.count then Complete(outer, Array(f.count, f.done + [v]), rest)
            else Next(Machine(outer + [Frame(f.count, f.done + [v])], None, rest))
  {
    assert (outer + [f])[..|outer|] == outer;
  }

  function BodyStep(open: seq<Frame>, kind: Kind, s: seq<Byte>): StepResult
    requires |open| <= MAX_DEPTH
    requires forall i :: 0 <= i < |open| ==> |open[i].done| < open[i].count
  {
    if kind == ArrayKind && |open| == MAX_DEPTH then Broken
    else
      match FindNewline(s)
      case None => Blocked(Machine(open, Some(kind), s))
      case Some(k) =>
        var n := LongLong(s[..k]);
        if kind == BulkKind then
          if n < 0 then Complete(open, Nil, s[k + 2..])
          else if k + 2 + n + 2 <= |s| then Complete(open, Bulk(s[k + 2..k + 2 + n]), s[k + 2 + n + 2..])
          else Blocked(Machine(open, Some(kind), s))
        else if kind == ArrayKind then
          if n == -1 then Complete(open, Nil, s[k + 2..])
          else if n <= 0 then Complete(open, Array(n, []), s[k + 2..])
          else Next(Machine(open + [Frame(n, [])], None, s[k + 2..]))
        else Complete(open, LineReply(kind, s[..k]), s[k + 2..])
  }

  function Step(m: Machine): StepResult
    requires Valid(m)
  {
    match m.kind
    case Some(kind) => BodyStep(m.open, kind, m.pending)
    case None =>
      if m.pending == [] then Blocked(m)
      else
        match KindOf(m.pending[0])
        case None => Broken
        case Some(kind) => BodyStep(m.open, kind, m.pending[1..])
  }

  /** Every machine a step leaves is valid, and the step consumed input unless it is blocked. */
  ghost predicate Shaped(r: StepResult, before: nat) {
    match r
    case Blocked(m) => Valid(m) && |m.pending| <= before
    case Broken => true
    case Next(m) => Valid(m) && |m.pending| < before
    case Emit(_, rest) => |rest| < before
  }

  lemma {:induction false} CompleteShape(open: seq<Frame>, v: Reply, rest: seq<Byte>)
    requires |open| <= MAX_DEPTH
    requires forall i :: 0 <= i < |open| ==> |open[i].done| < open[i].count
    ensures Shaped(Complete(open, v, rest), |rest| + 1) && !Complete(open, v, rest).Blocked?
            && Complete(open, v, rest) != Broken
    decreases |open|
  {
    if open != [] {
      var outer, f := open[..|open| - 1], open[|open| - 1];
      if |f.done| + 1 == f.count {
        CompleteShape(outer, Array(f.count, f.done + [v]), rest);
      }
    }
  }

  /** A step keeps the stack within its nine slots and consumes input unless it is blocked. */
  lemma StepShape(m: Machine)
    requires Valid(m)
    ensures Shaped(Step(m), |m.pending|)
  {
    if m.kind.Some? {
      BodyStepShape(m.open, m.kind.value, m.pending);
    } else if m.pending != [] && KindOf(m.pending[0]).Some? {
      BodyStepShape(m.open, KindOf(m.pending[0]).value, m.pending[1..]);
    }
  }

  lemma BodyStepShape(open: seq<Frame>, kind: Kind, s: seq<Byte>)
    requires |open| <= MAX_DEPTH
    requires forall i :: 0 <= i < |open| ==> |open[i].done| < open[i].count
    ensures Shaped(BodyStep(open, kind, s), |s|)
    ensures var r := BodyStep(open, kind, s); r.Blocked? ==> r.m == Machine(open, Some(kind), s)
  {
    if !(kind == ArrayKind && |open| == MAX_DEPTH) && FindNewline(s).Some? {
      var k := FindNewline(s).value;
      var n := LongLong(s[..k]);
      if kind == BulkKind {
        if n < 0 {
          CompleteShape(open, Nil, s[k + 2..]);
        } else if k + 2 + n + 2 <= |s| {
          CompleteShape(open, Bulk(s[k + 2..k + 2 + n]), s[k + 2 + n + 2..]);
        }
      } else if kind == ArrayKind {
        if n == -1 {
          CompleteShape(open, Nil, s[k + 2..]);
        } else if n <= 0 {
          CompleteShape(open, Array(n, []), s[k + 2..]);
        }
      } else {
        CompleteShape(open, LineReply(kind, s[..k]), s[k + 2..]);
      }
    }
  }

  // ---------- what a machine state stands for ----------

  /** The reply the open arrays become once v is finished and the missing elements are parsed from s. */
  ghost function Finish(open: seq<Frame>, v: Reply, s: seq<Byte>): Parsed<Reply>
    requires |open| <= MAX_DEPTH
    requires forall i :: 0 <= i < |open| ==> |open[i].done| < open[i].count
    decreases |open|
  {
    if open == [] then Done(v, s)
    else
      var outer, f := open[..|open| - 1], open[|open| - 1];
      match ParseMany(s, f.count - |f.done| - 1, |open|)
      case NeedMore => NeedMore
      case Fail => Fail
      case Done(vs, rest) => Finish(outer, Array(f.count, f.done + [v] + vs), rest)
  }

  ghost function FinishParsed(open: seq<Frame>, r: Parsed<Reply>): Parsed<Reply>
    requires |open| <= MAX_DEPTH
    requires forall i :: 0 <= i < |open| ==> |open[i].done| < open[i].count
  {
    match r
    case NeedMore => NeedMore
    case Fail => Fail
    case Done(v, rest) => Finish(open, v, rest)
  }

  /** What the machine will say about the root reply if the bytes t arrive next and nothing after. */
  ghost function Outlook(m: Machine, t: seq<Byte>): Parsed<Reply>
    requires Valid(m)
  {
    var s := m.pending + t;
    FinishParsed(m.open,
                 match m.kind
                 case None => ParseOne(s, |m.open|)
                 case Some(kind) => ParseBody(kind, s, |m.open|))
  }

  /** A step's result stands for the same verdict when the bytes t follow. */
  ghost predicate Agrees(r: StepResult, verdict: Parsed<Reply>, t: seq<Byte>) {
    match r
    case Blocked(m) => Valid(m) && Outlook(m, t) == verdict
    case Broken => verdict == Fail
    case Next(m) => Valid(m) && Outlook(m, t) == verdict
    case Emit(v, rest) => verdict == Done(v, rest + t)
  }

  lemma {:induction false} CompleteFinishes(open: seq<Frame>, v: Reply, rest: seq<Byte>, t: seq<Byte>)
    requires |open| <= MAX_DEPTH
    requires forall i :: 0 <= i < |open| ==> |open[i].done| < open[i].count
    ensures Agrees(Complete(open, v, rest), Finish(open, v, rest + t), t)
    ensures !Complete(open, v, rest).Blocked?
    decreases |open|
  {
    CompleteShape(open, v, rest);
    if open != [] {
      var outer, f := open[..|open| - 1], open[|open| - 1];
      var done := f.done + [v];
      if |done| == f.count {
        CompleteFinishes(outer, Array(f.count, done), rest, t);
        assert done + [] == done;
      } else {
        var f' := Frame(f.count, done);
        var open' := outer + [f'];
        assert open'[..|open'| - 1] == outer;
        var one := ParseOne(rest + t, |open|);
        if one.Done? {
          var n := f.count - |done| - 1;
          var many := ParseMany(one.rest, n, |open|);
          if many.Done? {
            assert done + [one.value] + many.value == f.done + [v] + ([one.value] + many.value);
          }
        }
      }
    }
  }

  /** One step never changes what the machine stands for, for any bytes still to come. */
  lemma StepKeepsOutlook(m: Machine, t: seq<Byte>)
    requires Valid(m)
    ensures Agrees(Step(m), Outlook(m, t), t)
    ensures Step(m).Blocked? ==> Outlook(m, []) == NeedMore
  {
    assert m.pending + [] == m.pending;
    if m.kind.Some? {
      BodyStepKeepsOutlook(m.open, m.kind.value, m.pending, t);
    } else if m.pending != [] && KindOf(m.pending[0]).Some? {
      assert (m.pending + t)[1..] == m.pending[1..] + t;
      BodyStepKeepsOutlook(m.open, KindOf(m.pending[0]).value, m.pending[1..], t);
      assert m.pending[1..] + [] == m.pending[1..];
    }
  }

  lemma BodyStepKeepsOutlook(open: seq<Frame>, kind: Kind, s: seq<Byte>, t: seq<Byte>)
    requires |open| <= MAX_DEPTH
    requires forall i :: 0 <= i < |open| ==> |open[i].done| < open[i].count
    ensures Agrees(BodyStep(open, kind, s), FinishParsed(open, ParseBody(kind, s + t, |open|)), t)
    ensures BodyStep(open, kind, s).Blocked? ==> ParseBody(kind, s, |open|) == NeedMore
  {
    BodyStepShape(open, kind, s);
    if !(kind == ArrayKind && |open| == MAX_DEPTH) && FindNewline(s).Some? {
      match kind
      case BulkKind => BulkKeepsOutlook(open, s, t);
      case ArrayKind => ArrayKeepsOutlook(open, s, t);
      case _ =>
        var k := FindNewline(s).value;
        ParseBodyExtends(kind, s, t, |open|);
        CompleteFinishes(open, LineReply(kind, s[..k]), s[k + 2..], t);
    }
  }

  lemma BulkKeepsOutlook(open: seq<Frame>, s: seq<Byte>, t: seq<Byte>)
    requires |open| <= MAX_DEPTH && FindNewline(s).Some?
    requires forall i :: 0 <= i < |open| ==> |open[i].done| < open[i].count
    ensures Agrees(BodyStep(open, BulkKind, s), FinishParsed(open, ParseBody(BulkKind, s + t, |open|)), t)
    ensures BodyStep(open, BulkKind, s).Blocked? ==> ParseBody(BulkKind, s, |open|) == NeedMore
  {
    hide FindNewline, LongLong, Complete;
    var k := FindNewline(s).value;
    var n := LongLong(s[..k]);
    if n < 0 {
      ParseBodyExtends(BulkKind, s, t, |open|);
      CompleteFinishes(open, Nil, s[k + 2..], t);
    } else if k + 2 + n + 2 <= |s| {
      ParseBodyExtends(BulkKind, s, t, |open|);
      CompleteFinishes(open, Bulk(s[k + 2..k + 2 + n]), s[k + 2 + n + 2..], t);
    }
  }

  lemma ArrayKeepsOutlook(open: seq<Frame>, s: seq<Byte>, t: seq<Byte>)
    requires |open| < MAX_DEPTH && FindNewline(s).Some?
    requires forall i :: 0 <= i < |open| ==> |open[i].done| < open[i].count
    ensures Agrees(BodyStep(open, ArrayKind, s), FinishParsed(open, ParseBody(ArrayKind, s + t, |open|)), t)
    ensures !BodyStep(open, ArrayKind, s).Blocked?
  {
    var k := FindNewline(s).value;
    var n := LongLong(s[..k]);
    if n <= 0 {
      var v := if n == -1 then Nil else Array(n, []);
      ParseBodyExtends(ArrayKind, s, t, |open|);
      CompleteFinishes(open, v, s[k + 2..], t);
    } else {
      FindNewlineExtends(s, t);
      assert (s + t)[..k] == s[..k];
      assert (s + t)[k + 2..] == s[k + 2..] + t;
      ArrayHeaderOutlook(open, n, s[k + 2..] + t);
    }
  }

  /** Reading an array's first element and then the rest is reading its n elements. */
  lemma ArrayHeaderOutlook(open: seq<Frame>, n: nat, s: seq<Byte>)
    requires |open| < MAX_DEPTH && n > 0
    requires forall i :: 0 <= i < |open| ==> |open[i].done| < open[i].count
    ensures FinishParsed(open + [Frame(n, [])], ParseOne(s, |open| + 1))
         == FinishParsed(open, match ParseMany(s, n, |open| + 1)
                               case Done(vs, rest) => Done(Array(n, vs), rest)
                               case NeedMore => NeedMore
                               case Fail => Fail)
  {
    var open' := open + [Frame(n, [])];
    assert open'[..|open'| - 1] == open;
    var one := ParseOne(s, |open| + 1);
    if one.Done? {
      var many := ParseMany(one.rest, n - 1, |open| + 1);
      if many.Done? {
        assert [] + [one.value] + many.value == [one.value] + many.value;
      }
    }
  }
}
