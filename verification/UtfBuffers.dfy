/** The six loops called on buffers: there and back, by way of the third form, and through any series
    of chunks and buffers until the source is used up. */
module UtfBuffers {
  import opened Transcoding
  import opened Utf
  import opened TargetBuffer
  import opened UtfLoops

  /** The units of a form are machine words. */
  predicate AreUnits(form: Form, s: seq<int>) {
    forall i :: 0 <= i < |s| ==> 0 <= s[i] && (form == Utf16 ==> s[i] <= 0xFFFF)
  }

  lemma {:induction false} EncAllAreUnits(form: Form, vs: seq<Scalar>)
    ensures AreUnits(form, EncAll(form, vs))
    decreases |vs|
  {
    if vs != [] {
      EncAllAreUnits(form, vs[1..]);
    }
  }

  method Run(c: Converter, source: seq<int>, target: array<int>, strict: bool)
    returns (result: Result, s1: nat, t1: nat)
    requires AreUnits(Source(c), source)
    modifies target
    ensures Carried(Job(StepOf(c, strict), source, 0, old(target[..]), 0), target[..], result, s1, t1)
  {
    match c
    case C32to16 => result, s1, t1 := ConvertUTF32toUTF16(source, 0, target, 0, strict);
    case C16to32 => result, s1, t1 := ConvertUTF16toUTF32(source, 0, target, 0, strict);
    case C16to8 => result, s1, t1 := ConvertUTF16toUTF8(source, 0, target, 0, strict);
    case C8to16 => result, s1, t1 := ConvertUTF8toUTF16(source, 0, target, 0, strict);
    case C32to8 => result, s1, t1 := ConvertUTF32toUTF8(source, 0, target, 0, strict);
    case C8to32 => result, s1, t1 := ConvertUTF8toUTF32(source, 0, target, 0, strict);
  }

  /** One call with a target buffer of the given size. */
  method Transcode(c: Converter, strict: bool, source: seq<int>, room: nat)
    returns (result: Result, consumed: nat, written: seq<int>)
    requires AreUnits(Source(c), source)
    ensures var o := Convert(StepOf(c, strict), source, room);
            result == Returned(o) && consumed == o.consumed && written == o.written
  {
    hide StepOf;
    var target := new int[room];
    assert source[0..] == source;
    var t1;
    result, consumed, t1 := Run(c, source, target, strict);
    written := target[0..t1];
  }

  /** One source on which a stop is not exact: the lenient loop with room for one unit writes a high
      surrogate without its partner, which it refuses to use up when nothing follows. */
  method LoneHighOnBuffers() returns (result: Result, used: nat, written: seq<int>, alone: Result)
    ensures result == TargetExhausted && used == 1 && written == [SUR_HIGH_START] && alone == SourceExhausted
  {
    hide StepOf, Convert, Full;
    LoneHighPasses();
    var none: nat;
    var nothing: seq<int>;
    result, used, written := Transcode(C16to32, false, [SUR_HIGH_START, 0x41], 1);
    LoneHighAlone();
    alone, none, nothing := Transcode(C16to32, false, [SUR_HIGH_START], 1);
  }

  lemma LoneHighAlone()
    ensures Convert(StepOf(C16to32, false), [SUR_HIGH_START], 1).stop == SourceExhausted
  {
    assert StepOf(C16to32, false)([SUR_HIGH_START]) == Short;
  }

  // ---------- large enough buffers ----------

  /** A text is converted to the other form and back. */
  method ConvertThereAndBack(c: Converter, back: Converter, strict: bool, text: seq<int>, ghost vs: seq<Scalar>)
    returns (there: seq<int>, again: seq<int>)
    requires Source(back) == Target(c) && Target(back) == Source(c) && text == EncAll(Source(c), vs)
    ensures there == EncAll(Target(c), vs) && again == text
  {
    hide StepOf, Convert, EncAll, AreUnits;
    there := ConvertWhole(c, strict, text, vs);
    again := ConvertWhole(back, strict, there, vs);
  }

  /** A text is converted to the third form directly and by way of the second. */
  method ConvertBothWays(first: Converter, second: Converter, direct: Converter, strict: bool, text: seq<int>,
                         ghost vs: seq<Scalar>)
    returns (oneWay: seq<int>, otherWay: seq<int>)
    requires Source(direct) == Source(first) && Source(second) == Target(first) && Target(second) == Target(direct)
    requires text == EncAll(Source(first), vs)
    ensures oneWay == otherWay == EncAll(Target(direct), vs)
  {
    hide StepOf, Convert, EncAll, AreUnits;
    oneWay := ConvertWhole(direct, strict, text, vs);
    var half := ConvertWhole(first, strict, text, vs);
    otherWay := ConvertWhole(second, strict, half, vs);
  }

  method ConvertWhole(c: Converter, strict: bool, text: seq<int>, ghost vs: seq<Scalar>) returns (written: seq<int>)
    requires text == EncAll(Source(c), vs)
    ensures written == EncAll(Target(c), vs)
  {
    hide StepOf, Convert, EncAll, AreUnits;
    EncAllAreUnits(Source(c), vs);
    EncAllLength(Source(c), vs);
    EncAllLength(Target(c), vs);
    BoundedCall(c, strict, vs, MaxUnits(Target(c)) * |text|);
    var _, _, w := Transcode(c, strict, text, MaxUnits(Target(c)) * |text|);
    written := w;
  }

  // ---------- any series of buffers ----------

  predicate ChunksAreUnits(form: Form, calls: seq<Call>) {
    forall i :: 0 <= i < |calls| ==> AreUnits(form, calls[i].chunk)
  }

  /** Carries out a series of calls, each on what the one before left over and a new chunk. */
  method Transfers(c: Converter, strict: bool, calls: seq<Call>) returns (pending: seq<int>, written: seq<int>)
    requires ChunksAreUnits(Source(c), calls)
    ensures var x := ResumeAll(StepOf(c, strict), NewTransfer, calls); pending == x.pending && written == x.written
    ensures AreUnits(Source(c), pending)
  {
    hide StepOf, Convert;
    ghost var f, x := StepOf(c, strict), NewTransfer;
    pending, written := [], [];
    assert calls[0..] == calls;
    for i := 0 to |calls|
      invariant pending == x.pending && written == x.written && AreUnits(Source(c), pending)
      invariant ResumeAll(f, x, calls[i..]) == ResumeAll(f, NewTransfer, calls)
    {
      assert calls[i..][0] == calls[i] && calls[i..][1..] == calls[i + 1..];
      var source := pending + calls[i].chunk;
      var _, k, w := Transcode(c, strict, source, calls[i].room);
      x := Resume(f, x, calls[i]);
      pending, written := source[k..], written + w;
    }
  }

  /** An encoded text arrives in any chunks, into buffers of any room. Then buffers with room for one
      character are filled until the source is used up, which it always will be. */
  method Finish(c: Converter, strict: bool, arriving: seq<Call>, room: nat, ghost vs: seq<Scalar>)
    returns (written: seq<int>)
    requires Chunks(arriving) == EncAll(Source(c), vs) && ChunksAreUnits(Source(c), arriving)
    requires room >= MaxUnits(Target(c))
    ensures written == EncAll(Target(c), vs)
  {
    hide StepOf, Convert, Resume, Full, AreUnits, MaxUnits;
    ghost var f := StepOf(c, strict);
    StepOfIsStable(c, strict);
    RoomForOne(c, strict);
    var pending;
    pending, written := Transfers(c, strict, arriving);
    ghost var x := ResumeAll(f, NewTransfer, arriving);
    Outstanding(c, strict, vs, arriving);
    while pending != []
      invariant pending == x.pending && written == x.written && AreUnits(Source(c), pending)
      invariant Full(f, pending).stop == ConversionOK && x.written + Full(f, pending).written == EncAll(Target(c), vs)
      decreases |pending|
    {
      RestStillConverts(f, MaxUnits(Target(c)), pending, room);
      GoesOnWriting(f, x, room);
      var _, k, w := Transcode(c, strict, pending, room);
      UnitsLeft(Source(c), pending, k);
      ResumeWithoutChunk(f, x, room);
      x := Resume(f, x, Call([], room));
      pending, written := pending[k..], written + w;
    }
    assert x.written + [] == x.written;
    NothingLeft(f);
  }

  lemma NothingLeft(f: Stepper)
    ensures Full(f, []).written == []
  {
  }

  lemma UnitsLeft(form: Form, s: seq<int>, k: nat)
    requires AreUnits(form, s) && k <= |s|
    ensures AreUnits(form, s[k..])
  {
  }

  lemma ResumeWithoutChunk(f: Stepper, x: Transfer, room: nat)
    ensures var o := Convert(f, x.pending, room);
            Resume(f, x, Call([], room))
            == Transfer(x.pending[o.consumed..], x.consumed + o.consumed, x.written + o.written, x.bad || o.bad)
  {
    assert x.pending + [] == x.pending;
  }

  /** What is written and what is still to come make up the same text after the call. */
  lemma GoesOnWriting(f: Stepper, x: Transfer, room: nat)
    requires Stable(f)
    ensures var y := Resume(f, x, Call([], room));
            x.written + Full(f, x.pending).written == y.written + Full(f, y.pending).written
  {
    hide Full;
    var y := Resume(f, x, Call([], room));
    ResumeKeepsTotal(f, x, Call([], room), []);
    assert x.pending + [] == x.pending && y.pending + [] == y.pending;
  }

  lemma Outstanding(c: Converter, strict: bool, vs: seq<Scalar>, arriving: seq<Call>)
    requires Chunks(arriving) == EncAll(Source(c), vs)
    ensures var f := StepOf(c, strict);
            var x := ResumeAll(f, NewTransfer, arriving);
            Full(f, x.pending).stop == ConversionOK && x.written + Full(f, x.pending).written == EncAll(Target(c), vs)
  {
    hide StepOf, Convert, Full;
    var f := StepOf(c, strict);
    StepOfIsStable(c, strict);
    var x := ResumeAll(f, NewTransfer, arriving);
    ResumeAllKeepsTotal(f, NewTransfer, arriving, []);
    assert Chunks(arriving) + [] == Chunks(arriving) == [] + Chunks(arriving) && x.pending + [] == x.pending;
    ConvertersCommute(c, strict, vs);
    assert [] + Full(f, Chunks(arriving)).written == Full(f, Chunks(arriving)).written;
  }
}
