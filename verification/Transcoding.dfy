/** Buffer-to-buffer conversion, one character at a time, for any description of a single step. The
    step is a parameter, so everything here holds for all six converters. */
module Transcoding {

  /** What a converter does with the character at the front of the source: writes units, for which it
      needs room, with bad set if this makes the final result sourceIllegal although the loop goes
      on; or stops. A stop at an illegal character may still depend on room being there. */
  datatype Item =
    | Chars(units: seq<int>, used: nat, bad: bool, need: nat)
    | Short
    | Illegal(need: nat)

  predicate WellShaped(r: Item, s: seq<int>) {
    match r
    case Chars(units, used, _, need) => 1 <= used <= |s| && |units| <= need && 1 <= need <= 4
    case Illegal(need) => need <= 1
    case Short => true
  }

  /** A step uses up part of the source and needs room for what it writes. */
  type Stepper = f: seq<int> -> Item | (forall s: seq<int> :: s != [] ==> WellShaped(f(s), s))
    witness (s: seq<int>) => Short

  /** A character that is complete, or illegal, stays so when more source arrives. */
  ghost predicate Stable(f: Stepper) {
    forall s: seq<int>, t: seq<int> {:trigger f(s + t)} :: s != [] && f(s) != Short ==> f(s + t) == f(s)
  }

  datatype Result = ConversionOK | SourceExhausted | TargetExhausted | SourceIllegal

  /** Why the loop stopped, whether it passed a bad value, how much of the source was used and what
      was written. */
  datatype Out = Out(stop: Result, bad: bool, consumed: nat, written: seq<int>)

  /** The result returned: a bad value only shows if nothing else stopped the loop. */
  function Returned(o: Out): Result {
    if o.stop == ConversionOK && o.bad then SourceIllegal else o.stop
  }

  /** What comes out when r follows a part that used k units, wrote w and passed a bad value or not. */
  function After(k: nat, w: seq<int>, bad: bool, r: Out): Out {
    Out(r.stop, bad || r.bad, k + r.consumed, w + r.written)
  }

  function Convert(f: Stepper, s: seq<int>, room: nat): (o: Out)
    ensures o.consumed <= |s| && |o.written| <= room
    decreases |s|
  {
    if s == [] then Out(ConversionOK, false, 0, [])
    else
      match f(s)
      case Short => Out(SourceExhausted, false, 0, [])
      case Illegal(need) => Out(if need > room then TargetExhausted else SourceIllegal, false, 0, [])
      case Chars(units, used, bad, need) =>
        if need > room then Out(TargetExhausted, false, 0, [])
        else After(used, units, bad, Convert(f, s[used..], room - |units|))
  }

  /** The conversion into a target that never runs out of room. */
  function Full(f: Stepper, s: seq<int>): (o: Out)
    ensures o.consumed <= |s| && o.stop != TargetExhausted
    decreases |s|
  {
    if s == [] then Out(ConversionOK, false, 0, [])
    else
      match f(s)
      case Short => Out(SourceExhausted, false, 0, [])
      case Illegal(_) => Out(SourceIllegal, false, 0, [])
      case Chars(units, used, bad, _) => After(used, units, bad, Full(f, s[used..]))
  }

  /** Converters whose steps agree everywhere are the same. */
  lemma {:induction false} SameSteps(f: Stepper, g: Stepper, s: seq<int>, room: nat)
    requires forall t: seq<int> :: f(t) == g(t)
    ensures Convert(f, s, room) == Convert(g, s, room)
    decreases |s|
  {
    if s != [] {
      assert f(s) == g(s);
      if f(s).Chars? && f(s).need <= room {
        SameSteps(f, g, s[f(s).used..], room - |f(s).units|);
        ConvertStep(f, s, room);
        ConvertStep(g, s, room);
      }
    }
  }

  // ---------- stopping and going on ----------

  lemma ConvertStep(f: Stepper, s: seq<int>, room: nat)
    requires s != [] && f(s).Chars? && f(s).need <= room
    ensures var r := f(s);
            Convert(f, s, room) == After(r.used, r.units, r.bad, Convert(f, s[r.used..], room - |r.units|))
  {
  }

  lemma FullStep(f: Stepper, s: seq<int>, t: seq<int>)
    requires Stable(f) && s != [] && f(s).Chars?
    ensures var r := f(s);
            Full(f, s + t) == After(r.used, r.units, r.bad, Full(f, s[r.used..] + t))
  {
    assert f(s + t) == f(s);
    assert (s + t)[f(s).used..] == s[f(s).used..] + t;
  }

  lemma DropTwice(s: seq<int>, a: nat, b: nat)
    requires a + b <= |s|
    ensures s[a..][b..] == s[a + b..]
    ensures s[..a + b][a..] == s[a..][..b]
    ensures b > 0 ==> s[..a + b][a + b - 1] == s[a..][..b][b - 1]
  {
  }

  /** Converting s with t behind it goes on, after o, with what o left of s and t. */
  ghost predicate GoesOn(f: Stepper, s: seq<int>, o: Out, t: seq<int>)
    requires o.consumed <= |s|
  {
    Full(f, s + t) == After(o.consumed, o.written, o.bad, Full(f, s[o.consumed..] + t))
  }

  /** Wherever a call stops, the rest of the source, with whatever arrives later, is converted as if
      there had been no stop. */
  lemma {:induction false} StopIsClean(f: Stepper, s: seq<int>, room: nat, t: seq<int>)
    requires Stable(f)
    ensures GoesOn(f, s, Convert(f, s, room), t)
    decreases |s|
  {
    if s != [] && f(s).Chars? && f(s).need <= room {
      var rest, left := s[f(s).used..], room - |f(s).units|;
      StopIsClean(f, rest, left, t);
      ConvertStep(f, s, room);
      GoesOnFurther(f, s, Convert(f, rest, left), Convert(f, s, room), t);
    } else {
      StopAtOnce(f, s, room);
      NothingDone(f, s, Convert(f, s, room), t);
    }
  }

  lemma NothingDone(f: Stepper, s: seq<int>, o: Out, t: seq<int>)
    requires o.consumed == 0 && o.written == [] && !o.bad
    ensures GoesOn(f, s, o, t)
  {
    assert s[0..] == s && [] + Full(f, s + t).written == Full(f, s + t).written;
  }

  lemma GoesOnFurther(f: Stepper, s: seq<int>, o: Out, p: Out, t: seq<int>)
    requires Stable(f) && s != [] && f(s).Chars? && f(s).used + o.consumed <= |s|
    requires p == After(f(s).used, f(s).units, f(s).bad, o)
    requires GoesOn(f, s[f(s).used..], o, t)
    ensures GoesOn(f, s, p, t)
  {
    var r := f(s);
    DropTwice(s, r.used, o.consumed);
    FullStep(f, s, t);
    Chain(r, o, Full(f, s + t), Full(f, s[r.used..] + t), Full(f, s[r.used + o.consumed..] + t));
  }

  lemma Chain(r: Item, o: Out, all: Out, later: Out, last: Out)
    requires r.Chars? && all == After(r.used, r.units, r.bad, later)
    requires later == After(o.consumed, o.written, o.bad, last)
    ensures var p := After(r.used, r.units, r.bad, o); all == After(p.consumed, p.written, p.bad, last)
  {
    AfterAfter(r.used, r.units, r.bad, o, last);
  }

  lemma StopAtOnce(f: Stepper, s: seq<int>, room: nat)
    requires s == [] || !f(s).Chars? || f(s).need > room
    ensures var o := Convert(f, s, room); o.consumed == 0 && o.written == [] && !o.bad
  {
  }

  lemma AfterAfter(k: nat, w: seq<int>, bad: bool, o: Out, r: Out)
    ensures After(k, w, bad, After(o.consumed, o.written, o.bad, r))
         == After(k + o.consumed, w + o.written, bad || o.bad, r)
  {
    assert w + (o.written + r.written) == w + o.written + r.written;
  }

  predicate EndsWaiting(waits: int -> bool, p: seq<int>) {
    p != [] && waits(p[|p| - 1])
  }

  /** The front of the source decides the first character, except that after a unit that waits for a
      partner one more unit must be there to tell that the partner is missing. */
  ghost predicate DecidedByFront(f: Stepper, waits: int -> bool) {
    forall s: seq<int>, k: nat {:trigger f(s[..k])} :: s != [] && k <= |s| && f(s).Chars? && f(s).used <= k ==>
      f(s[..k]) == if k == f(s).used && EndsWaiting(waits, s[..k]) then Short else f(s)
  }

  /** What a call has written is the conversion of what it has used, unless what it has used ends in a
      unit that waits for a partner; on its own that would be an unfinished source. */
  lemma {:induction false} StopAfterPrefix(f: Stepper, waits: int -> bool, s: seq<int>, room: nat)
    requires DecidedByFront(f, waits)
    ensures Accounts(f, waits, s, Convert(f, s, room))
    decreases |s|
  {
    if s != [] && f(s).Chars? && f(s).need <= room {
      var rest, left := s[f(s).used..], room - |f(s).units|;
      ConvertStep(f, s, room);
      StopAfterPrefix(f, waits, rest, left);
      PrefixGrows(f, waits, s, Convert(f, rest, left), Convert(f, s, room));
    } else {
      StopAtOnce(f, s, room);
      NothingAccounts(f, waits, s, Convert(f, s, room));
    }
  }

  lemma NothingAccounts(f: Stepper, waits: int -> bool, s: seq<int>, o: Out)
    requires o.consumed == 0 && o.written == [] && !o.bad
    ensures Accounts(f, waits, s, o)
  {
    assert s[..0] == [];
  }

  ghost predicate Accounts(f: Stepper, waits: int -> bool, s: seq<int>, o: Out)
    requires o.consumed <= |s|
  {
    var p := s[..o.consumed];
    if EndsWaiting(waits, p) then Full(f, p).stop == SourceExhausted
    else Full(f, p) == Out(ConversionOK, o.bad, o.consumed, o.written)
  }

  lemma PrefixGrows(f: Stepper, waits: int -> bool, s: seq<int>, o: Out, o': Out)
    requires DecidedByFront(f, waits) && s != [] && f(s).Chars? && f(s).used + o.consumed <= |s|
    requires o' == After(f(s).used, f(s).units, f(s).bad, o)
    requires Accounts(f, waits, s[f(s).used..], o)
    ensures Accounts(f, waits, s, o')
  {
    var r := f(s);
    var p, q := s[..r.used + o.consumed], s[r.used..][..o.consumed];
    DropTwice(s, r.used, o.consumed);
    FrontDecides(f, waits, s, |p|);
    if o.consumed == 0 && EndsWaiting(waits, p) {
      ShortStops(f, p);
    } else {
      FullGrows(f, p, q, r, o);
      assert EndsWaiting(waits, p) == EndsWaiting(waits, q);
    }
  }

  lemma FullGrows(f: Stepper, p: seq<int>, q: seq<int>, r: Item, o: Out)
    requires p != [] && f(p) == r && r.Chars? && p[r.used..] == q
    ensures Full(f, q).stop == SourceExhausted ==> Full(f, p).stop == SourceExhausted
    ensures Full(f, q) == Out(ConversionOK, o.bad, o.consumed, o.written) ==>
              Full(f, p) == Out(ConversionOK, r.bad || o.bad, r.used + o.consumed, r.units + o.written)
  {
  }

  lemma FrontDecides(f: Stepper, waits: int -> bool, s: seq<int>, k: nat)
    requires DecidedByFront(f, waits) && s != [] && k <= |s| && f(s).Chars? && f(s).used <= k
    ensures f(s[..k]) == if k == f(s).used && EndsWaiting(waits, s[..k]) then Short else f(s)
  {
  }

  lemma ShortStops(f: Stepper, p: seq<int>)
    requires p != [] && f(p) == Short
    ensures Full(f, p).stop == SourceExhausted
  {
  }

  /** A step never ends in a unit that waits for a partner it did not get. */
  ghost predicate NeverPasses(f: Stepper, waits: int -> bool) {
    forall s: seq<int> :: s != [] && f(s).Chars? ==> !waits(s[f(s).used - 1])
  }

  lemma LastUnit(waits: int -> bool, s: seq<int>, used: nat, k: nat)
    requires 1 <= used && used + k <= |s| && !waits(s[used - 1]) && !EndsWaiting(waits, s[used..][..k])
    ensures !EndsWaiting(waits, s[..used + k])
  {
    DropTwice(s, used, k);
  }

  lemma {:induction false} NeverEndsWaiting(f: Stepper, waits: int -> bool, s: seq<int>, room: nat)
    requires NeverPasses(f, waits)
    ensures !EndsWaiting(waits, s[..Convert(f, s, room).consumed])
    decreases |s|
  {
    hide Convert;
    if s != [] && f(s).Chars? && f(s).need <= room {
      var used, left := f(s).used, room - |f(s).units|;
      assert !waits(s[used - 1]);
      NeverEndsWaiting(f, waits, s[used..], left);
      ConvertStep(f, s, room);
      LastUnit(waits, s, used, Convert(f, s[used..], left).consumed);
    } else {
      StopAtOnce(f, s, room);
    }
  }

  // ---------- any series of buffers ----------

  /** One call: some more source bytes arrive, and the target has so much room. */
  datatype Call = Call(chunk: seq<int>, room: nat)

  /** The source not yet used, and all that was written so far. */
  datatype Transfer = Transfer(pending: seq<int>, consumed: nat, written: seq<int>, bad: bool)

  function Resume(f: Stepper, x: Transfer, call: Call): Transfer {
    var s := x.pending + call.chunk;
    var o := Convert(f, s, call.room);
    Transfer(s[o.consumed..], x.consumed + o.consumed, x.written + o.written, x.bad || o.bad)
  }

  function ResumeAll(f: Stepper, x: Transfer, calls: seq<Call>): Transfer
    decreases |calls|
  {
    if calls == [] then x else ResumeAll(f, Resume(f, x, calls[0]), calls[1..])
  }

  function Chunks(calls: seq<Call>): seq<int> {
    if calls == [] then [] else calls[0].chunk + Chunks(calls[1..])
  }

  /** What the transfer will have produced in the end if t is the source still to arrive. */
  ghost function Total(f: Stepper, x: Transfer, t: seq<int>): Out {
    After(x.consumed, x.written, x.bad, Full(f, x.pending + t))
  }

  lemma ResumeKeepsTotal(f: Stepper, x: Transfer, call: Call, t: seq<int>)
    requires Stable(f)
    ensures Total(f, Resume(f, x, call), t) == Total(f, x, call.chunk + t)
  {
    var s := x.pending + call.chunk;
    assert x.pending + (call.chunk + t) == s + t;
    StopIsClean(f, s, call.room, t);
    var o := Convert(f, s, call.room);
    AfterAfter(x.consumed, x.written, x.bad, o, Full(f, s[o.consumed..] + t));
  }

  lemma {:induction false} ResumeAllKeepsTotal(f: Stepper, x: Transfer, calls: seq<Call>, t: seq<int>)
    requires Stable(f)
    ensures Total(f, ResumeAll(f, x, calls), t) == Total(f, x, Chunks(calls) + t)
    decreases |calls|
  {
    if calls == [] {
      assert Chunks(calls) + t == t;
    } else {
      var y, more := Resume(f, x, calls[0]), Chunks(calls[1..]) + t;
      assert Chunks(calls) + t == calls[0].chunk + more;
      ResumeAllKeepsTotal(f, y, calls[1..], t);
      ResumeKeepsTotal(f, x, calls[0], more);
    }
  }

  const NewTransfer := Transfer([], 0, [], false)

  /** Once all the source is used, what was written is what one call with unlimited room writes. */
  lemma UsedUpGivesTheSame(f: Stepper, calls: seq<Call>)
    requires Stable(f)
    requires ResumeAll(f, NewTransfer, calls).pending == []
    ensures var x := ResumeAll(f, NewTransfer, calls);
            Full(f, Chunks(calls)) == Out(ConversionOK, x.bad, |Chunks(calls)|, x.written)
  {
    var x := ResumeAll(f, NewTransfer, calls);
    ResumeAllKeepsTotal(f, NewTransfer, calls, []);
    assert Chunks(calls) + [] == Chunks(calls) == [] + Chunks(calls);
    var all := Full(f, Chunks(calls));
    assert [] + all.written == all.written && x.written + [] == x.written && x.pending + [] == [];
    assert Total(f, NewTransfer, Chunks(calls)) == all;
    ConsumedIsFed(f, NewTransfer, calls);
  }

  lemma {:induction false} ConsumedIsFed(f: Stepper, x: Transfer, calls: seq<Call>)
    ensures var y := ResumeAll(f, x, calls);
            y.consumed + |y.pending| == x.consumed + |x.pending| + |Chunks(calls)|
    decreases |calls|
  {
    if calls != [] {
      ConsumedIsFed(f, Resume(f, x, calls[0]), calls[1..]);
    }
  }

  // ---------- progress ----------

  /** No character needs more room than m. */
  ghost predicate NeedsAtMost(f: Stepper, m: nat) {
    forall s: seq<int> :: s != [] && f(s).Chars? ==> f(s).need <= m
  }

  /** Unlimited room is room for all that is written, and for one character more. */
  lemma {:induction false} EnoughRoom(f: Stepper, m: nat, s: seq<int>, room: nat)
    requires m > 0 && NeedsAtMost(f, m) && room >= |Full(f, s).written| + m
    ensures Convert(f, s, room) == Full(f, s)
    decreases |s|
  {
    if s != [] && f(s).Chars? {
      EnoughRoom(f, m, s[f(s).used..], room - |f(s).units|);
    }
  }

  /** With room for one character a call makes progress exactly when the source starts with one. */
  lemma CallsMakeProgress(f: Stepper, m: nat, s: seq<int>, room: nat)
    requires NeedsAtMost(f, m) && room >= m
    ensures Convert(f, s, room).consumed > 0 <==> s != [] && f(s).Chars?
  {
    if s != [] && f(s).Chars? {
      ConvertStep(f, s, room);
    }
  }

  /** Such a call on a source that converts to its end uses up part of it, and the rest still does. */
  lemma RestStillConverts(f: Stepper, m: nat, s: seq<int>, room: nat)
    requires Stable(f) && NeedsAtMost(f, m) && room >= m
    requires s != [] && Full(f, s).stop == ConversionOK
    ensures var o := Convert(f, s, room); o.consumed > 0 && Full(f, s[o.consumed..]).stop == ConversionOK
  {
    CallsMakeProgress(f, m, s, room);
    StopIsClean(f, s, room, []);
    var rest := s[Convert(f, s, room).consumed..];
    assert s + [] == s && rest + [] == rest;
  }

  /** The source has arrived, and every buffer has room for one character. */
  predicate Draining(calls: seq<Call>, m: nat) {
    forall i :: 0 <= i < |calls| ==> calls[i].chunk == [] && calls[i].room >= m
  }

  /** As many such calls as units are left always reach the end of the source. */
  lemma {:induction false} Drains(f: Stepper, m: nat, x: Transfer, calls: seq<Call>)
    requires Stable(f) && NeedsAtMost(f, m) && Full(f, x.pending).stop == ConversionOK
    requires Draining(calls, m) && |calls| >= |x.pending|
    ensures ResumeAll(f, x, calls).pending == []
    decreases |calls|
  {
    if calls != [] {
      var y := Resume(f, x, calls[0]);
      assert x.pending + [] == x.pending;
      if x.pending == [] {
        assert y.pending == [];
      } else {
        RestStillConverts(f, m, x.pending, calls[0].room);
      }
      Drains(f, m, y, calls[1..]);
    }
  }

  lemma {:induction false} ResumeAllSplits(f: Stepper, x: Transfer, a: seq<Call>, b: seq<Call>)
    ensures ResumeAll(f, x, a + b) == ResumeAll(f, ResumeAll(f, x, a), b)
    decreases |a|
  {
    hide Resume;
    if a == [] {
      assert a + b == b;
    } else {
      assert (a + b)[0] == a[0] && (a + b)[1..] == a[1..] + b;
      ResumeAllSplits(f, Resume(f, x, a[0]), a[1..], b);
    }
  }

  lemma {:induction false} ChunksSplit(a: seq<Call>, b: seq<Call>)
    ensures Chunks(a + b) == Chunks(a) + Chunks(b)
    decreases |a|
  {
    if a == [] {
      assert a + b == b;
    } else {
      assert (a + b)[0] == a[0] && (a + b)[1..] == a[1..] + b;
      ChunksSplit(a[1..], b);
    }
  }

  lemma {:induction false} NoChunks(calls: seq<Call>, m: nat)
    requires Draining(calls, m)
    ensures Chunks(calls) == []
    decreases |calls|
  {
    if calls != [] {
      NoChunks(calls[1..], m);
    }
  }

  /** A source that converts to its end arrives in any chunks, into buffers of any room. Then as many
      calls with room for one character as units are left use up all of it, and what all the calls
      wrote is what one call with unlimited room writes, with the same verdict. */
  lemma AnyBuffersGiveTheSame(f: Stepper, m: nat, arriving: seq<Call>, draining: seq<Call>)
    requires Stable(f) && NeedsAtMost(f, m) && Full(f, Chunks(arriving)).stop == ConversionOK
    requires Draining(draining, m) && |draining| >= |ResumeAll(f, NewTransfer, arriving).pending|
    ensures var x := ResumeAll(f, NewTransfer, arriving + draining);
            x.pending == [] && Full(f, Chunks(arriving)) == Out(ConversionOK, x.bad, |Chunks(arriving)|, x.written)
  {
    var x := ResumeAll(f, NewTransfer, arriving);
    ResumeAllKeepsTotal(f, NewTransfer, arriving, []);
    assert Chunks(arriving) + [] == Chunks(arriving) == [] + Chunks(arriving) && x.pending + [] == x.pending;
    Drains(f, m, x, draining);
    ResumeAllSplits(f, NewTransfer, arriving, draining);
    ChunksSplit(arriving, draining);
    NoChunks(draining, m);
    assert Chunks(arriving + draining) == Chunks(arriving);
    UsedUpGivesTheSame(f, arriving + draining);
  }
}
