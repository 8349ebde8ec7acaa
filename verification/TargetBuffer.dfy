/** The state of a conversion loop over a source and a target buffer, for any step: how far both
    cursors are, what has been written, and how one character moves them on. */
module TargetBuffer {
  import opened Transcoding

  /** One call: the step, the source and its cursor, the target as it was and its cursor. */
  datatype Job = Job(f: Stepper, source: seq<int>, s0: nat, target: seq<int>, t0: nat)

  ghost predicate ValidJob(j: Job) {
    j.s0 <= |j.source| && j.t0 <= |j.target|
  }

  /** What the call must do: convert the rest of the source into the room left. */
  ghost function Whole(j: Job): Out
    requires ValidJob(j)
  {
    Convert(j.f, j.source[j.s0..], |j.target| - j.t0)
  }

  /** The whole call is the part done so far, k units used and w written, and then the rest. */
  ghost predicate Rest(f: Stepper, all: Out, k: nat, w: seq<int>, bad: bool, s: seq<int>, room: nat) {
    all == After(k, w, bad, Convert(f, s, room))
  }

  lemma Begin(f: Stepper, s: seq<int>, room: nat)
    ensures Rest(f, Convert(f, s, room), 0, [], false, s, room)
  {
    var o := Convert(f, s, room);
    assert [] + o.written == o.written;
  }

  lemma Advance(f: Stepper, all: Out, k: nat, w: seq<int>, bad: bool, s: seq<int>, room: nat, r: Item)
    requires Rest(f, all, k, w, bad, s, room)
    requires s != [] && f(s) == r && r.Chars? && r.need <= room
    ensures Rest(f, all, k + r.used, w + r.units, bad || r.bad, s[r.used..], room - |r.units|)
  {
    ConvertStep(f, s, room);
    AfterItem(k, w, bad, r, Convert(f, s[r.used..], room - |r.units|));
  }

  lemma AfterItem(k: nat, w: seq<int>, bad: bool, r: Item, o: Out)
    requires r.Chars?
    ensures After(k, w, bad, After(r.used, r.units, r.bad, o)) == After(k + r.used, w + r.units, bad || r.bad, o)
  {
    assert w + (r.units + o.written) == w + r.units + o.written;
  }

  /** Where the loop stops if it stops at s. */
  function StopOf(r: Item, room: nat): Result {
    match r
    case Short => SourceExhausted
    case Illegal(need) => if need > room then TargetExhausted else SourceIllegal
    case Chars(_, _, _, _) => TargetExhausted
  }

  predicate Stops(r: Item, room: nat) {
    r.Chars? ==> r.need > room
  }

  lemma Finish(f: Stepper, all: Out, k: nat, w: seq<int>, bad: bool, s: seq<int>, room: nat)
    requires Rest(f, all, k, w, bad, s, room)
    ensures s == [] ==> all == Out(ConversionOK, bad, k, w)
    ensures s != [] && Stops(f(s), room) ==> all == Out(StopOf(f(s), room), bad, k, w)
  {
    assert w + [] == w;
  }

  /** The loop has reached source position s1 and target position t1 with the target contents t. */
  ghost predicate At(j: Job, t: seq<int>, s1: nat, t1: nat, bad: bool)
    requires ValidJob(j)
  {
    && |t| == |j.target| && j.s0 <= s1 <= |j.source| && j.t0 <= t1 <= |t|
    && (forall i :: 0 <= i < |t| && !(j.t0 <= i < t1) ==> t[i] == j.target[i])
    && Rest(j.f, Whole(j), s1 - j.s0, t[j.t0..t1], bad, j.source[s1..], |t| - t1)
  }

  /** What the caller sees: the result, both cursors, what was written and that nothing else was. */
  ghost predicate Carried(j: Job, t: seq<int>, result: Result, s1: nat, t1: nat)
    requires ValidJob(j)
  {
    var o := Whole(j);
    && result == Returned(o) && s1 == j.s0 + o.consumed && t1 == j.t0 + |o.written|
    && |t| == |j.target| && t1 <= |t| && t[j.t0..t1] == o.written
    && forall i :: 0 <= i < |t| && !(j.t0 <= i < t1) ==> t[i] == j.target[i]
  }

  lemma AtStart(j: Job)
    requires ValidJob(j)
    ensures At(j, j.target, j.s0, j.t0, false)
  {
    Begin(j.f, j.source[j.s0..], |j.target| - j.t0);
    assert j.target[j.t0..j.t0] == [];
  }

  lemma AtAdvance(j: Job, t: seq<int>, s1: nat, t1: nat, bad: bool, r: Item, t': seq<int>)
    requires ValidJob(j) && At(j, t, s1, t1, bad) && s1 < |j.source|
    requires j.f(j.source[s1..]) == r && r.Chars? && r.need <= |t| - t1
    requires |t'| == |t| && t'[t1..t1 + |r.units|] == r.units
    requires forall i :: 0 <= i < |t| && !(t1 <= i < t1 + |r.units|) ==> t'[i] == t[i]
    ensures At(j, t', s1 + r.used, t1 + |r.units|, bad || r.bad)
  {
    hide Rest, Whole;
    var s, left := j.source[s1..], |t| - t1 - |r.units|;
    var w := t[j.t0..t1];
    assert Rest(j.f, Whole(j), s1 - j.s0 + r.used, w + r.units, bad || r.bad, s[r.used..], left) by {
      Advance(j.f, Whole(j), s1 - j.s0, w, bad, s, |t| - t1, r);
    }
    assert s[r.used..] == j.source[s1 + r.used..] by {
      DropTwice(j.source, s1, r.used);
    }
    assert t'[j.t0..t1 + |r.units|] == w + r.units by {
      WrittenGrows(t, t', j.t0, t1, r.units);
    }
  }

  lemma WrittenGrows(t: seq<int>, t': seq<int>, t0: nat, t1: nat, units: seq<int>)
    requires t0 <= t1 && t1 + |units| <= |t| == |t'| && t'[t1..t1 + |units|] == units
    requires forall i :: 0 <= i < |t| && !(t1 <= i < t1 + |units|) ==> t'[i] == t[i]
    ensures t'[t0..t1 + |units|] == t[t0..t1] + units
  {
  }

  lemma AtEnd(j: Job, t: seq<int>, s1: nat, t1: nat, bad: bool)
    requires ValidJob(j) && At(j, t, s1, t1, bad) && s1 == |j.source|
    ensures Carried(j, t, if bad then SourceIllegal else ConversionOK, s1, t1)
  {
    Finish(j.f, Whole(j), s1 - j.s0, t[j.t0..t1], bad, j.source[s1..], |t| - t1);
  }

  lemma AtStop(j: Job, t: seq<int>, s1: nat, t1: nat, bad: bool, r: Item)
    requires ValidJob(j) && At(j, t, s1, t1, bad) && s1 < |j.source|
    requires j.f(j.source[s1..]) == r && Stops(r, |t| - t1)
    ensures Carried(j, t, StopOf(r, |t| - t1), s1, t1)
  {
    Finish(j.f, Whole(j), s1 - j.s0, t[j.t0..t1], bad, j.source[s1..], |t| - t1);
  }

  /** One turn of a loop: it goes on behind the character, or it has stopped for good. */
  ghost predicate Turned(j: Job, t: seq<int>, going: bool, result: Result, s1: nat, s2: nat, t2: nat)
    requires ValidJob(j)
  {
    if going then
      s1 < s2 && (result == ConversionOK || result == SourceIllegal) && At(j, t, s2, t2, result == SourceIllegal)
    else Carried(j, t, result, s2, t2)
  }

  lemma TurnedByStop(j: Job, t: seq<int>, s1: nat, t1: nat, bad: bool, r: Item)
    requires ValidJob(j) && At(j, t, s1, t1, bad) && s1 < |j.source|
    requires j.f(j.source[s1..]) == r && Stops(r, |t| - t1)
    ensures Turned(j, t, false, StopOf(r, |t| - t1), s1, s1, t1)
  {
    hide At, Carried;
    AtStop(j, t, s1, t1, bad, r);
  }

  lemma TurnedByItem(j: Job, t: seq<int>, s1: nat, t1: nat, last: Result, r: Item, t': seq<int>)
    requires ValidJob(j) && s1 < |j.source| && (last == ConversionOK || last == SourceIllegal)
    requires At(j, t, s1, t1, last == SourceIllegal)
    requires j.f(j.source[s1..]) == r && r.Chars? && r.need <= |t| - t1 && r.used >= 1
    requires |t'| == |t| && t'[t1..t1 + |r.units|] == r.units
    requires forall i :: 0 <= i < |t| && !(t1 <= i < t1 + |r.units|) ==> t'[i] == t[i]
    ensures Turned(j, t', true, if r.bad then SourceIllegal else last, s1, s1 + r.used, t1 + |r.units|)
  {
    hide Rest, Whole;
    AtAdvance(j, t, s1, t1, last == SourceIllegal, r, t');
  }
}
