/** The timers of the loop: an unordered list walked with restarts while its callbacks change it. */
module Timers {

  const NOMORE := -1

  datatype TimeEvent = TimeEvent(id: int, sec: int, ms: int)

  // ---------- the list ----------

  /** The newest timer comes first, and no two share an id. */
  ghost predicate Decreasing(list: seq<TimeEvent>) {
    forall i, j :: 0 <= i < j < |list| ==> list[i].id > list[j].id
  }

  ghost predicate Below(list: seq<TimeEvent>, id: int) {
    forall i :: 0 <= i < |list| ==> list[i].id < id
  }

  /** The ids up to max. */
  ghost function Ids(list: seq<TimeEvent>, max: int): set<int> {
    set i | 0 <= i < |list| && list[i].id <= max :: list[i].id
  }

  ghost function Without(list: seq<TimeEvent>, id: int): (r: seq<TimeEvent>) {
    if list == [] then []
    else if list[0].id == id then list[1..]
    else [list[0]] + Without(list[1..], id)
  }

  /** Removing an id removes exactly its timer and keeps the order of the others. */
  lemma WithoutRemoves(list: seq<TimeEvent>, id: int)
    requires Decreasing(list)
    ensures var r := Without(list, id);
            && Decreasing(r)
            && (forall e :: e in r <==> e in list && e.id != id)
            && forall max: int :: Ids(r, max) == Ids(list, max) - {id}
  {
    hide Ids, Decreasing, Without;
    var r := Without(list, id);
    WithoutMembers(list, id);
    forall max: int ensures Ids(r, max) == Ids(list, max) - {id} {
      IdsAre(r, max);
      IdsAre(list, max);
    }
  }

  lemma {:induction false} WithoutMembers(list: seq<TimeEvent>, id: int)
    requires Decreasing(list)
    ensures Decreasing(Without(list, id))
    ensures forall e :: e in Without(list, id) <==> e in list && e.id != id
    decreases |list|
  {
    if list != [] {
      hide Decreasing;
      DecreasingRest(list);
      assert list == [list[0]] + list[1..];
      WithoutMembers(list[1..], id);
      DecreasingWith(list[0], Without(list[1..], id));
    }
  }

  lemma DecreasingRest(list: seq<TimeEvent>)
    requires Decreasing(list) && list != []
    ensures Decreasing(list[1..]) && forall f :: f in list[1..] ==> f.id < list[0].id
  {
    assert forall i :: 0 <= i < |list| - 1 ==> list[1..][i] == list[i + 1];
  }

  lemma DecreasingWith(e: TimeEvent, rest: seq<TimeEvent>)
    ensures Decreasing(rest) && (forall f :: f in rest ==> f.id < e.id) ==> Decreasing([e] + rest)
  {
    var l := [e] + rest;
    assert forall i :: 1 <= i < |l| ==> l[i] == rest[i - 1];
  }

  lemma {:induction false} WithoutAt(list: seq<TimeEvent>, i: nat, id: int)
    requires i <= |list| && (forall j :: 0 <= j < i ==> list[j].id != id) && (i < |list| ==> list[i].id == id)
    ensures Without(list, id) == if i < |list| then list[..i] + list[i + 1..] else list
    decreases i
  {
    if i > 0 {
      WithoutAt(list[1..], i - 1, id);
      assert list == [list[0]] + list[1..];
    }
  }

  lemma IdsAre(list: seq<TimeEvent>, max: int)
    ensures forall id :: id in Ids(list, max) <==> id <= max && exists e :: e in list && e.id == id
  {
    forall e | e in list && e.id <= max ensures e.id in Ids(list, max) {
      var i :| 0 <= i < |list| && list[i] == e;
    }
  }

  /** What a callback may leave: new timers, and those of the old ones it did not delete, unchanged. */
  ghost predicate Survivors(a: seq<TimeEvent>, b: seq<TimeEvent>, next: int) {
    forall e :: e in b && e.id < next ==> e in a
  }

  lemma SurvivingIds(a: seq<TimeEvent>, b: seq<TimeEvent>, next: int, max: int)
    requires Survivors(a, b, next) && max < next
    ensures Ids(b, max) <= Ids(a, max)
  {
    IdsAre(a, max);
    IdsAre(b, max);
  }

  /** What is left of b after gone is removed is no more than b less gone. */
  lemma Fewer(a: set<int>, b: set<int>, gone: set<int>)
    requires a <= b - gone && gone <= b
    ensures |a| <= |b| - |gone|
  {
    assert b - gone == a + (b - gone - a) && b == (b - gone) + gone;
  }

  lemma ProperlyFewer(a: set<int>, b: set<int>)
    requires a <= b && |a| < |b|
    ensures a < b
  {
    assert a != b;
  }

  // ---------- times ----------

  /** C division and remainder, which cut towards zero. */
  function Quot(a: int, b: int): int
    requires b > 0
  {
    if a >= 0 then a / b else -(-a / b)
  }

  function Rem(a: int, b: int): int
    requires b > 0
  {
    a - Quot(a, b) * b
  }

  /** A time so many milliseconds from now. */
  function Later(sec: int, ms: int, milliseconds: int): (int, int) {
    var s, m := sec + Quot(milliseconds, 1000), ms + Rem(milliseconds, 1000);
    if m >= 1000 then (s + 1, m - 1000) else (s, m)
  }

  /** The time is exact, and in normal form if the delay is not negative. */
  lemma LaterIsExact(sec: int, ms: int, milliseconds: int)
    requires 0 <= ms < 1000
    ensures var (s, m) := Later(sec, ms, milliseconds);
            && s * 1000 + m == sec * 1000 + ms + milliseconds
            && -1000 < m < 1000 && (milliseconds >= 0 ==> 0 <= m)
  {
  }

  predicate Due(e: TimeEvent, sec: int, ms: int) {
    sec > e.sec || (sec == e.sec && ms >= e.ms)
  }

  /** For a time in normal form, a timer is due exactly when its time has come. */
  lemma DueIsElapsed(e: TimeEvent, sec: int, ms: int)
    requires 0 <= ms < 1000 && 0 <= e.ms < 1000
    ensures Due(e, sec, ms) <==> sec * 1000 + ms >= e.sec * 1000 + e.ms
  {
  }

  /** A run of a timer, as the timer was, and the clock when it ran. */
  datatype Ran = Ran(timer: TimeEvent, sec: int, ms: int)

  /** All in milliseconds: the clock of a run, and the time of a timer. */
  function Clock(r: Ran): int {
    r.sec * 1000 + r.ms
  }

  function TimeOf(e: TimeEvent): int {
    e.sec * 1000 + e.ms
  }

  /** The timer ran at its time or later. Times set by a delay that is not negative are in normal form. */
  predicate Elapsed(r: Ran, e: TimeEvent) {
    0 <= e.ms < 1000 ==> Clock(r) >= TimeOf(e)
  }

  /** What a callback does, in order, and what it returns. */
  datatype Task = Create(milliseconds: int) | Delete(id: int)

  datatype Behaviour = Behaviour(tasks: seq<Task>, retval: int)

  /** The timers, the next id, how often the clock was read, and the clock. */
  datatype Moment = Moment(list: seq<TimeEvent>, nextId: nat, readings: nat, sec: int, ms: int)

  /** The clock is read: it has gone on by some milliseconds since it was read before. */
  function Ticked(ticks: nat -> nat, a: Moment): Moment {
    var t := a.sec * 1000 + a.ms + ticks(a.readings);
    a.(readings := a.readings + 1, sec := t / 1000, ms := t % 1000)
  }

  ghost function AfterTask(ticks: nat -> nat, a: Moment, task: Task): Moment {
    match task
    case Create(milliseconds) =>
      var t := Ticked(ticks, a);
      var (s, m) := Later(t.sec, t.ms, milliseconds);
      t.(list := [TimeEvent(t.nextId, s, m)] + t.list, nextId := t.nextId + 1)
    case Delete(id) => a.(list := Without(a.list, id))
  }

  ghost function AfterTasks(ticks: nat -> nat, a: Moment, tasks: seq<Task>): Moment {
    if tasks == [] then a else AfterTask(ticks, AfterTasks(ticks, a, tasks[..|tasks| - 1]), tasks[|tasks| - 1])
  }

  class TimerList {
    const ticks: nat -> nat           // how far the clock goes on before each reading
    const behaviour: nat -> Behaviour // what the n-th callback called does
    var list: seq<TimeEvent>
    var nextId: nat
    var lastTime: int
    var readings: nat
    var sec: int      // the clock
    var ms: int
    var runs: nat
    ghost var ran: seq<Ran>

    /** Ids are handed out once, in order, and the newest timer is in front. */
    ghost predicate Valid()
      reads this
    {
      Decreasing(list) && Below(list, nextId) && 0 <= ms < 1000
    }

    ghost function Now(): Moment
      reads this
    {
      Moment(list, nextId, readings, sec, ms)
    }

    constructor (sec: int, ms: int, ticks: nat -> nat, behaviour: nat -> Behaviour)
      requires 0 <= ms < 1000
      ensures Valid() && Now() == Moment([], 0, 0, sec, ms) && ran == [] && lastTime == sec && runs == 0
      ensures this.ticks == ticks && this.behaviour == behaviour
    {
      list, nextId, lastTime, ran, readings, runs := [], 0, sec, [], 0, 0;
      this.sec, this.ms, this.ticks, this.behaviour := sec, ms, ticks, behaviour;
    }

    /** Time passes; it does not run backwards during a pass. */
    method GetTime() returns (s: int, m: int)
      requires Valid()
      modifies this`sec, this`ms, this`readings
      ensures Valid() && (s, m) == (sec, ms) && NoEarlier(old(sec), old(ms))
      ensures Now() == Ticked(ticks, old(Now()))
    {
      var t := sec * 1000 + ms + ticks(readings);
      readings, sec, ms := readings + 1, t / 1000, t % 1000;
      return sec, ms;
    }

    ghost predicate NoEarlier(s: int, m: int)
      reads this
    {
      sec > s || (sec == s && ms >= m)
    }

    method CreateTimeEvent(milliseconds: int) returns (id: int)
      requires Valid()
      modifies this`list, this`nextId, this`sec, this`ms, this`readings
      ensures Valid() && NoEarlier(old(sec), old(ms))
      ensures id == old(nextId) && nextId == id + 1 && |list| == |old(list)| + 1
      ensures list[0].id == id && TimeOf(list[0]) == sec * 1000 + ms + milliseconds && list[1..] == old(list)
      ensures Now() == AfterTask(ticks, old(Now()), Create(milliseconds))
    {
      id := nextId;
      nextId := nextId + 1;
      var s, m := GetTime();
      var (s', m') := Later(s, m, milliseconds);
      LaterIsExact(s, m, milliseconds);
      list := [TimeEvent(id, s', m')] + list;
    }

    method DeleteTimeEvent(id: int) returns (ok: bool)
      requires Valid()
      modifies this`list
      ensures Valid() && list == Without(old(list), id)
      ensures ok <==> exists e :: e in old(list) && e.id == id
    {
      hide Decreasing, Below, Without;
      WithoutRemoves(list, id);
      BelowWithout(list, id, nextId);
      var i := 0;
      while i < |list|
        invariant 0 <= i <= |list| && forall j :: 0 <= j < i ==> list[j].id != id
      {
        if list[i].id == id {
          WithoutAt(list, i, id);
          assert list[i] in list;
          list := list[..i] + list[i + 1..];
          return true;
        }
        i := i + 1;
      }
      WithoutAt(list, i, id);
      return false;
    }

    /** The callback of a timer: it may create and delete timers, and says when it wants to run again. If
        it has deleted its own timer it must not ask for that, or the pass would write to a freed node.
        The allowance bounds how often callbacks of one pass may ask. */
    method TimeProc(e: TimeEvent, again: nat) returns (retval: int)
      requires Valid()
      modifies this
      ensures Valid() && NoEarlier(old(sec), old(ms)) && lastTime == old(lastTime)
      ensures nextId >= old(nextId) && Survivors(old(list), list, old(nextId))
      ensures retval != NOMORE ==> again > 0 && exists f :: f in list && f.id == e.id
      ensures ran == old(ran) + [Ran(e, old(sec), old(ms))] && runs == old(runs) + 1
      ensures Now() == AfterTasks(ticks, old(Now()), behaviour(old(runs)).tasks)
      ensures retval == if again > 0 && exists f :: f in list && f.id == e.id then behaviour(old(runs)).retval else NOMORE
    {
      hide Decreasing, Below, Without, AfterTask;
      ran := ran + [Ran(e, sec, ms)];
      var b := behaviour(runs);
      runs := runs + 1;
      for i := 0 to |b.tasks|
        invariant Valid() && NoEarlier(old(sec), old(ms)) && lastTime == old(lastTime)
        invariant nextId >= old(nextId) && Survivors(old(list), list, old(nextId))
        invariant ran == old(ran) + [Ran(e, old(sec), old(ms))] && runs == old(runs) + 1
        invariant Now() == AfterTasks(ticks, old(Now()), b.tasks[..i])
      {
        assert b.tasks[..i + 1][..i] == b.tasks[..i];
        Do(b.tasks[i], old(list), old(nextId));
      }
      assert b.tasks[..|b.tasks|] == b.tasks;
      retval := b.retval;
      if again == 0 || forall j :: 0 <= j < |list| ==> list[j].id != e.id {
        retval := NOMORE;
      }
    }

    method Do(task: Task, ghost was: seq<TimeEvent>, ghost next: int)
      requires Valid() && next <= nextId && Survivors(was, list, next)
      modifies this`list, this`nextId, this`sec, this`ms, this`readings
      ensures Valid() && NoEarlier(old(sec), old(ms)) && nextId >= old(nextId) && Survivors(was, list, next)
      ensures Now() == AfterTask(ticks, old(Now()), task)
    {
      hide Decreasing, Below, Without;
      match task
      case Create(milliseconds) =>
        var _ := CreateTimeEvent(milliseconds);
        assert forall e :: e in list ==> e == list[0] || e in list[1..];
      case Delete(id) =>
        WithoutRemoves(list, id);
        var _ := DeleteTimeEvent(id);
    }

    /** Runs every timer that is due, except those its callbacks create. A clock set back makes all of
        them due at once. */
    method ProcessTimeEvents(now: int, again: nat) returns (processed: nat)
      requires Valid()
      modifies this
      ensures Valid() && lastTime == now && nextId >= old(nextId)
      ensures |ran| == |old(ran)| + processed && ran[..|old(ran)|] == old(ran)
      ensures forall k :: |old(ran)| <= k < |ran| ==>
        && ran[k].timer.id in Ids(old(list), old(nextId) - 1) && Elapsed(ran[k], ran[k].timer)
        && old(sec) * 1000 + old(ms) <= Clock(ran[k]) <= sec * 1000 + ms
      ensures now >= old(lastTime) ==>
        forall k, e :: |old(ran)| <= k < |ran| && e in old(list) && e.id == ran[k].timer.id ==> Elapsed(ran[k], e)
      ensures now < old(lastTime) && old(sec) > 0 ==>
        forall e :: e in list && e.id < old(nextId) ==> exists k :: |old(ran)| <= k < |ran| && ran[k].timer.id == e.id
      ensures processed <= again + |Ids(old(list), old(nextId) - 1)|
      ensures forall e :: e in list && e.id < old(nextId) ==> !Due(e, old(sec), old(ms))
    {
      hide Ids, Decreasing, Below, RunsInTime, Logged, Elapsed;
      if now < lastTime {
        ForceAll();
      }
      ghost var start, was := sec * 1000 + ms, list;
      lastTime := now;
      var maxId := nextId - 1;
      var i := 0;
      var left := again;
      processed := 0;
      ghost var all, runs := Ids(list, maxId), [];
      NothingRan(list, maxId, start, all);
      assert ran + [] == ran;
      while i < |list|
        invariant Valid() && 0 <= i <= |list| && lastTime == now
        invariant maxId == old(nextId) - 1 && nextId >= old(nextId) && NoEarlier(old(sec), old(ms))
        invariant Ids(list, maxId) <= all
        invariant forall j :: 0 <= j < i && list[j].id <= maxId ==> !Due(list[j], old(sec), old(ms))
        invariant ran == old(ran) + runs && |runs| == processed && Logged(runs, start, sec * 1000 + ms, all)
        invariant RunsInTime(was, list, maxId, runs)
        invariant processed + left + |Ids(list, maxId)| <= again + |all|
        decreases left, Ids(list, maxId), |list| - i
      {
        if list[i].id > maxId {
          i := i + 1;
        } else {
          ghost var clock := sec * 1000 + ms;
          var s, m := GetTime();
          LoggedLater(runs, start, clock, s * 1000 + m, all);
          if Due(list[i], s, m) {
            ghost var r;
            left, r := RunDue(list[i], maxId, left, runs, start, all, was);
            assert ran == old(ran) + (runs + [r]);
            runs := runs + [r];
            processed := processed + 1;
            i := 0;
          } else {
            i := i + 1;
          }
        }
      }
      AllInTime(old(ran), runs, start, sec * 1000 + ms, all, was, list, maxId);
    }

    /** Runs a timer that is due, behind the runs before it. */
    method RunDue(e: TimeEvent, maxId: int, again: nat, ghost runs: seq<Ran>, ghost start: int, ghost all: set<int>,
                  ghost was: seq<TimeEvent>)
      returns (left: nat, ghost r: Ran)
      requires Valid() && e in list && e.id <= maxId < nextId && Due(e, sec, ms)
      requires start <= sec * 1000 + ms && Logged(runs, start, sec * 1000 + ms, all) && Ids(list, maxId) <= all
      requires Decreasing(was) && RunsInTime(was, list, maxId, runs)
      modifies this
      ensures Valid() && NoEarlier(old(sec), old(ms)) && lastTime == old(lastTime) && nextId >= old(nextId)
      ensures ran == old(ran) + [r] && Logged(runs + [r], start, sec * 1000 + ms, all)
      ensures RunsInTime(was, list, maxId, runs + [r])
      ensures left < again || (left == again && Ids(list, maxId) < Ids(old(list), maxId))
      ensures Ids(list, maxId) <= Ids(old(list), maxId)
      ensures left + |Ids(list, maxId)| < again + |Ids(old(list), maxId)|
    {
      hide Ids, Decreasing, Below, Survivors, RunsInTime, Logged;
      ghost var before := list;
      IdsAre(list, maxId);
      var retval;
      ghost var mid;
      left, retval, mid := RunTimer(e, maxId, again);
      if left == again {
        ProperlyFewer(Ids(list, maxId), Ids(old(list), maxId));
      }
      r := Ran(e, old(sec), old(ms));
      LoggedNext(runs, r, start, sec * 1000 + ms, all);
      StillThere(before, mid, list, old(nextId), maxId, e.id);
      LoggedInOrder(runs, start, Clock(r), all);
      OneMoreRun(was, before, list, maxId, runs, r);
    }

    /** The clock was set back: every timer is due. */
    method ForceAll()
      requires Valid()
      modifies this`list
      ensures Valid() && |list| == |old(list)|
      ensures forall j :: 0 <= j < |list| ==> list[j] == old(list)[j].(sec := 0)
      ensures forall max: int :: Ids(list, max) == Ids(old(list), max)
    {
      var j := 0;
      while j < |list|
        invariant 0 <= j <= |list| == |old(list)|
        invariant forall i :: 0 <= i < |list| ==> list[i] == if i < j then old(list)[i].(sec := 0) else old(list)[i]
      {
        list := list[j := list[j].(sec := 0)];
        j := j + 1;
      }
    }

    /** Runs a timer that is due; it goes, or is set for so many milliseconds from the clock then. The
        other timers stay as the callback leaves them. */
    method RunTimer(e: TimeEvent, maxId: int, again: nat) returns (left: nat, retval: int, ghost mid: seq<TimeEvent>)
      requires Valid() && e in list && e.id <= maxId < nextId
      modifies this
      ensures Valid() && NoEarlier(old(sec), old(ms)) && lastTime == old(lastTime) && nextId >= old(nextId)
      ensures ran == old(ran) + [Ran(e, old(sec), old(ms))]
      ensures Survivors(old(list), mid, old(nextId)) && mid == AfterTasks(ticks, old(Now()), behaviour(old(runs)).tasks).list
      ensures retval == if again > 0 && exists f :: f in mid && f.id == e.id then behaviour(old(runs)).retval else NOMORE
      ensures forall f :: f in list && f.id != e.id ==> f in mid
      ensures forall f :: f in mid && f.id != e.id ==> f in list
      ensures if retval == -1 then left == again && forall f :: f in list ==> f.id != e.id
              else left < again && (exists f :: f in list && f.id == e.id)
                   && forall f :: f in list && f.id == e.id ==> TimeOf(f) == sec * 1000 + ms + retval
      ensures Ids(list, maxId) <= Ids(old(list), maxId)
      ensures left + |Ids(list, maxId)| < again + |Ids(old(list), maxId)|
    {
      hide Ids, Without, Decreasing, Below, AfterTasks;
      var id := e.id;
      IdsAre(list, maxId);
      retval := TimeProc(e, again);
      mid := list;
      SurvivingIds(old(list), list, old(nextId), maxId);
      left := again;
      if retval != NOMORE {
        var s, m := GetTime();
        LaterIsExact(s, m, retval);
        Reschedule(id, Later(s, m, retval));
        left := again - 1;
        Fewer(Ids(list, maxId), Ids(old(list), maxId), {});
      } else {
        WithoutRemoves(list, id);
        var _ := DeleteTimeEvent(id);
        IdsAre(list, maxId);
        Fewer(Ids(list, maxId), Ids(old(list), maxId), {id});
      }
    }

    /** Sets a timer, which is still there, for later. */
    method Reschedule(id: int, when: (int, int))
      requires Valid() && exists e :: e in list && e.id == id
      modifies this`list
      ensures Valid() && |list| == |old(list)|
      ensures forall j :: 0 <= j < |list| ==>
        (list[j] == if old(list)[j].id == id then TimeEvent(id, when.0, when.1) else old(list)[j])
      ensures forall max: int :: Ids(list, max) == Ids(old(list), max)
    {
      var j := 0;
      while j < |list|
        invariant 0 <= j <= |list| == |old(list)|
        invariant forall i :: 0 <= i < |list| ==>
          (list[i] == if i < j && old(list)[i].id == id then TimeEvent(id, when.0, when.1) else old(list)[i])
      {
        if list[j].id == id {
          list := list[j := TimeEvent(id, when.0, when.1)];
        }
        j := j + 1;
      }
    }
  }

  /** Each timer of list is as it was in old, or has run; each run came when the timer's first time had. */
  ghost predicate RunsInTime(was: seq<TimeEvent>, list: seq<TimeEvent>, maxId: int, ran: seq<Ran>) {
    && (forall e :: e in list && e.id <= maxId ==> e in was || exists k :: 0 <= k < |ran| && ran[k].timer.id == e.id)
    && (forall k, e :: 0 <= k < |ran| && e in was && e.id == ran[k].timer.id ==> Elapsed(ran[k], e))
  }

  /** The runs are of some of the timers in all, each at its time or later, between start and clock. */
  ghost predicate Logged(runs: seq<Ran>, start: int, clock: int, all: set<int>) {
    forall k :: 0 <= k < |runs| ==>
      runs[k].timer.id in all && Elapsed(runs[k], runs[k].timer) && start <= Clock(runs[k]) <= clock
  }

  lemma NothingRan(list: seq<TimeEvent>, maxId: int, start: int, all: set<int>)
    ensures Logged([], start, start, all) && RunsInTime(list, list, maxId, [])
  {
  }

  lemma LoggedLater(runs: seq<Ran>, start: int, clock: int, clock': int, all: set<int>)
    requires Logged(runs, start, clock, all) && clock <= clock'
    ensures Logged(runs, start, clock', all)
  {
  }

  lemma LoggedInOrder(runs: seq<Ran>, start: int, clock: int, all: set<int>)
    requires Logged(runs, start, clock, all)
    ensures forall k :: 0 <= k < |runs| ==> Clock(runs[k]) <= clock
  {
  }

  lemma LoggedNext(runs: seq<Ran>, r: Ran, start: int, clock: int, all: set<int>)
    requires Logged(runs, start, Clock(r), all) && start <= Clock(r) <= clock
    requires r.timer.id in all && Elapsed(r, r.timer)
    ensures Logged(runs + [r], start, clock, all)
  {
  }

  lemma AllInTime(before: seq<Ran>, runs: seq<Ran>, start: int, clock: int, all: set<int>,
                  was: seq<TimeEvent>, list: seq<TimeEvent>, maxId: int)
    requires Logged(runs, start, clock, all) && RunsInTime(was, list, maxId, runs)
    ensures var ran := before + runs;
            && (forall k :: |before| <= k < |ran| ==>
                  ran[k].timer.id in all && Elapsed(ran[k], ran[k].timer) && start <= Clock(ran[k]) <= clock)
            && (forall k, e :: |before| <= k < |ran| && e in was && e.id == ran[k].timer.id ==> Elapsed(ran[k], e))
            && (forall e :: e in list && e.id <= maxId && e !in was ==>
                  exists k :: |before| <= k < |ran| && ran[k].timer.id == e.id)
  {
    hide Elapsed;
    var ran := before + runs;
    assert forall k :: |before| <= k < |ran| ==> ran[k] == runs[k - |before|];
    forall e | e in list && e.id <= maxId && e !in was ensures exists k :: |before| <= k < |ran| && ran[k].timer.id == e.id {
      var k :| 0 <= k < |runs| && runs[k].timer.id == e.id;
      assert ran[|before| + k].timer.id == e.id;
    }
  }

  lemma OneMoreRun(was: seq<TimeEvent>, list: seq<TimeEvent>, list': seq<TimeEvent>, maxId: int, ran: seq<Ran>, r: Ran)
    requires Decreasing(was) && RunsInTime(was, list, maxId, ran) && r.timer in list && r.timer.id <= maxId
    requires Elapsed(r, r.timer) && forall k :: 0 <= k < |ran| ==> Clock(ran[k]) <= Clock(r)
    requires forall f :: f in list' && f.id <= maxId && f.id != r.timer.id ==> f in list
    ensures RunsInTime(was, list', maxId, ran + [r])
  {
    var runs := ran + [r];
    forall e | e in list' && e.id <= maxId ensures e in was || exists k :: 0 <= k < |runs| && runs[k].timer.id == e.id {
      if e.id == r.timer.id {
        assert runs[|ran|].timer.id == e.id;
      } else if e !in was {
        var k :| 0 <= k < |ran| && ran[k].timer.id == e.id;
        assert runs[k].timer.id == e.id;
      }
    }
    forall e | e in was && e.id == r.timer.id ensures Elapsed(r, e) {
      if r.timer in was {
        SameTimer(was, e, r.timer);
      } else {
        var k :| 0 <= k < |ran| && ran[k].timer.id == r.timer.id;
        assert Elapsed(ran[k], e);
      }
    }
  }

  lemma StillThere(before: seq<TimeEvent>, mid: seq<TimeEvent>, list: seq<TimeEvent>, next: int, maxId: int, id: int)
    requires Survivors(before, mid, next) && maxId < next && forall f :: f in list && f.id != id ==> f in mid
    ensures forall f :: f in list && f.id <= maxId && f.id != id ==> f in before
  {
  }

  lemma SameTimer(list: seq<TimeEvent>, e: TimeEvent, f: TimeEvent)
    requires Decreasing(list) && e in list && f in list && e.id == f.id
    ensures e == f
  {
  }

  lemma BelowWithout(list: seq<TimeEvent>, id: int, next: int)
    requires Decreasing(list) && Below(list, next)
    ensures Below(Without(list, id), next)
  {
    WithoutRemoves(list, id);
    var r := Without(list, id);
    forall i | 0 <= i < |r| ensures r[i].id < next {
      assert r[i] in r;
    }
  }
}
