/** The code generator with its history file: which serial numbers each run issues, and that no code
    is ever issued twice. */
module RedeemTool {
  import opened Bits
  import opened RedeemCode

  const UINT32: nat := 0x100000000

  /** A line of the history file. Lines without two numbers, such as the heading, read as two zeros. */
  datatype Line = Line(fun_id: nat, idx: nat)

  /** A code handed out: the function, the serial number and the text. */
  datatype Ticket = Ticket(fun_id: nat, idx: nat, code: string)

  // ---------- the history as a map ----------

  /** The last serial number of each function, or None if a function id is repeated. Lines whose
      function id reads as 0 are skipped. */
  function Recorded(lines: seq<Line>): Result {
    if lines == [] then Known(map[])
    else
      match Recorded(lines[..|lines| - 1])
      case Repeated => Repeated
      case Known(m) =>
        var l := lines[|lines| - 1];
        if l.fun_id == 0 then Known(m)
        else if l.fun_id in m then Repeated
        else Known(m[l.fun_id := l.idx])
  }

  datatype Result = Repeated | Known(last: map<nat, nat>)

  /** The serial number a run for fun starts with; -1 as an unsigned number wraps around to 0. */
  function StartOf(last: map<nat, nat>, fun: nat): nat {
    ((if fun in last then last[fun] else UINT32 - 1) + 1) % UINT32
  }

  function Batch(fun: nat, start: nat, n: nat): (ts: seq<Ticket>)
    ensures |ts| == n
  {
    seq(n, i requires 0 <= i < n => Ticket(fun, start + i, Code(fun, start + i)))
  }

  /** A run needs its function id and all its serial numbers in range; an empty run needs nothing. */
  predicate Possible(fun: nat, start: nat, n: nat) {
    n == 0 || (fun <= FUN_ID_MAX && start + n - 1 <= UNIQUE_CODE_MAX)
  }

  /** While all serial numbers so far are in range the next one has not wrapped around. */
  lemma NextSerial(fun: nat, start: nat, i: nat)
    requires start < UINT32 && Possible(fun, start, i)
    ensures (start + i) % UINT32 == start + i
    ensures Possible(fun, start, i + 1) <==> (fun <= FUN_ID_MAX && start + i <= UNIQUE_CODE_MAX)
    ensures Batch(fun, start, i + 1) == Batch(fun, start, i) + [Ticket(fun, start + i, Code(fun, start + i))]
  {
    hide Code;
  }

  class RedeemCodeTool {
    var history: seq<Line>
    var issued: seq<Ticket>        // everything ever written to a code file, in order

    constructor ()
      ensures history == [] && issued == []
    {
      history, issued := [], [];
    }

    /** Creates n codes from serial number start on and writes them to a code file, or none at all. */
    method CreateCodes(fun_id: nat, create_num: nat, start: nat, codeFileOpens: bool) returns (ok: bool)
      requires start < UINT32
      modifies this`issued
      ensures ok == (Possible(fun_id, start, create_num) && codeFileOpens)
      ensures issued == if ok then old(issued) + Batch(fun_id, start, create_num) else old(issued)
    {
      var codes: seq<Ticket> := [];
      var i := 0;
      while i < create_num
        invariant 0 <= i <= create_num
        invariant issued == old(issued)
        invariant codes == Batch(fun_id, start, i)
        invariant Possible(fun_id, start, i)
      {
        NextSerial(fun_id, start, i);
        var code := CreateRedeemCode(fun_id, (start + i) % UINT32);
        if code == "" {
          return false;
        }
        codes := codes + [Ticket(fun_id, (start + i) % UINT32, code)];
        i := i + 1;
      }
      if !codeFileOpens {
        return false;
      }
      issued := issued + codes;
      return true;
    }

    /** Writes the heading and one line for each function, in any order. */
    method Save(id2idx: map<nat, nat>)
      modifies this`history
      ensures Recorded(history) == Known(id2idx - {0})
    {
      history := [Line(0, 0)];
      var rest := id2idx.Keys;
      ghost var done: set<nat> := {};
      while rest != {}
        invariant done + rest == id2idx.Keys && done !! rest
        invariant Recorded(history) == Known(map id | id in done && id != 0 :: id2idx[id])
        decreases rest
      {
        var id :| id in rest;
        ghost var before := history;
        ghost var m := map k | k in done && k != 0 :: id2idx[k];
        history := history + [Line(id, id2idx[id])];
        assert history[..|history| - 1] == before;
        rest, done := rest - {id}, done + {id};
        assert (map k | k in done && k != 0 :: id2idx[k]) == if id == 0 then m else m[id := id2idx[id]];
      }
      assert (map id | id in done && id != 0 :: id2idx[id]) == id2idx - {0};
    }

    /** Reads the history back; stops at the first repeated function id. */
    method Load() returns (r: Result)
      ensures r == Recorded(history)
    {
      var id2idx: map<nat, nat> := map[];
      var i := 0;
      while i < |history|
        invariant 0 <= i <= |history|
        invariant Recorded(history[..i]) == Known(id2idx)
      {
        var l := history[i];
        assert history[..i + 1][..i] == history[..i];
        if l.fun_id != 0 {
          if l.fun_id in id2idx {
            RepeatedStays(history, i + 1);
            return Repeated;
          }
          id2idx := id2idx[l.fun_id := l.idx];
        }
        i := i + 1;
      }
      assert history[..i] == history;
      return Known(id2idx);
    }

    /** One run of the tool. The three flags say which files open. */
    method Run(fun_id: nat, create_num: nat, historyOpens: bool, codeFileOpens: bool, historyRewrites: bool)
      returns (ok: bool)
      requires Recorded(history).Known? ==> forall id :: id in Recorded(history).last ==> Recorded(history).last[id] < UINT32
      modifies this
      ensures Recorded(old(history)) == Repeated || !historyOpens ==>
                !ok && history == old(history) && issued == old(issued)
      ensures var before := Recorded(old(history));
              before.Known? && historyOpens ==>
                var after := Step(State(before.last, old(issued)), Request(fun_id, create_num, true, codeFileOpens, historyRewrites));
                && Recorded(history) == Known(after.last) && issued == after.issued
                && ok == (Possible(fun_id, StartOf(before.last, fun_id), create_num) && codeFileOpens && historyRewrites)
    {
      if !historyOpens {
        return false;
      }
      var r := Load();
      if r == Repeated {
        return false;
      }
      NoZero(history);
      ok := Issue(r.last, fun_id, create_num, codeFileOpens, historyRewrites);
    }

    /** The part of a run after the history has been read into id2idx. */
    method Issue(id2idx: map<nat, nat>, fun_id: nat, create_num: nat, codeFileOpens: bool, historyRewrites: bool)
      returns (ok: bool)
      requires Recorded(history) == Known(id2idx) && 0 !in id2idx
      requires forall id :: id in id2idx ==> id2idx[id] < UINT32
      modifies this
      ensures var after := Step(State(id2idx, old(issued)), Request(fun_id, create_num, true, codeFileOpens, historyRewrites));
              && Recorded(history) == Known(after.last) && issued == after.issued
              && ok == (Possible(fun_id, StartOf(id2idx, fun_id), create_num) && codeFileOpens && historyRewrites)
    {
      var last_idx := if fun_id in id2idx then id2idx[fun_id] else UINT32 - 1;
      var start := (last_idx + 1) % UINT32;
      ok := CreateCodes(fun_id, create_num, start, codeFileOpens);
      if !ok {
        return false;
      }
      if !historyRewrites {
        return false;
      }
      var last' := id2idx[fun_id := (last_idx + create_num) % UINT32];
      assert fun_id == 0 ==> last' - {0} == id2idx;
      assert fun_id != 0 ==> last' - {0} == last';
      SameIdx(last_idx, create_num);
      Save(last');
      return true;
    }
  }

  lemma SameIdx(last_idx: nat, n: nat)
    requires last_idx < UINT32
    ensures (last_idx + n) % UINT32 == ((last_idx + 1) % UINT32 + UINT32 - 1 + n) % UINT32
  {
  }

  lemma {:induction false} RepeatedStays(lines: seq<Line>, i: nat)
    requires i <= |lines| && Recorded(lines[..i]) == Repeated
    ensures Recorded(lines) == Repeated
    decreases |lines| - i
  {
    if i < |lines| {
      assert lines[..i + 1][..i] == lines[..i];
      RepeatedStays(lines, i + 1);
    } else {
      assert lines[..i] == lines;
    }
  }

  /** No history gives function id 0 an entry. */
  lemma {:induction false} NoZero(lines: seq<Line>)
    ensures Recorded(lines).Known? ==> 0 !in Recorded(lines).last
    decreases |lines|
  {
    if lines != [] {
      NoZero(lines[..|lines| - 1]);
    }
  }

  // ---------- whole sequences of runs ----------

  datatype State = State(last: map<nat, nat>, issued: seq<Ticket>)

  /** What is asked of a run, and which files open. */
  datatype Request = Request(fun_id: nat, n: nat, historyOpens: bool, codeFileOpens: bool, historyRewrites: bool)

  /** The run writes at least one code. */
  predicate Issues(s: State, q: Request) {
    q.n > 0 && q.historyOpens && q.codeFileOpens && Possible(q.fun_id, StartOf(s.last, q.fun_id), q.n)
  }

  /** The next run does not see what this one has issued. */
  predicate Unrecorded(q: Request) {
    q.fun_id == 0 || !q.historyRewrites
  }

  /** What a run does to the history and to the codes issued. */
  function Step(s: State, q: Request): State {
    var start := StartOf(s.last, q.fun_id);
    if !q.historyOpens || !Possible(q.fun_id, start, q.n) || !q.codeFileOpens then s
    else
      var issued := s.issued + Batch(q.fun_id, start, q.n);
      if !q.historyRewrites || q.fun_id == 0 then State(s.last, issued)
      else State(s.last[q.fun_id := (start + UINT32 - 1 + q.n) % UINT32], issued)
  }

  function Steps(s: State, qs: seq<Request>): State
    decreases |qs|
  {
    if qs == [] then s else Steps(Step(s, qs[0]), qs[1..])
  }

  const Empty := State(map[], [])

  /** The serial numbers issued to a function, in order. */
  function IssuedTo(ts: seq<Ticket>, fun: nat): seq<nat> {
    if ts == [] then []
    else
      var front := IssuedTo(ts[..|ts| - 1], fun);
      if ts[|ts| - 1].fun_id == fun then front + [ts[|ts| - 1].idx] else front
  }

  function UpTo(k: nat): seq<nat> {
    seq(k, i => i)
  }

  /** The history holds possible serial numbers, and every code issued is one. */
  ghost predicate Sound(s: State) {
    && (forall id :: id in s.last ==> id != 0 && s.last[id] < UINT32)
    && (forall fun :: StartOf(s.last, fun) <= UNIQUE_CODE_MAX + 1)
    && (forall i :: 0 <= i < |s.issued| ==> Genuine(s.issued[i]))
  }

  predicate Genuine(t: Ticket) {
    InRange(t.fun_id, t.idx) && t.code == Code(t.fun_id, t.idx)
  }

  lemma {:induction false} IssuedToBatch(ts: seq<Ticket>, g: nat, start: nat, n: nat, fun: nat)
    ensures IssuedTo(ts + Batch(g, start, n), fun)
         == IssuedTo(ts, fun) + if fun == g then seq(n, i requires 0 <= i < n => start + i) else []
    decreases n
  {
    var more := ts + Batch(g, start, n);
    if n == 0 {
      assert more == ts;
    } else {
      assert more[..|more| - 1] == ts + Batch(g, start, n - 1);
      IssuedToBatch(ts, g, start, n - 1, fun);
    }
  }

  /** A run moves the start of its own function on by the number of codes and leaves the others. */
  lemma NextStart(last: map<nat, nat>, fun: nat, n: nat, g: nat)
    requires StartOf(last, fun) + n <= UNIQUE_CODE_MAX + 1
    requires StartOf(last, g) <= UNIQUE_CODE_MAX + 1
    ensures var last' := last[fun := (StartOf(last, fun) + UINT32 - 1 + n) % UINT32];
            StartOf(last', g) == StartOf(last, g) + if g == fun then n else 0
  {
    var start := StartOf(last, fun);
    var idx := (start + UINT32 - 1 + n) % UINT32;
    if start + n == 0 {
      assert idx == UINT32 - 1;
    } else {
      assert idx == start + n - 1;
    }
  }

  lemma StepKeepsSound(s: State, q: Request)
    requires Sound(s)
    ensures Sound(Step(s, q))
  {
    forall g: nat ensures StartOf(Step(s, q).last, g) <= UNIQUE_CODE_MAX + 1 {
      StepStart(s, q, g);
    }
    if q.historyOpens && q.codeFileOpens && Possible(q.fun_id, StartOf(s.last, q.fun_id), q.n) {
      BatchIsGenuine(s, q);
    }
  }

  /** A run that issues codes and records them moves the start of its function on, and no other. */
  lemma StepStart(s: State, q: Request, g: nat)
    requires Sound(s)
    ensures StartOf(Step(s, q).last, g)
         == StartOf(s.last, g) + if g == q.fun_id && Issues(s, q) && !Unrecorded(q) then q.n else 0
    ensures StartOf(Step(s, q).last, g) <= UNIQUE_CODE_MAX + 1
  {
    hide Batch;
    var start := StartOf(s.last, q.fun_id);
    if q.historyOpens && q.codeFileOpens && Possible(q.fun_id, start, q.n) && !Unrecorded(q) {
      NextStart(s.last, q.fun_id, q.n, g);
    }
  }

  function FromTo(start: nat, n: nat): (r: seq<nat>)
    ensures |r| == n && forall i :: 0 <= i < n ==> r[i] == start + i
  {
    seq(n, i requires 0 <= i < n => start + i)
  }

  /** A run issues the next serial numbers to its function. */
  lemma StepServes(s: State, q: Request, g: nat)
    ensures IssuedTo(Step(s, q).issued, g)
         == IssuedTo(s.issued, g) + if g == q.fun_id && Issues(s, q) then FromTo(StartOf(s.last, g), q.n) else []
  {
    hide StartOf, Batch;
    var start := StartOf(s.last, q.fun_id);
    assert IssuedTo(s.issued, g) + [] == IssuedTo(s.issued, g);
    if q.historyOpens && q.codeFileOpens && Possible(q.fun_id, start, q.n) {
      IssuedToBatch(s.issued, q.fun_id, start, q.n, g);
      assert FromTo(start, 0) == [];
    }
  }

  lemma BatchIsGenuine(s: State, q: Request)
    requires forall i :: 0 <= i < |s.issued| ==> Genuine(s.issued[i])
    requires Possible(q.fun_id, StartOf(s.last, q.fun_id), q.n) && q.historyOpens && q.codeFileOpens
    ensures forall i :: 0 <= i < |Step(s, q).issued| ==> Genuine(Step(s, q).issued[i])
  {
    var ts := Step(s, q).issued;
    forall i | |s.issued| <= i < |ts| ensures Genuine(ts[i]) {
      var k := i - |s.issued|;
      assert ts[i] == Batch(q.fun_id, StartOf(s.last, q.fun_id), q.n)[k];
    }
  }

  /** The last run comes after all the others. */
  lemma {:induction false} LastStep(s: State, qs: seq<Request>)
    requires qs != []
    ensures Steps(s, qs) == Step(Steps(s, qs[..|qs| - 1]), qs[|qs| - 1])
    decreases |qs|
  {
    hide Step;
    if |qs| > 1 {
      LastStep(Step(s, qs[0]), qs[1..]);
      assert qs[1..][..|qs| - 2] == qs[..|qs| - 1][1..];
    } else {
      assert Steps(Step(s, qs[0]), qs[1..]) == Step(s, qs[0]);
    }
  }

  /** The state before run k. */
  function Before(qs: seq<Request>, k: nat): State
    requires k <= |qs|
  {
    Steps(Empty, qs[..k])
  }

  lemma NextState(qs: seq<Request>, k: nat)
    requires k < |qs|
    ensures Before(qs, k + 1) == Step(Before(qs, k), qs[k])
  {
    hide Step, Steps;
    LastStep(Empty, qs[..k + 1]);
    assert qs[..k + 1][..k] == qs[..k];
  }

  lemma {:induction false} BeforeIsSound(qs: seq<Request>, k: nat)
    requires k <= |qs|
    ensures Sound(Before(qs, k))
  {
    hide Step;
    if k > 0 {
      BeforeIsSound(qs, k - 1);
      NextState(qs, k - 1);
      StepKeepsSound(Before(qs, k - 1), qs[k - 1]);
    }
  }

  ghost predicate IssuesAt(qs: seq<Request>, k: nat)
    requires k < |qs|
  {
    Issues(Before(qs, k), qs[k])
  }

  /** One of the first k runs issued codes of fun that the history does not show. */
  ghost predicate Lost(qs: seq<Request>, k: nat, fun: nat)
    requires k <= |qs|
  {
    exists a :: 0 <= a < k && qs[a].fun_id == fun && IssuesAt(qs, a) && Unrecorded(qs[a])
  }

  /** Run b issues codes of a function behind an unrecorded run that did. */
  ghost predicate Overlooks(qs: seq<Request>, a: nat, b: nat)
    requires a < b < |qs|
  {
    qs[a].fun_id == qs[b].fun_id && IssuesAt(qs, a) && Unrecorded(qs[a]) && IssuesAt(qs, b)
  }

  ghost predicate Repeats(qs: seq<Request>) {
    exists a, b :: 0 <= a < b < |qs| && Overlooks(qs, a, b)
  }

  ghost predicate Distinct(ts: seq<Ticket>) {
    forall i, j :: 0 <= i < j < |ts| ==> ts[i].code != ts[j].code
  }

  ghost predicate Consecutive(ts: seq<Ticket>, fun: nat) {
    IssuedTo(ts, fun) == UpTo(|IssuedTo(ts, fun)|)
  }

  lemma UpToGrows(r: seq<nat>, r': seq<nat>, serves: bool, start: nat, n: nat)
    requires r == UpTo(|r|) && r' == r + (if serves then FromTo(start, n) else [])
    requires serves ==> |r| == start
    ensures r' == UpTo(|r'|) && |r'| == |r| + if serves then n else 0
  {
    assert UpTo(start) + FromTo(start, n) == UpTo(start + n);
    assert r + [] == r;
  }

  /** If no run overlooks another, each function has got 0, 1, 2, ... so far, as many as the history
      says unless the last are lost. */
  lemma {:induction false} ServesInOrder(qs: seq<Request>, k: nat, fun: nat)
    requires !Repeats(qs) && k <= |qs|
    ensures Consecutive(Before(qs, k).issued, fun)
    ensures !Lost(qs, k, fun) ==> |IssuedTo(Before(qs, k).issued, fun)| == StartOf(Before(qs, k).last, fun)
  {
    hide Step, Before, StartOf, UpTo, FromTo, IssuedTo, Issues, Unrecorded, Lost, Repeats, Sound;
    if k > 0 {
      var s, q := Before(qs, k - 1), qs[k - 1];
      ServesInOrder(qs, k - 1, fun);
      BeforeIsSound(qs, k - 1);
      NextState(qs, k - 1);
      StepServes(s, q, fun);
      StepStart(s, q, fun);
      LostNext(qs, k - 1, fun);
      NotOverlooked(qs, k - 1, fun);
      UpToGrows(IssuedTo(s.issued, fun), IssuedTo(Step(s, q).issued, fun), fun == q.fun_id && Issues(s, q),
                StartOf(s.last, fun), q.n);
    } else {
      AtFirst(qs, fun);
    }
  }

  lemma AtFirst(qs: seq<Request>, fun: nat)
    ensures Before(qs, 0) == Empty && IssuedTo([], fun) == UpTo(0) == [] && StartOf(map[], fun) == 0 && !Lost(qs, 0, fun)
  {
  }

  lemma LostNext(qs: seq<Request>, k: nat, fun: nat)
    requires k < |qs|
    ensures Lost(qs, k + 1, fun) <==> Lost(qs, k, fun) || (qs[k].fun_id == fun && IssuesAt(qs, k) && Unrecorded(qs[k]))
  {
    hide Issues, Unrecorded;
  }

  lemma NotOverlooked(qs: seq<Request>, k: nat, fun: nat)
    requires !Repeats(qs) && k < |qs|
    ensures qs[k].fun_id == fun && IssuesAt(qs, k) ==> !Lost(qs, k, fun)
  {
    hide Issues, Unrecorded;
    forall a | 0 <= a < k
      ensures !(qs[a].fun_id == qs[k].fun_id && IssuesAt(qs, a) && Unrecorded(qs[a]) && IssuesAt(qs, k))
    {
      assert !Overlooks(qs, a, k);
    }
  }

  lemma {:induction false} RankOf(ts: seq<Ticket>, i: nat) returns (r: nat)
    requires i < |ts|
    ensures r < |IssuedTo(ts, ts[i].fun_id)| && IssuedTo(ts, ts[i].fun_id)[r] == ts[i].idx
    ensures r == |IssuedTo(ts[..i], ts[i].fun_id)|
    decreases |ts|
  {
    var front := ts[..|ts| - 1];
    if i == |front| {
      r := |IssuedTo(front, ts[i].fun_id)|;
    } else {
      r := RankOf(front, i);
      assert front[..i] == ts[..i];
    }
  }

  lemma {:induction false} IssuedToGrows(ts: seq<Ticket>, i: nat, j: nat, fun: nat)
    requires i < j <= |ts| && ts[i].fun_id == fun
    ensures |IssuedTo(ts[..i], fun)| < |IssuedTo(ts[..j], fun)|
    decreases j
  {
    assert ts[..j][..j - 1] == ts[..j - 1];
    if i + 1 < j {
      IssuedToGrows(ts, i, j - 1, fun);
    }
  }

  /** Codes of functions that have been served in order are all different. */
  lemma InOrderIsDistinct(ts: seq<Ticket>)
    requires forall i :: 0 <= i < |ts| ==> Genuine(ts[i])
    requires forall fun :: Consecutive(ts, fun)
    ensures Distinct(ts)
  {
    forall i, j | 0 <= i < j < |ts| ensures ts[i].code != ts[j].code {
      TwoTickets(ts, i, j);
    }
  }

  lemma TwoTickets(ts: seq<Ticket>, i: nat, j: nat)
    requires i < j < |ts| && Genuine(ts[i]) && Genuine(ts[j]) && Consecutive(ts, ts[i].fun_id)
    ensures ts[i].code != ts[j].code
  {
    hide Code;
    if ts[i].fun_id == ts[j].fun_id {
      var fun := ts[i].fun_id;
      var a := RankOf(ts, i);
      var b := RankOf(ts, j);
      IssuedToGrows(ts, i, j, fun);
      assert ts[i].idx == a && ts[j].idx == b;
    }
    SameCodeSamePair(ts[i].fun_id, ts[i].idx, ts[j].fun_id, ts[j].idx);
  }

  lemma SameCodeSamePair(fun: nat, idx: nat, fun': nat, idx': nat)
    requires InRange(fun, idx) && InRange(fun', idx')
    ensures Code(fun, idx) == Code(fun', idx') ==> fun == fun' && idx == idx'
  {
    hide Code;
    CodesAreABijection(Code(fun, idx));
  }

  // ---------- when codes are repeated ----------

  /** While runs of fun that issue codes go unrecorded its start stays where it is. */
  lemma {:induction false} StartStays(qs: seq<Request>, a: nat, k: nat, fun: nat)
    requires a <= k <= |qs|
    requires forall c :: a <= c < k && qs[c].fun_id == fun && IssuesAt(qs, c) ==> Unrecorded(qs[c])
    ensures StartOf(Before(qs, k).last, fun) == StartOf(Before(qs, a).last, fun)
    decreases k - a
  {
    hide Step, Steps, StartOf, Possible;
    if a < k {
      StartStays(qs, a, k - 1, fun);
      BeforeIsSound(qs, k - 1);
      NextState(qs, k - 1);
      StepStart(Before(qs, k - 1), qs[k - 1], fun);
    }
  }

  lemma {:induction false} IssuedStays(qs: seq<Request>, a: nat, k: nat)
    requires a <= k <= |qs|
    ensures Before(qs, a).issued <= Before(qs, k).issued
    decreases k - a
  {
    hide Steps;
    if a < k {
      IssuedStays(qs, a, k - 1);
      NextState(qs, k - 1);
    }
  }

  /** A run that issues codes writes the one for its start behind those written before. */
  lemma FirstOfBatch(qs: seq<Request>, k: nat)
    requires k < |qs| && IssuesAt(qs, k)
    ensures var i, fun, start := |Before(qs, k).issued|, qs[k].fun_id, StartOf(Before(qs, k).last, qs[k].fun_id);
            i < |Before(qs, k + 1).issued| && Before(qs, k + 1).issued[i] == Ticket(fun, start, Code(fun, start))
  {
    hide Steps, StartOf, Code;
    NextState(qs, k);
  }

  /** A run that overlooks another, or some run between them, writes a code a second time. */
  lemma {:induction false} OverlookingRepeats(qs: seq<Request>, a: nat, b: nat)
    requires a < b < |qs| && Overlooks(qs, a, b)
    ensures !Distinct(Steps(Empty, qs).issued)
    decreases b
  {
    hide Steps, StartOf, Code, Issues, Unrecorded;
    var fun := qs[a].fun_id;
    if c :| a < c < b && qs[c].fun_id == fun && IssuesAt(qs, c) {
      OverlookingRepeats(qs, a, c);
    } else {
      StartStays(qs, a, b, fun);
      FirstOfBatch(qs, a);
      FirstOfBatch(qs, b);
      IssuedStays(qs, a + 1, b);
      IssuedStays(qs, b, b + 1);
      IssuedStays(qs, b + 1, |qs|);
      assert qs[..|qs|] == qs;
      var i, j := |Before(qs, a).issued|, |Before(qs, b).issued|;
      var ts := Steps(Empty, qs).issued;
      assert ts[i] == Before(qs, a + 1).issued[i] && ts[j] == Before(qs, b + 1).issued[j];
      assert ts[i].code == ts[j].code;
    }
  }

  /** Over every sequence of runs, whatever they ask for and whichever files open: no code is issued
      twice exactly if no run issues codes of a function behind an unrecorded run that did. */
  lemma NoCodeIsIssuedTwice(qs: seq<Request>)
    ensures Distinct(Steps(Empty, qs).issued) <==> !Repeats(qs)
    ensures (forall fun :: Consecutive(Steps(Empty, qs).issued, fun)) <==> !Repeats(qs)
  {
    hide Steps, Distinct, Consecutive, Overlooks;
    assert qs[..|qs|] == qs;
    BeforeIsSound(qs, |qs|);
    if !Repeats(qs) {
      forall fun: nat ensures Consecutive(Steps(Empty, qs).issued, fun) {
        ServesInOrder(qs, |qs|, fun);
      }
    } else {
      var a, b :| 0 <= a < b < |qs| && Overlooks(qs, a, b);
      OverlookingRepeats(qs, a, b);
    }
    if forall fun :: Consecutive(Steps(Empty, qs).issued, fun) {
      InOrderIsDistinct(Steps(Empty, qs).issued);
    }
  }

  /** In particular, runs for function ids other than 0 whose history rewrites succeed give each
      function the serial numbers 0, 1, 2, ... in order, and never a code twice. */
  lemma SerialNumbersAreConsecutive(qs: seq<Request>, fun: nat)
    requires forall i :: 0 <= i < |qs| ==> qs[i].fun_id != 0 && qs[i].historyRewrites
    ensures var issued := IssuedTo(Steps(Empty, qs).issued, fun); issued == UpTo(|issued|)
    ensures Distinct(Steps(Empty, qs).issued)
  {
    hide Steps, Distinct, IssuesAt;
    NoCodeIsIssuedTwice(qs);
    assert forall a, b :: 0 <= a < b < |qs| ==> !Overlooks(qs, a, b);
    assert Consecutive(Steps(Empty, qs).issued, fun);
  }

  /** The tool itself, run again and again on its own history file. */
  method RunAll(qs: seq<Request>) returns (tool: RedeemCodeTool)
    ensures tool.issued == Steps(Empty, qs).issued
    ensures Distinct(tool.issued) <==> !Repeats(qs)
  {
    hide Step, Steps, Distinct, Repeats;
    tool := new RedeemCodeTool();
    BeforeNothing(qs);
    for k := 0 to |qs|
      invariant Recorded(tool.history) == Known(Before(qs, k).last) && tool.issued == Before(qs, k).issued
    {
      BeforeIsSound(qs, k);
      NextState(qs, k);
      ClosedHistory(Before(qs, k), qs[k]);
      var _ := tool.Run(qs[k].fun_id, qs[k].n, qs[k].historyOpens, qs[k].codeFileOpens, qs[k].historyRewrites);
    }
    assert qs[..|qs|] == qs;
    NoCodeIsIssuedTwice(qs);
  }

  lemma BeforeNothing(qs: seq<Request>)
    ensures Before(qs, 0) == Empty && Recorded([]) == Known(Empty.last)
  {
  }

  lemma ClosedHistory(s: State, q: Request)
    ensures !q.historyOpens ==> Step(s, q) == s
    ensures State(s.last, s.issued) == s
    ensures q.historyOpens ==> q == Request(q.fun_id, q.n, true, q.codeFileOpens, q.historyRewrites)
  {
  }

  /** A first run that asks for no codes records the serial number -1, as an unsigned number, from which
      the next run starts with 0. */
  lemma ZeroCountRun(fun: nat)
    requires fun != 0
    ensures var s := Step(Empty, Request(fun, 0, true, true, true));
            s.issued == [] && s.last == map[fun := 4294967295] && StartOf(s.last, fun) == 0
  {
    assert Empty.last[fun := 4294967295] == map[fun := 4294967295];
  }

  lemma TwoRuns(s: State, q: Request, q': Request)
    ensures Steps(s, [q, q']) == Step(Step(s, q), q')
  {
    assert [q, q'][1..] == [q'] && [q'][1..] == [];
    assert Steps(s, [q, q']) == Steps(Step(s, q), [q']) == Steps(Step(Step(s, q), q'), []);
  }

  /** The same codes written twice are not distinct, if there are any. */
  lemma SameBatchTwice(s: State, fun: nat, start: nat, n: nat)
    ensures n > 0 ==> !Distinct(s.issued + Batch(fun, start, n) + Batch(fun, start, n))
  {
    if n > 0 {
      var ts, i := s.issued + Batch(fun, start, n) + Batch(fun, start, n), |s.issued|;
      assert ts[i] == ts[i + n];
    }
  }

  /** Function id 0 is in range, but its history line is skipped when it is read back: the next run
      for it issues the same codes again. */
  lemma FunctionZeroRepeats(s: State, n: nat)
    requires Possible(0, StartOf(s.last, 0), n)
    ensures var q := Request(0, n, true, true, true);
            var batch := Batch(0, StartOf(s.last, 0), n);
            var ts := Steps(s, [q, q]).issued;
            ts == s.issued + batch + batch && (n > 0 ==> !Distinct(ts))
  {
    hide Batch;
    var q := Request(0, n, true, true, true);
    TwoRuns(s, q, q);
    SameBatchTwice(s, 0, StartOf(s.last, 0), n);
  }

  /** A run whose codes are written but whose history is not: the next run issues them again. */
  lemma FailedRewriteRepeats(s: State, fun: nat, n: nat)
    requires Possible(fun, StartOf(s.last, fun), n)
    ensures var ts := Steps(s, [Request(fun, n, true, true, false), Request(fun, n, true, true, true)]).issued;
            var batch := Batch(fun, StartOf(s.last, fun), n);
            ts == s.issued + batch + batch && (n > 0 ==> !Distinct(ts))
  {
    hide Batch;
    TwoRuns(s, Request(fun, n, true, true, false), Request(fun, n, true, true, true));
    SameBatchTwice(s, fun, StartOf(s.last, fun), n);
  }
}
