/** The circuit breaker: the two-lock admission check against a one-step one under every
    interleaving, and what must have happened in a run before each state change. */
module CircuitBreaker {

  import opened Collections

  type Time = nat
  type u32 = x: nat | x < 0x1_0000_0000

  datatype Config = Config(failureThreshold: u32, successThreshold: u32, timeout: nat)

  datatype CircuitState = Closed | Open | HalfOpen

  /** BreakerInner, the data behind the lock. */
  datatype Inner = Inner(state: CircuitState, failures: nat, successes: nat, lastFailure: Option<Time>)

  const NEW: Inner := Inner(Closed, 0, 0, None)

  /** A threshold of 0 acts like 1: a counter is compared only after it was incremented. */
  function AtLeastOne(n: nat): nat { if n == 0 then 1 else n }

  /** Instant::elapsed never goes below zero. */
  function Elapsed(since: Time, now: Time): nat { if now >= since then now - since else 0 }

  // ---------------------------------------------------------------- the operations

  function Succeeded(cfg: Config, i: Inner): Inner
  {
    match i.state
    case HalfOpen =>
      if i.successes + 1 >= cfg.successThreshold then NEW else i.(successes := i.successes + 1)
    case Closed => i.(failures := 0)
    case Open => i
  }

  function Failed(cfg: Config, i: Inner, now: Time): Inner
  {
    var j := i.(lastFailure := Some(now));
    match i.state
    case Closed =>
      j.(failures := i.failures + 1,
         state := if i.failures + 1 >= cfg.failureThreshold then Open else Closed)
    case HalfOpen => j.(state := Open, successes := 0)
    case Open => j
  }

  function ForcedClosed(i: Inner): Inner { if i.state.Closed? then i else NEW }

  /** The part of is_allowed under the read lock: an answer, or None to go on. */
  function ReadPhase(cfg: Config, i: Inner, now: Time): Option<bool>
  {
    if i.state.Closed? then Some(true)
    else if i.state.HalfOpen? then Some(true)
    else if i.lastFailure.Some? && Elapsed(i.lastFailure.value, now) < cfg.timeout then Some(false)
    else None
  }

  /** The part under the write lock, which checks everything again. */
  function WritePhase(cfg: Config, i: Inner, now: Time): (Inner, bool)
  {
    if i.state.Open? && i.lastFailure.Some? && Elapsed(i.lastFailure.value, now) >= cfg.timeout
    then (i.(state := HalfOpen, successes := 0), true)
    else (i, !i.state.Open?)
  }

  /** The check as its documentation tells it, in one step: an open circuit whose timeout has
      elapsed, or that has no recorded failure, lets a probe through. */
  function Check(cfg: Config, i: Inner, now: Time): (Inner, bool)
  {
    if !i.state.Open? then (i, true)
    else if i.lastFailure.Some? && Elapsed(i.lastFailure.value, now) < cfg.timeout then (i, false)
    else (i.(state := HalfOpen, successes := 0), true)
  }

  // ---------------------------------------------------------------- the breaker object

  class Breaker {
    const cfg: Config
    var state: CircuitState
    var failures: nat
    var successes: nat
    var lastFailure: Option<Time>

    function View(): Inner
      reads this
    {
      Inner(state, failures, successes, lastFailure)
    }

    constructor (cfg: Config)
      ensures this.cfg == cfg && View() == NEW
    {
      this.cfg := cfg;
      state, failures, successes, lastFailure := Closed, 0, 0, None;
    }

    method TryRead(now: Time) returns (answer: Option<bool>)
      ensures answer == ReadPhase(cfg, View(), now)
    {
      if state == Closed { return Some(true); }
      if state == HalfOpen { return Some(true); }
      if lastFailure.Some? {
        if Elapsed(lastFailure.value, now) < cfg.timeout { return Some(false); }
      }
      return None;
    }

    method Upgrade(now: Time) returns (answer: bool)
      modifies this
      ensures (View(), answer) == WritePhase(cfg, old(View()), now)
    {
      if state == Open {
        if lastFailure.Some? {
          if Elapsed(lastFailure.value, now) >= cfg.timeout {
            state, successes := HalfOpen, 0;
            return true;
          }
        }
      }
      return state != Open;
    }

    method RecordSuccess()
      modifies this
      ensures View() == Succeeded(cfg, old(View()))
    {
      match state
      case HalfOpen =>
        successes := successes + 1;
        if successes >= cfg.successThreshold {
          state, failures, successes, lastFailure := Closed, 0, 0, None;
        }
      case Closed => failures := 0;
      case Open =>
    }

    method RecordFailure(now: Time)
      modifies this
      ensures View() == Failed(cfg, old(View()), now)
    {
      lastFailure := Some(now);
      match state
      case Closed =>
        failures := failures + 1;
        if failures >= cfg.failureThreshold { state := Open; }
      case HalfOpen => state, successes := Open, 0;
      case Open =>
    }

    method ForceClose()
      modifies this
      ensures View() == ForcedClosed(old(View()))
    {
      if state != Closed { state, failures, successes, lastFailure := Closed, 0, 0, None; }
    }
  }

  // ---------------------------------------------------------------- one-step runs

  datatype Op = Allow(now: Time) | Success | Failure(now: Time) | Force

  function Do(cfg: Config, i: Inner, op: Op): Inner
  {
    match op
    case Allow(now) => Check(cfg, i, now).0
    case Success => Succeeded(cfg, i)
    case Failure(now) => Failed(cfg, i, now)
    case Force => ForcedClosed(i)
  }

  function Exec(cfg: Config, ops: seq<Op>): Inner
  {
    if ops == [] then NEW else Do(cfg, Exec(cfg, ops[..|ops| - 1]), ops[|ops| - 1])
  }

  /** Kept by every operation: an open circuit has a failure time, and no counter passes its
      threshold, so that none can overflow. */
  predicate Inv(cfg: Config, i: Inner)
  {
    && (i.state.Open? ==> i.lastFailure.Some?)
    && i.failures <= AtLeastOne(cfg.failureThreshold)
    && (i.state.Closed? ==> i.failures < AtLeastOne(cfg.failureThreshold))
    && i.successes < AtLeastOne(cfg.successThreshold)
    && (i.state.Closed? ==> i.successes == 0)
  }

  lemma DoInv(cfg: Config, i: Inner, op: Op)
    requires Inv(cfg, i)
    ensures Inv(cfg, Do(cfg, i, op))
  {
  }

  /** In every run both counters stay within 32 bits. */
  lemma {:induction false} ExecInv(cfg: Config, ops: seq<Op>)
    ensures Inv(cfg, Exec(cfg, ops))
    ensures Exec(cfg, ops).failures < 0x1_0000_0000 && Exec(cfg, ops).successes < 0x1_0000_0000
  {
    if ops != [] {
      ExecInv(cfg, ops[..|ops| - 1]);
      DoInv(cfg, Exec(cfg, ops[..|ops| - 1]), ops[|ops| - 1]);
    }
  }

  // ---------------------------------------------------------------- two locks

  type Task = nat

  /** What tasks do at the lock. A check is a Read and, if that gave no answer, a later Upgrade;
      anything may happen in between. */
  datatype Event =
    | Read(t: Task, now: Time) | Upgrade(t: Task, now: Time)
    | RecordSuccess | RecordFailure(now: Time) | ForceClose

  /** The breaker, the tasks between their two locks, and the answers given so far. */
  datatype System = System(inner: Inner, between: set<Task>, answers: seq<(Task, bool)>)

  predicate Enabled(s: System, e: Event)
  {
    match e
    case Read(t, _) => t !in s.between
    case Upgrade(t, _) => t in s.between
    case _ => true
  }

  function Next(cfg: Config, s: System, e: Event): System
  {
    match e
    case Read(t, now) =>
      (match ReadPhase(cfg, s.inner, now)
       case Some(b) => s.(answers := s.answers + [(t, b)])
       case None => s.(between := s.between + {t}))
    case Upgrade(t, now) =>
      var (i, b) := WritePhase(cfg, s.inner, now);
      System(i, s.between - {t}, s.answers + [(t, b)])
    case RecordSuccess => s.(inner := Succeeded(cfg, s.inner))
    case RecordFailure(now) => s.(inner := Failed(cfg, s.inner, now))
    case ForceClose => s.(inner := ForcedClosed(s.inner))
  }

  function Run(cfg: Config, es: seq<Event>): Option<System>
  {
    if es == [] then Some(System(NEW, {}, []))
    else
      var n := |es| - 1;
      match Run(cfg, es[..n])
      case None => None
      case Some(s) => if Enabled(s, es[n]) then Some(Next(cfg, s, es[n])) else None
  }

  /** The one-step operation an event stands for; a Read that gives no answer stands for none. */
  function Atomic(cfg: Config, s: System, e: Event): seq<(Option<Task>, Op)>
  {
    match e
    case Read(t, now) => if ReadPhase(cfg, s.inner, now).Some? then [(Some(t), Allow(now))] else []
    case Upgrade(t, now) => [(Some(t), Allow(now))]
    case RecordSuccess => [(None, Success)]
    case RecordFailure(now) => [(None, Failure(now))]
    case ForceClose => [(None, Force)]
  }

  /** The one-step run that an interleaved run linearises to, event by event. */
  function Linear(cfg: Config, es: seq<Event>): seq<(Option<Task>, Op)>
    requires Run(cfg, es).Some?
  {
    if es == [] then []
    else
      var n := |es| - 1;
      Linear(cfg, es[..n]) + Atomic(cfg, Run(cfg, es[..n]).value, es[n])
  }

  function Ops(l: seq<(Option<Task>, Op)>): (r: seq<Op>)
    ensures |r| == |l|
  {
    if l == [] then [] else Ops(l[..|l| - 1]) + [l[|l| - 1].1]
  }

  /** The answers of the one-step checks, in order. */
  function Answers(cfg: Config, l: seq<(Option<Task>, Op)>): seq<(Task, bool)>
  {
    if l == [] then []
    else
      var n := |l| - 1;
      var rest := Answers(cfg, l[..n]);
      if l[n].0.Some? && l[n].1.Allow?
      then rest + [(l[n].0.value, Check(cfg, Exec(cfg, Ops(l[..n])), l[n].1.now).1)]
      else rest
  }

  /** The deciding lock acquisition of a check does what the one-step check does. */
  lemma PhasesRefineCheck(cfg: Config, i: Inner, now: Time)
    requires Inv(cfg, i)
    ensures ReadPhase(cfg, i, now).Some? ==> Check(cfg, i, now) == (i, ReadPhase(cfg, i, now).value)
    ensures WritePhase(cfg, i, now) == Check(cfg, i, now)
  {
  }

  lemma LinearStep(cfg: Config, l: seq<(Option<Task>, Op)>, x: (Option<Task>, Op))
    ensures Exec(cfg, Ops(l + [x])) == Do(cfg, Exec(cfg, Ops(l)), x.1)
    ensures Answers(cfg, l + [x]) == Answers(cfg, l) +
      (if x.0.Some? && x.1.Allow? then [(x.0.value, Check(cfg, Exec(cfg, Ops(l)), x.1.now).1)] else [])
  {
  }

  lemma StepRefines(cfg: Config, s: System, e: Event, l: seq<(Option<Task>, Op)>)
    requires Inv(cfg, s.inner) && s.inner == Exec(cfg, Ops(l)) && s.answers == Answers(cfg, l)
    ensures var m := l + Atomic(cfg, s, e);
      Next(cfg, s, e).inner == Exec(cfg, Ops(m)) && Next(cfg, s, e).answers == Answers(cfg, m)
  {
    hide Ops, Answers, Exec;
    var a := Atomic(cfg, s, e);
    if a == [] {
      assert l + a == l;
    } else {
      assert a == [a[0]];
      LinearStep(cfg, l, a[0]);
      if e.Read? || e.Upgrade? { PhasesRefineCheck(cfg, s.inner, e.now); }
    }
  }

  /** Refinement: under every interleaving, state and answers are those of the one-step breaker
      run on the events' linearisation. */
  lemma {:induction false} TwoLocksRefineOne(cfg: Config, es: seq<Event>)
    requires Run(cfg, es).Some?
    ensures Run(cfg, es).value.inner == Exec(cfg, Ops(Linear(cfg, es)))
    ensures Run(cfg, es).value.answers == Answers(cfg, Linear(cfg, es))
  {
    if es != [] {
      var n := |es| - 1;
      TwoLocksRefineOne(cfg, es[..n]);
      ExecInv(cfg, Ops(Linear(cfg, es[..n])));
      StepRefines(cfg, Run(cfg, es[..n]).value, es[n], Linear(cfg, es[..n]));
      hide Ops, Answers, Exec, Next, Enabled, Atomic, Inv;
    }
  }

  /** Every check can be made and is answered: a task that is not between its two locks can read, one
      that is can upgrade, and either is answered at once unless the read falls through. */
  lemma ChecksAreAnswered(cfg: Config, es: seq<Event>, t: Task, now: Time)
    requires Run(cfg, es).Some?
    ensures var s := Run(cfg, es).value;
      var e := if t in s.between then Upgrade(t, now) else Read(t, now);
      && Run(cfg, es + [e]).Some?
      && var u := Run(cfg, es + [e]).value;
         if t !in u.between
         then u.answers == s.answers + [(t, Check(cfg, s.inner, now).1)] && u.inner == Check(cfg, s.inner, now).0
         else e.Read? && u.answers == s.answers && u.inner == s.inner && Check(cfg, s.inner, now).1
  {
    var s := Run(cfg, es).value;
    var e := if t in s.between then Upgrade(t, now) else Read(t, now);
    assert (es + [e])[..|es|] == es;
    TwoLocksRefineOne(cfg, es);
    ExecInv(cfg, Ops(Linear(cfg, es)));
    hide Exec, Ops, Linear, Answers;
    PhasesRefineCheck(cfg, s.inner, now);
  }

  // ---------------------------------------------------------------- history of state changes

  function Count(ops: seq<Op>, failure: bool): nat
  {
    if ops == [] then 0
    else
      var op := ops[|ops| - 1];
      Count(ops[..|ops| - 1], failure) + (if (failure && op.Failure?) || (!failure && op.Success?) then 1 else 0)
  }

  /** The circuit has had this state at every moment from position j on. */
  ghost predicate Since(cfg: Config, ops: seq<Op>, j: nat, state: CircuitState)
  {
    j <= |ops| && forall k :: j <= k <= |ops| ==> Exec(cfg, ops[..k]).state == state
  }

  /** Position j is where a closed circuit last had its failures forgotten: the start of the
      run, a recorded success, or the force-close that closed it. */
  ghost predicate Fresh(cfg: Config, ops: seq<Op>, j: nat)
    requires j <= |ops|
  {
    j == 0 || ops[j - 1].Success? || (ops[j - 1].Force? && !Exec(cfg, ops[..j - 1]).state.Closed?)
  }

  lemma Slices(ops: seq<Op>, j: nat)
    requires ops != [] && j < |ops|
    ensures var m := ops[..|ops| - 1];
      && ops[j..][..|ops| - 1 - j] == m[j..]
      && ops[j..][|ops| - 1 - j] == ops[|ops| - 1]
      && forall k :: 0 <= k < |ops| ==> m[..k] == ops[..k]
  {
  }

  /** While the circuit is closed, its failure count is the number of failures since position j,
      and no success was recorded since. */
  lemma {:induction false} ClosedHistory(cfg: Config, ops: seq<Op>) returns (j: nat)
    requires Exec(cfg, ops).state.Closed?
    ensures Since(cfg, ops, j, Closed) && Fresh(cfg, ops, j)
    ensures (forall k :: j <= k < |ops| ==> !ops[k].Success?)
    ensures Exec(cfg, ops).failures == Count(ops[j..], true)
  {
    j := |ops|;
    assert ops[..|ops|] == ops;
    if ops != [] {
      var n := |ops| - 1;
      var before := Exec(cfg, ops[..n]);
      assert before.state.Closed? ==> before == Exec(cfg, ops[..n]);
      if before.state.Closed? && !ops[n].Success? {
        j := ClosedHistory(cfg, ops[..n]);
        Slices(ops, j);
      }
    }
  }

  lemma ExecAppend(cfg: Config, ops: seq<Op>, op: Op)
    ensures Exec(cfg, ops + [op]) == Do(cfg, Exec(cfg, ops), op)
    ensures Count(ops + [op], true) == Count(ops, true) + (if op.Failure? then 1 else 0)
    ensures Count(ops + [op], false) == Count(ops, false) + (if op.Success? then 1 else 0)
  {
  }

  /** A closed circuit opens exactly when a failure is recorded that makes the failures since
      the last success or close reach the threshold. */
  lemma OpensAtThreshold(cfg: Config, ops: seq<Op>, op: Op) returns (j: nat)
    requires Exec(cfg, ops).state.Closed?
    ensures Since(cfg, ops, j, Closed) && Fresh(cfg, ops, j)
    ensures forall k :: j <= k < |ops| ==> !ops[k].Success?
    ensures !Exec(cfg, ops + [op]).state.Closed? ==> Exec(cfg, ops + [op]).state.Open?
    ensures Exec(cfg, ops + [op]).state.Open? <==>
      op.Failure? && Count(ops[j..] + [op], true) == AtLeastOne(cfg.failureThreshold)
  {
    j := ClosedHistory(cfg, ops);
    ExecInv(cfg, ops);
    ExecAppend(cfg, ops, op);
    ExecAppend(cfg, ops[j..], op);
    hide Exec, Count, Since, Fresh;
  }

  /** While the circuit is half-open, its success count is the number of successes since the
      check that made it half-open, and no failure was recorded since. */
  lemma {:induction false} HalfOpenHistory(cfg: Config, ops: seq<Op>) returns (j: nat)
    requires Exec(cfg, ops).state.HalfOpen?
    ensures 0 < j && Since(cfg, ops, j, HalfOpen)
    ensures Exec(cfg, ops[..j - 1]).state.Open? && ops[j - 1].Allow?
    ensures forall k :: j <= k < |ops| ==> !ops[k].Failure? && !ops[k].Force?
    ensures Exec(cfg, ops).successes == Count(ops[j..], false)
  {
    j := |ops|;
    assert ops[..|ops|] == ops;
    var n := |ops| - 1;
    ExecInv(cfg, ops[..n]);
    if Exec(cfg, ops[..n]).state.HalfOpen? {
      j := HalfOpenHistory(cfg, ops[..n]);
      Slices(ops, j);
    }
  }

  /** A half-open circuit closes by force or exactly when a success is recorded that makes the
      successes since it became half-open reach the threshold; any failure opens it, and nothing else
      changes its state. */
  lemma ClosesAtThreshold(cfg: Config, ops: seq<Op>, op: Op) returns (j: nat)
    requires Exec(cfg, ops).state.HalfOpen?
    ensures 0 < j && Since(cfg, ops, j, HalfOpen)
    ensures Exec(cfg, ops[..j - 1]).state.Open? && ops[j - 1].Allow?
    ensures forall k :: j <= k < |ops| ==> !ops[k].Failure? && !ops[k].Force?
    ensures Exec(cfg, ops + [op]).state ==
      if op.Failure? then Open
      else if op.Force? || (op.Success? && Count(ops[j..] + [op], false) == AtLeastOne(cfg.successThreshold)) then Closed
      else HalfOpen
  {
    j := HalfOpenHistory(cfg, ops);
    ExecInv(cfg, ops);
    ExecAppend(cfg, ops, op);
    ExecAppend(cfg, ops[j..], op);
    hide Exec, Count, Since, Fresh;
  }

  /** When the last failure was recorded. */
  function LastFailure(ops: seq<Op>): Option<Time>
  {
    if ops == [] then None
    else if ops[|ops| - 1].Failure? then Some(ops[|ops| - 1].now)
    else LastFailure(ops[..|ops| - 1])
  }

  lemma {:induction false} FailureTime(cfg: Config, ops: seq<Op>)
    ensures !Exec(cfg, ops).state.Closed? ==> LastFailure(ops).Some? && Exec(cfg, ops).lastFailure == LastFailure(ops)
  {
    if ops != [] { FailureTime(cfg, ops[..|ops| - 1]); }
  }

  /** An open circuit closes by force, and becomes half-open exactly at a check that comes no earlier
      than the timeout after the newest failure; that check is admitted, every earlier one is not,
      and nothing else changes its state. */
  lemma LeavesOpen(cfg: Config, ops: seq<Op>, op: Op)
    requires Exec(cfg, ops).state.Open?
    ensures LastFailure(ops).Some?
    ensures var t := LastFailure(ops).value;
      && Exec(cfg, ops + [op]).state == (
           if op.Force? then Closed
           else if op.Allow? && (cfg.timeout == 0 || op.now >= t + cfg.timeout) then HalfOpen
           else Open)
      && (op.Allow? ==>
            (Check(cfg, Exec(cfg, ops), op.now).1 <==> cfg.timeout == 0 || op.now >= t + cfg.timeout))
  {
    FailureTime(cfg, ops);
    ExecAppend(cfg, ops, op);
    hide Exec;
  }

  /** A closed circuit admits every check and is not changed by it. */
  lemma ClosedAdmits(cfg: Config, ops: seq<Op>, now: Time)
    requires Exec(cfg, ops).state.Closed?
    ensures Check(cfg, Exec(cfg, ops), now) == (Exec(cfg, ops), true)
  {
  }

  /** Closing starts afresh: from then on the circuit behaves like a new one. */
  lemma {:induction false} ClosingStartsAfresh(cfg: Config, ops: seq<Op>, op: Op, more: seq<Op>)
    requires !Exec(cfg, ops).state.Closed? && Exec(cfg, ops + [op]).state.Closed?
    ensures Exec(cfg, ops + [op] + more) == Exec(cfg, more)
  {
    ExecAppend(cfg, ops, op);
    var all := ops + [op] + more;
    if more == [] {
      assert all == ops + [op];
    } else {
      var n := |more| - 1;
      assert all[..|all| - 1] == ops + [op] + more[..n];
      ClosingStartsAfresh(cfg, ops, op, more[..n]);
    }
  }

  // ---------------------------------------------------------------- the open window

  /** Every time mentioned lies before the deadline, and nobody forces the circuit closed. */
  predicate Within(ops: seq<Op>, from: Time, deadline: Time)
  {
    forall k :: 0 <= k < |ops| ==>
      && !ops[k].Force?
      && (ops[k].Allow? ==> from <= ops[k].now < deadline)
      && (ops[k].Failure? ==> from <= ops[k].now)
  }

  /** Until the timeout after the failure that opened it has passed, an open circuit stays open
      and rejects every check, whatever else is recorded meanwhile. */
  lemma {:induction false} RejectsWithinWindow(cfg: Config, ops: seq<Op>, more: seq<Op>, now: Time)
    requires Exec(cfg, ops).state.Open?
    requires Exec(cfg, ops).lastFailure.Some?
    requires var t := Exec(cfg, ops).lastFailure.value;
      Within(more, t, t + cfg.timeout) && t <= now < t + cfg.timeout
    ensures var i := Exec(cfg, ops + more);
      && i.state.Open? && i.lastFailure.Some? && i.lastFailure.value >= Exec(cfg, ops).lastFailure.value
      && Check(cfg, i, now) == (i, false)
  {
    if more == [] {
      assert ops + more == ops;
    } else {
      var n := |more| - 1;
      assert (ops + more)[..|ops| + n] == ops + more[..n];
      var t := if more[n].Allow? then more[n].now else now;
      RejectsWithinWindow(cfg, ops, more[..n], t);
    }
  }

  /** A half-open circuit does not limit itself to one probe: any number of checks pass. */
  lemma {:induction false} HalfOpenAdmitsEveryone(cfg: Config, ops: seq<Op>, checks: seq<Op>)
    requires Exec(cfg, ops).state.HalfOpen?
    requires forall k :: 0 <= k < |checks| ==> checks[k].Allow?
    ensures Exec(cfg, ops + checks) == Exec(cfg, ops)
    ensures forall now :: Check(cfg, Exec(cfg, ops + checks), now).1
  {
    if checks == [] {
      assert ops + checks == ops;
    } else {
      var n := |checks| - 1;
      assert (ops + checks)[..|ops| + n] == ops + checks[..n];
      HalfOpenAdmitsEveryone(cfg, ops, checks[..n]);
    }
  }

  /** How many checks were made, and how many calls admitted, from position a on. */
  function Checks(ops: seq<Op>, a: nat): nat
  {
    if |ops| <= a then 0
    else var n := |ops| - 1; Checks(ops[..n], a) + (if ops[n].Allow? then 1 else 0)
  }

  function Admissions(cfg: Config, ops: seq<Op>, a: nat): nat
  {
    if |ops| <= a then 0
    else
      var n := |ops| - 1;
      Admissions(cfg, ops[..n], a)
        + (if ops[n].Allow? && Check(cfg, Exec(cfg, ops[..n]), ops[n].now).1 then 1 else 0)
  }

  /** The documentation promises that a half-open circuit lets one probe through. Since the check at
      position j - 1 made it half-open, that check and every later one was admitted, so there was
      one admission if and only if there was no other check. */
  lemma {:induction false} OneProbeIff(cfg: Config, ops: seq<Op>, j: nat)
    requires 0 < j <= |ops| && Since(cfg, ops, j, HalfOpen)
    requires Exec(cfg, ops[..j - 1]).state.Open? && ops[j - 1].Allow?
    ensures Admissions(cfg, ops, j - 1) == 1 + Checks(ops, j)
    ensures Admissions(cfg, ops, j - 1) == 1 <==> forall k :: j <= k < |ops| ==> !ops[k].Allow?
  {
    var n := |ops| - 1;
    var m := ops[..n];
    assert ops[..|ops|] == ops;
    assert Exec(cfg, ops).state.HalfOpen?;
    if n == j - 1 {
      assert Checks(ops, j) == 0 && Admissions(cfg, m, n) == 0;
    } else {
      assert forall k :: 0 <= k <= n ==> m[..k] == ops[..k];
      assert Since(cfg, m, j, HalfOpen) && Exec(cfg, m).state.HalfOpen?;
      hide Since, Exec;
      OneProbeIff(cfg, m, j);
      assert forall k :: j <= k < n ==> m[k] == ops[k];
    }
  }

  /** Two calls pass in one half-open period. */
  lemma TwoProbesExample(timeout: nat)
    ensures var cfg := Config(1, 1, timeout);
      var ops := [Failure(0)] + [Allow(timeout)] + [Allow(timeout)];
      Exec(cfg, ops[..2]).state.HalfOpen? && Exec(cfg, ops).state.HalfOpen? && Admissions(cfg, ops, 1) == 2
  {
    var cfg := Config(1, 1, timeout);
    var a := [Failure(0)];
    var b := a + [Allow(timeout)];
    var c := b + [Allow(timeout)];
    assert a[..0] == [] && b[..1] == a && c[..2] == b;
    assert Exec(cfg, a).state.Open? && Exec(cfg, a).lastFailure == Some(0);
    assert Exec(cfg, b).state.HalfOpen?;
    assert Admissions(cfg, a, 1) == 0 && Admissions(cfg, b, 1) == 1;
  }
}
