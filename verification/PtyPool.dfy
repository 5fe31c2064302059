/** The pool of pre-warmed shell slots: callers that borrow and release, the idle reaper,
    start-up and shutdown, as a state machine over atomic steps. Whether a slot's process is
    alive, whether it is idle, and whether a new process can be started are open choices. */
module PtyPool {

  import opened Collections

  // Slots are numbered in the order in which they were created.
  type Slot = nat

  /** Start: how many of its iterations are done, how many slots it made, the one in hand. */
  datatype Starter = NotStarted | Starting(i: nat, made: nat, hand: Option<Slot>) | Started(ok: bool)

  /** The reaper: asleep, draining the channel, looking at what it drained, making a
      replacement, or about to put a slot back. */
  datatype Reaper =
    | Absent
    | Sleeping
    | Collecting(got: seq<Slot>)
    | Sorting(todo: seq<Slot>)
    | Making(todo: seq<Slot>)
    | Sending(slot: Slot, todo: seq<Slot>)
    | Gone

  /** queue is the buffered channel; returning holds the slots of Release calls that are about
      to send, recreating counts Release calls that are replacing a dead slot, waiting and draining
      count the Stop calls that wait for the reaper and that empty the channel. */
  datatype State = State(
    size: nat,
    queue: seq<Slot>,
    next: Slot,
    killed: seq<Slot>,
    start: Starter,
    borrowed: set<Slot>,
    returning: set<Slot>,
    recreating: nat,
    reaper: Reaper,
    stopped: bool,
    waiting: nat,
    draining: nat)

  function Init(size: nat): State
  {
    State(size, [], 0, [], NotStarted, {}, {}, 0, Absent, false, 0, 0)
  }

  datatype StartAct = StartBegin | StartCreate(ok: bool) | StartSend | StartFinish

  datatype UserAct =
    | Acquire | ReleaseBegin(slot: Slot, alive: bool) | ReleaseCreate(ok: bool) | ReleaseSend(slot: Slot)

  datatype ReaperAct =
    | Tick | Collect | Collected | Keep | Reap | Recreate(ok: bool) | Return | Drop | Done | Exit

  datatype StopAct = StopBegin | StopWait | StopDrain | StopReturn

  datatype Step = Start(sa: StartAct) | User(ua: UserAct) | Reaping(ra: ReaperAct) | Stop(oa: StopAct)

  predicate Full(s: State) { |s.queue| >= s.size }

  predicate ReaperActive(s: State) { !s.reaper.Absent? && !s.reaper.Gone? }

  function Push(s: State, slot: Slot): State { s.(queue := s.queue + [slot]) }

  function Pop(s: State): State
    requires s.queue != []
  {
    s.(queue := s.queue[1..])
  }

  function Kill(s: State, slot: Slot): State { s.(killed := s.killed + [slot]) }

  function Create(s: State): State { s.(next := s.next + 1) }

  /** Pool.Start; its sends wait for room in the channel. */
  predicate StartEnabled(s: State, a: StartAct)
  {
    match a
    case StartBegin => s.start.NotStarted?
    case StartCreate(_) => s.start.Starting? && s.start.i < s.size && s.start.hand.None?
    case StartSend => s.start.Starting? && s.start.hand.Some? && !Full(s)
    case StartFinish => s.start.Starting? && s.start.i >= s.size && s.start.hand.None?
  }

  function StartNext(s: State, a: StartAct): State
    requires StartEnabled(s, a)
  {
    match a
    case StartBegin => s.(start := Starting(0, 0, None))
    case StartCreate(ok) =>
      if ok then Create(s).(start := s.start.(hand := Some(s.next)))
      else s.(start := s.start.(i := s.start.i + 1))
    case StartSend =>
      Push(s, s.start.hand.value).(start := Starting(s.start.i + 1, s.start.made + 1, None))
    case StartFinish =>
      if s.start.made == 0 then s.(start := Started(false))
      else s.(start := Started(true), reaper := Sleeping)
  }

  /** Acquire takes a slot whenever there is one, also after shutdown: its select has no
      priority. Release is called once for each borrowed slot; its send never waits, a full
      channel makes it kill the slot. */
  predicate UserEnabled(s: State, a: UserAct)
  {
    match a
    case Acquire => s.queue != []
    case ReleaseBegin(slot, _) => slot in s.borrowed
    case ReleaseCreate(_) => s.recreating > 0
    case ReleaseSend(slot) => slot in s.returning
  }

  function UserNext(s: State, a: UserAct): State
    requires UserEnabled(s, a)
  {
    match a
    case Acquire => Pop(s).(borrowed := s.borrowed + {s.queue[0]})
    case ReleaseBegin(slot, alive) =>
      var t := s.(borrowed := s.borrowed - {slot});
      if alive then t.(returning := s.returning + {slot})
      else Kill(t, slot).(recreating := s.recreating + 1)
    case ReleaseCreate(ok) =>
      var t := s.(recreating := s.recreating - 1);
      if ok then Create(t).(returning := s.returning + {s.next}) else t
    case ReleaseSend(slot) =>
      var t := s.(returning := s.returning - {slot});
      if Full(s) then Kill(t, slot) else Push(t, slot)
  }

  /** The reaper; putting a slot back waits for room or for shutdown. */
  predicate ReaperEnabled(s: State, a: ReaperAct)
  {
    match a
    case Tick => s.reaper.Sleeping?
    case Collect => s.reaper.Collecting? && s.queue != []
    case Collected => s.reaper.Collecting? && s.queue == []
    case Keep => s.reaper.Sorting? && s.reaper.todo != []
    case Reap => s.reaper.Sorting? && s.reaper.todo != []
    case Recreate(_) => s.reaper.Making?
    case Return => s.reaper.Sending? && !Full(s)
    case Drop => s.reaper.Sending? && s.stopped
    case Done => s.reaper.Sorting? && s.reaper.todo == []
    case Exit => s.reaper.Sleeping? && s.stopped
  }

  function ReaperNext(s: State, a: ReaperAct): State
    requires ReaperEnabled(s, a)
  {
    match a
    case Tick => s.(reaper := Collecting([]))
    case Collect => Pop(s).(reaper := Collecting(s.reaper.got + [s.queue[0]]))
    case Collected => s.(reaper := Sorting(s.reaper.got))
    case Keep => s.(reaper := Sending(s.reaper.todo[0], s.reaper.todo[1..]))
    case Reap => Kill(s, s.reaper.todo[0]).(reaper := Making(s.reaper.todo[1..]))
    case Recreate(ok) =>
      if ok then Create(s).(reaper := Sending(s.next, s.reaper.todo))
      else s.(reaper := Sorting(s.reaper.todo))
    case Return => Push(s, s.reaper.slot).(reaper := Sorting(s.reaper.todo))
    case Drop => Kill(s, s.reaper.slot).(reaper := Sorting(s.reaper.todo))
    case Done => s.(reaper := Sleeping)
    case Exit => s.(reaper := Gone)
  }

  /** Pool.Stop: close the stop channel, wait for the reaper, drain, return on empty. */
  predicate StopEnabled(s: State, a: StopAct)
  {
    match a
    case StopBegin => true
    case StopWait => s.waiting > 0 && !ReaperActive(s)
    case StopDrain => s.draining > 0 && s.queue != []
    case StopReturn => s.draining > 0 && s.queue == []
  }

  function StopNext(s: State, a: StopAct): State
    requires StopEnabled(s, a)
  {
    match a
    case StopBegin => s.(stopped := true, waiting := s.waiting + 1)
    case StopWait => s.(waiting := s.waiting - 1, draining := s.draining + 1)
    case StopDrain => Kill(Pop(s), s.queue[0])
    case StopReturn => s.(draining := s.draining - 1)
  }

  predicate Enabled(s: State, st: Step)
  {
    match st
    case Start(a) => StartEnabled(s, a)
    case User(a) => UserEnabled(s, a)
    case Reaping(a) => ReaperEnabled(s, a)
    case Stop(a) => StopEnabled(s, a)
  }

  function Next(s: State, st: Step): State
    requires Enabled(s, st)
  {
    match st
    case Start(a) => StartNext(s, a)
    case User(a) => UserNext(s, a)
    case Reaping(a) => ReaperNext(s, a)
    case Stop(a) => StopNext(s, a)
  }

  function AfterFrom(s: State, run: seq<Step>): Option<State>
  {
    if run == [] then Some(s)
    else
      var n := |run| - 1;
      match AfterFrom(s, run[..n])
      case None => None
      case Some(t) => if Enabled(t, run[n]) then Some(Next(t, run[n])) else None
  }

  /** The state after a run of a pool of the given size, or None if a step was not enabled. */
  function After(size: nat, run: seq<Step>): Option<State> { AfterFrom(Init(size), run) }

  // ---------------------------------------------------------------- conservation

  function Bit(b: bool): nat { if b then 1 else 0 }

  /** How often x occurs in q. */
  function Count(q: seq<Slot>, x: Slot): nat
  {
    if q == [] then 0 else Count(q[..|q| - 1], x) + Bit(q[|q| - 1] == x)
  }

  lemma CountPush(q: seq<Slot>, y: Slot, x: Slot)
    ensures Count(q + [y], x) == Count(q, x) + Bit(x == y)
  {
  }

  lemma {:induction false} CountPop(q: seq<Slot>, x: Slot)
    requires q != []
    ensures Count(q, x) == Bit(q[0] == x) + Count(q[1..], x)
  {
    if |q| > 1 {
      CountPop(q[..|q| - 1], x);
      assert q[..|q| - 1][1..] == q[1..][..|q| - 2];
    } else {
      assert q[..0] == [];
    }
  }

  function InHand(s: State): seq<Slot>
  {
    if s.start.Starting? && s.start.hand.Some? then [s.start.hand.value] else []
  }

  function InReaper(s: State): seq<Slot>
  {
    match s.reaper
    case Collecting(got) => got
    case Sorting(todo) => todo
    case Making(todo) => todo
    case Sending(slot, todo) => todo + [slot]
    case _ => []
  }

  /** In how many places, living or killed, slot x is found. */
  function Places(s: State, x: Slot): nat
  {
    Count(s.queue, x) + Bit(x in s.borrowed) + Bit(x in s.returning) + Count(InHand(s), x)
      + Count(InReaper(s), x) + Count(s.killed, x)
  }

  /** Every slot ever created is in exactly one place, and there once; no other is anywhere. */
  ghost predicate Conserved(s: State)
  {
    && (forall x: Slot :: Places(s, x) == Bit(x < s.next))
    && (s.start.Started? || s.reaper.Absent?)
  }

  lemma CountOne(y: Slot, x: Slot)
    ensures Count([], x) == 0 && Count([y], x) == Bit(x == y)
  {
  }

  lemma StartPlaces(s: State, a: StartAct, x: Slot)
    requires StartEnabled(s, a) && s.reaper.Absent? && Places(s, x) == Bit(x < s.next)
    ensures Places(StartNext(s, a), x) == Bit(x < StartNext(s, a).next)
  {
    hide Count;
    CountOne(0, x);
    match a
    case StartBegin =>
    case StartCreate(ok) => CountOne(s.next, x);
    case StartSend => CountOne(s.start.hand.value, x); CountPush(s.queue, s.start.hand.value, x);
    case StartFinish =>
  }

  lemma UserPlaces(s: State, a: UserAct, x: Slot)
    requires UserEnabled(s, a) && Places(s, x) == Bit(x < s.next)
    ensures Places(UserNext(s, a), x) == Bit(x < UserNext(s, a).next)
  {
    hide Count;
    CountOne(0, x);
    match a
    case Acquire => CountPop(s.queue, x);
    case ReleaseBegin(slot, alive) => CountPush(s.killed, slot, x);
    case ReleaseCreate(ok) =>
    case ReleaseSend(slot) => CountPush(s.killed, slot, x); CountPush(s.queue, slot, x);
  }

  lemma ReaperPlaces(s: State, a: ReaperAct, x: Slot)
    requires ReaperEnabled(s, a) && Places(s, x) == Bit(x < s.next)
    ensures Places(ReaperNext(s, a), x) == Bit(x < ReaperNext(s, a).next)
  {
    hide Count;
    CountOne(0, x);
    match a
    case Collect => CountPop(s.queue, x); CountPush(s.reaper.got, s.queue[0], x);
    case Keep => CountPop(s.reaper.todo, x); CountPush(s.reaper.todo[1..], s.reaper.todo[0], x);
    case Reap => CountPop(s.reaper.todo, x); CountPush(s.killed, s.reaper.todo[0], x);
    case Recreate(ok) => CountPush(s.reaper.todo, s.next, x);
    case Return => CountPush(s.reaper.todo, s.reaper.slot, x); CountPush(s.queue, s.reaper.slot, x);
    case Drop => CountPush(s.reaper.todo, s.reaper.slot, x); CountPush(s.killed, s.reaper.slot, x);
    case _ =>
  }

  lemma StopPlaces(s: State, a: StopAct, x: Slot)
    requires StopEnabled(s, a) && Places(s, x) == Bit(x < s.next)
    ensures Places(StopNext(s, a), x) == Bit(x < StopNext(s, a).next)
  {
    hide Count;
    CountOne(0, x);
    if a.StopDrain? {
      CountPop(s.queue, x);
      CountPush(s.killed, s.queue[0], x);
    }
  }

  lemma StepConserved(s: State, st: Step)
    requires Conserved(s) && Enabled(s, st)
    ensures Conserved(Next(s, st))
  {
    hide Places;
    forall x: Slot ensures Places(Next(s, st), x) == Bit(x < Next(s, st).next) {
      match st
      case Start(a) => StartPlaces(s, a, x);
      case User(a) => UserPlaces(s, a, x);
      case Reaping(a) => ReaperPlaces(s, a, x);
      case Stop(a) => StopPlaces(s, a, x);
    }
  }

  // ---------------------------------------------------------------- occupancy

  function Size(a: set<Slot>): nat { |a| }

  /** Places taken in the pool: live slots and replacements being made. */
  function Occupied(s: State): nat
  {
    |s.queue| + Size(s.borrowed) + Size(s.returning) + s.recreating + |InHand(s)| + |InReaper(s)|
      + Bit(s.reaper.Making?)
  }

  /** Places Start has provided so far. */
  function Provided(s: State): nat
  {
    match s.start
    case NotStarted => 0
    case Starting(i, _, hand) => i + Bit(hand.Some?)
    case Started(_) => s.size
  }

  ghost predicate Bounded(s: State)
  {
    Occupied(s) <= Provided(s) <= s.size
  }

  /** A slot that moves is not yet where it goes. */
  lemma Moves(s: State, x: Slot)
    requires Conserved(s)
    ensures s.queue != [] ==> s.queue[0] !in s.borrowed
    ensures x in s.borrowed ==> x !in s.returning
    ensures s.next !in s.returning
  {
    hide Count;
    assert Places(s, x) <= 1;
    assert Places(s, s.next) == 0;
    if s.queue != [] {
      CountPop(s.queue, s.queue[0]);
      assert Places(s, s.queue[0]) <= 1;
    }
  }

  lemma Sizes(a: set<Slot>, x: Slot)
    ensures x !in a ==> Size(a + {x}) == Size(a) + 1
    ensures x in a ==> Size(a - {x}) == Size(a) - 1
  {
  }

  lemma UserBounded(s: State, a: UserAct)
    requires Conserved(s) && Bounded(s) && UserEnabled(s, a)
    ensures Bounded(UserNext(s, a))
  {
    hide Conserved, Size;
    match a
    case Acquire => Moves(s, 0); Sizes(s.borrowed, s.queue[0]);
    case ReleaseBegin(slot, _) => Moves(s, slot); Sizes(s.borrowed, slot); Sizes(s.returning, slot);
    case ReleaseCreate(_) => Moves(s, 0); Sizes(s.returning, s.next);
    case ReleaseSend(slot) => Sizes(s.returning, slot);
  }

  lemma StartBounded(s: State, a: StartAct)
    requires s.reaper.Absent? && Bounded(s) && StartEnabled(s, a)
    ensures Bounded(StartNext(s, a))
  {
  }

  lemma ReaperBounded(s: State, a: ReaperAct)
    requires Bounded(s) && ReaperEnabled(s, a)
    ensures Bounded(ReaperNext(s, a))
  {
  }

  lemma StopBounded(s: State, a: StopAct)
    requires Bounded(s) && StopEnabled(s, a)
    ensures Bounded(StopNext(s, a))
  {
  }

  lemma StepBounded(s: State, st: Step)
    requires Conserved(s) && Bounded(s) && Enabled(s, st)
    ensures Bounded(Next(s, st))
  {
    hide Places, Bounded;
    match st
    case Start(a) => StartBounded(s, a);
    case User(a) => UserBounded(s, a);
    case Reaping(a) => ReaperBounded(s, a);
    case Stop(a) => StopBounded(s, a);
  }

  ghost predicate Inv(s: State) { Conserved(s) && Bounded(s) }

  lemma StepInv(s: State, st: Step)
    requires Inv(s) && Enabled(s, st)
    ensures Inv(Next(s, st)) && Next(s, st).size == s.size
  {
    StepSize(s, st);
    hide Conserved, Bounded, Next, Enabled;
    StepConserved(s, st);
    StepBounded(s, st);
  }

  lemma StepSize(s: State, st: Step)
    requires Enabled(s, st)
    ensures Next(s, st).size == s.size
  {
  }

  lemma {:induction false} RunInv(size: nat, run: seq<Step>)
    requires After(size, run).Some?
    ensures var s := After(size, run).value; Inv(s) && s.size == size
  {
    if run != [] {
      var n := |run| - 1;
      RunInv(size, run[..n]);
      StepInv(After(size, run[..n]).value, run[n]);
    }
  }

  // ---------------------------------------------------------------- whole runs

  /** No send ever waits or finds the channel full: not Start's, not the reaper's, and the
      branch of Release that kills a slot because the pool is full is never taken. */
  lemma SendsFindRoom(size: nat, run: seq<Step>)
    requires After(size, run).Some?
    ensures var s := After(size, run).value;
      && (s.start.Starting? && s.start.hand.Some? ==> StartEnabled(s, StartSend))
      && (s.reaper.Sending? ==> ReaperEnabled(s, Return))
      && (s.returning != {} ==> !Full(s))
  {
    RunInv(size, run);
  }

  /** Queued, borrowed and reaper-held slots never exceed the size of the pool. */
  lemma NeverOverfull(size: nat, run: seq<Step>)
    requires After(size, run).Some?
    ensures var s := After(size, run).value;
      |s.queue| + |s.borrowed| + |s.returning| + |InReaper(s)| <= size
  {
    RunInv(size, run);
  }

  /** No slot is killed twice, and a killed slot is nowhere else: neither queued, nor lent
      out, nor in the hands of Start, Release or the reaper. */
  lemma KilledOnceAndGone(size: nat, run: seq<Step>, x: Slot)
    requires After(size, run).Some?
    ensures var s := After(size, run).value;
      && Count(s.killed, x) <= 1
      && (Count(s.killed, x) == 1 ==>
            && x < s.next && Count(s.queue, x) == 0 && x !in s.borrowed && x !in s.returning
            && Count(InHand(s), x) == 0 && Count(InReaper(s), x) == 0)
  {
    hide Count;
    RunInv(size, run);
    assert Places(After(size, run).value, x) <= 1;
  }

  predicate ReaperOk(s: State)
  {
    && (s.reaper.Absent? <==> s.start != Started(true))
    && (s.reaper.Gone? ==> s.stopped)
    && (s.waiting > 0 || s.draining > 0 ==> s.stopped)
  }

  lemma StepReaper(s: State, st: Step)
    requires ReaperOk(s) && Enabled(s, st)
    ensures ReaperOk(Next(s, st)) && (s.stopped ==> Next(s, st).stopped)
  {
  }

  /** A pool that was started has its reaper running until it is stopped, and stays stopped. */
  lemma {:induction false} ReaperRuns(size: nat, run: seq<Step>)
    requires After(size, run).Some?
    ensures var s := After(size, run).value;
      && ReaperOk(s)
      && (s.start == Started(true) && !s.stopped ==> ReaperActive(s))
      && (s.stopped <==> Stop(StopBegin) in run)
  {
    if run != [] {
      var n := |run| - 1;
      ReaperRuns(size, run[..n]);
      assert run == run[..n] + [run[n]];
      StepReaper(After(size, run[..n]).value, run[n]);
    }
  }

  /** A step in which a process could not be started. */
  predicate FailsToStart(st: Step)
  {
    || (st.Start? && st.sa == StartCreate(false))
    || (st.User? && st.ua == ReleaseCreate(false))
    || (st.Reaping? && st.ra == Recreate(false))
  }

  function Lost(run: seq<Step>): nat
  {
    if run == [] then 0 else Lost(run[..|run| - 1]) + Bit(FailsToStart(run[|run| - 1]))
  }

  lemma UserKeepsPlaces(s: State, a: UserAct)
    requires Conserved(s) && Bounded(s) && UserEnabled(s, a)
    ensures Occupied(UserNext(s, a)) + Bit(FailsToStart(User(a))) == Occupied(s)
    ensures Provided(UserNext(s, a)) == Provided(s)
  {
    hide Conserved, Size;
    match a
    case Acquire => Moves(s, 0); Sizes(s.borrowed, s.queue[0]);
    case ReleaseBegin(slot, _) => Moves(s, slot); Sizes(s.borrowed, slot); Sizes(s.returning, slot);
    case ReleaseCreate(_) => Moves(s, 0); Sizes(s.returning, s.next);
    case ReleaseSend(slot) => Sizes(s.returning, slot);
  }

  lemma StartKeepsPlaces(s: State, a: StartAct)
    requires s.reaper.Absent? && Bounded(s) && StartEnabled(s, a)
    ensures var t := StartNext(s, a);
      Occupied(t) + Bit(FailsToStart(Start(a))) + Provided(s) == Occupied(s) + Provided(t)
  {
    hide Size;
  }

  lemma ReaperKeepsPlaces(s: State, a: ReaperAct)
    requires Bounded(s) && ReaperEnabled(s, a) && !s.stopped
    ensures var t := ReaperNext(s, a);
      Occupied(t) + Bit(FailsToStart(Reaping(a))) == Occupied(s) && Provided(t) == Provided(s)
  {
    hide Size;
  }

  lemma StepKeepsPlaces(s: State, st: Step)
    requires Inv(s) && Enabled(s, st) && !s.stopped && !Next(s, st).stopped && s.waiting == 0 && s.draining == 0
    ensures Occupied(Next(s, st)) + Bit(FailsToStart(st)) + Provided(s) == Occupied(s) + Provided(Next(s, st))
  {
    hide Places, Bounded, Occupied, Provided, FailsToStart;
    match st
    case User(a) => UserKeepsPlaces(s, a);
    case Start(a) => StartKeepsPlaces(s, a);
    case Reaping(a) => ReaperKeepsPlaces(s, a);
    case Stop(a) =>
  }

  /** While the pool is not stopped no place is lost except where a process could not be started: the
      places Start has provided are those taken and those lost that way. */
  lemma {:induction false} PlacesAreKept(size: nat, run: seq<Step>)
    requires After(size, run).Some? && !After(size, run).value.stopped
    ensures var s := After(size, run).value; Occupied(s) + Lost(run) == Provided(s)
  {
    if run != [] {
      var n := |run| - 1;
      var s := After(size, run[..n]).value;
      RunInv(size, run[..n]);
      ReaperRuns(size, run[..n]);
      StepReaper(s, run[n]);
      hide Enabled, Next, Occupied, Provided, Inv, FailsToStart;
      PlacesAreKept(size, run[..n]);
      StepKeepsPlaces(s, run[n]);
    }
  }

  // ---------------------------------------------------------------- shutdown

  /** Every slot ever created was killed exactly once. */
  ghost predicate AllKilled(s: State)
  {
    forall x: Slot :: x < s.next ==> Count(s.killed, x) == 1
  }

  /** No caller, Release, Start or reaper has a slot. */
  predicate NobodyHolds(s: State)
  {
    s.borrowed == {} && s.returning == {} && InHand(s) == [] && InReaper(s) == []
  }

  lemma CountLast(q: seq<Slot>)
    requires q != []
    ensures Count(q, q[|q| - 1]) > 0
  {
  }

  lemma NoneCounted(q: seq<Slot>)
    requires forall x: Slot :: Count(q, x) == 0
    ensures q == []
  {
    if q != [] { CountLast(q); }
  }

  /** With nothing queued, all slots are killed exactly when nobody holds one. */
  lemma AllKilledIff(s: State)
    requires Conserved(s) && s.queue == []
    ensures AllKilled(s) <==> NobodyHolds(s)
  {
    hide Count;
    forall x: Slot ensures Places(s, x) == Bit(x < s.next) && Count([], x) == 0 { CountOne(0, x); }
    if AllKilled(s) {
      forall x: Slot ensures x !in s.borrowed && x !in s.returning && Count(InHand(s), x) == 0 && Count(InReaper(s), x) == 0 {
        assert Places(s, x) == Bit(x < s.next);
      }
      NoneCounted(InHand(s));
      NoneCounted(InReaper(s));
    } else {
      var x: Slot :| x < s.next && Count(s.killed, x) != 1;
      assert Places(s, x) == 1;
    }
  }

  /** When a Stop returns, at any moment of any run, every slot ever created has been killed,
      exactly once, if and only if nobody holds one. */
  lemma StopKillsAll(size: nat, run: seq<Step>)
    requires After(size, run).Some? && Enabled(After(size, run).value, Stop(StopReturn))
    ensures var s := After(size, run).value; AllKilled(s) <==> NobodyHolds(s)
  {
    RunInv(size, run);
    AllKilledIff(After(size, run).value);
  }

  /** Start has not returned and can still make a slot or send the one in hand. */
  predicate StartLeft(s: State)
  {
    match s.start
    case NotStarted => s.size > 0
    case Starting(i, _, hand) => i < s.size || hand.Some?
    case Started(_) => false
  }

  /** Nothing is queued, and nobody has a slot or will make one. */
  predicate Dead(s: State)
  {
    && s.queue == [] && NobodyHolds(s)
    && s.recreating == 0 && !s.reaper.Making? && !StartLeft(s)
  }

  lemma DeadStep(s: State, st: Step)
    requires Dead(s) && Enabled(s, st)
    ensures var t := Next(s, st); Dead(t) && t.next == s.next && t.killed == s.killed
  {
  }

  /** Then nothing ever comes back: no slot is created or handed out any more. */
  lemma {:induction false} DeadForever(s: State, more: seq<Step>)
    requires Dead(s) && AfterFrom(s, more).Some?
    ensures var t := AfterFrom(s, more).value; Dead(t) && t.next == s.next && t.killed == s.killed
  {
    if more != [] {
      var n := |more| - 1;
      DeadForever(s, more[..n]);
      hide Dead, Enabled, Next;
      DeadStep(AfterFrom(s, more[..n]).value, more[n]);
    }
  }

  /** How many steps separate an empty channel from its next slot, at most. */
  function Distance(s: State): nat
  {
    if s.returning != {} || InHand(s) != [] || s.reaper.Sending? then 1
    else if s.borrowed != {} || s.recreating > 0 || s.reaper.Making? then 2
    else if (s.start.Starting? && StartLeft(s)) || (s.reaper.Sorting? && InReaper(s) != []) then 2
    else 3
  }

  /** A step that sends a slot or comes closer to that. */
  lemma Toward(s: State) returns (st: Step)
    requires s.queue == [] && s.size > 0 && !Dead(s)
    ensures Enabled(s, st) && Next(s, st).size == s.size
    ensures var t := Next(s, st);
      t.queue != [] || (t.queue == [] && !Dead(t) && Distance(t) < Distance(s))
  {
    if s.returning != {} {
      var x := SomeOf(s.returning);
      st := User(ReleaseSend(x));
    } else if InHand(s) != [] {
      st := Start(StartSend);
    } else if s.reaper.Sending? {
      st := Reaping(Return);
    } else if s.borrowed != {} {
      var x := SomeOf(s.borrowed);
      st := User(ReleaseBegin(x, true));
      assert x in Next(s, st).returning;
    } else if s.recreating > 0 {
      st := User(ReleaseCreate(true));
      assert s.next in Next(s, st).returning;
    } else if s.reaper.Making? {
      st := Reaping(Recreate(true));
    } else if s.start.Starting? && StartLeft(s) {
      st := Start(StartCreate(true));
    } else if s.reaper.Sorting? && InReaper(s) != [] {
      st := Reaping(Keep);
    } else {
      st := if s.start.NotStarted? then Start(StartBegin) else Reaping(Collected);
    }
  }

  lemma {:induction false} AfterCons(s: State, st: Step, more: seq<Step>)
    requires Enabled(s, st)
    ensures AfterFrom(s, [st] + more) == AfterFrom(Next(s, st), more)
  {
    hide Enabled, Next;
    var all, n := [st] + more, |more|;
    if n == 0 {
      assert all[..0] == [];
      assert AfterFrom(s, []) == Some(s);
    } else {
      assert all[..n] == [st] + more[..n - 1];
      AfterCons(s, st, more[..n - 1]);
    }
  }

  lemma {:induction false} Revive(s: State) returns (more: seq<Step>)
    requires s.queue == [] && s.size > 0 && !Dead(s)
    ensures AfterFrom(s, more).Some? && AfterFrom(s, more).value.queue != []
    decreases Distance(s)
  {
    hide Enabled, Next, Distance, Dead;
    var st := Toward(s);
    var t := Next(s, st);
    assert AfterFrom(t, []) == Some(t);
    more := [];
    if t.queue == [] { more := Revive(t); }
    AfterCons(s, st, more);
    more := [st] + more;
  }

  lemma NoRoomNoSlots(s: State)
    requires Bounded(s) && s.size == 0
    ensures Dead(s)
  {
  }

  /** Acquire gets a slot in some continuation. */
  ghost predicate CanAcquire(s: State)
  {
    exists more :: AfterFrom(s, more).Some? && Enabled(AfterFrom(s, more).value, User(Acquire))
  }

  lemma CanAcquireIff(s: State)
    requires s.queue == [] && (s.size > 0 || Dead(s))
    ensures CanAcquire(s) <==> !Dead(s)
  {
    if Dead(s) {
      forall more | AfterFrom(s, more).Some?
        ensures !Enabled(AfterFrom(s, more).value, User(Acquire))
      {
        DeadForever(s, more);
      }
    } else {
      var more := Revive(s);
      assert Enabled(AfterFrom(s, more).value, User(Acquire));
    }
  }

  /** Acquire after Stop: the comment above Stop promises an error. At the moment a Stop returns,
      whatever happened before it, that promise will be kept if and only if nobody holds a slot,
      no Release or reaper is replacing one, and Start has no iteration left. */
  lemma AcquireAfterStop(size: nat, run: seq<Step>)
    requires After(size, run).Some? && Enabled(After(size, run).value, Stop(StopReturn))
    ensures var s := Next(After(size, run).value, Stop(StopReturn));
      CanAcquire(s) <==> !(NobodyHolds(s) && s.recreating == 0 && !s.reaper.Making? && !StartLeft(s))
  {
    RunInv(size, run);
    var s := After(size, run).value;
    if size == 0 { NoRoomNoSlots(s); }
    CanAcquireIff(Next(s, Stop(StopReturn)));
  }

  // ---------------------------------------------------------------- orderly shutdown

  /** Stop is called only after Start returned. */
  ghost predicate Orderly(size: nat, run: seq<Step>)
    requires After(size, run).Some?
  {
    forall k :: 0 <= k < |run| && run[k] == Stop(StopBegin) ==>
      After(size, run[..k]).Some? && After(size, run[..k]).value.start.Started?
  }

  predicate Calm(s: State)
  {
    && (s.stopped || s.waiting > 0 || s.draining > 0 ==> s.start.Started?)
    && (s.draining > 0 ==> !ReaperActive(s))
  }

  lemma {:induction false} RunCalm(size: nat, run: seq<Step>)
    requires After(size, run).Some? && Orderly(size, run)
    ensures Calm(After(size, run).value)
  {
    if run != [] {
      var n := |run| - 1;
      var before := run[..n];
      assert forall k :: 0 <= k <= n ==> before[..k] == run[..k];
      RunCalm(size, before);
      var s := After(size, before).value;
      assert run[n] == Stop(StopBegin) ==> s.start.Started?;
      hide After, Enabled, Next, Calm;
      StepCalm(s, run[n]);
    }
  }

  lemma StepCalm(s: State, st: Step)
    requires Calm(s) && Enabled(s, st) && (st == Stop(StopBegin) ==> s.start.Started?)
    ensures Calm(Next(s, st))
  {
  }

  /** Then only callers matter: all slots are killed unless one is lent out or being released,
      and Acquire fails from then on unless one is, or is being replaced by a Release. */
  lemma OrderlyStop(size: nat, run: seq<Step>)
    requires After(size, run).Some? && Orderly(size, run)
    requires Enabled(After(size, run).value, Stop(StopReturn))
    ensures var s := After(size, run).value;
      && (AllKilled(s) <==> s.borrowed == {} && s.returning == {})
      && (CanAcquire(Next(s, Stop(StopReturn))) <==> !(s.borrowed == {} && s.returning == {} && s.recreating == 0))
  {
    hide AllKilled, CanAcquire, After;
    RunCalm(size, run);
    StopKillsAll(size, run);
    AcquireAfterStop(size, run);
  }

  // ---------------------------------------------------------------- two ways to break the promise

  lemma Extend(size: nat, run: seq<Step>, st: Step)
    requires After(size, run).Some? && Enabled(After(size, run).value, st)
    ensures After(size, run + [st]) == Some(Next(After(size, run).value, st))
  {
  }

  /** A pool of one slot, started. */
  lemma StartedExample() returns (run: seq<Step>)
    ensures After(1, run).Some?
    ensures var s := After(1, run).value;
      && s.queue == [0] && s.borrowed == {} && s.start == Started(true) && s.reaper == Sleeping
      && !s.stopped && s.waiting == 0
    ensures Stop(StopBegin) !in run
  {
    assert After(1, []) == Some(Init(1));
    hide After;
    run := [Start(StartBegin)];
    Extend(1, [], Start(StartBegin));
    assert [] + [Start(StartBegin)] == run;
    Extend(1, run, Start(StartCreate(true)));
    run := run + [Start(StartCreate(true))];
    Extend(1, run, Start(StartSend));
    run := run + [Start(StartSend)];
    Extend(1, run, Start(StartFinish));
    run := run + [Start(StartFinish)];
  }

  /** A pool of one slot whose slot is lent out while Stop runs. */
  lemma AcquireAfterStopExample() returns (run: seq<Step>)
    ensures After(1, run).Some? && Orderly(1, run)
    ensures var s := After(1, run).value;
      Enabled(s, Stop(StopReturn)) && s.borrowed == {0} && CanAcquire(Next(s, Stop(StopReturn)))
  {
    hide After;
    var started := StartedExample();
    Extend(1, started, User(Acquire));
    var lent := started + [User(Acquire)];
    Extend(1, lent, Stop(StopBegin));
    Extend(1, lent + [Stop(StopBegin)], Reaping(Exit));
    Extend(1, lent + [Stop(StopBegin)] + [Reaping(Exit)], Stop(StopWait));
    run := lent + [Stop(StopBegin)] + [Reaping(Exit)] + [Stop(StopWait)];
    assert run[..|lent|] == lent;
    AcquireAfterStop(1, run);
    hide Enabled, Next, CanAcquire;
    assert forall k :: 0 <= k < |run| && run[k] == Stop(StopBegin) ==> k == |lent|;
  }

  /** A pool of one slot that is stopped before it is started: nothing is lent out, yet Start,
      which does not look at the stop channel, brings a slot. */
  lemma StopBeforeStartExample() returns (run: seq<Step>)
    ensures After(1, run).Some?
    ensures var s := After(1, run).value;
      && Enabled(s, Stop(StopReturn)) && s.borrowed == {} && s.returning == {} && s.recreating == 0
      && AllKilled(s) && CanAcquire(Next(s, Stop(StopReturn)))
  {
    assert After(1, []) == Some(Init(1));
    hide After;
    Extend(1, [], Stop(StopBegin));
    Extend(1, [] + [Stop(StopBegin)], Stop(StopWait));
    run := [] + [Stop(StopBegin)] + [Stop(StopWait)];
    AcquireAfterStop(1, run);
  }

  // ---------------------------------------------------------------- the pool object

  const DEFAULT_SIZE: nat := 4

  lemma NotReturning(size: nat, run: seq<Step>, x: Slot)
    requires After(size, run).Some? && x in After(size, run).value.borrowed
    ensures var s := After(size, run).value; x !in s.returning && s.next !in s.returning
  {
    RunInv(size, run);
    Moves(After(size, run).value, x);
  }

  lemma Shift(a: seq<Slot>, b: seq<Slot>)
    requires b != []
    ensures a + b == a + [b[0]] + b[1..]
  {
  }

  /** How many of the first n iterations of Start get their process. */
  function Successes(canStart: nat -> bool, n: nat): nat
  {
    if n == 0 then 0 else Successes(canStart, n - 1) + Bit(canStart(n - 1))
  }

  /** n slots made one after the other. */
  function Numbers(first: nat, n: nat): seq<Slot> { seq(n, i => first + i) }

  lemma NoNumbers(first: nat)
    ensures Numbers(first, 0) == []
  {
  }

  lemma NumbersAppend(first: nat, n: nat, m: nat)
    ensures Numbers(first, n) + Numbers(first + n, m) == Numbers(first, n + m)
  {
  }

  /** What one pass of the reaper makes of the slots it drained: those it puts back, those it kills,
      in order, and the number of slots ever made. */
  datatype Swept = Swept(back: seq<Slot>, dead: seq<Slot>, made: nat)

  /** An idle slot is killed and replaced if a process can be started; the slot or its replacement
      is put back, or killed if the pool is stopped and the select takes that branch. */
  function SweepOne(b: Swept, x: Slot, idle: bool, canStart: bool, drop: bool): Swept
  {
    if idle && !canStart then b.(dead := b.dead + [x])
    else
      var y := if idle then b.made else x;
      var dead := b.dead + (if idle then [x] else []);
      Swept(if drop then b.back else b.back + [y], if drop then dead + [y] else dead, b.made + Bit(idle))
  }

  function Sweep(todo: seq<Slot>, made: nat, idle: Slot -> bool, canStart: Slot -> bool, drop: Slot -> bool): Swept
  {
    if todo == [] then Swept([], [], made)
    else
      var n := |todo| - 1;
      var x := todo[n];
      SweepOne(Sweep(todo[..n], made, idle, canStart, drop), x, idle(x), canStart(x), drop(x))
  }

  predicate SweptSo(b: Swept, slots: seq<Slot>, before: seq<Slot>, killed: seq<Slot>, made: nat)
  {
    slots == b.back && killed == before + b.dead && made == b.made
  }

  lemma SweepShift(b: Swept, before: seq<Slot>, x: Slot, idle: bool, canStart: bool, drop: bool)
    ensures var c := SweepOne(b, x, idle, canStart, drop);
      SweepOne(b.(dead := before + b.dead), x, idle, canStart, drop) == c.(dead := before + c.dead)
  {
  }

  /** A pass over a pool that is not stopped kills exactly the idle slots, keeps exactly the others,
      and makes a slot for each idle one whose process can be started; no place is lost if all can. */
  lemma {:induction false} SweepReplaces(todo: seq<Slot>, made: nat, idle: Slot -> bool, canStart: Slot -> bool)
    requires forall x :: x in todo ==> x < made
    ensures var b := Sweep(todo, made, idle, canStart, (x: Slot) => false);
      && made <= b.made
      && (forall x :: x in b.dead <==> x in todo && idle(x))
      && (forall x :: x in b.back <==> (x in todo && !idle(x)) || made <= x < b.made)
      && |b.dead| + |b.back| == |todo| + (b.made - made)
      && ((forall x :: x in todo ==> canStart(x)) ==> |b.back| == |todo|)
  {
    if todo != [] {
      var n := |todo| - 1;
      assert todo == todo[..n] + [todo[n]];
      forall x | x in todo[..n] ensures x < made { assert x in todo; }
      SweepReplaces(todo[..n], made, idle, canStart);
    }
  }

  /** Slot x is in the channel, with the reaper, or killed. */
  predicate Tracked(s: State, x: Slot) { x in s.queue || x in InReaper(s) || x in s.killed }

  /** The two states differ at most in what the reaper touches. */
  predicate AsideFromReaper(s: State, t: State)
  {
    t == s.(queue := t.queue, next := t.next, killed := t.killed, reaper := t.reaper)
  }

  /** The reaper's own steps keep track of every slot. */
  lemma MoveKeeps(s: State, a: ReaperAct)
    requires ReaperEnabled(s, a)
    ensures AsideFromReaper(s, ReaperNext(s, a))
    ensures forall x :: Tracked(s, x) ==> Tracked(ReaperNext(s, a), x)
  {
  }

  function Phase(s: State): nat
  {
    match s.reaper
    case Collecting(_) => 3
    case Sorting(_) => 2
    case Making(_) => 2
    case Sending(_, _) => 2
    case Sleeping => 1
    case _ => 0
  }

  function Load(s: State): nat
  {
    match s.reaper
    case Collecting(_) => |s.queue|
    case Sorting(todo) => 3 * |todo|
    case Making(todo) => 3 * |todo| + 2
    case Sending(_, todo) => 3 * |todo| + 1
    case _ => 0
  }

  /** Between two ticks the reaper comes to an end. */
  lemma MoveEnds(s: State, a: ReaperAct)
    requires ReaperEnabled(s, a) && !a.Tick?
    ensures var t := ReaperNext(s, a); Phase(t) < Phase(s) || (Phase(t) == Phase(s) && Load(t) < Load(s))
  {
  }

  lemma AtRest(s: State, x: Slot)
    requires !ReaperActive(s) && Tracked(s, x)
    ensures x in s.queue || x in s.killed
  {
  }

  lemma SameTracked(s: State, t: State)
    requires s.queue == t.queue && s.reaper == t.reaper && s.killed == t.killed
    ensures forall x :: Tracked(s, x) ==> Tracked(t, x)
  {
  }

  /** The pool's fields: the channel, the stop channel, whether Start was called, where the reaper
      goroutine stands, and the number of processes started so far. Each method extends the ghost run by the steps it takes, so every call made
      without interruption is one of the interleavings above. */
  class Pool {
    const size: nat
    var slots: seq<Slot>
    var stopped: bool
    var begun: bool
    var reaper: Reaper
    var made: nat
    ghost var s: State
    ghost var run: seq<Step>

    ghost predicate Valid()
      reads this
    {
      && After(size, run) == Some(s) && s.size == size
      && s.queue == slots && s.stopped == stopped && s.next == made && s.reaper == reaper
      && (begun <==> !s.start.NotStarted?)
    }

    constructor (n: int)
      ensures size == if n < 1 then 4 else n
      ensures Valid() && run == [] && s == Init(size)
    {
      var m: nat := if n < 1 then DEFAULT_SIZE else n;
      size, slots, stopped, begun, reaper, made := m, [], false, false, Absent, 0;
      s, run := Init(m), [];
    }

    ghost method Take(st: Step)
      requires After(size, run) == Some(s) && Enabled(s, st)
      modifies this`s, this`run
      ensures s == Next(old(s), st) && run == old(run) + [st] && After(size, run) == Some(s)
      ensures s.size == size
    {
      run := run + [st];
      assert run[..|run| - 1] == old(run);
      s := Next(s, st);
      RunInv(size, run);
    }

    /** One turn of the loop of Start. */
    method Warm(ok: bool)
      requires Valid() && s.start.Starting? && s.start.i < size && s.start.hand.None?
      modifies this
      ensures Valid() && old(run) <= run
      ensures s.start == Starting(old(s).start.i + 1, old(s).start.made + Bit(ok), None)
      ensures s.borrowed == old(s).borrowed && s.killed == old(s).killed
      ensures made == old(made) + Bit(ok) && slots == old(slots) + Numbers(old(made), Bit(ok))
    {
      hide After, UserEnabled, UserNext, ReaperEnabled, ReaperNext, StopEnabled, StopNext;
      Take(Step.Start(StartCreate(ok)));
      if !ok { return; }
      var slot := made;
      made := made + 1;
      SendsFindRoom(size, run);
      Take(Step.Start(StartSend));
      slots := slots + [slot];
    }

    /** The loop of Start. */
    method WarmAll(canStart: nat -> bool) returns (created: nat)
      requires Valid() && s.start == Starting(0, 0, None)
      modifies this
      ensures Valid() && old(run) <= run && created == Successes(canStart, size)
      ensures s.start == Starting(size, created, None) && made == old(made) + created
      ensures slots == old(slots) + Numbers(old(made), created)
      ensures s.borrowed == old(s).borrowed && s.killed == old(s).killed
    {
      hide After, Enabled, Next, Numbers;
      created := 0;
      NoNumbers(made);
      for i := 0 to size
        invariant Valid() && old(run) <= run
        invariant s.start == Starting(i, created, None)
        invariant created == Successes(canStart, i) && made == old(made) + created
        invariant slots == old(slots) + Numbers(old(made), created)
        invariant s.borrowed == old(s).borrowed && s.killed == old(s).killed
      {
        Warm(canStart(i));
        NumbersAppend(old(made), created, Bit(canStart(i)));
        if !canStart(i) { continue; }
        created := created + 1;
      }
    }

    /** Pool.Start; canStart(i) says whether iteration i gets its process. Only the first call does
        anything or can fail; a later one waits for it to return. */
    method Start(canStart: nat -> bool) returns (ok: bool)
      requires Valid() && !s.start.Starting?
      modifies this
      ensures Valid() && old(run) <= run && s.start.Started?
      ensures old(s).start.Started? ==> ok && s == old(s)
      ensures old(s).start.NotStarted? ==>
        && s.start == Started(ok) && (ok <==> Successes(canStart, size) > 0)
        && made == old(made) + Successes(canStart, size)
        && slots == old(slots) + Numbers(old(made), Successes(canStart, size))
        && s.borrowed == old(s).borrowed && s.killed == old(s).killed
    {
      hide After, UserEnabled, UserNext, ReaperEnabled, ReaperNext, StopEnabled, StopNext, Numbers;
      if begun { return true; }
      begun := true;
      Take(Step.Start(StartBegin));
      var created := WarmAll(canStart);
      Take(Step.Start(StartFinish));
      if created == 0 { return false; }
      reaper := Sleeping;
      return true;
    }

    /** Pool.Acquire when it does not wait: the oldest slot, or one of the errors that are ready
        as well; the select has no priority. */
    method Acquire(ctxDone: bool, preferError: bool) returns (slot: Option<Slot>)
      requires Valid() && (slots != [] || stopped || ctxDone)
      modifies this
      ensures Valid() && old(run) <= run
      ensures slot.Some? ==>
        && old(slots) == [slot.value] + slots
        && s == old(s).(queue := slots, borrowed := old(s).borrowed + {slot.value})
      ensures slot.None? <==> (stopped || ctxDone) && (preferError || old(slots) == [])
      ensures slot.None? ==> s == old(s) && slots == old(slots)
    {
      if (stopped || ctxDone) && (preferError || slots == []) { return None; }
      Take(User(UserAct.Acquire));
      slot := Some(slots[0]);
      slots := slots[1..];
    }

    /** The select of Release that sends a slot back, or kills it when the pool is full. */
    method SendBack(slot: Slot)
      requires Valid() && slot in s.returning
      modifies this
      ensures Valid() && old(run) <= run && slots == old(slots) + [slot] && made == old(made)
      ensures s == old(s).(queue := slots, returning := old(s).returning - {slot})
    {
      hide After, StartEnabled, StartNext, ReaperEnabled, ReaperNext, StopEnabled, StopNext;
      SendsFindRoom(size, run);
      Take(User(ReleaseSend(slot)));
      if |slots| < size { slots := slots + [slot]; }
    }

    /** Pool.Release of a borrowed slot. */
    method Release(slot: Slot, alive: bool, canStart: bool)
      requires Valid() && slot in s.borrowed
      modifies this
      ensures Valid() && old(run) <= run
      ensures slots == old(slots) + (if alive then [slot] else if canStart then [old(made)] else [])
      ensures made == old(made) + Bit(!alive && canStart)
      ensures s == old(s).(borrowed := old(s).borrowed - {slot}, queue := slots, next := made,
                           killed := old(s).killed + (if alive then [] else [slot]))
    {
      NotReturning(size, run, slot);
      hide After, StartEnabled, StartNext, ReaperEnabled, ReaperNext, StopEnabled, StopNext;
      var back := slot;
      Take(User(ReleaseBegin(slot, alive)));
      if !alive {
        Take(User(ReleaseCreate(canStart)));
        if !canStart { return; }
        back := made;
        made := made + 1;
      }
      SendBack(back);
      assert old(s).returning + {back} - {back} == old(s).returning;
    }

    /** The first loop of reaperTick. */
    method Drain() returns (collected: seq<Slot>)
      requires Valid() && s.reaper.Sleeping?
      modifies this
      ensures Valid() && old(run) <= run && s.reaper == Sorting(collected)
      ensures slots == [] && collected == old(slots) && made == old(made) && s.killed == old(s).killed
      ensures AsideFromReaper(old(s), s)
    {
      hide After, StartEnabled, StartNext, UserEnabled, UserNext, StopEnabled, StopNext;
      Take(Reaping(Tick));
      collected := [];
      reaper := Collecting([]);
      while slots != []
        invariant Valid() && old(run) <= run && s.reaper == Collecting(collected)
        invariant collected + slots == old(slots) && made == old(made) && s.killed == old(s).killed
        invariant AsideFromReaper(old(s), s)
        decreases |slots|
      {
        Take(Reaping(Collect));
        Shift(collected, slots);
        collected := collected + [slots[0]];
        slots := slots[1..];
        reaper := Collecting(collected);
      }
      Take(Reaping(Collected));
      reaper := Sorting(collected);
    }

    /** The select of reaperTick that puts a slot back, or drops it because the pool is stopped. */
    method PutBack(slot: Slot, todo: seq<Slot>, drop: bool)
      requires After(size, run) == Some(s) && s.size == size && s.reaper == Sending(slot, todo)
      requires s.queue == slots && s.stopped == stopped && s.next == made && (begun <==> !s.start.NotStarted?)
      modifies this
      ensures Valid() && old(run) <= run && s.reaper == Sorting(todo)
      ensures s == if old(stopped) && drop then ReaperNext(old(s), ReaperAct.Drop)
                   else Push(old(s), slot).(reaper := Sorting(todo))
    {
      hide After;
      if stopped && drop {
        Take(Reaping(Drop));
      } else {
        SendsFindRoom(size, run);
        Take(Reaping(ReaperAct.Return));
        slots := slots + [slot];
      }
      reaper := Sorting(todo);
    }

    /** One turn of the second loop of reaperTick. */
    method Settle(slot: Slot, todo: seq<Slot>, idle: bool, canStart: bool, drop: bool)
      requires Valid() && s.reaper == Sorting([slot] + todo)
      modifies this
      ensures Valid() && old(run) <= run && s.reaper == Sorting(todo) && AsideFromReaper(old(s), s)
      ensures Swept(slots, s.killed, made)
           == SweepOne(Swept(old(slots), old(s).killed, old(made)), slot, idle, canStart, stopped && drop)
    {
      hide After, StartEnabled, StartNext, UserEnabled, UserNext, StopEnabled, StopNext;
      var back := slot;
      if idle {
        Take(Reaping(ReaperAct.Reap));
        Take(Reaping(Recreate(canStart)));
        if !canStart {
          reaper := Sorting(todo);
          return;
        }
        back := made;
        made := made + 1;
      } else {
        Take(Reaping(Keep));
      }
      PutBack(back, todo, drop);
    }

    /** Pool.reaperTick: drain the channel, then keep, replace or drop each slot. idle covers
        both reasons to replace; a select that finds the pool stopped may drop. */
    method ReaperTick(idle: Slot -> bool, canStart: Slot -> bool, drop: Slot -> bool)
      requires Valid() && s.reaper.Sleeping?
      modifies this
      ensures Valid() && old(run) <= run && s.reaper.Sleeping? && AsideFromReaper(old(s), s)
      ensures var b := Sweep(old(slots), old(made), idle, canStart, (x: Slot) => old(stopped) && drop(x));
        slots == b.back && s.killed == old(s).killed + b.dead && made == b.made
    {
      hide After, StartEnabled, StartNext, UserEnabled, UserNext, StopEnabled, StopNext, SweepOne;
      var collected := Drain();
      ghost var dropped := (x: Slot) => old(stopped) && drop(x);
      for i := 0 to |collected|
        invariant Valid() && old(run) <= run && s.reaper == Sorting(collected[i..]) && AsideFromReaper(old(s), s)
        invariant SweptSo(Sweep(collected[..i], old(made), idle, canStart, dropped), slots, old(s).killed, s.killed, made)
      {
        var slot := collected[i];
        assert collected[i..] == [slot] + collected[i + 1..];
        assert collected[..i + 1][..i] == collected[..i];
        SweepShift(Sweep(collected[..i], old(made), idle, canStart, dropped), old(s).killed, slot,
                   idle(slot), canStart(slot), stopped && drop(slot));
        Settle(slot, collected[i + 1..], idle(slot), canStart(slot), drop(slot));
      }
      assert collected[..|collected|] == collected;
      Take(Reaping(ReaperAct.Done));
      reaper := Sleeping;
    }

    /** The next step of a reaper that is asleep or draining; its select may take another tick
        before it sees the shutdown. */
    method CollectMove(again: bool) returns (ghost a: ReaperAct)
      requires Valid() && (s.reaper.Sleeping? || s.reaper.Collecting?) && stopped
      modifies this
      ensures Valid() && old(run) <= run
      ensures ReaperEnabled(old(s), a) && s == ReaperNext(old(s), a) && (a.Tick? ==> again)
    {
      hide After, StartEnabled, StartNext, UserEnabled, UserNext, StopEnabled, StopNext;
      if reaper.Sleeping? {
        a := if again then Tick else Exit;
        Take(Reaping(a));
        reaper := if again then Collecting([]) else Gone;
      } else if slots != [] {
        a := Collect;
        Take(Reaping(a));
        reaper := Collecting(reaper.got + [slots[0]]);
        slots := slots[1..];
      } else {
        a := Collected;
        Take(Reaping(a));
        reaper := Sorting(reaper.got);
      }
    }

    /** The next step of a reaper that is looking at what it drained. */
    method SortMove(idle: Slot -> bool, canStart: Slot -> bool, drop: Slot -> bool) returns (ghost a: ReaperAct)
      requires Valid() && (s.reaper.Sorting? || s.reaper.Making? || s.reaper.Sending?) && stopped
      modifies this
      ensures Valid() && old(run) <= run
      ensures ReaperEnabled(old(s), a) && s == ReaperNext(old(s), a) && !a.Tick?
    {
      hide After, StartEnabled, StartNext, UserEnabled, UserNext, StopEnabled, StopNext;
      match reaper
      case Sorting(todo) =>
        a := if todo == [] then Done else if idle(todo[0]) then Reap else Keep;
        Take(Reaping(a));
        reaper := if todo == [] then Sleeping
                  else if idle(todo[0]) then Making(todo[1..]) else Sending(todo[0], todo[1..]);
      case Making(todo) =>
        a := Recreate(canStart(made));
        Take(Reaping(a));
        reaper := if canStart(made) then Sending(made, todo) else Sorting(todo);
        if reaper.Sending? { made := made + 1; }
      case Sending(slot, todo) =>
        SendsFindRoom(size, run);
        a := if drop(slot) then Drop else Return;
        PutBack(slot, todo, drop(slot));
    }

    /** The wait of Stop: the reaper goes on from wherever it stands, through the given number of
        further ticks, and exits. What it and the channel held is queued or killed. */
    method AwaitReaper(ticks: nat, idle: Slot -> bool, canStart: Slot -> bool, drop: Slot -> bool)
      requires Valid() && stopped
      modifies this
      ensures Valid() && old(run) <= run && !ReaperActive(s) && AsideFromReaper(old(s), s)
      ensures forall x :: Tracked(old(s), x) ==> x in s.queue || x in s.killed
      ensures !ReaperActive(old(s)) ==> s == old(s)
    {
      hide After, ReaperNext, ReaperEnabled, Tracked;
      var left := ticks;
      while !reaper.Absent? && !reaper.Gone?
        invariant Valid() && stopped && old(run) <= run && AsideFromReaper(old(s), s)
        invariant forall x :: Tracked(old(s), x) ==> Tracked(s, x)
        invariant !ReaperActive(old(s)) ==> s == old(s)
        decreases left, Phase(s), Load(s)
      {
        var again := reaper.Sleeping? && left > 0;
        ghost var before := s;
        ghost var a;
        if reaper.Sleeping? || reaper.Collecting? { a := CollectMove(again); }
        else { a := SortMove(idle, canStart, drop); }
        MoveKeeps(before, a);
        if !a.Tick? { MoveEnds(before, a); }
        if again { left := left - 1; }
      }
      forall x | Tracked(old(s), x) ensures x in s.queue || x in s.killed { AtRest(s, x); }
    }

    /** The loop of Stop that drains and kills. */
    method DrainAndKill()
      requires Valid() && s.waiting > 0 && !ReaperActive(s)
      modifies this
      ensures Valid() && old(run) <= run && slots == []
      ensures s == old(s).(queue := [], killed := old(s).killed + old(slots), waiting := old(s).waiting - 1)
    {
      hide After, StartEnabled, StartNext, UserEnabled, UserNext, ReaperEnabled, ReaperNext;
      Take(Step.Stop(StopWait));
      while slots != []
        invariant Valid() && old(run) <= run
        invariant s.killed + slots == old(s).killed + old(slots)
        invariant s == old(s).(queue := slots, killed := s.killed, waiting := old(s).waiting - 1, draining := old(s).draining + 1)
        decreases |slots|
      {
        Take(Step.Stop(StopDrain));
        slots := slots[1..];
      }
      Take(Step.Stop(StopReturn));
    }

    /** Pool.Stop: wait for the reaper, then drain. */
    method Stop(ticks: nat, idle: Slot -> bool, canStart: Slot -> bool, drop: Slot -> bool)
      requires Valid()
      modifies this
      ensures Valid() && old(run) <= run && stopped && slots == [] && !ReaperActive(s)
      ensures AsideFromReaper(old(s).(stopped := true), s)
      ensures forall x :: Tracked(old(s), x) ==> x in s.killed
      ensures !ReaperActive(old(s)) ==> s.killed == old(s).killed + old(slots)
    {
      hide After, Tracked, StartEnabled, StartNext, UserEnabled, UserNext, ReaperEnabled, ReaperNext;
      stopped := true;
      Take(Step.Stop(StopBegin));
      SameTracked(old(s), s);
      AwaitReaper(ticks, idle, canStart, drop);
      DrainAndKill();
    }
  }
}
