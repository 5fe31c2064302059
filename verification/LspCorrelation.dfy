/** Request/response correlation of the language-server client: concurrent Calls, one reader
    goroutine, one-slot channels, context cancellation, write errors and transport shutdown,
    as a state machine over the atomic steps (a lock-protected region, a channel operation or
    a counter increment is one step), and the client object whose regions the steps are. */
module LspCorrelation {

  import opened Collections

  type Id = int

  // Names the goroutine that runs a Call, and with it the channel that Call makes.
  type Caller = nat

  /** What can travel through a channel: a decoded response, or the error cancelAll makes. */
  datatype Msg = Reply(id: Id, payload: int) | TransportClosed(err: int)

  const CAPACITY: nat := 1

  /** The client's fields, the contents of the channels, and every value ever sent to them. */
  datatype Shared = Shared(
    nextId: Id,
    inflight: map<Id, Caller>,
    buf: map<Caller, seq<Msg>>,
    sent: map<Caller, seq<Msg>>,
    done: bool)

  function Registering(sh: Shared, id: Id, c: Caller): Shared
  {
    sh.(inflight := sh.inflight[id := c], buf := sh.buf[c := []], sent := sh.sent[c := []])
  }

  function Forgetting(sh: Shared, id: Id): Shared
  {
    sh.(inflight := sh.inflight - {id})
  }

  predicate HasRoom(sh: Shared, c: Caller)
  {
    c in sh.buf && c in sh.sent && |sh.buf[c]| < CAPACITY
  }

  function Sending(sh: Shared, c: Caller, m: Msg): Shared
    requires c in sh.buf && c in sh.sent
  {
    sh.(buf := sh.buf[c := sh.buf[c] + [m]], sent := sh.sent[c := sh.sent[c] + [m]])
  }

  // ---------------------------------------------------------------- goroutines

  datatype Result = Answer(m: Msg) | MarshalError | WriteError | CtxError | ClientClosed

  /** Where a Call stands. Abandoning: it decided to give up but has not yet removed its entry. */
  datatype Call =
    | Numbered(id: Id)
    | Registered(id: Id)
    | Waiting(id: Id)
    | Abandoning(id: Id, why: Result)
    | Returned(id: Id, result: Result)

  /** Where the reader stands. Holding: it removed the entry and is about to send.
      Cancelling: it is inside cancelAll and holds the lock. */
  datatype Reader = Idle | Holding(ch: Caller, m: Msg) | Cancelling(err: int) | Closing | Exited

  datatype State = State(sh: Shared, calls: map<Caller, Call>, reader: Reader)

  datatype CallAct =
    | Begin | MarshalFail | Register | Wrote | WriteFailed | CtxDone | Abandon | Receive | SeeDone

  datatype ReaderAct =
    | Deliver(m: Msg) | Push | StartCancel(err: int) | CancelOne(id: Id) | FinishCancel | CtxStop | Close

  datatype Step = ByCaller(c: Caller, act: CallAct) | ByReader(ract: ReaderAct)

  function Init(): State
  {
    State(Shared(0, map[], map[], map[], false), map[], Idle)
  }

  predicate LockFree(s: State) { !s.reader.Cancelling? }

  /** When the Call of c can take a step; registering and abandoning take the lock, which the
      reader holds throughout cancelAll. */
  predicate CallEnabled(s: State, c: Caller, a: CallAct)
  {
    if a.Begin? then c !in s.calls
    else
      && c in s.calls
      && var k := s.calls[c];
         match a
         case MarshalFail => k.Numbered?
         case Register => k.Numbered? && LockFree(s)
         case Wrote => k.Registered?
         case WriteFailed => k.Registered?
         case CtxDone => k.Waiting?
         case Abandon => k.Abandoning? && LockFree(s)
         case Receive => k.Waiting? && c in s.sh.buf && s.sh.buf[c] != []
         case SeeDone => k.Waiting? && s.sh.done
  }

  function CallNext(s: State, c: Caller, a: CallAct): State
    requires CallEnabled(s, c, a)
  {
    if a.Begin? then
      var id := s.sh.nextId + 1;
      s.(sh := s.sh.(nextId := id), calls := s.calls[c := Numbered(id)])
    else
      var k := s.calls[c];
      match a
      case MarshalFail => s.(calls := s.calls[c := Returned(k.id, MarshalError)])
      case Register => s.(sh := Registering(s.sh, k.id, c), calls := s.calls[c := Registered(k.id)])
      case Wrote => s.(calls := s.calls[c := Waiting(k.id)])
      case WriteFailed => s.(calls := s.calls[c := Abandoning(k.id, WriteError)])
      case CtxDone => s.(calls := s.calls[c := Abandoning(k.id, CtxError)])
      case Abandon => s.(sh := Forgetting(s.sh, k.id), calls := s.calls[c := Returned(k.id, k.why)])
      case Receive =>
        s.(sh := s.sh.(buf := s.sh.buf[c := s.sh.buf[c][1..]]),
           calls := s.calls[c := Returned(k.id, Answer(s.sh.buf[c][0]))])
      case SeeDone => s.(calls := s.calls[c := Returned(k.id, ClientClosed)])
  }

  /** When the reader can take a step; a send needs room in the channel. */
  predicate ReaderEnabled(s: State, a: ReaderAct)
  {
    match a
    case Deliver(m) => s.reader.Idle? && m.Reply?
    case Push => s.reader.Holding? && HasRoom(s.sh, s.reader.ch)
    case StartCancel(_) => s.reader.Idle?
    case CancelOne(id) => s.reader.Cancelling? && id in s.sh.inflight && HasRoom(s.sh, s.sh.inflight[id])
    case FinishCancel => s.reader.Cancelling? && s.sh.inflight == map[]
    case CtxStop => s.reader.Idle?
    case Close => s.reader.Closing?
  }

  function ReaderNext(s: State, a: ReaderAct): State
    requires ReaderEnabled(s, a)
  {
    match a
    case Deliver(m) =>
      if m.id in s.sh.inflight
      then s.(sh := Forgetting(s.sh, m.id), reader := Holding(s.sh.inflight[m.id], m))
      else s
    case Push => s.(sh := Sending(s.sh, s.reader.ch, s.reader.m), reader := Idle)
    case StartCancel(err) => s.(reader := Cancelling(err))
    case CancelOne(id) =>
      s.(sh := Forgetting(Sending(s.sh, s.sh.inflight[id], TransportClosed(s.reader.err)), id))
    case FinishCancel => s.(reader := Closing)
    case CtxStop => s.(reader := Closing)
    case Close => s.(sh := s.sh.(done := true), reader := Exited)
  }

  predicate Enabled(s: State, st: Step)
  {
    match st
    case ByCaller(c, a) => CallEnabled(s, c, a)
    case ByReader(a) => ReaderEnabled(s, a)
  }

  function Next(s: State, st: Step): State
    requires Enabled(s, st)
  {
    match st
    case ByCaller(c, a) => CallNext(s, c, a)
    case ByReader(a) => ReaderNext(s, a)
  }

  /** The state after a run, or None when some step was not enabled. */
  function After(run: seq<Step>): Option<State>
  {
    if run == [] then Some(Init())
    else
      var n := |run| - 1;
      match After(run[..n])
      case None => None
      case Some(s) => if Enabled(s, run[n]) then Some(Next(s, run[n])) else None
  }

  // ---------------------------------------------------------------- invariant

  /** The Call made its channel. A Call that failed to encode its parameters made none. */
  predicate HasChannel(sh: Shared, c: Caller) { c in sh.buf && c in sh.sent }

  predicate CallOk(s: State, c: Caller)
    requires c in s.calls
  {
    var k := s.calls[c];
    && 1 <= k.id <= s.sh.nextId
    && (k.Numbered? ==> !HasChannel(s.sh, c))
    && (k.Registered? || k.Waiting? || k.Abandoning? ==>
          HasChannel(s.sh, c) && s.sh.buf[c] == s.sh.sent[c])
    && (k.Abandoning? ==> !k.why.Answer?)
    && (k.Returned? && k.result.Answer? ==> HasChannel(s.sh, c) && s.sh.sent[c] == [k.result.m])
  }

  predicate ChannelOk(s: State, c: Caller)
    requires c in s.sh.sent
  {
    && c in s.calls && c in s.sh.buf && |s.sh.sent[c]| <= 1
    && (forall m :: m in s.sh.sent[c] && m.Reply? ==> m.id == s.calls[c].id)
  }

  /** An entry still waiting for its value: nothing was sent to its channel. */
  predicate Unanswered(s: State, c: Caller, id: Id)
  {
    c in s.calls && s.calls[c].id == id && HasChannel(s.sh, c) && s.sh.buf[c] == s.sh.sent[c] == []
  }

  ghost predicate CallsOk(s: State) { forall c :: c in s.calls ==> CallOk(s, c) }

  ghost predicate IdsUnique(s: State)
  {
    forall c, d :: c in s.calls && d in s.calls && s.calls[c].id == s.calls[d].id ==> c == d
  }

  ghost predicate ChannelsOk(s: State)
  {
    && (forall c :: c in s.sh.sent ==> ChannelOk(s, c))
    && (forall c :: c in s.sh.buf ==> c in s.sh.sent)
  }

  ghost predicate EntriesOk(s: State)
  {
    forall id :: id in s.sh.inflight ==> Unanswered(s, s.sh.inflight[id], id)
  }

  ghost predicate HoldingOk(s: State)
  {
    s.reader.Holding? ==>
      && s.reader.m.Reply? && Unanswered(s, s.reader.ch, s.reader.m.id)
      && s.reader.m.id !in s.sh.inflight
  }

  ghost predicate Inv(s: State)
  {
    && 0 <= s.sh.nextId && (s.reader.Exited? <==> s.sh.done)
    && CallsOk(s) && IdsUnique(s) && ChannelsOk(s) && EntriesOk(s) && HoldingOk(s)
  }

  lemma CallerCallsOk(s: State, c: Caller, a: CallAct)
    requires 0 <= s.sh.nextId && CallsOk(s) && ChannelsOk(s) && CallEnabled(s, c, a)
    ensures CallsOk(CallNext(s, c, a))
  {
    var t := CallNext(s, c, a);
    forall d | d in t.calls ensures CallOk(t, d) {
      if d in s.calls { assert CallOk(s, d); }
    }
  }

  lemma CallerIdsUnique(s: State, c: Caller, a: CallAct)
    requires CallsOk(s) && IdsUnique(s) && CallEnabled(s, c, a)
    ensures IdsUnique(CallNext(s, c, a))
  {
  }

  lemma CallerChannelsOk(s: State, c: Caller, a: CallAct)
    requires CallsOk(s) && ChannelsOk(s) && CallEnabled(s, c, a)
    ensures ChannelsOk(CallNext(s, c, a))
  {
  }

  lemma CallerEntriesOk(s: State, c: Caller, a: CallAct)
    requires CallsOk(s) && IdsUnique(s) && ChannelsOk(s) && EntriesOk(s) && CallEnabled(s, c, a)
    ensures EntriesOk(CallNext(s, c, a))
  {
  }

  lemma CallerHoldingOk(s: State, c: Caller, a: CallAct)
    requires CallsOk(s) && IdsUnique(s) && ChannelsOk(s) && HoldingOk(s) && CallEnabled(s, c, a)
    ensures HoldingOk(CallNext(s, c, a))
  {
  }

  lemma ReaderCallsOk(s: State, a: ReaderAct)
    requires Inv(s) && ReaderEnabled(s, a)
    ensures CallsOk(ReaderNext(s, a))
  {
  }

  lemma ReaderIdsUnique(s: State, a: ReaderAct)
    requires Inv(s) && ReaderEnabled(s, a)
    ensures IdsUnique(ReaderNext(s, a))
  {
  }

  lemma ReaderChannelsOk(s: State, a: ReaderAct)
    requires Inv(s) && ReaderEnabled(s, a)
    ensures ChannelsOk(ReaderNext(s, a))
  {
  }

  lemma ReaderEntriesOk(s: State, a: ReaderAct)
    requires Inv(s) && ReaderEnabled(s, a)
    ensures EntriesOk(ReaderNext(s, a))
  {
  }

  lemma ReaderHoldingOk(s: State, a: ReaderAct)
    requires Inv(s) && ReaderEnabled(s, a)
    ensures HoldingOk(ReaderNext(s, a))
  {
  }

  lemma StepInv(s: State, st: Step)
    requires Inv(s) && Enabled(s, st)
    ensures Inv(Next(s, st))
  {
    hide CallsOk, IdsUnique, ChannelsOk, EntriesOk, HoldingOk;
    match st
    case ByCaller(c, a) =>
      CallerCallsOk(s, c, a);
      CallerIdsUnique(s, c, a);
      CallerChannelsOk(s, c, a);
      CallerEntriesOk(s, c, a);
      CallerHoldingOk(s, c, a);
    case ByReader(a) =>
      ReaderCallsOk(s, a);
      ReaderIdsUnique(s, a);
      ReaderChannelsOk(s, a);
      ReaderEntriesOk(s, a);
      ReaderHoldingOk(s, a);
  }

  lemma {:induction false} RunInv(run: seq<Step>)
    requires After(run).Some?
    ensures Inv(After(run).value)
  {
    if run != [] {
      RunInv(run[..|run| - 1]);
      StepInv(After(run[..|run| - 1]).value, run[|run| - 1]);
    }
  }

  // ---------------------------------------------------------------- whole runs

  /** The channel into which a step puts a value. */
  function Target(s: State, st: Step): Option<Caller>
    requires Enabled(s, st)
  {
    match st
    case ByReader(Push) => Some(s.reader.ch)
    case ByReader(CancelOne(id)) => Some(s.sh.inflight[id])
    case _ => None
  }

  /** How many values a run put into the channel of c. */
  function Sends(run: seq<Step>, c: Caller): nat
    requires After(run).Some?
  {
    if run == [] then 0
    else
      var n := |run| - 1;
      Sends(run[..n], c) + (if Target(After(run[..n]).value, run[n]) == Some(c) then 1 else 0)
  }

  function Logged(s: State, c: Caller): nat
  {
    if c in s.sh.sent then |s.sh.sent[c]| else 0
  }

  lemma StepLogs(s: State, st: Step, c: Caller)
    requires Inv(s) && Enabled(s, st)
    ensures Logged(Next(s, st), c) == Logged(s, c) + (if Target(s, st) == Some(c) then 1 else 0)
  {
    match st
    case ByCaller(d, a) =>
      hide IdsUnique, EntriesOk, HoldingOk;
      if a.Register? {
        assert CallOk(s, d);
        assert d in s.sh.sent ==> ChannelOk(s, d);
      }
    case ByReader(a) =>
      hide ChannelOk, IdsUnique, CallsOk;
      assert a.CancelOne? ==> Unanswered(s, s.sh.inflight[a.id], a.id);
  }

  lemma {:induction false} SendsAreLogged(run: seq<Step>, c: Caller)
    requires After(run).Some?
    ensures Sends(run, c) == Logged(After(run).value, c)
  {
    if run != [] {
      var n := |run| - 1;
      RunInv(run[..n]);
      SendsAreLogged(run[..n], c);
      hide Inv, Enabled, Next, Target;
      StepLogs(After(run[..n]).value, run[n], c);
    }
  }

  /** At most one value ever enters the channel of a Call, over every interleaving. */
  lemma AtMostOneValue(run: seq<Step>, c: Caller)
    requires After(run).Some?
    ensures Sends(run, c) <= 1
  {
    SendsAreLogged(run, c);
    RunInv(run);
    var s := After(run).value;
    assert c in s.sh.sent ==> ChannelOk(s, c);
  }

  /** The reader is never blocked on a send, neither after a delivery nor inside cancelAll. */
  lemma ReaderNeverBlocks(run: seq<Step>)
    requires After(run).Some?
    ensures var s := After(run).value;
      && (s.reader.Holding? ==> ReaderEnabled(s, Push))
      && (s.reader.Cancelling? ==> forall id :: id in s.sh.inflight ==> ReaderEnabled(s, CancelOne(id)))
  {
    RunInv(run);
    var s := After(run).value;
    assert forall id :: id in s.sh.inflight ==> Unanswered(s, s.sh.inflight[id], id);
  }

  /** Where a value in a channel, or in the reader's hands, came from. */
  ghost predicate FromTheWire(run: seq<Step>, m: Msg)
  {
    match m
    case Reply(_, _) => ByReader(Deliver(m)) in run
    case TransportClosed(e) => ByReader(StartCancel(e)) in run
  }

  ghost predicate Sourced(run: seq<Step>, s: State)
  {
    && (forall c, m :: c in s.sh.sent && m in s.sh.sent[c] ==> FromTheWire(run, m))
    && (s.reader.Holding? ==> FromTheWire(run, s.reader.m))
    && (s.reader.Cancelling? ==> FromTheWire(run, TransportClosed(s.reader.err)))
  }

  lemma {:induction false} RunSourced(run: seq<Step>)
    requires After(run).Some?
    ensures Sourced(run, After(run).value)
  {
    if run != [] {
      var n := |run| - 1;
      RunSourced(run[..n]);
      assert run == run[..n] + [run[n]];
      hide Sourced, Enabled, Next;
      StepSourced(run[..n], After(run[..n]).value, run[n]);
    }
  }

  lemma StepSourced(run: seq<Step>, s: State, st: Step)
    requires Sourced(run, s) && Enabled(s, st)
    ensures Sourced(run + [st], Next(s, st))
  {
    var more := run + [st];
    assert forall m :: FromTheWire(run, m) ==> FromTheWire(more, m);
    assert st in more;
    if st.ByReader? && st.ract.Deliver? { assert FromTheWire(more, st.ract.m); }
    if st.ByReader? && st.ract.StartCancel? { assert FromTheWire(more, TransportClosed(st.ract.err)); }
    hide FromTheWire;
  }

  /** A Call that got a value got its own reply, as it came over the wire, or the error of the
      shutdown that took place. */
  lemma OwnAnswer(run: seq<Step>, c: Caller)
    requires After(run).Some?
    requires var s := After(run).value;
      c in s.calls && s.calls[c].Returned? && s.calls[c].result.Answer?
    ensures var k := After(run).value.calls[c];
      var m := k.result.m;
      FromTheWire(run, m) && (m.Reply? ==> m.id == k.id)
  {
    RunInv(run);
    RunSourced(run);
    var s := After(run).value;
    assert CallOk(s, c) && ChannelOk(s, c);
  }

  /** No reply answers two Calls. */
  lemma RepliesAreNotShared(run: seq<Step>, c: Caller, d: Caller)
    requires After(run).Some?
    requires var s := After(run).value;
      && c in s.calls && s.calls[c].Returned? && s.calls[c].result.Answer?
      && d in s.calls && s.calls[d].Returned? && s.calls[d].result == s.calls[c].result
      && s.calls[c].result.m.Reply?
    ensures c == d
  {
    OwnAnswer(run, c);
    OwnAnswer(run, d);
    RunInv(run);
  }

  lemma Extend(run: seq<Step>, st: Step)
    requires After(run).Some? && Enabled(After(run).value, st)
    ensures After(run + [st]) == Some(Next(After(run).value, st))
  {
  }

  /** A reply that finds its Call in the table is handed over at once; if the Call waits, it can take
      it and then returns this reply. */
  lemma ReplyReachesItsCall(run: seq<Step>, id: Id, payload: int)
    requires After(run).Some?
    requires var s := After(run).value; s.reader.Idle? && id in s.sh.inflight
    ensures var s := After(run).value;
      var c, m := s.sh.inflight[id], Reply(id, payload);
      c in s.calls && s.calls[c].id == id &&
      var more := run + [ByReader(Deliver(m))] + [ByReader(Push)];
      && After(more).Some?
      && c in After(more).value.sh.buf && After(more).value.sh.buf[c] == [m]
      && After(more).value.calls == s.calls
      && (s.calls[c].Waiting? ==>
            && After(more + [ByCaller(c, Receive)]).Some?
            && After(more + [ByCaller(c, Receive)]).value.calls == s.calls[c := Returned(id, Answer(m))])
  {
    RunInv(run);
    var s := After(run).value;
    var c, m := s.sh.inflight[id], Reply(id, payload);
    assert Unanswered(s, c, id);
    hide After, Inv;
    Extend(run, ByReader(Deliver(m)));
    var a := run + [ByReader(Deliver(m))];
    Extend(a, ByReader(Push));
    if s.calls[c].Waiting? { Extend(a + [ByReader(Push)], ByCaller(c, Receive)); }
  }

  /** A Call that waits while cancelAll comes to its entry returns the transport error. */
  lemma ShutdownReachesItsCall(run: seq<Step>, id: Id)
    requires After(run).Some?
    requires var s := After(run).value;
      s.reader.Cancelling? && id in s.sh.inflight && s.sh.inflight[id] in s.calls && s.calls[s.sh.inflight[id]].Waiting?
    ensures var s := After(run).value;
      var c := s.sh.inflight[id];
      var more := run + [ByReader(CancelOne(id))] + [ByCaller(c, Receive)];
      && After(more).Some? && After(more).value.sh.inflight == s.sh.inflight - {id}
      && After(more).value.calls == s.calls[c := Returned(id, Answer(TransportClosed(s.reader.err)))]
  {
    RunInv(run);
    var s := After(run).value;
    assert Unanswered(s, s.sh.inflight[id], id);
    hide After, Inv;
    Extend(run, ByReader(CancelOne(id)));
    Extend(run + [ByReader(CancelOne(id))], ByCaller(s.sh.inflight[id], Receive));
  }

  /** A new Call gets the next id and can go on to wait for its answer, with its entry in the table
      and its channel empty, whenever the lock is free. */
  lemma CallCanWait(run: seq<Step>, c: Caller)
    requires After(run).Some? && c !in After(run).value.calls && LockFree(After(run).value)
    ensures var s := After(run).value;
      var id := s.sh.nextId + 1;
      var more := run + [ByCaller(c, Begin)] + [ByCaller(c, Register)] + [ByCaller(c, Wrote)];
      && After(more).Some?
      && var t := After(more).value;
         && t.calls == s.calls[c := Waiting(id)] && t.sh.nextId == id && t.reader == s.reader
         && t.sh.inflight == s.sh.inflight[id := c] && c in t.sh.buf && t.sh.buf[c] == []
  {
    hide After;
    Extend(run, ByCaller(c, Begin));
    var a := run + [ByCaller(c, Begin)];
    Extend(a, ByCaller(c, Register));
    Extend(a + [ByCaller(c, Register)], ByCaller(c, Wrote));
  }

  lemma Overwritten(calls: map<Caller, Call>, c: Caller, a: Call, b: Call)
    ensures calls[c := a][c := b] == calls[c := b]
  {
  }

  /** What a Call does when it cannot go on: a failed encoding returns at once and touches nothing;
      a failed write or a finished context takes the entry out, once the lock is free, and returns
      that error. */
  lemma CallCanGiveUp(run: seq<Step>, c: Caller)
    requires After(run).Some? && c in After(run).value.calls
    ensures var s := After(run).value;
      var id := s.calls[c].id;
      match s.calls[c]
      case Numbered(_) =>
        var more := run + [ByCaller(c, MarshalFail)];
        After(more) == Some(s.(calls := s.calls[c := Returned(id, MarshalError)]))
      case Registered(_) => LockFree(s) ==>
        var more := run + [ByCaller(c, WriteFailed)] + [ByCaller(c, Abandon)];
        After(more) == Some(s.(calls := s.calls[c := Returned(id, WriteError)],
                               sh := s.sh.(inflight := s.sh.inflight - {id})))
      case Waiting(_) => LockFree(s) ==>
        var more := run + [ByCaller(c, CtxDone)] + [ByCaller(c, Abandon)];
        After(more) == Some(s.(calls := s.calls[c := Returned(id, CtxError)],
                               sh := s.sh.(inflight := s.sh.inflight - {id})))
      case _ => true
  {
    hide After;
    var s := After(run).value;
    match s.calls[c]
    case Numbered(_) => Extend(run, ByCaller(c, MarshalFail));
    case Registered(_) =>
      if LockFree(s) {
        Extend(run, ByCaller(c, WriteFailed));
        Extend(run + [ByCaller(c, WriteFailed)], ByCaller(c, Abandon));
        Overwritten(s.calls, c, Abandoning(s.calls[c].id, WriteError), Returned(s.calls[c].id, WriteError));
      }
    case Waiting(_) =>
      if LockFree(s) {
        Extend(run, ByCaller(c, CtxDone));
        Extend(run + [ByCaller(c, CtxDone)], ByCaller(c, Abandon));
        Overwritten(s.calls, c, Abandoning(s.calls[c].id, CtxError), Returned(s.calls[c].id, CtxError));
      }
    case _ =>
  }

  /** The reader between two messages: a reply nobody waits for changes nothing, a broken transport
      enters cancelAll, and a finished context closes the client without touching the table. */
  lemma IdleReader(run: seq<Step>, m: Msg, err: int)
    requires After(run).Some? && After(run).value.reader.Idle?
    ensures var s := After(run).value;
      && (m.Reply? && m.id !in s.sh.inflight ==> After(run + [ByReader(Deliver(m))]) == Some(s))
      && After(run + [ByReader(StartCancel(err))]) == Some(s.(reader := Cancelling(err)))
      && After(run + [ByReader(CtxStop)] + [ByReader(Close)])
         == Some(s.(reader := Exited, sh := s.sh.(done := true)))
  {
    hide After;
    if m.Reply? { Extend(run, ByReader(Deliver(m))); }
    Extend(run, ByReader(StartCancel(err)));
    Extend(run, ByReader(CtxStop));
    Extend(run + [ByReader(CtxStop)], ByReader(Close));
  }

  /** The step by which a Call came to this result. */
  function Cause(r: Result): CallAct
  {
    match r
    case Answer(_) => Receive
    case MarshalError => MarshalFail
    case WriteError => WriteFailed
    case CtxError => CtxDone
    case ClientClosed => SeeDone
  }

  ghost predicate Caused(run: seq<Step>, c: Caller, k: Call)
  {
    && (k.Returned? ==> ByCaller(c, Cause(k.result)) in run)
    && (k.Abandoning? ==> ByCaller(c, Cause(k.why)) in run)
  }

  /** Every result tells what happened: the Call that returned it took that step. */
  lemma {:induction false} ResultsAreCaused(run: seq<Step>)
    requires After(run).Some?
    ensures forall c :: c in After(run).value.calls ==> Caused(run, c, After(run).value.calls[c])
  {
    if run != [] {
      var n := |run| - 1;
      ResultsAreCaused(run[..n]);
      assert run == run[..n] + [run[n]];
      var s := After(run[..n]).value;
      forall c | c in Next(s, run[n]).calls ensures Caused(run, c, Next(s, run[n]).calls[c]) {
        if c in s.calls { assert Caused(run[..n], c, s.calls[c]); }
      }
    }
  }

  /** The lock is always released: from inside cancelAll, sending to the entries in any order
      empties the table and lets the reader leave. */
  lemma CancelAllFinishes(run: seq<Step>) returns (more: seq<Step>)
    requires After(run).Some? && After(run).value.reader.Cancelling?
    ensures |more| == |After(run).value.sh.inflight| + 1
    ensures After(run + more).Some? && After(run + more).value.reader.Closing?
    ensures After(run + more).value.sh.inflight == map[]
    decreases |After(run).value.sh.inflight|
  {
    var s := After(run).value;
    var ids := s.sh.inflight.Keys;
    if ids == {} {
      assert s.sh.inflight == map[];
      more := [ByReader(FinishCancel)];
      assert (run + more)[..|run|] == run;
    } else {
      var id := SomeOf(ids);
      ReaderNeverBlocks(run);
      var st := ByReader(CancelOne(id));
      var run' := run + [st];
      assert run'[..|run|] == run;
      assert After(run').value == Next(s, st);
      assert Next(s, st).sh.inflight.Keys == ids - {id};
      assert |Next(s, st).sh.inflight| == |s.sh.inflight| - 1;
      var rest := CancelAllFinishes(run');
      more := [st] + rest;
      assert run + more == run' + rest;
    }
  }

  /** When the reader has exited, every unfinished Call can still move on. */
  lemma NobodyIsStranded(run: seq<Step>, c: Caller)
    requires After(run).Some?
    requires After(run).value.reader.Exited?
    requires c in After(run).value.calls && !After(run).value.calls[c].Returned?
    ensures var s := After(run).value;
      match s.calls[c]
      case Numbered(_) => CallEnabled(s, c, Register)
      case Registered(_) => CallEnabled(s, c, Wrote) && CallEnabled(s, c, WriteFailed)
      case Waiting(_) => CallEnabled(s, c, SeeDone)
      case _ => CallEnabled(s, c, Abandon)
  {
    RunInv(run);
  }

  // ---------------------------------------------------------------- entries left behind

  /** The Call of c is past its registration and did not take its entry out itself. */
  predicate LeavesEntry(k: Call)
  {
    k.Registered? || k.Waiting? || k.Abandoning? || (k.Returned? && k.result.ClientClosed?)
  }

  /** Its entry, or the reader's hold on it, is what stands for a value not yet sent. */
  predicate EntryIff(s: State, c: Caller)
    requires c in s.calls
  {
    var k := s.calls[c];
    var entered := k.id in s.sh.inflight && s.sh.inflight[k.id] == c;
    && (k.Abandoning? ==> !k.why.ClientClosed?)
    && (k.Returned? && k.result.ClientClosed? ==> s.sh.done)
    && if LeavesEntry(k)
    then c in s.sh.sent && (s.sh.sent[c] == [] <==> entered || (s.reader.Holding? && s.reader.ch == c))
    else !entered
  }

  ghost predicate EntriesIff(s: State) { forall c :: c in s.calls ==> EntryIff(s, c) }

  lemma CallerEntriesIff(s: State, c: Caller, a: CallAct)
    requires Inv(s) && EntriesIff(s) && CallEnabled(s, c, a)
    ensures EntriesIff(CallNext(s, c, a))
  {
    var t := CallNext(s, c, a);
    assert c in s.calls ==> CallOk(s, c) && EntryIff(s, c);
    forall d | d in t.calls ensures EntryIff(t, d) {
      if d != c {
        assert EntryIff(s, d) && CallOk(s, d);
        assert c in s.calls ==> s.calls[c].id != s.calls[d].id;
      }
    }
  }

  lemma ReaderEntriesIff(s: State, a: ReaderAct)
    requires Inv(s) && EntriesIff(s) && ReaderEnabled(s, a)
    ensures EntriesIff(ReaderNext(s, a))
  {
    var t := ReaderNext(s, a);
    forall d | d in t.calls ensures EntryIff(t, d) {
      assert EntryIff(s, d) && CallOk(s, d);
    }
  }

  lemma {:induction false} RunEntries(run: seq<Step>)
    requires After(run).Some?
    ensures Inv(After(run).value) && EntriesIff(After(run).value)
  {
    RunInv(run);
    if run != [] {
      var n := |run| - 1;
      RunEntries(run[..n]);
      var s := After(run[..n]).value;
      hide Inv, EntriesIff;
      match run[n]
      case ByCaller(c, a) => CallerEntriesIff(s, c, a);
      case ByReader(a) => ReaderEntriesIff(s, a);
    }
  }

  /** A Call that returned has an entry left in the table if and only if it returned because the
      client closed and nothing had been sent to it. */
  lemma LeftBehindIff(run: seq<Step>, c: Caller)
    requires After(run).Some? && c in After(run).value.calls && After(run).value.calls[c].Returned?
    ensures var s := After(run).value;
      LeftBehind(s, c) <==> s.calls[c].result.ClientClosed? && c in s.sh.sent && s.sh.sent[c] == []
  {
    RunEntries(run);
    assert EntryIff(After(run).value, c);
  }

  /** The Call of c has returned and its entry is still in the table. */
  predicate LeftBehind(s: State, c: Caller)
  {
    && c in s.calls && s.calls[c].Returned?
    && s.calls[c].id in s.sh.inflight && s.sh.inflight[s.calls[c].id] == c
  }

  lemma StepLeft(s: State, st: Step, c: Caller)
    requires Inv(s) && EntriesIff(s) && LeftBehind(s, c) && Enabled(s, st)
    ensures LeftBehind(Next(s, st), c)
  {
    assert EntryIff(s, c) && CallOk(s, c) && s.reader.Exited?;
    if st.ByCaller? && st.c in s.calls { assert CallOk(s, st.c); }
    assert st.ByCaller? && st.c in s.calls && st.c != c ==> s.calls[st.c].id != s.calls[c].id;
    hide Inv, EntriesIff, EntryIff;
  }

  /** Such an entry is left for good. */
  lemma {:induction false} LeftForGood(run: seq<Step>, more: seq<Step>, c: Caller)
    requires After(run).Some? && After(run + more).Some? && LeftBehind(After(run).value, c)
    ensures LeftBehind(After(run + more).value, c)
    decreases |more|
  {
    hide LeftBehind, Enabled, Next;
    if more == [] {
      assert run + more == run;
    } else {
      var n := |more| - 1;
      var before := run + more[..n];
      assert (run + more)[..|run| + n] == before;
      LeftForGood(run, more[..n], c);
      RunEntries(before);
      StepLeft(After(before).value, more[n], c);
    }
  }

  /** A Call that waits for its answer. */
  lemma WaitingExample() returns (run: seq<Step>)
    ensures After(run).Some?
    ensures var s := After(run).value;
      s.calls == map[0 := Waiting(1)] && s.sh.inflight == map[1 := 0] && s.reader.Idle?
  {
    assert After([]) == Some(Init());
    hide After;
    run := [];
    Extend(run, ByCaller(0, Begin));
    run := run + [ByCaller(0, Begin)];
    Extend(run, ByCaller(0, Register));
    run := run + [ByCaller(0, Register)];
    Extend(run, ByCaller(0, Wrote));
    run := run + [ByCaller(0, Wrote)];
  }

  /** It happens: the reader stops with the context, without cancelAll, while a Call waits. */
  lemma LeftBehindExample() returns (run: seq<Step>)
    ensures After(run).Some?
    ensures var s := After(run).value; s.calls == map[0 := Returned(1, ClientClosed)] && LeftBehind(s, 0)
  {
    hide After;
    run := WaitingExample();
    Extend(run, ByReader(CtxStop));
    run := run + [ByReader(CtxStop)];
    Extend(run, ByReader(Close));
    run := run + [ByReader(Close)];
    Extend(run, ByCaller(0, SeeDone));
    run := run + [ByCaller(0, SeeDone)];
  }

  // ---------------------------------------------------------------- the client object

  /** The client's fields; the methods are the atomic regions of Call, Start and cancelAll. */
  class Client {
    var nextId: Id
    var inflight: map<Id, Caller>
    var buf: map<Caller, seq<Msg>>
    ghost var sent: map<Caller, seq<Msg>>
    var done: bool

    ghost function View(): Shared
      reads this
    {
      Shared(nextId, inflight, buf, sent, done)
    }

    constructor ()
      ensures View() == Init().sh
    {
      nextId, inflight, buf, sent, done := 0, map[], map[], map[], false;
    }

    method NewId() returns (id: Id)
      modifies this
      ensures id == old(nextId) + 1 && View() == old(View()).(nextId := id)
    {
      nextId := nextId + 1;
      id := nextId;
    }

    method Register(id: Id, c: Caller)
      modifies this
      ensures View() == Registering(old(View()), id, c)
    {
      buf := buf[c := []];
      sent := sent[c := []];
      inflight := inflight[id := c];
    }

    method Forget(id: Id)
      modifies this
      ensures View() == Forgetting(old(View()), id)
    {
      inflight := inflight - {id};
    }

    /** The region in which the reader looks an answer up and removes its entry. */
    method Take(id: Id) returns (c: Option<Caller>)
      modifies this
      ensures c == if id in old(inflight) then Some(old(inflight)[id]) else None
      ensures View() == Forgetting(old(View()), id)
    {
      c := if id in inflight then Some(inflight[id]) else None;
      inflight := inflight - {id};
    }

    /** A channel send; the precondition is that it does not block. */
    method Send(c: Caller, m: Msg)
      requires HasRoom(View(), c)
      modifies this
      ensures View() == Sending(old(View()), c, m)
    {
      buf := buf[c := buf[c] + [m]];
      sent := sent[c := sent[c] + [m]];
    }

    /** Client.cancelAll: the loop under the lock, over the entries in any order. */
    method CancelAll(err: int)
      requires CanFlush(View())
      modifies this
      ensures exists order: seq<Id> ::
        Lists(order, old(inflight).Keys) && View() == Flush(old(View()), order, err)
    {
      ghost var order: seq<Id> := [];
      while inflight.Keys != {}
        invariant Partial(order, old(inflight).Keys, inflight.Keys)
        invariant CanFlush(View())
        invariant View() == Flush(old(View()), order, err)
        decreases |inflight.Keys|
      {
        var id := AnyOf(inflight.Keys);
        ghost var before := View();
        assert HasRoom(before, before.inflight[id]);
        Send(inflight[id], TransportClosed(err));
        Forget(id);
        assert View() == FlushOne(before, id, err);
        hide FlushOne, CanFlush, HasRoom;
        FlushOneKeeps(before, id, err);
        PartialGrows(order, old(inflight).Keys, before.inflight.Keys, id);
        assert inflight.Keys == before.inflight.Keys - {id};
        assert (order + [id])[..|order|] == order;
        order := order + [id];
      }
      assert Lists(order, old(inflight).Keys);
    }
  }

  // ---------------------------------------------------------------- cancelAll, in any order

  /** order lists what is gone from ids while left is still there. */
  ghost predicate Partial(order: seq<Id>, ids: set<Id>, left: set<Id>)
  {
    Lists(order, ids - left) && left <= ids
  }

  lemma PartialGrows(order: seq<Id>, ids: set<Id>, left: set<Id>, id: Id)
    requires Partial(order, ids, left) && id in left
    ensures Partial(order + [id], ids, left - {id})
  {
  }

  /** No send of cancelAll can block, and no channel is entered twice. */
  ghost predicate CanFlush(sh: Shared)
  {
    && (forall id :: id in sh.inflight ==> HasRoom(sh, sh.inflight[id]))
    && (forall i, j :: i in sh.inflight && j in sh.inflight && sh.inflight[i] == sh.inflight[j] ==> i == j)
  }

  /** In every reachable state cancelAll may run: its sends find room. */
  lemma EntriesCanBeFlushed(run: seq<Step>)
    requires After(run).Some?
    ensures CanFlush(After(run).value.sh)
  {
    RunInv(run);
    var s := After(run).value;
    assert forall id :: id in s.sh.inflight ==> Unanswered(s, s.sh.inflight[id], id);
  }

  /** One turn of the loop, the effect of the step CancelOne. */
  function FlushOne(sh: Shared, id: Id, err: int): Shared
  {
    if id in sh.inflight && HasRoom(sh, sh.inflight[id])
    then Forgetting(Sending(sh, sh.inflight[id], TransportClosed(err)), id)
    else sh
  }

  function Flush(sh: Shared, order: seq<Id>, err: int): Shared
  {
    if order == [] then sh
    else FlushOne(Flush(sh, order[..|order| - 1], err), order[|order| - 1], err)
  }

  lemma FlushOneKeeps(sh: Shared, id: Id, err: int)
    requires CanFlush(sh) && id in sh.inflight
    ensures CanFlush(FlushOne(sh, id, err))
    ensures FlushOne(sh, id, err).inflight == sh.inflight - {id}
  {
  }

  function Due(yes: bool, err: int): seq<Msg> { if yes then [TransportClosed(err)] else [] }

  lemma FlushOneAt(sh: Shared, id: Id, err: int, c: Caller)
    requires CanFlush(sh) && id in sh.inflight && HasChannel(sh, c)
    ensures var t := FlushOne(sh, id, err);
      && HasChannel(t, c)
      && t.buf[c] == sh.buf[c] + Due(sh.inflight[id] == c, err)
      && t.sent[c] == sh.sent[c] + Due(sh.inflight[id] == c, err)
  {
  }

  lemma {:induction false} FlushTable(sh: Shared, order: seq<Id>, err: int)
    requires CanFlush(sh) && Distinct(order) && forall i :: i in order ==> i in sh.inflight
    ensures CanFlush(Flush(sh, order, err))
    ensures Flush(sh, order, err).inflight == sh.inflight - (set i | i in order)
  {
    if order == [] {
      assert sh.inflight == sh.inflight - (set i | i in order);
    } else {
      var n := |order| - 1;
      var rest, id := order[..n], order[n];
      FlushTable(sh, rest, err);
      hide FlushOne, CanFlush;
      assert order == rest + [id];
      assert id !in rest;
      FlushOneKeeps(Flush(sh, rest, err), id, err);
      Snoc(rest, id);
      Without(sh.inflight, (set i | i in rest), id);
    }
  }

  lemma Snoc(rest: seq<Id>, id: Id)
    ensures (set i | i in rest + [id]) == (set i | i in rest) + {id}
  {
  }

  lemma Without(m: map<Id, Caller>, s: set<Id>, id: Id)
    ensures m - s - {id} == m - (s + {id})
  {
  }

  /** Whatever the order of the loop, exactly the channels of the listed entries gained the
      shutdown error; with FlushTable, those entries are all that left the table. */
  lemma {:induction false} FlushChannel(sh: Shared, order: seq<Id>, err: int, c: Caller)
    requires CanFlush(sh) && Distinct(order) && forall i :: i in order ==> i in sh.inflight
    requires HasChannel(sh, c)
    ensures var t := Flush(sh, order, err);
      var due := Due(exists i :: i in order && sh.inflight[i] == c, err);
      HasChannel(t, c) && t.buf[c] == sh.buf[c] + due && t.sent[c] == sh.sent[c] + due
  {
    if order != [] {
      var n := |order| - 1;
      var rest, id := order[..n], order[n];
      assert order == rest + [id];
      FlushTable(sh, rest, err);
      FlushChannel(sh, rest, err, c);
      FlushOneAt(Flush(sh, rest, err), id, err, c);
      assert forall i :: i in rest && sh.inflight[i] == sh.inflight[id] ==> i == id;
      hide FlushOne, CanFlush;
    }
  }
}
