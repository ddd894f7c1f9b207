/** Building runs of the scheduler step by step: serving a drawn queue, finishing a tick, leaving one queue alone,
    filling its group. These are the witnesses for what can happen. */
module SchedulerReach {
  import opened Words
  import opened SchedulerModel
  import opened SchedulerSafety
  import opened SchedulerFifo
  import opened SchedulerSpacing

  /** From `s`, the run `es` of queue `n`'s epoch leads to `t` and makes the calls `calls` for `n`. */
  ghost predicate Leads(s: State, es: seq<Event>, n: Name, t: State, calls: seq<Injection>) {
    && Safe(s) && ValidRun(s, es) && WithinEpoch(es, n) && Safe(t) && Run(s, es) == t
    && EntriesFor(NewEntriesInRun(s, es), n) == calls
  }

  lemma LeadsFrom(s: State, n: Name)
    requires Safe(s)
    ensures Leads(s, [], n, s, [])
  {
  }

  lemma {:induction false} WithinEpochSnoc(es: seq<Event>, e: Event, n: Name)
    requires WithinEpoch(es, n) && !EndsEpoch(e, n)
    ensures WithinEpoch(es + [e], n)
  {
    hide EndsEpoch;
    if es == [] {
      assert es + [e] == [e] && [e][1..] == [];
    } else {
      assert (es + [e])[0] == es[0] && (es + [e])[1..] == es[1..] + [e];
      WithinEpochSnoc(es[1..], e, n);
    }
  }

  lemma Cancel<T>(a: seq<T>, b: seq<T>, c: seq<T>)
    requires a + b == a + c
    ensures b == c
  {
    assert b == (a + b)[|a|..] && c == (a + c)[|a|..];
  }

  lemma EntriesSnoc(s: State, es: seq<Event>, e: Event)
    requires Safe(s) && ValidRun(s, es) && Enabled(Run(s, es), e) && Safe(Run(s, es)) && ValidRun(s, es + [e])
    requires Run(s, es + [e]) == Step(Run(s, es), e)
    ensures NewEntriesInRun(s, es + [e]) == NewEntriesInRun(s, es) + NewEntries(Run(s, es), e)
  {
    hide Safe; hide Enabled; hide Step; hide NewEntries; hide ValidRun; hide Run; hide NewEntriesInRun;
    LogOfRun(s, es);
    LogOfRun(s, es + [e]);
    LogGrows(Run(s, es), e);
    Associative(s.log, NewEntriesInRun(s, es), NewEntries(Run(s, es), e));
    Cancel(s.log, NewEntriesInRun(s, es + [e]), NewEntriesInRun(s, es) + NewEntries(Run(s, es), e));
  }

  /** One more step. */
  lemma LeadsOn(s: State, es: seq<Event>, n: Name, t: State, calls: seq<Injection>, e: Event)
    requires Leads(s, es, n, t, calls) && Enabled(t, e) && !EndsEpoch(e, n)
    ensures Safe(t) && Leads(s, es + [e], n, Step(t, e), calls + EntriesFor(NewEntries(t, e), n))
  {
    hide Safe; hide Enabled; hide Step; hide NewEntries; hide ValidRun; hide Run; hide NewEntriesInRun; hide EntriesFor;
    hide EndsEpoch; hide WithinEpoch;
    RunGoesOn(s, es, e);
    StepSafe(t, e);
    WithinEpochSnoc(es, e, n);
    EntriesSnoc(s, es, e);
    EntriesAppend(NewEntriesInRun(s, es), NewEntries(t, e), n);
  }

  lemma NoCall(s: State, es: seq<Event>, n: Name, t: State, calls: seq<Injection>, e: Event)
    requires Leads(s, es, n, t, calls) && Enabled(t, e) && !EndsEpoch(e, n)
    requires e.Inject? ==> t.phase.todo != [] && t.phase.todo[0].name != n
    ensures Safe(t) && Leads(s, es + [e], n, Step(t, e), calls)
  {
    LeadsOn(s, es, n, t, calls, e);
    QuietEntries(t, e, n);
    hide *;
    EmptyUnit(calls);
  }

  lemma QuietEntries(t: State, e: Event, n: Name)
    requires Safe(t) && Enabled(t, e) && (e.Inject? ==> t.phase.todo != [] && t.phase.todo[0].name != n)
    ensures EntriesFor(NewEntries(t, e), n) == []
  {
    hide Safe;
    if e.Inject? {
      FrontInRange(t);
      assert EntriesFor(NewEntries(t, e), n) == [];
    }
  }

  lemma SafeOf(s: State, es: seq<Event>, n: Name, t: State, calls: seq<Injection>)
    requires Leads(s, es, n, t, calls)
    ensures Safe(t)
  {
  }

  // ---------------------------------------------------------------- the rest of a tick

  /** How many steps of the tick are left. */
  function TickSteps(p: Phase): nat {
    match p
    case Idle => 0
    case Sampled(_) => 0
    case Selected(ts) => 2 * |ts| + 1
    case Injecting(_, ts) => 2 * |ts|
    case Committing(_, _, ts) => 2 * |ts| + 1
  }

  /** The next step of a tick that has drawn its queues. */
  function TickEvent(p: Phase): Event {
    match p
    case Selected(_) => Stamp
    case Committing(_, _, _) => Commit
    case _ => Inject
  }

  /** What a step of the tick leaves alone, for a queue it does not concern. */
  ghost predicate SameQueue(t: State, t': State, n: Name) {
    && t'.now == t.now && t'.queues == t.queues && t'.incomplete == t.incomplete
    && (n in t'.configs <==> n in t.configs) && (n in t.configs ==> t'.configs[n] == t.configs[n])
  }

  lemma TickStep(t: State, n: Name)
    requires Safe(t) && (t.phase.Selected? || t.phase.Injecting? || t.phase.Committing?)
    requires !(t.phase.Injecting? && t.phase.todo[0].name == n) && !IsCommitting(t.phase, n)
    ensures var e := TickEvent(t.phase);
      && Enabled(t, e) && !EndsEpoch(e, n) && (e.Inject? ==> t.phase.todo != [] && t.phase.todo[0].name != n)
      && var t' := Step(t, e);
      && TickSteps(t'.phase) < TickSteps(t.phase) && SameQueue(t, t', n) && !t'.phase.Sampled?
      && TicketOf(Pending(t'.phase), n) == TicketOf(Pending(t.phase), n) && !IsCommitting(t'.phase, n)
  {
    if t.phase.Injecting? {
      InjectOutcome(t);
      FrontInRange(t);
    }
    hide Safe; hide InjectStep;
  }

  /** A drawn queue's packet goes out before any time passes. */
  lemma ServePending(s: State, es0: seq<Event>, n: Name, t0: State)
    returns (es: seq<Event>, t: State, entry: Injection)
    requires Leads(s, es0, n, t0, []) && TicketOf(Pending(t0.phase), n).Some?
    ensures Leads(s, es, n, t, [entry]) && entry.at == t0.now && IsCommitting(t.phase, n)
    ensures entry.index == TicketOf(Pending(t0.phase), n).value.group.index
  {
    hide Leads; hide Safe; hide Step; hide Enabled; hide EndsEpoch; hide InjectStep;
    es, t := es0, t0;
    while !(t.phase.Injecting? && t.phase.todo != [] && t.phase.todo[0].name == n)
      invariant Leads(s, es, n, t, []) && t.now == t0.now && TicketOf(Pending(t.phase), n).Some?
      invariant TicketOf(Pending(t.phase), n) == TicketOf(Pending(t0.phase), n)
      invariant !t.phase.Sampled?
      decreases TickSteps(t.phase)
    {
      SafeOf(s, es, n, t, []);
      if IsCommitting(t.phase, n) {
        NotBoth(t, n);
      }
      var e := TickEvent(t.phase);
      TickStep(t, n);
      NoCall(s, es, n, t, [], e);
      es, t := es + [e], Step(t, e);
    }
    SafeOf(s, es, n, t, []);
    InjectEnabled(t);
    LeadsOn(s, es, n, t, [], Inject);
    entry := OwnCall(t);
    EmptyUnit([entry]);
    es, t := es + [Inject], Step(t, Inject);
  }

  lemma NotBoth(t: State, n: Name)
    requires Safe(t) && TicketOf(Pending(t.phase), n).Some?
    ensures !IsCommitting(t.phase, n)
  {
  }

  lemma InjectEnabled(t: State)
    requires Safe(t) && t.phase.Injecting?
    ensures Enabled(t, Inject) && !EndsEpoch(Inject, t.phase.todo[0].name)
  {
  }

  /** The index of the packet that a tick is about to hand over for queue `n`. */
  function IndexOf(p: Phase, n: Name): Option<Byte> {
    match TicketOf(Pending(p), n)
    case Some(t) => Some(t.group.index)
    case None => None
  }

  lemma OwnCall(t: State) returns (entry: Injection)
    requires Safe(t) && Enabled(t, Inject)
    ensures t.phase.todo != [] && EntriesFor(NewEntries(t, Inject), t.phase.todo[0].name) == [entry]
    ensures entry.at == t.now && Some(entry.index) == IndexOf(t.phase, t.phase.todo[0].name)
    ensures IsCommitting(Step(t, Inject).phase, t.phase.todo[0].name)
  {
    InjectEntry(t);
    hide Safe; hide InjectStep;
    entry := InjectStep(t).log[|t.log|];
    assert EntriesFor([entry], t.phase.todo[0].name) == [entry];
  }

  /** A tick that has drawn nothing of queue `n`, or nothing any more, ends without touching it. */
  lemma FinishTick(s: State, es0: seq<Event>, n: Name, t0: State, calls: seq<Injection>)
    returns (es: seq<Event>, t: State)
    requires Leads(s, es0, n, t0, calls) && !Drawn(t0.phase, n) && !t0.phase.Sampled?
    ensures Leads(s, es, n, t, calls) && t.phase.Idle? && SameQueue(t0, t, n)
  {
    hide Leads; hide Safe; hide Step; hide Enabled; hide EndsEpoch; hide TicketOf;
    es, t := es0, t0;
    while !t.phase.Idle?
      invariant Leads(s, es, n, t, calls) && SameQueue(t0, t, n) && !Drawn(t.phase, n) && !t.phase.Sampled?
      decreases TickSteps(t.phase)
    {
      SafeOf(s, es, n, t, calls);
      HeadIsDrawn(t, n);
      TickStep(t, n);
      var e := TickEvent(t.phase);
      NoCall(s, es, n, t, calls, e);
      es, t := es + [e], Step(t, e);
    }
  }

  lemma HeadIsDrawn(t: State, n: Name)
    requires Safe(t) && !Drawn(t.phase, n)
    ensures !(t.phase.Injecting? && (t.phase.todo == [] || t.phase.todo[0].name == n)) && !IsCommitting(t.phase, n)
  {
  }

  // ---------------------------------------------------------------- one queue alone

  /** Everything about queue `n`, and the tick, is as before. */
  ghost predicate SameButOthers(t: State, t': State, n: Name) {
    && t'.now == t.now && t'.phase == t.phase
    && n in t.configs && n in t'.configs && t'.configs[n] == t.configs[n]
    && Waiting(t', n) == Waiting(t, n) && Partial(t', n) == Partial(t, n)
    && (Partial(t, n) != [] ==> t'.incomplete[n] == t.incomplete[n])
  }

  lemma DropOther(t: State, n: Name, m: Name)
    requires n in t.configs && m in t.configs && m != n
    ensures var t' := UnregisterStep(t, m);
      SameButOthers(t, t', n) && t'.configs.Keys < t.configs.Keys
  {
    assert UnregisterStep(t, m).configs.Keys == t.configs.Keys - {m};
  }

  /** Unregister every other queue. */
  lemma LeaveAlone(s: State, es0: seq<Event>, n: Name, t0: State, calls: seq<Injection>)
    returns (es: seq<Event>, t: State)
    requires Leads(s, es0, n, t0, calls) && n in t0.configs
    ensures Leads(s, es, n, t, calls) && SameButOthers(t0, t, n) && forall m :: m in t.configs ==> m == n
  {
    hide Leads; hide Safe; hide UnregisterStep; hide Waiting; hide Partial;
    es, t := es0, t0;
    while exists m :: m in t.configs && m != n
      invariant Leads(s, es, n, t, calls) && n in t.configs && SameButOthers(t0, t, n)
      decreases t.configs.Keys
    {
      var m :| m in t.configs && m != n;
      DropOther(t, n, m);
      NoCall(s, es, n, t, calls, Unregister(m));
      es, t := es + [Unregister(m)], UnregisterStep(t, m);
    }
  }

  // ---------------------------------------------------------------- a group of one queue

  /** The deadline of the group that comes next when none is active: the front one's, or the time at which the
      unfinished one was begun. */
  function FrontTime(t: State, n: Name): Option<Dword> {
    if Waiting(t, n) != [] then Some(Waiting(t, n)[0].nextTime)
    else if Partial(t, n) != [] then Some(t.incomplete[n].startTime)
    else None
  }

  function AnyPacket(): Packet {
    seq(MIN_MESSAGE, _ => 0)
  }

  /** A bound on the packets that the next group still needs. */
  function Missing(t: State, n: Name): nat
    requires n in t.configs
  {
    if Waiting(t, n) != [] then 0
    else if |Partial(t, n)| < t.configs[n].packetCount then t.configs[n].packetCount - |Partial(t, n)| + 1
    else 1
  }

  /** One more packet arrives: it begins a group, goes on with one or completes it. */
  lemma PacketArrives(t: State, n: Name, p: Packet)
    requires n in t.configs && Waiting(t, n) == []
    ensures var t' := ReceiveStep(t, n, p);
      && t'.now == t.now && t'.phase == t.phase && t'.configs == t.configs
      && FrontTime(t', n) == (if FrontTime(t, n).Some? then FrontTime(t, n) else Some(Low32(t.now)))
      && Missing(t', n) < Missing(t, n)
  {
  }

  /** Packets arrive at this moment until a group is waiting. */
  lemma FillGroup(s: State, es0: seq<Event>, n: Name, t0: State, calls: seq<Injection>)
    returns (es: seq<Event>, t: State)
    requires Leads(s, es0, n, t0, calls) && n in t0.configs
    ensures Leads(s, es, n, t, calls) && t.now == t0.now && t.phase == t0.phase && t.configs == t0.configs
    ensures Waiting(t, n) != []
    ensures FrontTime(t, n) == if FrontTime(t0, n).Some? then FrontTime(t0, n) else Some(Low32(t0.now))
  {
    hide Leads; hide Safe; hide ReceiveStep; hide Missing; hide FrontTime; hide AnyPacket;
    es, t := es0, t0;
    ghost var begun := FrontTime(t0, n).Some?;
    while Waiting(t, n) == []
      invariant Leads(s, es, n, t, calls) && t.now == t0.now && t.phase == t0.phase && t.configs == t0.configs
      invariant FrontTime(t, n) == (if FrontTime(t0, n).Some? then FrontTime(t0, n) else Some(Low32(t0.now)))
             || (es == es0 && t == t0)
      decreases Missing(t, n)
    {
      PacketArrives(t, n, AnyPacket());
      NoCall(s, es, n, t, calls, Receive(n, AnyPacket()));
      es, t := es + [Receive(n, AnyPacket())], ReceiveStep(t, n, AnyPacket());
    }
    if t == t0 { FrontWaiting(t, n); }
  }

  lemma FrontWaiting(t: State, n: Name)
    requires Waiting(t, n) != []
    ensures FrontTime(t, n) == Some(Waiting(t, n)[0].nextTime)
  {
  }

  // ---------------------------------------------------------------- an early call

  lemma SelectAlone(t: State, n: Name)
    requires Safe(t) && t.phase.Sampled? && n in t.configs && (forall m :: m in t.configs ==> m == n)
    requires Ready(t, n, t.phase.at)
    ensures Enabled(t, Select([n])) && !EndsEpoch(Select([n]), n) && Candidate(t, n).Some?
    ensures var t' := Step(t, Select([n]));
      && t'.now == t.now && t'.phase.Selected? && TicketOf(Pending(t'.phase), n).Some?
      && TicketOf(Pending(t'.phase), n).value.group == Candidate(t, n).value
  {
    hide Safe; hide Due;
    assert ValidOrder(t, [n], t.phase.at);
    OrderServable(t, [n], t.phase.at);
    assert Chosen([n]) == [n];
    assert Pending(SelectStep(t, [n]).phase)[0].name == n;
  }

  /** A sampled tick at which the queue, alone, is ready makes a call without time passing. */
  lemma ServeSampled(s: State, es0: seq<Event>, n: Name, t0: State) returns (es: seq<Event>, entry: Injection)
    requires Leads(s, es0, n, t0, []) && t0.phase.Sampled? && n in t0.configs
    requires (forall m :: m in t0.configs ==> m == n) && Ready(t0, n, t0.phase.at)
    ensures ValidRun(s, es) && WithinEpoch(es, n) && Safe(s) && EntriesFor(NewEntriesInRun(s, es), n) == [entry]
    ensures entry.at == t0.now && Candidate(t0, n).Some? && entry.index == Candidate(t0, n).value.index
  {
    hide Safe; hide Step; hide Enabled; hide EndsEpoch; hide Ready; hide WithinEpoch; hide NewEntriesInRun;
    hide EntriesFor;
    SafeOf(s, es0, n, t0, []);
    SelectAlone(t0, n);
    NoCall(s, es0, n, t0, [], Select([n]));
    var t;
    es, t, entry := ServePending(s, es0 + [Select([n])], n, Step(t0, Select([n])));
  }
}
