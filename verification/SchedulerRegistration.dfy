/** What registering, unregistering and clearing a queue promise about the runs that follow, and exactly when they
    keep it. */
module SchedulerRegistration {
  import opened Words
  import opened SchedulerModel
  import opened SchedulerSafety
  import opened SchedulerFifo
  import opened SchedulerTiming
  import opened SchedulerSpacing
  import opened SchedulerReach

  // ---------------------------------------------------------------- an unregistered queue stays unregistered

  /** Queue `n` is not registered again. */
  predicate NoRegister(es: seq<Event>, n: Name) {
    es == [] || (!(es[0].Register? && NameOf(es[0].message.queueName) == n) && NoRegister(es[1..], n))
  }

  lemma {:induction false} EpochHasNoRegister(es: seq<Event>, n: Name)
    requires WithinEpoch(es, n)
    ensures NoRegister(es, n)
  {
    if es != [] {
      EpochHasNoRegister(es[1..], n);
    }
  }

  ghost predicate Gone(s: State, n: Name) {
    n !in s.configs && !Drawn(s.phase, n)
  }

  lemma GoneStep(s: State, e: Event, n: Name)
    requires Safe(s) && Enabled(s, e) && Gone(s, n) && !(e.Register? && NameOf(e.message.queueName) == n)
    ensures Gone(Step(s, e), n)
  {
    match e
    case Select(order) =>
      OrderServable(s, order, s.phase.at);
      if order != [] {
        assert n !in order;
        SelectLeavesOut(s, order, n);
      }
    case Inject => GoneInject(s, n);
    case Commit => hide Safe; hide TicketOf;
    case _ => hide Safe; hide TicketOf;
  }

  lemma GoneInject(s: State, n: Name)
    requires Safe(s) && Enabled(s, Inject) && Gone(s, n)
    ensures Gone(Step(s, Inject), n)
  {
    InjectOutcome(s);
    hide Safe; hide InjectStep;
  }

  lemma {:induction false} GoneStays(s: State, es: seq<Event>, n: Name)
    requires Safe(s) && ValidRun(s, es) && Gone(s, n) && NoRegister(es, n)
    ensures Gone(Run(s, es), n)
    decreases |es|
  {
    if es != [] {
      hide Safe; hide Enabled; hide Step; hide Gone;
      StepSafe(s, es[0]);
      GoneStep(s, es[0], n);
      GoneStays(Step(s, es[0]), es[1..], n);
    }
  }

  /** A commit puts the queue back into the registrations. */
  lemma CommitRevives(s: State, es0: seq<Event>, n: Name, t: State, calls: seq<Injection>) returns (es: seq<Event>)
    requires Leads(s, es0, n, t, calls) && IsCommitting(t.phase, n)
    ensures Safe(s) && ValidRun(s, es) && WithinEpoch(es, n) && n in Run(s, es).configs
  {
    hide Safe; hide Step; hide Run; hide ValidRun; hide WithinEpoch;
    CommitOwn(t, n);
    NoCall(s, es0, n, t, calls, Commit);
    es := es0 + [Commit];
  }

  lemma CommitOwn(t: State, n: Name)
    requires IsCommitting(t.phase, n)
    ensures Enabled(t, Commit) && !EndsEpoch(Commit, n)
    ensures Safe(t) ==> n in Step(t, Commit).configs
  {
  }

  lemma DrawnRevives(s: State, n: Name) returns (es: seq<Event>)
    requires Safe(s) && Drawn(s.phase, n)
    ensures ValidRun(s, es) && WithinEpoch(es, n) && n in Run(s, es).configs
  {
    hide Safe; hide Step; hide Run; hide ValidRun; hide WithinEpoch; hide Leads;
    LeadsFrom(s, n);
    if IsCommitting(s.phase, n) {
      es := CommitRevives(s, [], n, s, []);
    } else {
      var t, entry;
      es, t, entry := ServePending(s, [], n, s);
      es := CommitRevives(s, es, n, t, [entry]);
    }
  }

  /** A queue that is not registered stays so in every run without a registration if and only if no tick has drawn
      and not committed it. */
  lemma StaysOut(s: State, n: Name)
    requires Safe(s) && n !in s.configs
    ensures (forall es :: ValidRun(s, es) && NoRegister(es, n) ==> n !in Run(s, es).configs) <==> !Drawn(s.phase, n)
  {
    if Drawn(s.phase, n) {
      var es := DrawnRevives(s, n);
      EpochHasNoRegister(es, n);
    } else {
      forall es | ValidRun(s, es) && NoRegister(es, n)
        ensures n !in Run(s, es).configs
      {
        GoneStays(s, es, n);
      }
    }
  }

  /** So unregistering holds until the next registration if and only if the queue is not drawn at that moment. */
  lemma UnregisterHolds(s: State, n: Name)
    requires Safe(s)
    ensures var s' := UnregisterStep(s, n);
      (forall es :: ValidRun(s', es) && NoRegister(es, n) ==> n !in Run(s', es).configs) <==> !Drawn(s.phase, n)
  {
    hide Safe; hide ValidRun; hide Run;
    UnregisterSafe(s, n);
    StaysOut(UnregisterStep(s, n), n);
  }

  /** The same for every queue when all are cleared. */
  lemma ClearHolds(s: State, n: Name)
    requires Safe(s)
    ensures var s' := ClearStep(s);
      (forall es :: ValidRun(s', es) && NoRegister(es, n) ==> n !in Run(s', es).configs) <==> !Drawn(s.phase, n)
  {
    QuietSafe(s, Clear);
    hide Safe; hide ValidRun; hide Run;
    StaysOut(ClearStep(s), n);
  }

  // ---------------------------------------------------------------- the wait after a registration

  /** The first of these calls, if there is one, comes at `limit` or later. */
  predicate FirstFrom(calls: seq<Injection>, limit: nat) {
    calls != [] ==> calls[0].at >= limit
  }

  /** The code's test at clock `at` for the first packet of the group that comes next: the wrapped interval since
      `last`, and the group's deadline. */
  predicate Admits(interval: Dword, last: Dword, front: Option<Dword>, at: nat) {
    && Minus32(Low32(at), last) >= interval
    && (front.Some? ==> Low32(at) >= front.value)
  }

  /** A tick that samples its clock before `limit` would pass the test. */
  ghost predicate LaterTickAdmits(s: State, interval: Dword, last: Dword, front: Option<Dword>, limit: nat) {
    exists at :: s.now <= at < limit && Admits(interval, last, front, at)
  }

  /** The tick that has sampled its clock at `at` would pass the test; a group that is not begun yet must begin, before
      `limit`, at a time that does not show above `at`. */
  ghost predicate SampledTickAdmits(s: State, at: nat, interval: Dword, last: Dword, front: Option<Dword>, limit: nat) {
    && Admits(interval, last, front, at)
    && (front.None? ==> exists begun :: s.now <= begun < limit && Low32(begun) <= Low32(at))
  }

  /** The last injection time that will be on record once the commit under way is done. */
  function LastAfterCommit(s: State, n: Name): Dword
    requires n in s.configs
  {
    if IsCommitting(s.phase, n) && !(s.phase.done.group.index < |s.phase.done.group.packets|) then Low32(s.phase.stamp)
    else s.configs[n].lastInjection
  }

  /** A call before `limit` is possible: a packet of the queue is in flight, or a tick may still find the queue
      ready. */
  ghost predicate MayCall(s: State, n: Name, limit: nat)
    requires n in s.configs
  {
    var interval, last, front := s.configs[n].interval, LastAfterCommit(s, n), FrontTime(s, n);
    && s.now < limit
    && (|| TicketOf(Pending(s.phase), n).Some?
        || LaterTickAdmits(s, interval, last, front, limit)
        || (s.phase.Sampled? && SampledTickAdmits(s, s.phase.at, interval, last, front, limit)))
  }

  /** No call before `limit`, and the queue, not in flight, has no active group. */
  ghost predicate Barred(s: State, n: Name, limit: nat) {
    s.now >= limit || (n in s.configs && !s.configs[n].hasActive && !MayCall(s, n, limit))
  }

  lemma LaterShrinks(s: State, s': State, interval: Dword, last: Dword, front: Option<Dword>, front': Option<Dword>,
                     limit: nat)
    requires !LaterTickAdmits(s, interval, last, front, limit) && s'.now >= s.now
    requires front' == front || front.None?
    ensures !LaterTickAdmits(s', interval, last, front', limit)
  {
    forall at | s'.now <= at < limit
      ensures !Admits(interval, last, front', at)
    {
      assert !Admits(interval, last, front, at);
    }
  }

  /** The view of queue `n` that decides about its first call. */
  ghost predicate SameView(s: State, s': State, n: Name) {
    && n in s.configs && n in s'.configs && !s.configs[n].hasActive && !s'.configs[n].hasActive
    && s'.configs[n].interval == s.configs[n].interval && LastAfterCommit(s', n) == LastAfterCommit(s, n)
    && TicketOf(Pending(s'.phase), n).None? && s'.now >= s.now
  }

  lemma KeepsBarred(s: State, s': State, n: Name, limit: nat)
    requires s.now < limit && Barred(s, n, limit) && SameView(s, s', n)
    requires FrontTime(s', n) == FrontTime(s, n)
    requires s'.phase.Sampled? ==> s'.phase == s.phase || (s'.phase.at == s.now && s'.now == s.now)
    ensures Barred(s', n, limit)
  {
    var interval, last, front := s.configs[n].interval, LastAfterCommit(s, n), FrontTime(s, n);
    LaterShrinks(s, s', interval, last, front, front, limit);
    if s'.now < limit && s'.phase.Sampled? {
      if s'.phase == s.phase {
        assert !SampledTickAdmits(s, s.phase.at, interval, last, front, limit);
      } else {
        assert !Admits(interval, last, front, s.now);
      }
    }
  }

  lemma ReceiveKeepsBarred(s: State, m: Name, p: Packet, n: Name, limit: nat)
    requires s.now < limit && Barred(s, n, limit)
    ensures Barred(ReceiveStep(s, m, p), n, limit)
  {
    var s' := ReceiveStep(s, m, p);
    ReceiveView(s, m, p, n);
    if FrontTime(s', n) == FrontTime(s, n) {
      hide ReceiveStep; hide Barred; hide FrontTime;
      KeepsBarred(s, s', n, limit);
    } else {
      hide ReceiveStep; hide FrontTime;
      LaterShrinks(s, s', s.configs[n].interval, LastAfterCommit(s, n), None, FrontTime(s', n), limit);
      if s.phase.Sampled? {
        assert !SampledTickAdmits(s, s.phase.at, s.configs[n].interval, LastAfterCommit(s, n), None, limit);
      }
    }
  }

  lemma ReceiveView(s: State, m: Name, p: Packet, n: Name)
    requires n in s.configs && !s.configs[n].hasActive && TicketOf(Pending(s.phase), n).None?
    ensures var s' := ReceiveStep(s, m, p);
      && SameView(s, s', n) && s'.phase == s.phase && s'.now == s.now
      && (FrontTime(s', n) == FrontTime(s, n) || (FrontTime(s, n).None? && FrontTime(s', n) == Some(Low32(s.now))))
  {
    if m == n && Waiting(s, n) == [] {
      PacketArrives(s, n, p);
    }
    hide TicketOf;
  }

  /** A queue that does not pass the test is not drawn. */
  lemma SelectKeepsBarred(s: State, order: seq<Name>, n: Name, limit: nat)
    requires Safe(s) && Enabled(s, Select(order)) && s.now < limit && Barred(s, n, limit)
    ensures Servable(s, order) && Barred(SelectStep(s, order), n, limit)
  {
    OrderServable(s, order, s.phase.at);
    var s' := SelectStep(s, order);
    NotReady(s, n, limit);
    assert n !in order;
    if order != [] {
      SelectLeavesOut(s, order, n);
    }
    SelectView(s, order, n);
    hide Safe; hide SelectStep; hide Barred; hide TicketOf;
    KeepsBarred(s, s', n, limit);
  }

  lemma NotReady(s: State, n: Name, limit: nat)
    requires Safe(s) && s.phase.Sampled? && s.now < limit && Barred(s, n, limit)
    ensures !Ready(s, n, s.phase.at)
  {
    if Ready(s, n, s.phase.at) {
      assert WaitingOk(s.queues[n][0]);
      assert FrontTime(s, n) == Some(s.queues[n][0].nextTime);
      assert Admits(s.configs[n].interval, s.configs[n].lastInjection, FrontTime(s, n), s.phase.at);
      assert SampledTickAdmits(s, s.phase.at, s.configs[n].interval, LastAfterCommit(s, n), FrontTime(s, n), limit);
      assert false;
    }
  }

  lemma SelectView(s: State, order: seq<Name>, n: Name)
    requires s.phase.Sampled? && Servable(s, order) && n !in order
    requires n in s.configs && !s.configs[n].hasActive
    requires order != [] ==> TicketOf(Pending(SelectStep(s, order).phase), n).None?
    ensures var s' := SelectStep(s, order);
      SameView(s, s', n) && FrontTime(s', n) == FrontTime(s, n) && s'.now == s.now && !s'.phase.Sampled?
  {
    hide Activated;
    assert n !in Chosen(order);
  }

  lemma ThreadView(s: State, e: Event, n: Name)
    requires Safe(s) && Enabled(s, e) && !EndsEpoch(e, n) && !e.Receive? && !e.Select? && !e.Inject? && !e.Commit?
    requires n in s.configs && !s.configs[n].hasActive && TicketOf(Pending(s.phase), n).None?
    ensures var s' := Step(s, e);
      && SameView(s, s', n) && FrontTime(s', n) == FrontTime(s, n)
      && (s'.phase.Sampled? ==> s'.phase == s.phase || (s'.phase.at == s.now && s'.now == s.now))
  {
    hide Safe; hide NameOf; hide TimestampOf;
  }

  lemma InjectView(s: State, n: Name)
    requires Safe(s) && Enabled(s, Inject)
    requires n in s.configs && !s.configs[n].hasActive && TicketOf(Pending(s.phase), n).None?
    ensures SameView(s, Step(s, Inject), n) && FrontTime(Step(s, Inject), n) == FrontTime(s, n)
    ensures s.phase.todo != [] && s.phase.todo[0].name != n && !Step(s, Inject).phase.Sampled?
  {
    InjectOutcome(s);
    FrontInRange(s);
    hide Safe; hide InjectStep;
  }

  lemma CommitView(s: State, n: Name)
    requires Safe(s) && Enabled(s, Commit)
    requires n in s.configs && !s.configs[n].hasActive && TicketOf(Pending(s.phase), n).None?
    ensures SameView(s, Step(s, Commit), n) && FrontTime(Step(s, Commit), n) == FrontTime(s, n)
    ensures !Step(s, Commit).phase.Sampled?
  {
    hide Safe; hide TicketOf;
  }

  /** Nothing within the epoch brings a call forward. */
  lemma StepKeepsBarred(s: State, e: Event, n: Name, limit: nat)
    requires Safe(s) && Enabled(s, e) && !EndsEpoch(e, n) && s.now < limit && Barred(s, n, limit)
    ensures Barred(Step(s, e), n, limit) && EntriesFor(NewEntries(s, e), n) == []
  {
    hide Safe;
    if e.Receive? {
      ReceiveKeepsBarred(s, e.name, e.packet, n, limit);
    } else if e.Select? {
      SelectKeepsBarred(s, e.order, n, limit);
    } else {
      if e.Inject? {
        InjectView(s, n);
        QuietEntries(s, e, n);
      } else if e.Commit? {
        CommitView(s, n);
      } else {
        ThreadView(s, e, n);
      }
      KeepsBarred(s, Step(s, e), n, limit);
    }
  }

  lemma CallIsNow(s: State, e: Event, n: Name)
    requires Safe(s) && Enabled(s, e)
    ensures Step(s, e).now >= s.now && FirstFrom(EntriesFor(NewEntries(s, e), n), s.now)
  {
    if e.Inject? {
      var entry := OwnCall(s);
      InjectOutcome(s);
      assert EntriesFor(NewEntries(s, e), n) == (if s.phase.todo[0].name == n then [entry] else []);
    }
    hide Safe;
  }

  lemma FirstOfConcat(a: seq<Injection>, b: seq<Injection>, limit: nat)
    requires FirstFrom(a, limit) && (a == [] ==> FirstFrom(b, limit))
    ensures FirstFrom(a + b, limit)
  {
  }

  lemma {:induction false} BarredRun(s: State, es: seq<Event>, n: Name, limit: nat)
    requires Safe(s) && ValidRun(s, es) && WithinEpoch(es, n) && Barred(s, n, limit)
    ensures FirstFrom(EntriesFor(NewEntriesInRun(s, es), n), limit)
    decreases |es|
  {
    if es != [] {
      hide Safe; hide Enabled; hide Step; hide NewEntries; hide EntriesFor; hide EndsEpoch; hide MayCall;
      hide FirstFrom;
      var e, rest := es[0], es[1..];
      StepSafe(s, e);
      if s.now >= limit {
        CallIsNow(s, e, n);
        FirstLater(EntriesFor(NewEntries(s, e), n), s.now, limit);
      } else {
        StepKeepsBarred(s, e, n, limit);
        NothingFirst(limit);
      }
      BarredRun(Step(s, e), rest, n, limit);
      EntriesAppend(NewEntries(s, e), NewEntriesInRun(Step(s, e), rest), n);
      FirstOfConcat(EntriesFor(NewEntries(s, e), n), EntriesFor(NewEntriesInRun(Step(s, e), rest), n), limit);
    }
  }

  lemma FirstLater(calls: seq<Injection>, now: nat, limit: nat)
    requires FirstFrom(calls, now) && now >= limit
    ensures FirstFrom(calls, limit)
  {
  }

  lemma NothingFirst(limit: nat)
    ensures FirstFrom([], limit)
  {
  }

  // ---------------------------------------------------------------- the other half: early calls that can happen

  /** What the queue's next first call depends on. */
  ghost predicate SameFront(t: State, t': State, n: Name) {
    && n in t.configs && n in t'.configs && t'.configs[n] == t.configs[n]
    && FrontTime(t', n) == FrontTime(t, n)
  }

  lemma FrontOfOthers(t: State, t': State, n: Name)
    requires SameButOthers(t, t', n)
    ensures SameFront(t, t', n)
  {
  }

  lemma FrontOfSame(t: State, t': State, n: Name)
    requires SameQueue(t, t', n) && n in t.configs
    ensures SameFront(t, t', n)
  {
  }

  lemma AdvanceTo(s: State, es0: seq<Event>, n: Name, t: State, calls: seq<Injection>, at: nat)
    returns (es: seq<Event>)
    requires Leads(s, es0, n, t, calls) && at >= t.now
    ensures Leads(s, es, n, t.(now := at), calls)
  {
    hide Leads; hide Safe;
    NoCall(s, es0, n, t, calls, Advance(at - t.now));
    es := es0 + [Advance(at - t.now)];
  }

  /** A waiting group that passes the test makes the queue ready. */
  lemma AdmittedIsReady(t: State, n: Name, at: nat)
    requires Safe(t) && n in t.configs && !t.configs[n].hasActive && Waiting(t, n) != []
    requires Admits(t.configs[n].interval, t.configs[n].lastInjection, FrontTime(t, n), at)
    ensures Ready(t, n, at)
  {
    assert WaitingOk(t.queues[n][0]);
  }

  /** The tick that is sampled now draws the queue, alone and with its group complete, and hands the packet over. */
  lemma CallNow(s: State, es0: seq<Event>, n: Name, t0: State) returns (es: seq<Event>, entry: Injection)
    requires Leads(s, es0, n, t0, []) && t0.phase.Sampled? && n in t0.configs && !t0.configs[n].hasActive
    requires Admits(t0.configs[n].interval, t0.configs[n].lastInjection, FrontTime(t0, n), t0.phase.at)
    requires FrontTime(t0, n).None? ==> Low32(t0.now) <= Low32(t0.phase.at)
    ensures Safe(s) && ValidRun(s, es) && WithinEpoch(es, n) && EntriesFor(NewEntriesInRun(s, es), n) == [entry]
    ensures entry.at == t0.now
  {
    hide Leads; hide Safe; hide FrontTime; hide Ready; hide ValidRun; hide WithinEpoch; hide NewEntriesInRun;
    hide EntriesFor; hide Waiting; hide Partial;
    var t;
    es, t := LeaveAlone(s, es0, n, t0, []);
    FrontOfOthers(t0, t, n);
    es, t := FillGroup(s, es, n, t, []);
    SafeOf(s, es, n, t, []);
    AdmittedIsReady(t, n, t.phase.at);
    es, entry := ServeSampled(s, es, n, t);
  }

  /** A later tick does the same. */
  lemma CallLater(s: State, es0: seq<Event>, n: Name, t0: State, at: nat) returns (es: seq<Event>, entry: Injection)
    requires Leads(s, es0, n, t0, []) && t0.phase.Idle? && n in t0.configs && !t0.configs[n].hasActive && at >= t0.now
    requires Admits(t0.configs[n].interval, t0.configs[n].lastInjection, FrontTime(t0, n), at)
    ensures Safe(s) && ValidRun(s, es) && WithinEpoch(es, n) && EntriesFor(NewEntriesInRun(s, es), n) == [entry]
    ensures entry.at == at
  {
    hide Leads; hide Safe; hide ValidRun; hide WithinEpoch; hide NewEntriesInRun; hide EntriesFor; hide Admits;
    es := AdvanceTo(s, es0, n, t0, [], at);
    var t := t0.(now := at);
    NoCall(s, es, n, t, [], Sample);
    es, entry := CallNow(s, es + [Sample], n, t.(phase := Sampled(at)));
  }

  /** To the end of the tick, whose commit may set the last injection time. */
  lemma ToIdle(s: State, n: Name) returns (es: seq<Event>, t: State)
    requires Safe(s) && n in s.configs && !s.configs[n].hasActive && TicketOf(Pending(s.phase), n).None?
    requires !s.phase.Sampled?
    ensures Leads(s, es, n, t, []) && t.phase.Idle? && t.now == s.now && n in t.configs && !t.configs[n].hasActive
    ensures t.configs[n].interval == s.configs[n].interval && t.configs[n].lastInjection == LastAfterCommit(s, n)
    ensures FrontTime(t, n) == FrontTime(s, n)
  {
    hide Leads; hide Safe; hide FrontTime; hide TicketOf;
    LeadsFrom(s, n);
    es, t := [], s;
    if IsCommitting(s.phase, n) {
      CommitFront(s, n);
      NoCall(s, [], n, s, [], Commit);
      es, t := [] + [Commit], CommitStep(s);
    }
    ghost var committed := t;
    es, t := FinishTick(s, es, n, t, []);
    FrontOfSame(committed, t, n);
  }

  lemma CommitFront(s: State, n: Name)
    requires Safe(s) && IsCommitting(s.phase, n) && n in s.configs && !s.configs[n].hasActive
    ensures Enabled(s, Commit) && !EndsEpoch(Commit, n)
    ensures var t := CommitStep(s);
      && t.now == s.now && n in t.configs && !t.configs[n].hasActive && !Drawn(t.phase, n) && !t.phase.Sampled?
      && t.configs[n].interval == s.configs[n].interval && t.configs[n].lastInjection == LastAfterCommit(s, n)
      && FrontTime(t, n) == FrontTime(s, n) && !IsCommitting(t.phase, n)
  {
    hide TicketOf;
  }

  /** A sampled tick that does not find the queue ready can end without serving anything. */
  lemma SkipTick(s: State, n: Name, limit: nat) returns (es: seq<Event>, t: State)
    requires Safe(s) && s.phase.Sampled? && n in s.configs && !s.configs[n].hasActive && s.now < limit
    requires !SampledTickAdmits(s, s.phase.at, s.configs[n].interval, s.configs[n].lastInjection,
                                FrontTime(s, n), limit)
    ensures Leads(s, es, n, t, []) && t.phase.Idle? && t.now == s.now && SameFront(s, t, n)
  {
    hide Leads; hide Safe; hide FrontTime; hide SampledTickAdmits; hide Ready;
    LeadsFrom(s, n);
    es, t := LeaveAlone(s, [], n, s, []);
    FrontOfOthers(s, t, n);
    SafeOf(s, es, n, t, []);
    SkippedNotReady(s, t, n, limit);
    NobodyReady(t, n);
    NoCall(s, es, n, t, [], Select([]));
    FrontOfIdle(t, n);
    es, t := es + [Select([])], t.(phase := Idle);
  }

  lemma NobodyReady(t: State, n: Name)
    requires t.phase.Sampled? && (forall m :: m in t.configs ==> m == n) && !Ready(t, n, t.phase.at)
    ensures Enabled(t, Select([])) && !EndsEpoch(Select([]), n)
  {
    assert forall m :: !Ready(t, m, t.phase.at);
  }

  lemma FrontOfIdle(t: State, n: Name)
    requires n in t.configs
    ensures SameFront(t, t.(phase := Idle), n)
  {
  }

  lemma SkippedNotReady(s: State, t: State, n: Name, limit: nat)
    requires Safe(t) && s.phase.Sampled? && t.phase == s.phase && t.now == s.now && s.now < limit && SameFront(s, t, n)
    requires !s.configs[n].hasActive
    requires !SampledTickAdmits(s, s.phase.at, s.configs[n].interval, s.configs[n].lastInjection,
                                FrontTime(s, n), limit)
    ensures !Ready(t, n, t.phase.at)
  {
    if Ready(t, n, t.phase.at) {
      assert WaitingOk(t.queues[n][0]);
      assert FrontTime(t, n) == Some(t.queues[n][0].nextTime);
      assert Admits(t.configs[n].interval, t.configs[n].lastInjection, FrontTime(t, n), t.phase.at);
      assert false;
    }
  }

  /** Whatever `MayCall` allows happens on some run. */
  lemma EarlyCall(s: State, n: Name, limit: nat) returns (es: seq<Event>)
    requires Safe(s) && n in s.configs && !s.configs[n].hasActive && MayCall(s, n, limit)
    ensures ValidRun(s, es) && WithinEpoch(es, n) && !FirstFrom(EntriesFor(NewEntriesInRun(s, es), n), limit)
  {
    hide Safe; hide Leads; hide ValidRun; hide WithinEpoch; hide NewEntriesInRun; hide EntriesFor; hide FrontTime;
    hide Admits;
    LeadsFrom(s, n);
    var interval, last, front := s.configs[n].interval, LastAfterCommit(s, n), FrontTime(s, n);
    var entry, t;
    if TicketOf(Pending(s.phase), n).Some? {
      es, t, entry := ServePending(s, [], n, s);
      LeadsCalls(s, es, n, t, [entry]);
    } else if s.phase.Sampled? && SampledTickAdmits(s, s.phase.at, interval, last, front, limit) {
      if front.None? {
        var begun :| s.now <= begun < limit && Low32(begun) <= Low32(s.phase.at);
        es := AdvanceTo(s, [], n, s, [], begun);
        LaterFront(s, n, begun);
        es, entry := CallNow(s, es, n, s.(now := begun));
      } else {
        es, entry := CallNow(s, [], n, s);
      }
    } else {
      assert LaterTickAdmits(s, interval, last, front, limit);
      var at :| s.now <= at < limit && Admits(interval, last, front, at);
      if s.phase.Sampled? {
        es, t := SkipTick(s, n, limit);
      } else {
        es, t := ToIdle(s, n);
      }
      es, entry := CallLater(s, es, n, t, at);
    }
  }

  lemma LeadsCalls(s: State, es: seq<Event>, n: Name, t: State, calls: seq<Injection>)
    requires Leads(s, es, n, t, calls)
    ensures ValidRun(s, es) && WithinEpoch(es, n) && EntriesFor(NewEntriesInRun(s, es), n) == calls
  {
  }

  lemma LaterFront(s: State, n: Name, at: nat)
    ensures FrontTime(s.(now := at), n) == FrontTime(s, n)
  {
  }

  // ---------------------------------------------------------------- exactly when

  /** For a queue without an active group: in every run of its epoch the first call comes at `limit` or later, if and
      only if `MayCall` does not hold. */
  lemma FirstCallFrom(s: State, n: Name, limit: nat)
    requires Safe(s) && n in s.configs && !s.configs[n].hasActive
    ensures (forall es :: ValidRun(s, es) && WithinEpoch(es, n) ==>
               FirstFrom(EntriesFor(NewEntriesInRun(s, es), n), limit))
        <==> !MayCall(s, n, limit)
  {
    hide Safe; hide MayCall; hide FirstFrom;
    if MayCall(s, n, limit) {
      var es := EarlyCall(s, n, limit);
    } else {
      forall es | ValidRun(s, es) && WithinEpoch(es, n)
        ensures FirstFrom(EntriesFor(NewEntriesInRun(s, es), n), limit)
      {
        BarredRun(s, es, n, limit);
      }
    }
  }

  /** Registering `m` now does not make the first injection wait for the full interval: a packet of the queue is in
      flight; or the last packet of a group is being committed, which puts its tick's clock sample on record, and a
      later tick passes the test against that sample; or a tick has sampled its clock before and passes the test
      against the registration time. */
  ghost predicate ComesEarly(s: State, m: QueueConfigMessage)
    requires m.Valid()
  {
    var n, limit := NameOf(m.queueName), s.now + m.interval;
    && m.interval > 0
    && (|| TicketOf(Pending(s.phase), n).Some?
        || (&& IsCommitting(s.phase, n) && !(s.phase.done.group.index < |s.phase.done.group.packets|)
            && LaterTickAdmits(s, m.interval, Low32(s.phase.stamp), FrontTime(s, n), limit))
        || (s.phase.Sampled? && SampledTickAdmits(s, s.phase.at, m.interval, Low32(s.now), FrontTime(s, n), limit)))
  }

  lemma RegisteredFront(s: State, m: QueueConfigMessage)
    requires m.Valid()
    ensures var s', n := RegisterStep(s, m), NameOf(m.queueName);
      && s'.now == s.now && s'.phase == s.phase && n in s'.configs && !s'.configs[n].hasActive
      && s'.configs[n].interval == m.interval && s'.configs[n].lastInjection == Low32(s.now)
      && FrontTime(s', n) == FrontTime(s, n)
  {
    hide NameOf; hide TimestampOf;
  }

  /** Counted from the registration itself, no later tick is early. */
  lemma NoLaterTick(s: State, interval: Dword, front: Option<Dword>)
    ensures !LaterTickAdmits(s, interval, Low32(s.now), front, s.now + interval)
  {
    forall at | s.now <= at < s.now + interval
      ensures !Admits(interval, Low32(s.now), front, at)
    {
      Minus32Elapsed(at, s.now);
    }
  }

  lemma LaterSame(s: State, s': State, interval: Dword, last: Dword, front: Option<Dword>, limit: nat)
    requires s'.now == s.now
    ensures LaterTickAdmits(s', interval, last, front, limit) == LaterTickAdmits(s, interval, last, front, limit)
  {
    if at :| s.now <= at < limit && Admits(interval, last, front, at) {
      assert s'.now <= at < limit;
    }
  }

  lemma MayCallAfterRegistering(s: State, m: QueueConfigMessage)
    requires m.Valid() && Safe(s)
    ensures var s', n := RegisterStep(s, m), NameOf(m.queueName);
      n in s'.configs && (MayCall(s', n, s.now + m.interval) <==> ComesEarly(s, m))
  {
    var s', n, limit := RegisterStep(s, m), NameOf(m.queueName), s.now + m.interval;
    RegisteredFront(s, m);
    NotBothCommitting(s, n);
    hide RegisterStep; hide Safe; hide FrontTime; hide Admits; hide NameOf; hide TicketOf;
    NoLaterTick(s, m.interval, FrontTime(s, n));
    LaterSame(s, s', m.interval, LastAfterCommit(s', n), FrontTime(s, n), limit);
  }

  lemma NotBothCommitting(s: State, n: Name)
    requires Safe(s)
    ensures !(IsCommitting(s.phase, n) && TicketOf(Pending(s.phase), n).Some?)
  {
  }

  /** The comment's claim, over runs: after a registration the first injection of the queue waits for the full interval
      in every run of the epoch, if and only if the state it happens in is not one of those. */
  lemma RegistrationWait(s: State, m: QueueConfigMessage)
    requires Safe(s) && m.Valid()
    ensures var s', n := RegisterStep(s, m), NameOf(m.queueName);
      (forall es :: ValidRun(s', es) && WithinEpoch(es, n) ==>
         FirstFrom(EntriesFor(NewEntriesInRun(s', es), n), s.now + m.interval))
      <==> !ComesEarly(s, m)
  {
    RegisterSafe(s, m);
    RegisteredFront(s, m);
    MayCallAfterRegistering(s, m);
    hide *;
    FirstCallFrom(RegisterStep(s, m), NameOf(m.queueName), s.now + m.interval);
  }

  /** In particular: while no tick has drawn the queue or sampled its clock before, it waits. */
  lemma QuietRegistrationWaits(s: State, m: QueueConfigMessage)
    requires Safe(s) && m.Valid() && !Drawn(s.phase, NameOf(m.queueName))
    requires s.phase.Sampled? ==> s.phase.at == s.now
    ensures !ComesEarly(s, m)
  {
    hide Safe; hide NameOf; hide FrontTime; hide TicketOf;
    Minus32Elapsed(s.now, s.now);
  }

  // ---------------------------------------------------------------- the conditions in closed form

  /** With no group begun, or one whose deadline does not matter, a commit with another clock reading is enough. */
  lemma LaterTickClosed(s: State, interval: Dword, stamp: nat)
    requires stamp <= s.now && interval > 0
    ensures LaterTickAdmits(s, interval, Low32(stamp), None, s.now + interval) <==> Low32(stamp) != Low32(s.now)
  {
    if Low32(stamp) == Low32(s.now) {
      NoLaterTick(s, interval, None);
    } else {
      var shown := Minus32(Low32(s.now), Low32(stamp));
      Minus32Elapsed(s.now, stamp);
      var at := if shown >= interval then s.now else s.now + (interval - shown);
      Minus32Elapsed(at, stamp);
      ShownLater(s.now - stamp, at - s.now);
      assert Admits(interval, Low32(stamp), None, at);
    }
  }

  lemma ShownLater(elapsed: nat, more: nat)
    requires elapsed % TWO_32 + more < TWO_32
    ensures (elapsed + more) % TWO_32 == elapsed % TWO_32 + more
  {
    assert elapsed == elapsed / TWO_32 * TWO_32 + elapsed % TWO_32;
  }

  /** With a group waiting whose deadline has passed, a tick sampled before is early unless the interval is too long for
      the wrapped difference. */
  lemma SampledTickClosed(s: State, at: nat, interval: Dword, front: Dword)
    requires at <= s.now < at + TWO_32 && interval > 0 && Low32(at) >= front
    ensures SampledTickAdmits(s, at, interval, Low32(s.now), Some(front), s.now + interval)
        <==> at < s.now && interval <= TWO_32 - (s.now - at)
  {
    hide Minus32; hide Low32;
    Minus32Elapsed(s.now, at);
    WrapComplement(Low32(at), Low32(s.now));
  }

  /** With no group begun it is early if one can begin at a time that shows no later than the sample. */
  lemma BegunInTime(s: State, at: nat, interval: Dword)
    requires interval > 0
    ensures (exists begun :: s.now <= begun < s.now + interval && Low32(begun) <= Low32(at))
        <==> Low32(s.now) <= Low32(at) || Low32(s.now) + interval > TWO_32
  {
    var wrap := s.now + (TWO_32 - Low32(s.now));
    assert Low32(wrap) == 0;
    if Low32(s.now) <= Low32(at) {
      assert s.now <= s.now < s.now + interval;
    } else if Low32(s.now) + interval > TWO_32 {
      assert s.now <= wrap < s.now + interval && Low32(wrap) <= Low32(at);
    } else {
      forall begun | s.now <= begun < s.now + interval
        ensures Low32(begun) > Low32(at)
      {
        ShownLater(s.now, begun - s.now);
      }
    }
  }
}
