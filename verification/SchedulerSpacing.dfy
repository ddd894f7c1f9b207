/** Spacing of one queue's injections over every run of one registration epoch, in true time. */
module SchedulerSpacing {
  import opened Words
  import opened SchedulerModel
  import opened SchedulerSafety
  import opened SchedulerFifo
  import opened SchedulerTiming
  import opened PacketPatching

  /** The calls of InjectSinglePacket made for queue `n`. */
  function EntriesFor(log: seq<Injection>, n: Name): seq<Injection> {
    if log == [] then []
    else if log[0].name == n then [log[0]] + EntriesFor(log[1..], n)
    else EntriesFor(log[1..], n)
  }

  /** `b` may follow `a`: within a group the next packet, no earlier than its own delay after `a`'s
      clock sample unless the 32-bit deadline wrapped; after a group the first packet of another one,
      at least the injection interval after the sample that ended the group. */
  ghost predicate Follows(a: Injection, b: Injection, c: QueueConfig) {
    if a.last then b.index == 0 && b.at >= a.stamp + c.interval
    else
      && b.index == a.index + 1
      && (Low32(a.stamp) + PacketInterval(c, b.index) < TWO_32 ==>
            b.at >= a.stamp + PacketInterval(c, b.index))
  }

  /** What was handed over is the accepted packet with the timestamps the configuration asks for. */
  ghost predicate Patched(e: Injection, c: QueueConfig) {
    && e.sent == PatchPacket(e.original, c, e.index, Low32(e.stamp))
    && StampedBy(c, e.index, e.original, e.sent, e.stamp % 0x1_0000_0000)
  }

  /** Every entry of `log` is patched and follows the one before it, the first one following `previous`. */
  ghost predicate Spaced(previous: Option<Injection>, log: seq<Injection>, c: QueueConfig)
    decreases |log|
  {
    log == [] ||
    (&& Patched(log[0], c) && (previous.Some? ==> Follows(previous.value, log[0], c))
     && Spaced(Some(log[0]), log[1..], c))
  }

  /** The same, read pair by pair. */
  ghost predicate Successive(log: seq<Injection>, c: QueueConfig) {
    && (forall i :: 0 <= i < |log| ==> Patched(log[i], c))
    && (forall i :: 0 <= i < |log| - 1 ==> Follows(log[i], log[i + 1], c))
  }

  function Last(previous: Option<Injection>, log: seq<Injection>): Option<Injection> {
    if log == [] then previous else Some(log[|log| - 1])
  }

  lemma {:induction false} SpacedAppend(previous: Option<Injection>, log: seq<Injection>,
                                         more: seq<Injection>, c: QueueConfig)
    requires Spaced(previous, log, c) && Spaced(Last(previous, log), more, c)
    ensures Spaced(previous, log + more, c)
    decreases |log|
  {
    hide Patched; hide Follows;
    if log == [] {
      EmptyUnit(more);
    } else {
      assert (log + more)[1..] == log[1..] + more;
      SpacedAppend(Some(log[0]), log[1..], more, c);
    }
  }

  lemma {:induction false} EntriesAppend(log: seq<Injection>, more: seq<Injection>, n: Name)
    ensures EntriesFor(log + more, n) == EntriesFor(log, n) + EntriesFor(more, n)
  {
    if log == [] {
      EmptyUnit(more);
      EmptyUnit(EntriesFor(more, n));
    } else {
      assert (log + more)[1..] == log[1..] + more;
      EntriesAppend(log[1..], more, n);
      Associative([log[0]], EntriesFor(log[1..], n), EntriesFor(more, n));
    }
  }

  lemma {:induction false} SpacedPairs(previous: Option<Injection>, log: seq<Injection>, c: QueueConfig)
    requires Spaced(previous, log, c)
    ensures Successive(log, c)
    decreases |log|
  {
    if log != [] {
      SpacedPairs(Some(log[0]), log[1..], c);
      hide Follows; hide Patched;
      forall i | 0 <= i < |log|
        ensures Patched(log[i], c)
      {
        if i > 0 {
          assert Patched(log[1..][i - 1], c);
        }
      }
      forall i | 0 <= i < |log| - 1
        ensures Follows(log[i], log[i + 1], c)
      {
        if i > 0 {
          assert Follows(log[1..][i - 1], log[1..][i], c);
        }
      }
    }
  }

  // ---------------------------------------------------------------- what links a state to the last injection

  ghost predicate SameSettings(a: QueueConfig, b: QueueConfig) {
    a.interval == b.interval && a.packetIntervals == b.packetIntervals && a.timestamps == b.timestamps
  }

  /** The queue has committed `e`. */
  ghost predicate AtRest(q: QueueConfig, e: Injection, c: QueueConfig) {
    if e.last then !q.hasActive && q.lastInjection == Low32(e.stamp)
    else
      && q.hasActive && q.active.index == e.index + 1
      && q.active.nextTime == Low32(e.stamp + PacketInterval(c, e.index + 1))
  }

  /** The next packet is `index`, and enough time has passed. */
  ghost predicate Elapsed(now: nat, index: nat, e: Injection, c: QueueConfig) {
    if e.last then index == 0 && now >= e.stamp + c.interval
    else
      && index == e.index + 1
      && (Low32(e.stamp) + PacketInterval(c, index) < TWO_32 ==> now >= e.stamp + PacketInterval(c, index))
  }

  ghost predicate Committed(t: Ticket, stamp: nat, e: Injection, c: QueueConfig) {
    && stamp == e.stamp && e.last == !(t.group.index < |t.group.packets|) && t.group.index == e.index + 1
    && (!e.last ==> t.group.nextTime == Low32(e.stamp + PacketInterval(c, e.index + 1)))
  }

  ghost predicate DrawnTiming(s: State, t: Ticket, c: QueueConfig, e: Option<Injection>) {
    SameSettings(t.config, c) && (e.Some? ==> Elapsed(s.now, t.group.index, e.value, c))
  }

  /** `e` is queue `n`'s latest injection, `c` its configuration. */
  ghost predicate Timed(s: State, n: Name, c: QueueConfig, e: Option<Injection>) {
    && n in s.configs && SameSettings(s.configs[n], c)
    && (Drawn(s.phase, n) ==> s.configs[n].hasActive)
    && (TicketOf(Pending(s.phase), n).Some? ==> DrawnTiming(s, TicketOf(Pending(s.phase), n).value, c, e))
    && (IsCommitting(s.phase, n) ==> e.Some? && Committed(s.phase.done, s.phase.stamp, e.value, c))
    && (e.Some? ==>
          && e.value.stamp <= s.now
          && (s.phase.Sampled? ==> e.value.stamp <= s.phase.at)
          && (!Drawn(s.phase, n) ==> AtRest(s.configs[n], e.value, c)))
  }

  // ---------------------------------------------------------------- steps

  /** The code's 32-bit test, at rest, lets the next packet go only when enough time has passed. */
  lemma DueElapsed(q: QueueConfig, g: Group, e: Injection, c: QueueConfig, at: nat)
    requires SameSettings(q, c) && AtRest(q, e, c) && e.stamp <= at && Due(q, g, Low32(at))
    requires e.last ==> g.index == 0
    requires !e.last ==> g == q.active
    ensures Elapsed(at, g.index, e, c)
  {
    if e.last {
      Minus32Elapsed(at, e.stamp);
    } else if Low32(e.stamp) + PacketInterval(c, g.index) < TWO_32 {
      DeadlineSound(e.stamp, PacketInterval(c, g.index), at);
    }
  }

  lemma SelectTimed(s: State, order: seq<Name>, n: Name, c: QueueConfig, e: Option<Injection>)
    requires Safe(s) && Enabled(s, Select(order)) && order != [] && Timed(s, n, c, e)
    ensures Servable(s, order) && Timed(SelectStep(s, order), n, c, e)
  {
    OrderServable(s, order, s.phase.at);
    SelectFrame(s, order, n);
    if n in Chosen(order) {
      SelectDraws(s, order, n);
      var g := Candidate(s, n).value;
      assert Ready(s, n, s.phase.at) by {
        assert n in order;
      }
      if e.Some? {
        assert AtRest(s.configs[n], e.value, c);
        DueElapsed(s.configs[n], g, e.value, c, s.phase.at);
      }
    } else {
      SelectSkips(s, order, n);
      SelectLeavesOut(s, order, n);
    }
  }

  lemma SelectLeavesOut(s: State, order: seq<Name>, n: Name)
    requires Servable(s, order) && order != [] && n !in Chosen(order)
    ensures TicketOf(Pending(SelectStep(s, order).phase), n).None?
  {
    var ts := Pending(SelectStep(s, order).phase);
    forall i | 0 <= i < |ts| ensures ts[i].name != n {
      assert ts[i].name == Chosen(order)[i];
    }
    TicketMissing(ts, n);
  }

  lemma InjectOtherTimed(s: State, n: Name, c: QueueConfig, e: Option<Injection>)
    requires Safe(s) && Enabled(s, Inject) && Timed(s, n, c, e) && s.phase.todo[0].name != n
    ensures EntriesFor(NewEntries(s, Inject), n) == [] && Timed(InjectStep(s), n, c, e)
  {
    var entry := InjectStep(s).log[|s.log|];
    assert EntriesFor([entry], n) == [];
    assert Pending(InjectStep(s).phase) == s.phase.todo[1..];
  }

  /** What one injection records and what it leaves to be committed. */
  lemma InjectEntry(s: State)
    requires Safe(s) && Enabled(s, Inject)
    ensures var t, s' := s.phase.todo[0], InjectStep(s);
      var entry := s'.log[|s.log|];
      && s'.phase == Committing(s.phase.stamp, s'.phase.done, s.phase.todo[1..])
      && entry.name == t.name && entry.index == t.group.index && entry.stamp == s.phase.stamp && entry.at == s.now
      && Patched(entry, t.config) && Committed(s'.phase.done, s.phase.stamp, entry, t.config)
      && s'.phase.done.name == t.name && s'.configs == s.configs && s'.now == s.now
  {
    hide Safe; hide PatchPacket; hide StampedBy;
    FrontInRange(s);
    var g := s.phase.todo[0].group;
    PatchIsStamped(s.phase.todo[0].config, g.index, g.packets[g.index], Low32(s.phase.stamp));
  }

  lemma PatchBySettings(e: Injection, c: QueueConfig, d: QueueConfig)
    requires c.timestamps == d.timestamps && Patched(e, c)
    ensures Patched(e, d)
  {
  }

  lemma CommittedBySettings(t: Ticket, stamp: nat, e: Injection, c: QueueConfig, d: QueueConfig)
    requires SameSettings(c, d) && Committed(t, stamp, e, c)
    ensures Committed(t, stamp, e, d)
  {
  }

  /** A packet drawn in time follows the queue's last one. */
  lemma ElapsedFollows(e: Injection, b: Injection, c: QueueConfig)
    requires Elapsed(b.at, b.index, e, c)
    ensures Follows(e, b, c)
  {
  }

  lemma InjectOwnTimed(s: State, n: Name, c: QueueConfig, e: Option<Injection>)
    requires Safe(s) && Enabled(s, Inject) && Timed(s, n, c, e) && s.phase.todo[0].name == n
    ensures var entry := InjectStep(s).log[|s.log|];
      && EntriesFor(NewEntries(s, Inject), n) == [entry]
      && Patched(entry, c) && (e.Some? ==> Follows(e.value, entry, c))
      && Timed(InjectStep(s), n, c, Some(entry))
  {
    var s', t := InjectStep(s), s.phase.todo[0];
    var entry := s'.log[|s.log|];
    assert EntriesFor([entry], n) == [entry];
    InjectEntry(s);
    OwnTicket(s);
    assert s.phase.stamp <= s.now;
    hide InjectStep; hide Safe; hide EntriesFor; hide NewEntries;
    assert DrawnTiming(s, t, c, e);
    PatchBySettings(entry, t.config, c);
    CommittedBySettings(s'.phase.done, s.phase.stamp, entry, t.config, c);
    hide Patched; hide Committed; hide PacketInterval; hide Follows;
    if e.Some? { ElapsedFollows(e.value, entry, c); }
    hide Elapsed; hide SameSettings;
  }

  lemma OwnTicket(s: State)
    requires Safe(s) && Enabled(s, Inject)
    ensures var t := s.phase.todo[0];
      && TicketOf(Pending(s.phase), t.name) == Some(t) && TicketOf(s.phase.todo[1..], t.name).None?
  {
    TicketMissing(s.phase.todo[1..], s.phase.todo[0].name);
  }

  lemma InjectTimed(s: State, n: Name, c: QueueConfig, e: Option<Injection>)
    requires Safe(s) && Enabled(s, Inject) && Timed(s, n, c, e)
    ensures var entries := EntriesFor(NewEntries(s, Inject), n);
      Spaced(e, entries, c) && Timed(InjectStep(s), n, c, Last(e, entries))
  {
    if s.phase.todo[0].name == n {
      InjectOwnTimed(s, n, c, e);
      hide Safe; hide Patched; hide Follows; hide Timed; hide InjectStep; hide NewEntries; hide EntriesFor;
      assert Spaced(Some(InjectStep(s).log[|s.log|]), [], c);
    } else {
      InjectOtherTimed(s, n, c, e);
    }
  }

  lemma CommitTimed(s: State, n: Name, c: QueueConfig, e: Option<Injection>)
    requires Safe(s) && Enabled(s, Commit) && Timed(s, n, c, e)
    ensures Timed(CommitStep(s), n, c, e)
  {
    assert Pending(CommitStep(s).phase) == s.phase.todo;
  }

  lemma ThreadTimed(s: State, ev: Event, n: Name, c: QueueConfig, e: Option<Injection>)
    requires Safe(s) && Enabled(s, ev) && !EndsEpoch(ev, n) && Timed(s, n, c, e)
    requires !ev.Select? && !ev.Inject? && !ev.Commit?
    ensures Timed(Step(s, ev), n, c, e)
  {
    hide Safe; hide NameOf; hide TimestampOf;
  }

  lemma StepTimed(s: State, ev: Event, n: Name, c: QueueConfig, e: Option<Injection>)
    requires Safe(s) && Enabled(s, ev) && !EndsEpoch(ev, n) && Timed(s, n, c, e)
    ensures var entries := EntriesFor(NewEntries(s, ev), n);
      Spaced(e, entries, c) && Timed(Step(s, ev), n, c, Last(e, entries))
  {
    hide Safe; hide Timed;
    match ev
    case Select(order) =>
      if order == [] {
        EmptySelectTimed(s, n, c, e);
      } else {
        SelectTimed(s, order, n, c, e);
      }
    case Inject => InjectTimed(s, n, c, e);
    case Commit => CommitTimed(s, n, c, e);
    case _ => ThreadTimed(s, ev, n, c, e);
  }

  lemma EmptySelectTimed(s: State, n: Name, c: QueueConfig, e: Option<Injection>)
    requires s.phase.Sampled? && Timed(s, n, c, e)
    ensures Timed(SelectStep(s, []), n, c, e)
  {
  }

  // ---------------------------------------------------------------- runs

  lemma {:induction false} RunSpaced(s: State, es: seq<Event>, n: Name, c: QueueConfig, e: Option<Injection>)
    requires Safe(s) && ValidRun(s, es) && WithinEpoch(es, n) && Timed(s, n, c, e)
    ensures Spaced(e, EntriesFor(NewEntriesInRun(s, es), n), c)
    decreases |es|
  {
    if es == [] {
      return;
    }
    hide Safe; hide Enabled; hide Step; hide NewEntries; hide EndsEpoch; hide Timed; hide Spaced; hide EntriesFor;
    var ev, rest := es[0], es[1..];
    var s', entries := Step(s, ev), EntriesFor(NewEntries(s, ev), n);
    StepSafe(s, ev);
    StepTimed(s, ev, n, c, e);
    RunSpaced(s', rest, n, c, Last(e, entries));
    EntriesAppend(NewEntries(s, ev), NewEntriesInRun(s', rest), n);
    SpacedAppend(e, entries, EntriesFor(NewEntriesInRun(s', rest), n), c);
  }

  /** In every run of an epoch, from any moment at which no packet of the queue is in flight, each
      injection of the queue is the accepted packet, patched as configured, and follows the one before it in
      order and in time. */
  lemma InjectionSpacing(s: State, es: seq<Event>, n: Name)
    requires Safe(s) && ValidRun(s, es) && WithinEpoch(es, n)
    requires n in s.configs && !Drawn(s.phase, n)
    ensures Successive(EntriesFor(NewEntriesInRun(s, es), n), s.configs[n])
  {
    RunSpaced(s, es, n, s.configs[n], None);
    SpacedPairs(None, EntriesFor(NewEntriesInRun(s, es), n), s.configs[n]);
  }

  /** Between the calls themselves at most the first tick's delay, from clock sample to call, is missing from
      the interval. */
  lemma CallSpacing(s: State, es: seq<Event>, n: Name)
    requires Safe(s) && ValidRun(s, es) && WithinEpoch(es, n)
    requires n in s.configs && !Drawn(s.phase, n)
    ensures var log := EntriesFor(NewEntriesInRun(s, es), n);
      forall i :: 0 <= i < |log| - 1 && log[i].last ==>
        log[i + 1].at - log[i].at >= s.configs[n].interval - (log[i].at - log[i].stamp)
  {
    InjectionSpacing(s, es, n);
    hide Successive;
    CallGaps(EntriesFor(NewEntriesInRun(s, es), n), s.configs[n]);
  }

  lemma CallGaps(log: seq<Injection>, c: QueueConfig)
    requires Successive(log, c)
    ensures forall i :: 0 <= i < |log| - 1 && log[i].last ==>
      log[i + 1].at - log[i].at >= c.interval - (log[i].at - log[i].stamp)
  {
    forall i | 0 <= i < |log| - 1 && log[i].last
      ensures log[i + 1].at - log[i].at >= c.interval - (log[i].at - log[i].stamp)
    {
      assert Follows(log[i], log[i + 1], c);
    }
  }

  // ---------------------------------------------------------------- what the stamps are

  /** The sample of the tick under way, if it has one, lies between these times. */
  ghost predicate SampledWithin(p: Phase, from: nat, to: nat) {
    p.Injecting? || p.Committing? ==> from <= p.stamp <= to
  }

  lemma StepStamped(s: State, e: Event, from: nat)
    requires Safe(s) && Enabled(s, e) && from <= s.now && SampledWithin(s.phase, from, s.now)
    ensures s.now <= Step(s, e).now && SampledWithin(Step(s, e).phase, from, Step(s, e).now)
    ensures forall i :: 0 <= i < |NewEntries(s, e)| ==>
      from <= NewEntries(s, e)[i].stamp <= NewEntries(s, e)[i].at == s.now
  {
    if e.Inject? {
      FrontInRange(s);
      InjectEntry(s);
      InjectOutcome(s);
    } else {
      LogGrows(s, e);
    }
    hide Safe; hide NameOf; hide ConfigOf; hide ReceiveStep;
  }

  /** Over every run that starts before a tick's second sample, every call carries a sample taken during the run, no
      later than the call. */
  lemma {:induction false} StampsAreSamples(s: State, es: seq<Event>, from: nat)
    requires Safe(s) && ValidRun(s, es) && from <= s.now && SampledWithin(s.phase, from, s.now)
    ensures forall i :: 0 <= i < |NewEntriesInRun(s, es)| ==>
      var call := NewEntriesInRun(s, es)[i];
      from <= call.stamp <= call.at && s.now <= call.at <= Run(s, es).now
    ensures s.now <= Run(s, es).now
    decreases |es|
  {
    if es != [] {
      hide Safe; hide Enabled; hide Step; hide NewEntries; hide SampledWithin;
      StepSafe(s, es[0]);
      StepStamped(s, es[0], from);
      StampsAreSamples(Step(s, es[0]), es[1..], from);
    }
  }
}
