/** The state invariant of the scheduler, kept by every step from every thread, and what it gives:
    the one-byte packet index never wraps or leaves its group, and no empty queue is popped. */
module SchedulerSafety {
  import opened Words
  import opened SchedulerModel

  const MAX_GROUP := 255

  ghost predicate WaitingOk(g: Group) {
    1 <= |g.packets| <= MAX_GROUP && g.index == 0
  }

  ghost predicate ActiveOk(g: Group) {
    1 <= |g.packets| <= MAX_GROUP && g.index < |g.packets|
  }

  ghost predicate DistinctNames(ts: seq<Ticket>) {
    forall i, j :: 0 <= i < j < |ts| ==> ts[i].name != ts[j].name
  }

  /** Either the queue's active group is the ticket's group, or the queue was re-registered,
      unregistered or cleared since the ticket was drawn and has no active group. */
  ghost predicate TicketOk(s: State, t: Ticket) {
    && ActiveOk(t.group)
    && (t.name in s.configs && s.configs[t.name].hasActive ==> s.configs[t.name].active == t.group)
  }

  /** The group being committed is the drawn group, one packet further. */
  ghost predicate DoneOk(s: State, t: Ticket) {
    && 1 <= t.group.index <= |t.group.packets| <= MAX_GROUP
    && (t.name in s.configs && s.configs[t.name].hasActive ==>
          && ActiveOk(s.configs[t.name].active)
          && t.group.index == s.configs[t.name].active.index + 1
          && |t.group.packets| == |s.configs[t.name].active.packets|
          && t.group.packets[t.group.index..] == s.configs[t.name].active.packets[t.group.index..])
  }

  /** Between the ticks that serve it, an active group has at least one packet behind it. */
  ghost predicate StartedUnlessServed(s: State, n: Name)
    requires n in s.configs
  {
    s.configs[n].hasActive && TicketOf(Pending(s.phase), n).None? && !IsCommitting(s.phase, n)
    ==> s.configs[n].active.index >= 1
  }

  /** An unfinished group has room for one more packet; waiting groups are whole and untouched. */
  ghost predicate GroupsOk(s: State) {
    && (forall n :: n in s.incomplete ==> |s.incomplete[n].packets| <= MAX_GROUP - 1)
    && (forall n, i :: n in s.queues && 0 <= i < |s.queues[n]| ==> WaitingOk(s.queues[n][i]))
  }

  ghost predicate Safe(s: State) {
    && GroupsOk(s)
    && (forall n :: n in s.configs ==> s.configs[n].hasActive ==> ActiveOk(s.configs[n].active))
    && (forall n :: n in s.configs ==> StartedUnlessServed(s, n))
    && DistinctNames(Pending(s.phase))
    && (forall i :: 0 <= i < |Pending(s.phase)| ==> TicketOk(s, Pending(s.phase)[i]))
    && (s.phase.Injecting? ==> s.phase.todo != [])
    && (s.phase.Selected? ==> s.phase.chosen != [])
    && (s.phase.Committing? ==>
          && DoneOk(s, s.phase.done)
          && TicketOf(Pending(s.phase), s.phase.done.name).None?)
    && (s.phase.Sampled? ==> s.phase.at <= s.now)
    && (s.phase.Injecting? || s.phase.Committing? ==> s.phase.stamp <= s.now)
  }

  /** One step of the whole system. That its body is well formed is the index-safety theorem: under
      `Safe`, every packet index is in range and every popped queue is non-empty. */
  ghost function Step(s: State, e: Event): State
    requires Safe(s) && Enabled(s, e)
  {
    match e
    case Advance(ms) => s.(now := s.now + ms)
    case Register(m) => RegisterStep(s, m)
    case Unregister(n) => UnregisterStep(s, n)
    case Clear => ClearStep(s)
    case Receive(n, p) => ReceiveStep(s, n, p)
    case Sample => s.(phase := Sampled(s.now))
    case Select(order) => OrderServable(s, order, s.phase.at); SelectStep(s, order)
    case Stamp => s.(phase := Injecting(s.now, s.phase.chosen))
    case Inject => InjectStep(s)
    case Commit => CommitStep(s)
  }

  // ---------------------------------------------------------------- tickets

  lemma {:induction false} TicketFound(ts: seq<Ticket>, i: nat)
    requires DistinctNames(ts) && i < |ts|
    ensures TicketOf(ts, ts[i].name) == Some(ts[i])
  {
    if i > 0 {
      assert ts[0].name != ts[i].name;
      assert ts[1..][i - 1] == ts[i];
      TicketFound(ts[1..], i - 1);
    }
  }

  lemma {:induction false} TicketIndex(ts: seq<Ticket>, n: Name) returns (i: nat)
    requires TicketOf(ts, n).Some?
    ensures i < |ts| && ts[i] == TicketOf(ts, n).value && ts[i].name == n
  {
    if ts[0].name == n {
      i := 0;
    } else {
      i := TicketIndex(ts[1..], n);
      i := i + 1;
    }
  }

  lemma {:induction false} TicketMissing(ts: seq<Ticket>, n: Name)
    requires forall i :: 0 <= i < |ts| ==> ts[i].name != n
    ensures TicketOf(ts, n).None?
  {
    if ts != [] {
      TicketMissing(ts[1..], n);
    }
  }

  lemma FrontInRange(s: State)
    requires Safe(s) && s.phase.Injecting?
    ensures s.phase.todo != [] && s.phase.todo[0].group.index < |s.phase.todo[0].group.packets| <= MAX_GROUP
  {
    assert TicketOk(s, Pending(s.phase)[0]);
  }

  // ---------------------------------------------------------------- preservation

  lemma RegisterSafe(s: State, m: QueueConfigMessage)
    requires Safe(s) && m.Valid()
    ensures Safe(RegisterStep(s, m))
  {
  }

  lemma UnregisterSafe(s: State, n: Name)
    requires Safe(s)
    ensures Safe(UnregisterStep(s, n))
  {
  }

  lemma ReceiveGroupsOk(s: State, n: Name, p: Packet)
    requires GroupsOk(s)
    ensures GroupsOk(ReceiveStep(s, n, p))
  {
  }

  lemma OnlyGroupsChange(s: State, s': State)
    requires Safe(s) && GroupsOk(s') && s' == s.(queues := s'.queues, incomplete := s'.incomplete)
    ensures Safe(s')
  {
    hide TicketOf;
    forall n | n in s'.configs
      ensures StartedUnlessServed(s', n)
    {
      assert StartedUnlessServed(s, n);
    }
    forall i | 0 <= i < |Pending(s'.phase)|
      ensures TicketOk(s', Pending(s'.phase)[i])
    {
      assert TicketOk(s, Pending(s.phase)[i]);
    }
  }

  lemma ReceiveSafe(s: State, n: Name, p: Packet)
    requires Safe(s)
    ensures Safe(ReceiveStep(s, n, p))
  {
    hide TicketOf; hide DoneOk; hide StartedUnlessServed;
    ReceiveGroupsOk(s, n, p);
    OnlyGroupsChange(s, ReceiveStep(s, n, p));
  }

  lemma SelectTicketsOk(s: State, order: seq<Name>)
    requires Safe(s) && Enabled(s, Select(order)) && order != []
    ensures Servable(s, order)
    ensures var s' := SelectStep(s, order);
      && DistinctNames(Pending(s'.phase))
      && forall i :: 0 <= i < |Pending(s'.phase)| ==> TicketOk(s', Pending(s'.phase)[i])
  {
    OrderServable(s, order, s.phase.at);
    var s', chosen := SelectStep(s, order), Chosen(order);
    var ts := Pending(s'.phase);
    forall i | 0 <= i < |ts|
      ensures TicketOk(s', ts[i])
    {
      var n := chosen[i];
      assert n == order[i] && n in chosen;
      assert s'.configs[n] == Activated(s, n);
      if !s.configs[n].hasActive {
        assert WaitingOk(s.queues[n][0]);
      }
    }
  }

  lemma SelectMapsOk(s: State, order: seq<Name>)
    requires Safe(s) && Enabled(s, Select(order)) && order != []
    ensures Servable(s, order)
    ensures var s' := SelectStep(s, order);
      && (forall n, i :: n in s'.queues && 0 <= i < |s'.queues[n]| ==> WaitingOk(s'.queues[n][i]))
      && (forall n :: n in s'.configs ==> s'.configs[n].hasActive ==> ActiveOk(s'.configs[n].active))
  {
    OrderServable(s, order, s.phase.at);
    var s' := SelectStep(s, order);
    forall n, i | n in s'.queues && 0 <= i < |s'.queues[n]|
      ensures WaitingOk(s'.queues[n][i])
    {
      var k := if s'.queues[n] == s.queues[n] then i else i + 1;
      assert WaitingOk(s.queues[n][k]);
    }
    forall n | n in s'.configs && s'.configs[n].hasActive
      ensures ActiveOk(s'.configs[n].active)
    {
      if n in Chosen(order) && !s.configs[n].hasActive {
        assert WaitingOk(s.queues[n][0]);
      }
    }
  }

  lemma SelectSafe(s: State, order: seq<Name>)
    requires Safe(s) && Enabled(s, Select(order))
    ensures Servable(s, order) && Safe(SelectStep(s, order))
  {
    OrderServable(s, order, s.phase.at);
    if order != [] {
      SelectTicketsOk(s, order);
      SelectMapsOk(s, order);
      var s', chosen := SelectStep(s, order), Chosen(order);
      forall n | n in s'.configs
        ensures StartedUnlessServed(s', n)
      {
        if n in chosen {
          var i :| 0 <= i < |chosen| && chosen[i] == n;
          assert Pending(s'.phase)[i].name == n;
          TicketFound(Pending(s'.phase), i);
        } else {
          assert StartedUnlessServed(s, n);
        }
      }
    }
  }

  lemma SameGroups(s: State, s': State)
    requires GroupsOk(s) && s'.queues == s.queues && s'.incomplete == s.incomplete
    ensures GroupsOk(s')
  {
  }

  /** An injection changes the log and the phase; the ticket's group moves one packet on. */
  lemma InjectOutcome(s: State)
    requires Safe(s) && Enabled(s, Inject)
    ensures var t, s' := s.phase.todo[0], InjectStep(s);
      && s'.phase.Committing?
      && var d := s'.phase.done;
      && s' == s.(log := s'.log, phase := Committing(s.phase.stamp, d, s.phase.todo[1..]))
      && d.name == t.name && d.group.index == t.group.index + 1 <= |d.group.packets| == |t.group.packets| <= MAX_GROUP
      && d.group.packets[d.group.index..] == t.group.packets[d.group.index..]
  {
    hide Safe; hide PatchPacket; hide PacketInterval;
    FrontInRange(s);
  }

  lemma InjectSafe(s: State)
    requires Safe(s) && Enabled(s, Inject)
    ensures Safe(InjectStep(s))
  {
    hide GroupsOk; hide InjectStep;
    InjectOutcome(s);
    var s' := InjectStep(s);
    SameGroups(s, s');
    var t := s.phase.todo[0];
    assert TicketOk(s, t);
    TicketMissing(s.phase.todo[1..], t.name);
    forall i | 0 <= i < |Pending(s'.phase)|
      ensures TicketOk(s', Pending(s'.phase)[i])
    {
      assert TicketOk(s, s.phase.todo[i + 1]);
    }
    forall n | n in s'.configs
      ensures StartedUnlessServed(s', n)
    {
      assert StartedUnlessServed(s, n);
    }
  }

  lemma CommitSafe(s: State)
    requires Safe(s) && Enabled(s, Commit)
    ensures Safe(CommitStep(s))
  {
    var s' := CommitStep(s);
    var todo, n := s.phase.todo, s.phase.done.name;
    assert Pending(s'.phase) == todo;
    forall i | 0 <= i < |todo|
      ensures TicketOk(s', todo[i])
    {
      TicketFound(todo, i);
      assert TicketOk(s, todo[i]);
    }
    forall m | m in s'.configs
      ensures StartedUnlessServed(s', m)
    {
      assert m != n ==> StartedUnlessServed(s, m);
    }
  }

  lemma QuietSafe(s: State, e: Event)
    requires Safe(s) && Enabled(s, e) && (e.Advance? || e.Clear? || e.Sample? || e.Stamp?)
    ensures Safe(Step(s, e))
  {
    hide NameOf;
  }

  lemma StepSafe(s: State, e: Event)
    requires Safe(s) && Enabled(s, e)
    ensures Safe(Step(s, e))
  {
    hide Safe;
    match e
    case Advance(_) => QuietSafe(s, e);
    case Register(m) => RegisterSafe(s, m);
    case Unregister(n) => UnregisterSafe(s, n);
    case Clear => QuietSafe(s, e);
    case Receive(n, p) => ReceiveSafe(s, n, p);
    case Sample => QuietSafe(s, e);
    case Select(order) => SelectSafe(s, order);
    case Stamp => QuietSafe(s, e);
    case Inject => InjectSafe(s);
    case Commit => CommitSafe(s);
  }

  // ---------------------------------------------------------------- runs

  ghost predicate ValidRun(s: State, es: seq<Event>)
    decreases |es|
  {
    es == [] || (Safe(s) && Enabled(s, es[0]) && ValidRun(Step(s, es[0]), es[1..]))
  }

  ghost function Run(s: State, es: seq<Event>): State
    requires ValidRun(s, es)
    decreases |es|
  {
    if es == [] then s else Run(Step(s, es[0]), es[1..])
  }

  /** Every interleaving of registrations, requests and split ticks stays safe. */
  lemma {:induction false} RunSafe(s: State, es: seq<Event>)
    requires Safe(s) && ValidRun(s, es)
    ensures Safe(Run(s, es))
    decreases |es|
  {
    if es != [] {
      StepSafe(s, es[0]);
      RunSafe(Step(s, es[0]), es[1..]);
    }
  }

  /** The safety check inside a run rules nothing out: a run goes on by exactly the events the code enables. */
  lemma {:induction false} RunGoesOn(s: State, es: seq<Event>, e: Event)
    requires Safe(s) && ValidRun(s, es)
    ensures ValidRun(s, es + [e]) <==> Enabled(Run(s, es), e)
    ensures Safe(Run(s, es))
    ensures Enabled(Run(s, es), e) ==> Run(s, es + [e]) == Step(Run(s, es), e)
    decreases |es|
  {
    RunSafe(s, es);
    hide Safe; hide Enabled; hide Step;
    var more := es + [e];
    if es == [] {
      assert more == [e] && more[1..] == [];
    } else {
      assert more[0] == es[0] && more[1..] == es[1..] + [e];
      StepSafe(s, es[0]);
      RunGoesOn(Step(s, es[0]), es[1..], e);
    }
  }

  lemma StartSafe()
    ensures Safe(INITIAL)
  {
  }

  /** From the start, at every moment of every interleaving: the packet a tick is about to hand over
      exists, incrementing its one-byte index does not wrap, and an advanced group that still has
      packets is in range for its next turn. */
  lemma ByteIndexNeverWraps(es: seq<Event>)
    requires ValidRun(INITIAL, es)
    ensures Safe(Run(INITIAL, es))
    ensures var p := Run(INITIAL, es).phase; p.Injecting? ==>
      && p.todo != []
      && p.todo[0].group.index < |p.todo[0].group.packets| <= MAX_GROUP
      && Advanced(p.todo[0], p.stamp).index == p.todo[0].group.index + 1
  {
    hide Enabled; hide Step; hide ValidRun; hide Run; hide PatchPacket; hide PacketInterval;
    StartSafe();
    RunSafe(INITIAL, es);
    var s := Run(INITIAL, es);
    if s.phase.Injecting? {
      FrontInRange(s);
    }
  }
}
