/** Refinement of a plain FIFO, one per queue name: whatever the interleaving, the packets handed to
    InjectSinglePacket followed by the ones the scheduler still holds are the accepted packets in
    arrival order; registering, unregistering and clearing only delete from the held ones. */
module SchedulerFifo {
  import opened Words
  import opened SchedulerModel
  import opened SchedulerSafety

  // ---------------------------------------------------------------- the held packets

  function GroupPackets(gs: seq<Group>): seq<Packet> {
    if gs == [] then [] else gs[0].packets + GroupPackets(gs[1..])
  }

  /** The packets of `g` from position `k` on. */
  function From(g: Group, k: nat): seq<Packet> {
    if k <= |g.packets| then g.packets[k..] else []
  }

  /** The packet a drawn ticket is about to hand over. */
  function InFlight(p: Phase, n: Name): seq<Packet> {
    match TicketOf(Pending(p), n)
    case Some(t) => if t.group.index < |t.group.packets| then [t.group.packets[t.group.index]] else []
    case None => []
  }

  /** A tick has drawn queue `n` and not committed it yet. */
  predicate Drawn(p: Phase, n: Name) {
    TicketOf(Pending(p), n).Some? || IsCommitting(p, n)
  }

  /** The active group's packets behind the one in flight. */
  function ActiveRest(s: State, n: Name): seq<Packet> {
    if n in s.configs && s.configs[n].hasActive then
      From(s.configs[n].active, s.configs[n].active.index + if Drawn(s.phase, n) then 1 else 0)
    else []
  }

  /** Everything held for queue `n`, in the order it will be handed over. */
  function Backlog(s: State, n: Name): seq<Packet> {
    InFlight(s.phase, n) + ActiveRest(s, n) + GroupPackets(Waiting(s, n)) + Partial(s, n)
  }

  // ---------------------------------------------------------------- what a run takes in and hands out

  /** The packet of queue `n` that this step accepts. */
  ghost function Accepted(s: State, e: Event, n: Name): seq<Packet> {
    if e.Receive? && e.name == n && n in s.configs then [e.packet] else []
  }

  ghost function AcceptedInRun(s: State, es: seq<Event>, n: Name): seq<Packet>
    requires ValidRun(s, es)
    decreases |es|
  {
    if es == [] then [] else Accepted(s, es[0], n) + AcceptedInRun(Step(s, es[0]), es[1..], n)
  }

  /** The packets of queue `n` among some calls of InjectSinglePacket, before timestamp patching. */
  function InjectedPackets(log: seq<Injection>, n: Name): seq<Packet> {
    if log == [] then []
    else if log[0].name == n then [log[0].original] + InjectedPackets(log[1..], n)
    else InjectedPackets(log[1..], n)
  }

  lemma {:induction false} InjectedAppend(log: seq<Injection>, more: seq<Injection>, n: Name)
    ensures InjectedPackets(log + more, n) == InjectedPackets(log, n) + InjectedPackets(more, n)
  {
    if log == [] {
      assert log + more == more;
    } else {
      assert (log + more)[1..] == log[1..] + more;
      InjectedAppend(log[1..], more, n);
    }
  }

  /** Events that may delete held packets of queue `n`: they end a registration epoch. */
  predicate EndsEpoch(e: Event, n: Name) {
    match e
    case Register(m) => NameOf(m.queueName) == n
    case Unregister(m) => m == n
    case Clear => true
    case _ => false
  }

  predicate WithinEpoch(es: seq<Event>, n: Name) {
    es == [] || (!EndsEpoch(es[0], n) && WithinEpoch(es[1..], n))
  }

  // ---------------------------------------------------------------- one step

  /** The calls of InjectSinglePacket that a step adds to the log. */
  ghost function NewEntries(s: State, e: Event): seq<Injection>
    requires Safe(s) && Enabled(s, e)
  {
    if e.Inject? then [InjectStep(s).log[|s.log|]] else []
  }

  lemma LogGrows(s: State, e: Event)
    requires Safe(s) && Enabled(s, e)
    ensures Step(s, e).log == s.log + NewEntries(s, e)
  {
    if e.Select? {
      OrderServable(s, e.order, s.phase.at);
    }
  }

  lemma {:induction false} GroupPacketsAppend(gs: seq<Group>, g: Group)
    ensures GroupPackets(gs + [g]) == GroupPackets(gs) + g.packets
  {
    if gs == [] {
      assert gs + [g] == [g];
      assert GroupPackets([g]) == g.packets + GroupPackets([]);
    } else {
      assert (gs + [g])[1..] == gs[1..] + [g];
      GroupPacketsAppend(gs[1..], g);
    }
  }

  /** `out` leaves the head of the queue, possibly by way of the part in flight. */
  lemma BacklogShift(s: State, s': State, n: Name, out: seq<Packet>)
    requires Partial(s', n) == Partial(s, n)
    requires
      || (&& InFlight(s.phase, n) == out + InFlight(s'.phase, n)
          && ActiveRest(s, n) == ActiveRest(s', n)
          && Waiting(s', n) == Waiting(s, n))
      || (&& InFlight(s.phase, n) == [] && out == []
          && ActiveRest(s, n) == InFlight(s'.phase, n) + ActiveRest(s', n)
          && Waiting(s', n) == Waiting(s, n))
      || (&& InFlight(s.phase, n) == ActiveRest(s, n) == [] && out == []
          && GroupPackets(Waiting(s, n))
          == InFlight(s'.phase, n) + ActiveRest(s', n) + GroupPackets(Waiting(s', n)))
    ensures Backlog(s, n) == out + Backlog(s', n)
  {
    hide InFlight; hide ActiveRest; hide Waiting; hide Partial; hide GroupPackets;
    var f, a, g, p := InFlight(s'.phase, n), ActiveRest(s', n), GroupPackets(Waiting(s', n)), Partial(s', n);
    Associative(out, f, a);
    Associative(out, f + a, g);
    Associative(out, f + a + g, p);
    EmptyUnit(f + a);
    EmptyUnit(f + a + g);
    EmptyUnit(f + a + g + p);
    EmptyUnit<Packet>([]);
  }

  lemma ReceiveParts(s: State, m: Name, p: Packet, n: Name)
    ensures var s' := ReceiveStep(s, m, p);
      && InFlight(s'.phase, n) == InFlight(s.phase, n)
      && ActiveRest(s', n) == ActiveRest(s, n)
      && GroupPackets(Waiting(s', n)) + Partial(s', n)
      == GroupPackets(Waiting(s, n)) + Partial(s, n) + Accepted(s, Receive(m, p), n)
  {
    hide InFlight; hide GroupPackets; hide Drawn; hide From;
    var s' := ReceiveStep(s, m, p);
    assert s'.phase == s.phase && s'.configs == s.configs;
    if m == n && n in s.configs {
      ReceiveOwn(s, n, p);
    } else {
      assert Waiting(s', n) == Waiting(s, n) && Partial(s', n) == Partial(s, n);
      EmptyUnit(GroupPackets(Waiting(s, n)) + Partial(s, n));
    }
  }

  /** The packet ends up last, in the incomplete group or in the group it completes. */
  lemma ReceiveOwn(s: State, n: Name, p: Packet)
    requires n in s.configs
    ensures var s' := ReceiveStep(s, n, p);
      GroupPackets(Waiting(s', n)) + Partial(s', n) == GroupPackets(Waiting(s, n)) + Partial(s, n) + [p]
  {
    var s' := ReceiveStep(s, n, p);
    var all := Partial(s, n) + [p];
    Associative(GroupPackets(Waiting(s, n)), Partial(s, n), [p]);
    if |all| >= s.configs[n].packetCount {
      var g := s'.queues[n][|s'.queues[n]| - 1];
      assert Waiting(s', n) == Waiting(s, n) + [g] && g.packets == all && Partial(s', n) == [];
      GroupPacketsAppend(Waiting(s, n), g);
      EmptyUnit(GroupPackets(Waiting(s', n)));
    } else {
      assert Waiting(s', n) == Waiting(s, n) && Partial(s', n) == all;
    }
    hide ReceiveStep; hide GroupPackets; hide Waiting; hide Partial;
  }

  lemma ReceiveBacklog(s: State, m: Name, p: Packet, n: Name)
    ensures Backlog(ReceiveStep(s, m, p), n) == Backlog(s, n) + Accepted(s, Receive(m, p), n)
  {
    ReceiveParts(s, m, p, n);
    hide ReceiveStep; hide InFlight; hide ActiveRest; hide Waiting; hide Partial; hide GroupPackets; hide Accepted;
    var s', front := ReceiveStep(s, m, p), InFlight(s.phase, n) + ActiveRest(s, n);
    Associative(front, GroupPackets(Waiting(s, n)), Partial(s, n));
    Associative(front, GroupPackets(Waiting(s', n)), Partial(s', n));
    Associative(front, GroupPackets(Waiting(s, n)) + Partial(s, n), Accepted(s, Receive(m, p), n));
  }

  /** Drawing a ticket moves the front packet in flight, out of the active or the next waiting group. */
  lemma DrawnParts(s: State, s': State, n: Name, g: Group)
    requires n in s.configs && Candidate(s, n) == Some(g) && ActiveOk(g)
    requires !s.configs[n].hasActive ==> g.index == 0
    requires TicketOf(Pending(s.phase), n).None? && !IsCommitting(s.phase, n)
    requires TicketOf(Pending(s'.phase), n).Some? && TicketOf(Pending(s'.phase), n).value.group == g
    requires n in s'.configs && s'.configs[n] == Activated(s, n)
    requires Waiting(s', n) == if s.configs[n].hasActive then Waiting(s, n) else Waiting(s, n)[1..]
    ensures InFlight(s.phase, n) == []
    ensures s.configs[n].hasActive ==> ActiveRest(s, n) == InFlight(s'.phase, n) + ActiveRest(s', n)
    ensures !s.configs[n].hasActive ==>
      && ActiveRest(s, n) == []
      && GroupPackets(Waiting(s, n)) == InFlight(s'.phase, n) + ActiveRest(s', n) + GroupPackets(Waiting(s', n))
  {
    var flight, rest := [g.packets[g.index]], g.packets[g.index + 1..];
    assert g.packets[g.index..] == flight + rest;
    assert InFlight(s'.phase, n) == flight && ActiveRest(s', n) == rest;
    if !s.configs[n].hasActive {
      assert g.packets[0..] == g.packets;
    }
  }

  lemma SelectBacklog(s: State, order: seq<Name>, n: Name)
    requires Safe(s) && Enabled(s, Select(order)) && order != []
    ensures Servable(s, order) && Backlog(s, n) == [] + Backlog(SelectStep(s, order), n)
  {
    OrderServable(s, order, s.phase.at);
    SelectFrame(s, order, n);
    if n in Chosen(order) {
      SelectDraws(s, order, n);
      DrawnParts(s, SelectStep(s, order), n, Candidate(s, n).value);
    } else {
      SelectSkips(s, order, n);
    }
    hide Safe; hide Enabled; hide Servable; hide SelectStep; hide Candidate; hide Backlog;
    BacklogShift(s, SelectStep(s, order), n, []);
  }

  lemma SelectFrame(s: State, order: seq<Name>, n: Name)
    requires Servable(s, order) && order != []
    ensures var s' := SelectStep(s, order);
      && Partial(s', n) == Partial(s, n)
      && (n !in Chosen(order) ==>
            && Waiting(s', n) == Waiting(s, n)
            && (n in s'.configs <==> n in s.configs)
            && (n in s.configs ==> s'.configs[n] == s.configs[n]))
      && (n in Chosen(order) && n in s.configs ==>
            && s'.configs[n] == Activated(s, n)
            && Waiting(s', n) == if s.configs[n].hasActive then Waiting(s, n) else Waiting(s, n)[1..])
  {
  }

  lemma SelectDraws(s: State, order: seq<Name>, n: Name)
    requires Safe(s) && Enabled(s, Select(order)) && n in Chosen(order)
    ensures Servable(s, order) && n in s.configs && Candidate(s, n).Some?
    ensures ActiveOk(Candidate(s, n).value)
    ensures !s.configs[n].hasActive ==> Candidate(s, n).value.index == 0
    ensures TicketOf(Pending(SelectStep(s, order).phase), n)
         == Some(Ticket(n, Activated(s, n), Candidate(s, n).value))
  {
    OrderServable(s, order, s.phase.at);
    SelectTicketsOk(s, order);
    var chosen, ts := Chosen(order), Pending(SelectStep(s, order).phase);
    var i :| 0 <= i < |chosen| && chosen[i] == n;
    TicketFound(ts, i);
    if !s.configs[n].hasActive {
      assert WaitingOk(s.queues[n][0]);
    }
  }

  lemma SelectSkips(s: State, order: seq<Name>, n: Name)
    requires Servable(s, order) && order != [] && n !in Chosen(order) && s.phase.Sampled?
    ensures var s' := SelectStep(s, order);
      InFlight(s'.phase, n) == InFlight(s.phase, n) == [] && ActiveRest(s', n) == ActiveRest(s, n)
  {
    var s', chosen := SelectStep(s, order), Chosen(order);
    var ts := Pending(s'.phase);
    forall i | 0 <= i < |ts| ensures ts[i].name != n {
      assert ts[i].name == chosen[i];
    }
    TicketMissing(ts, n);
  }

  /** What an injection leaves alone, and the entry it logs. */
  lemma InjectFrame(s: State)
    requires Safe(s) && Enabled(s, Inject)
    ensures var t, s' := s.phase.todo[0], InjectStep(s);
      && s'.configs == s.configs && s'.queues == s.queues && s'.incomplete == s.incomplete
      && s'.phase.Committing? && s'.phase.done.name == t.name && s'.phase.todo == s.phase.todo[1..]
      && s'.log[|s.log|].name == t.name && s'.log[|s.log|].original == t.group.packets[t.group.index]
  {
    hide PatchPacket; hide PacketInterval; hide Safe;
  }

  /** The first ticket is the only one of its queue. */
  lemma HeadTicket(s: State, n: Name)
    requires Safe(s) && Enabled(s, Inject)
    ensures var t := s.phase.todo[0];
      && t.group.index < |t.group.packets|
      && TicketOf(s.phase.todo, n) == (if t.name == n then Some(t) else TicketOf(s.phase.todo[1..], n))
      && (t.name == n ==> TicketOf(s.phase.todo[1..], n).None?)
  {
    assert TicketOk(s, Pending(s.phase)[0]);
    TicketMissing(s.phase.todo[1..], s.phase.todo[0].name);
  }

  lemma InjectParts(s: State, n: Name)
    requires Safe(s) && Enabled(s, Inject)
    ensures InFlight(s.phase, n) == InjectedPackets(NewEntries(s, Inject), n) + InFlight(InjectStep(s).phase, n)
    ensures Drawn(s.phase, n) == Drawn(InjectStep(s).phase, n)
  {
    InjectFrame(s);
    HeadTicket(s, n);
    hide Safe; hide InjectStep; hide TicketOf;
    var t, entry := s.phase.todo[0], InjectStep(s).log[|s.log|];
    assert InjectedPackets([entry], n) == if t.name == n then [entry.original] else [];
    hide InjectedPackets;
  }

  lemma InjectBacklog(s: State, n: Name)
    requires Safe(s) && Enabled(s, Inject)
    ensures Backlog(s, n) == InjectedPackets(NewEntries(s, Inject), n) + Backlog(InjectStep(s), n)
  {
    hide Safe; hide InjectStep; hide Drawn; hide From; hide InFlight; hide Backlog; hide InjectedPackets;
    FrontInRange(s);
    InjectParts(s, n);
    InjectFrame(s);
    BacklogShift(s, InjectStep(s), n, InjectedPackets(NewEntries(s, Inject), n));
  }

  /** What a commit changes: the one configuration, and the phase. */
  lemma CommitFrame(s: State)
    requires Safe(s) && Enabled(s, Commit)
    ensures var d, s' := s.phase.done, CommitStep(s);
      && s'.queues == s.queues && s'.incomplete == s.incomplete
      && Pending(s'.phase) == s.phase.todo && !s'.phase.Committing?
      && (forall m :: m != d.name ==> (m in s'.configs <==> m in s.configs))
      && (forall m :: m != d.name && m in s.configs ==> s'.configs[m] == s.configs[m])
      && d.name in s'.configs
      && var c := s'.configs[d.name];
      if d.group.index < |d.group.packets| then
        c.active == d.group && c.hasActive == (d.name in s.configs && s.configs[d.name].hasActive)
      else !c.hasActive
  {
    hide Safe;
  }

  /** The committed group is the stored one with its index moved, as far as packets are still to come. */
  lemma CommittedRest(s: State)
    requires Safe(s) && Enabled(s, Commit)
    ensures var d := s.phase.done;
      && TicketOf(s.phase.todo, d.name).None?
      && (d.name in s.configs && s.configs[d.name].hasActive ==>
            From(d.group, d.group.index) == From(s.configs[d.name].active, s.configs[d.name].active.index + 1))
      && (d.group.index >= |d.group.packets| ==> From(d.group, d.group.index) == [])
  {
    assert DoneOk(s, s.phase.done);
    assert Pending(s.phase) == s.phase.todo;
    hide TicketOf; hide TicketOk;
  }

  lemma CommitParts(s: State, n: Name)
    requires Safe(s) && Enabled(s, Commit)
    ensures var s' := CommitStep(s);
      && InFlight(s'.phase, n) == InFlight(s.phase, n)
      && ActiveRest(s', n) == ActiveRest(s, n)
      && Waiting(s', n) == Waiting(s, n) && Partial(s', n) == Partial(s, n)
  {
    CommitRest(s, n);
    CommitFrame(s);
    hide Safe; hide CommitStep; hide TicketOf; hide ActiveRest; hide Enabled;
  }

  lemma CommitRest(s: State, n: Name)
    requires Safe(s) && Enabled(s, Commit)
    ensures ActiveRest(CommitStep(s), n) == ActiveRest(s, n)
  {
    CommitFrame(s);
    CommittedRest(s);
    assert Pending(s.phase) == s.phase.todo;
    var s', d := CommitStep(s), s.phase.done;
    hide Safe; hide CommitStep; hide TicketOf; hide From; hide Enabled; hide Pending;
    if n == d.name {
      assert Drawn(s.phase, n) && !Drawn(s'.phase, n);
      if d.group.index < |d.group.packets| {
        assert s'.configs[n].active == d.group;
      }
    } else {
      assert Drawn(s.phase, n) == Drawn(s'.phase, n);
    }
  }

  lemma CommitBacklog(s: State, n: Name)
    requires Safe(s) && Enabled(s, Commit)
    ensures Backlog(s, n) == [] + Backlog(CommitStep(s), n)
  {
    CommitParts(s, n);
    hide Safe; hide CommitStep; hide Backlog; hide InFlight; hide ActiveRest; hide Waiting; hide Partial;
    EmptyUnit(InFlight(s.phase, n));
    BacklogShift(s, CommitStep(s), n, []);
  }

  /** Re-registering drops the active group; unregistering and clearing drop everything that is not
      already in flight. Nothing is reordered or added. */
  lemma DropParts(s: State, e: Event, n: Name)
    requires Safe(s) && Enabled(s, e) && (e.Register? || e.Unregister? || e.Clear?)
    ensures var s' := Step(s, e);
      && InFlight(s'.phase, n) == InFlight(s.phase, n)
      && (ActiveRest(s', n) == ActiveRest(s, n) || ActiveRest(s', n) == [])
      && (|| (Waiting(s', n) == Waiting(s, n) && Partial(s', n) == Partial(s, n))
          || (ActiveRest(s', n) == [] && Waiting(s', n) == [] && Partial(s', n) == []))
    ensures !EndsEpoch(e, n) ==>
      && ActiveRest(Step(s, e), n) == ActiveRest(s, n)
      && Waiting(Step(s, e), n) == Waiting(s, n)
      && Partial(Step(s, e), n) == Partial(s, n)
  {
    hide Safe; hide NameOf; hide TimestampOf;
  }

  lemma DropBacklog(s: State, e: Event, n: Name)
    requires Safe(s) && Enabled(s, e) && (e.Register? || e.Unregister? || e.Clear?)
    ensures Subsequence(Backlog(Step(s, e), n), Backlog(s, n))
    ensures !EndsEpoch(e, n) ==> Backlog(Step(s, e), n) == Backlog(s, n)
  {
    var s' := Step(s, e);
    DropParts(s, e, n);
    hide Safe; hide Step; hide Enabled; hide InFlight; hide ActiveRest; hide Waiting; hide Partial; hide GroupPackets;
    hide Subsequence;
    var held, held' := GroupPackets(Waiting(s, n)) + Partial(s, n), GroupPackets(Waiting(s', n)) + Partial(s', n);
    DeletedMiddle(InFlight(s.phase, n), ActiveRest(s, n), held, ActiveRest(s', n), held');
    Associative(InFlight(s.phase, n) + ActiveRest(s, n), GroupPackets(Waiting(s, n)), Partial(s, n));
    Associative(InFlight(s.phase, n) + ActiveRest(s', n), GroupPackets(Waiting(s', n)), Partial(s', n));
  }

  lemma QuietBacklog(s: State, e: Event, n: Name)
    requires Safe(s) && Enabled(s, e)
    requires e.Advance? || e.Sample? || e.Stamp? || (e.Select? && e.order == [])
    ensures Backlog(Step(s, e), n) == Backlog(s, n)
  {
    hide *;
    QuietParts(s, e);
    SameParts(s, Step(s, e), n);
    EmptyUnit(Backlog(Step(s, e), n));
    BacklogShift(s, Step(s, e), n, []);
  }

  lemma QuietParts(s: State, e: Event)
    requires Safe(s) && Enabled(s, e)
    requires e.Advance? || e.Sample? || e.Stamp? || (e.Select? && e.order == [])
    ensures var s' := Step(s, e);
      && s'.configs == s.configs && s'.queues == s.queues && s'.incomplete == s.incomplete
      && Pending(s'.phase) == Pending(s.phase) && (s'.phase.Committing? <==> s.phase.Committing?)
      && (s.phase.Committing? ==> s'.phase == s.phase)
  {
    hide Safe; hide ValidOrder;
  }

  lemma SameParts(s: State, s': State, n: Name)
    requires s'.configs == s.configs && s'.queues == s.queues && s'.incomplete == s.incomplete
    requires Pending(s'.phase) == Pending(s.phase) && (s'.phase.Committing? <==> s.phase.Committing?)
    requires s.phase.Committing? ==> s'.phase == s.phase
    ensures InFlight(s.phase, n) == [] + InFlight(s'.phase, n) && ActiveRest(s, n) == ActiveRest(s', n)
    ensures Waiting(s', n) == Waiting(s, n) && Partial(s', n) == Partial(s, n)
  {
    hide TicketOf; hide From;
  }

  /** The step simulation: a FIFO that appends what is accepted, removes what is handed over, and on
      epoch-ending events may delete. */
  lemma StepRefinesFifo(s: State, e: Event, n: Name)
    requires Safe(s) && Enabled(s, e)
    ensures Safe(Step(s, e))
    ensures Subsequence(InjectedPackets(NewEntries(s, e), n) + Backlog(Step(s, e), n),
                        Backlog(s, n) + Accepted(s, e, n))
    ensures !EndsEpoch(e, n) ==>
      InjectedPackets(NewEntries(s, e), n) + Backlog(Step(s, e), n) == Backlog(s, n) + Accepted(s, e, n)
  {
    hide Safe; hide Backlog; hide Subsequence;
    StepSafe(s, e);
    EmptyUnit(Backlog(s, n));
    EmptyUnit(Backlog(Step(s, e), n));
    if e.Register? || e.Unregister? || e.Clear? {
      DropBacklog(s, e, n);
    } else {
      match e {
        case Receive(m, p) => ReceiveBacklog(s, m, p, n);
        case Select(order) =>
          if order == [] { QuietBacklog(s, e, n); } else { SelectBacklog(s, order, n); }
        case Inject => InjectBacklog(s, n);
        case Commit => CommitBacklog(s, n);
        case Advance(_) => QuietBacklog(s, e, n);
        case Sample => QuietBacklog(s, e, n);
        case Stamp => QuietBacklog(s, e, n);
      }
      SubsequenceReflexive(Backlog(s, n) + Accepted(s, e, n));
    }
  }

  // ---------------------------------------------------------------- every run

  ghost function NewEntriesInRun(s: State, es: seq<Event>): seq<Injection>
    requires ValidRun(s, es)
    decreases |es|
  {
    if es == [] then [] else NewEntries(s, es[0]) + NewEntriesInRun(Step(s, es[0]), es[1..])
  }

  lemma {:induction false} LogOfRun(s: State, es: seq<Event>)
    requires ValidRun(s, es)
    ensures Run(s, es).log == s.log + NewEntriesInRun(s, es)
    decreases |es|
  {
    if es == [] {
      return;
    }
    hide Safe; hide Enabled; hide Step; hide NewEntries;
    LogGrows(s, es[0]);
    LogOfRun(Step(s, es[0]), es[1..]);
    Associative(s.log, NewEntries(s, es[0]), NewEntriesInRun(Step(s, es[0]), es[1..]));
  }

  /** No loss, duplication, reordering or mixing of groups within a registration epoch. */
  lemma {:induction false} FifoWithinEpoch(s: State, es: seq<Event>, n: Name)
    requires Safe(s) && ValidRun(s, es)
    requires WithinEpoch(es, n)
    ensures InjectedPackets(NewEntriesInRun(s, es), n) + Backlog(Run(s, es), n)
         == Backlog(s, n) + AcceptedInRun(s, es, n)
    decreases |es|
  {
    if es == [] {
      EmptyUnit(Backlog(s, n));
      return;
    }
    hide Safe; hide Enabled; hide Step; hide NewEntries; hide Backlog; hide Accepted; hide InjectedPackets;
    hide EndsEpoch;
    var e, rest := es[0], es[1..];
    var s' := Step(s, e);
    StepRefinesFifo(s, e, n);
    FifoWithinEpoch(s', rest, n);
    InjectedAppend(NewEntries(s, e), NewEntriesInRun(s', rest), n);
    ChainEqual(InjectedPackets(NewEntries(s, e), n), Backlog(s', n), Backlog(s, n), Accepted(s, e, n),
               InjectedPackets(NewEntriesInRun(s', rest), n), Backlog(Run(s', rest), n),
               AcceptedInRun(s', rest, n));
  }

  /** On every run whatsoever: nothing is handed over twice, out of order, or without having been
      accepted, even when queues are re-registered, unregistered or cleared in the middle of a tick. */
  lemma {:induction false} FifoOnEveryRun(s: State, es: seq<Event>, n: Name)
    requires Safe(s) && ValidRun(s, es)
    ensures Subsequence(InjectedPackets(NewEntriesInRun(s, es), n) + Backlog(Run(s, es), n),
                        Backlog(s, n) + AcceptedInRun(s, es, n))
    decreases |es|
  {
    if es == [] {
      SubsequenceReflexive(Backlog(s, n));
      EmptyUnit(Backlog(s, n));
      return;
    }
    hide Safe; hide Enabled; hide Step; hide NewEntries; hide Backlog; hide Accepted; hide InjectedPackets;
    hide EndsEpoch;
    hide Subsequence;
    var e, rest := es[0], es[1..];
    var s' := Step(s, e);
    StepRefinesFifo(s, e, n);
    FifoOnEveryRun(s', rest, n);
    InjectedAppend(NewEntries(s, e), NewEntriesInRun(s', rest), n);
    ChainSubsequence(InjectedPackets(NewEntries(s, e), n), Backlog(s', n), Backlog(s, n), Accepted(s, e, n),
                     InjectedPackets(NewEntriesInRun(s', rest), n), Backlog(Run(s', rest), n),
                     AcceptedInRun(s', rest, n));
  }

  lemma NothingHeldYet(n: Name)
    ensures INITIAL.log == [] && Backlog(INITIAL, n) == []
  {
  }

  /** From the start: the log of InjectSinglePacket calls for `n` and the packets still held are a
      subsequence of what clients got accepted for `n`. */
  lemma LogRefinesFifo(es: seq<Event>, n: Name)
    requires ValidRun(INITIAL, es)
    ensures var s := Run(INITIAL, es);
      Subsequence(InjectedPackets(s.log, n) + Backlog(s, n), AcceptedInRun(INITIAL, es, n))
  {
    hide *;
    StartSafe();
    NothingHeldYet(n);
    FifoOnEveryRun(INITIAL, es, n);
    LogOfRun(INITIAL, es);
    EmptyUnit(NewEntriesInRun(INITIAL, es));
    EmptyUnit(AcceptedInRun(INITIAL, es, n));
  }
}
