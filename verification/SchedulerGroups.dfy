/** When a group is complete, and that the groups of an epoch are whole. */
module SchedulerGroups {
  import opened Words
  import opened SchedulerModel
  import opened SchedulerSafety
  import opened SchedulerFifo
  import opened SchedulerSpacing
  import opened SchedulerReach

  // ---------------------------------------------------------------- one packet

  /** An accepted packet joins the unfinished group. It completes the group exactly when that makes `packetCount`
      packets or more; then one group with all of them, begun when its first packet came, goes to the end. */
  lemma AcceptedPacket(s: State, n: Name, p: Packet)
    requires n in s.configs
    ensures var s', all, before := ReceiveStep(s, n, p), Partial(s, n) + [p], Waiting(s, n);
      && (Waiting(s', n) == before <==> |Partial(s, n)| + 1 < s.configs[n].packetCount)
      && (Waiting(s', n) == before ==> Partial(s', n) == all)
      && (Waiting(s', n) != before ==>
            && Partial(s', n) == [] && |Waiting(s', n)| == |before| + 1 && Waiting(s', n)[..|before|] == before
            && var g := Waiting(s', n)[|before|];
            && g.packets == all && g.index == 0
            && g.queuedTime == g.nextTime
            && g.nextTime == if Partial(s, n) == [] then Low32(s.now) else s.incomplete[n].startTime)
  {
    var s' := ReceiveStep(s, n, p);
    assert |Waiting(s', n)| == |Waiting(s, n)| <==> |Partial(s, n)| + 1 < s.configs[n].packetCount;
  }

  // ---------------------------------------------------------------- whole groups

  /** How many packets a group of this many configured packets has. */
  function GroupSize(packetCount: Byte): nat {
    if packetCount == 0 then 1 else packetCount
  }

  /** Every group of queue `n`, wherever it is, has `k` packets, and the unfinished one fewer. */
  ghost predicate Whole(s: State, n: Name, k: nat) {
    && n in s.configs && GroupSize(s.configs[n].packetCount) == k && |Partial(s, n)| < k
    && (forall i :: 0 <= i < |Waiting(s, n)| ==> |Waiting(s, n)[i].packets| == k)
    && (s.configs[n].hasActive ==> |s.configs[n].active.packets| == k)
    && (TicketOf(Pending(s.phase), n).Some? ==> |TicketOf(Pending(s.phase), n).value.group.packets| == k)
    && (IsCommitting(s.phase, n) ==> |s.phase.done.group.packets| == k)
  }

  lemma ReceiveWhole(s: State, m: Name, p: Packet, n: Name, k: nat)
    requires Whole(s, n, k)
    ensures Whole(ReceiveStep(s, m, p), n, k)
  {
    hide TicketOf;
    var s' := ReceiveStep(s, m, p);
    if m == n {
      AcceptedPacket(s, n, p);
      var before := |Waiting(s, n)|;
      assert Waiting(s', n) != Waiting(s, n) ==> |Waiting(s', n)[before].packets| == k;
      forall i | 0 <= i < |Waiting(s', n)|
        ensures |Waiting(s', n)[i].packets| == k
      {
        assert i < before ==> Waiting(s', n)[i] == Waiting(s, n)[i];
      }
    } else {
      assert Waiting(s', n) == Waiting(s, n) && Partial(s', n) == Partial(s, n);
    }
  }

  lemma SelectWhole(s: State, order: seq<Name>, n: Name, k: nat)
    requires Safe(s) && Enabled(s, Select(order)) && Whole(s, n, k)
    ensures Servable(s, order) && Whole(SelectStep(s, order), n, k)
  {
    OrderServable(s, order, s.phase.at);
    if order != [] {
      SelectFrame(s, order, n);
      if n in Chosen(order) {
        SelectDraws(s, order, n);
        TailWhole(Waiting(s, n), k);
      } else {
        SelectSkips(s, order, n);
        SelectLeavesOut(s, order, n);
      }
      assert n in SelectStep(s, order).configs;
    } else {
      assert Waiting(SelectStep(s, order), n) == Waiting(s, n);
    }
  }

  lemma TailWhole(gs: seq<Group>, k: nat)
    requires forall i :: 0 <= i < |gs| ==> |gs[i].packets| == k
    ensures gs != [] ==> |gs[0].packets| == k && forall i :: 0 <= i < |gs[1..]| ==> |gs[1..][i].packets| == k
  {
  }

  lemma InjectWhole(s: State, n: Name, k: nat)
    requires Safe(s) && Enabled(s, Inject) && Whole(s, n, k)
    ensures Whole(Step(s, Inject), n, k)
  {
    hide Safe; hide InjectStep;
    InjectOutcome(s);
    OwnTicket(s);
    var s' := Step(s, Inject);
    assert Waiting(s', n) == Waiting(s, n) && Partial(s', n) == Partial(s, n);
  }

  lemma OtherWhole(s: State, e: Event, n: Name, k: nat)
    requires Safe(s) && Enabled(s, e) && !EndsEpoch(e, n) && Whole(s, n, k)
    requires !e.Receive? && !e.Select? && !e.Inject?
    ensures Whole(Step(s, e), n, k)
  {
    hide Safe; hide TicketOf; hide NameOf; hide TimestampOf;
    var s' := Step(s, e);
    assert Waiting(s', n) == Waiting(s, n) && Partial(s', n) == Partial(s, n);
  }

  lemma StepWhole(s: State, e: Event, n: Name, k: nat)
    requires Safe(s) && Enabled(s, e) && !EndsEpoch(e, n) && Whole(s, n, k)
    ensures Whole(Step(s, e), n, k)
  {
    hide Safe; hide Whole;
    if e.Receive? {
      ReceiveWhole(s, e.name, e.packet, n, k);
    } else if e.Select? {
      SelectWhole(s, e.order, n, k);
    } else if e.Inject? {
      InjectWhole(s, n, k);
    } else {
      OtherWhole(s, e, n, k);
    }
  }

  /** The call is for a packet of a whole group, and ends the group exactly when it is for the last one. */
  ghost predicate InWhole(calls: seq<Injection>, k: nat) {
    forall i :: 0 <= i < |calls| ==> calls[i].index < k && (calls[i].last <==> calls[i].index == k - 1)
  }

  lemma CallInWhole(s: State, e: Event, n: Name, k: nat)
    requires Safe(s) && Enabled(s, e) && Whole(s, n, k)
    ensures InWhole(EntriesFor(NewEntries(s, e), n), k)
  {
    if e.Inject? {
      OwnTicket(s);
      FrontInRange(s);
      InjectEntry(s);
      InjectOutcome(s);
      hide Safe;
      var entry := InjectStep(s).log[|s.log|];
      assert EntriesFor([entry], n) == if entry.name == n then [entry] else [];
    }
  }

  /** Over every run of an epoch whose groups are whole at its start, they stay whole, the waiting ones included, and a
      call ends its group if and only if it is for packet number `k`. */
  lemma {:induction false} GroupsStayWhole(s: State, es: seq<Event>, n: Name, k: nat)
    requires Safe(s) && ValidRun(s, es) && WithinEpoch(es, n) && Whole(s, n, k)
    ensures Whole(Run(s, es), n, k) && InWhole(EntriesFor(NewEntriesInRun(s, es), n), k)
    decreases |es|
  {
    if es != [] {
      hide Safe; hide Enabled; hide Step; hide NewEntries; hide EntriesFor; hide EndsEpoch; hide Whole; hide InWhole;
      var s' := Step(s, es[0]);
      StepSafe(s, es[0]);
      StepWhole(s, es[0], n, k);
      CallInWhole(s, es[0], n, k);
      GroupsStayWhole(s', es[1..], n, k);
      EntriesAppend(NewEntries(s, es[0]), NewEntriesInRun(s', es[1..]), n);
      InWholeAppend(EntriesFor(NewEntries(s, es[0]), n), EntriesFor(NewEntriesInRun(s', es[1..]), n), k);
    }
  }

  lemma InWholeAppend(a: seq<Injection>, b: seq<Injection>, k: nat)
    requires InWhole(a, k) && InWhole(b, k)
    ensures InWhole(a + b, k)
  {
  }

  /** An epoch that starts with nothing held or in flight forms groups of exactly max(1, packetCount) packets, and a
      call is the last of its group exactly when its index is one less. */
  lemma EpochGroupsAreWhole(s: State, es: seq<Event>, n: Name)
    requires Safe(s) && ValidRun(s, es) && WithinEpoch(es, n) && n in s.configs
    requires Waiting(s, n) == [] && Partial(s, n) == [] && !s.configs[n].hasActive && !Drawn(s.phase, n)
    ensures var k, end, calls := if s.configs[n].packetCount == 0 then 1 else s.configs[n].packetCount, Run(s, es),
                                 EntriesFor(NewEntriesInRun(s, es), n);
      && (forall i :: 0 <= i < |Waiting(end, n)| ==> |Waiting(end, n)[i].packets| == k)
      && (forall i :: 0 <= i < |calls| ==> calls[i].index < k && (calls[i].last <==> calls[i].index == k - 1))
  {
    GroupsStayWhole(s, es, n, GroupSize(s.configs[n].packetCount));
  }

  // ---------------------------------------------------------------- what is dropped

  /** Unregistering and clearing leave nothing held but a packet in flight; registering again drops the rest of the
      active group and nothing else. */
  lemma DropsExactly(s: State, n: Name)
    ensures n in s.configs ==> Backlog(UnregisterStep(s, n), n) == InFlight(s.phase, n)
    ensures Backlog(ClearStep(s), n) == InFlight(s.phase, n)
  {
    EmptyUnit(InFlight(s.phase, n));
  }

  lemma RegisterKeeps(s: State, m: QueueConfigMessage)
    requires m.Valid()
    ensures var n := NameOf(m.queueName);
      Backlog(RegisterStep(s, m), n) == InFlight(s.phase, n) + GroupPackets(Waiting(s, n)) + Partial(s, n)
  {
    hide NameOf; hide TimestampOf; hide InFlight; hide GroupPackets;
    EmptyUnit(InFlight(s.phase, NameOf(m.queueName)));
  }
}
