/** Which queues a tick serves, and how far apart in true time the injections of one queue are although
    the code only compares 32-bit tick counters. */
module SchedulerTiming {
  import opened Words
  import opened SchedulerModel
  import opened SchedulerSafety
  import opened SchedulerFifo

  // ---------------------------------------------------------------- selection

  function ReadySet(s: State, at: nat): set<Name> {
    set n | n in s.configs && Ready(s, n, at)
  }

  lemma {:induction false} DistinctCardinality<T>(s: seq<T>)
    requires Distinct(s)
    ensures |set x | x in s| == |s|
  {
    if s != [] {
      var last, front := s[|s| - 1], s[..|s| - 1];
      DistinctCardinality(front);
      assert last !in front;
      assert (set x | x in s) == (set x | x in front) + {last};
    } else {
      assert (set x | x in s) == {};
    }
  }

  /** A tick draws min(ready, 10) distinct ready queues, and never passes over a ready queue whose
      interval is shorter than a drawn one's. */
  lemma TickServesShortestIntervals(s: State, order: seq<Name>)
    requires Safe(s) && Enabled(s, Select(order)) && order != []
    ensures Servable(s, order)
    ensures var drawn := Pending(SelectStep(s, order).phase);
      && DistinctNames(drawn)
      && |drawn| == Min(|ReadySet(s, s.phase.at)|, 10)
      && (forall i :: 0 <= i < |drawn| ==> drawn[i].name in ReadySet(s, s.phase.at))
      && (forall n, i :: n in ReadySet(s, s.phase.at) && TicketOf(drawn, n).None? && 0 <= i < |drawn| ==>
            s.configs[n].interval >= s.configs[drawn[i].name].interval)
  {
    hide Safe; hide TicketOk; hide DistinctNames; hide TicketOf; hide Activated;
    OrderServable(s, order, s.phase.at);
    SelectTicketsOk(s, order);
    var ready, drawn := ReadySet(s, s.phase.at), Pending(SelectStep(s, order).phase);
    assert ready == set n | n in order;
    DistinctCardinality(order);
    forall i | 0 <= i < |drawn|
      ensures drawn[i].name == order[i] && order[i] in ready
    {
      assert order[i] in order;
    }
    forall n, i | n in ready && TicketOf(drawn, n).None? && 0 <= i < |drawn|
      ensures s.configs[n].interval >= s.configs[drawn[i].name].interval
    {
      PassedOver(s, order, n, i);
    }
  }

  lemma PassedOver(s: State, order: seq<Name>, n: Name, i: nat)
    requires s.phase.Sampled? && Servable(s, order) && ValidOrder(s, order, s.phase.at) && order != []
    requires var drawn := Pending(SelectStep(s, order).phase);
      DistinctNames(drawn) && n in order && TicketOf(drawn, n).None? && i < |drawn|
    ensures s.configs[n].interval >= s.configs[order[i]].interval
  {
    var drawn := Pending(SelectStep(s, order).phase);
    var j :| 0 <= j < |order| && order[j] == n;
    if j < |drawn| {
      assert drawn[j].name == n;
      TicketFound(drawn, j);
      assert false;
    }
  }

  function TicketNames(ts: seq<Ticket>): seq<Name> {
    if ts == [] then [] else [ts[0].name] + TicketNames(ts[1..])
  }

  function EntryNames(log: seq<Injection>): seq<Name> {
    if log == [] then [] else [log[0].name] + EntryNames(log[1..])
  }

  predicate WithinTick(es: seq<Event>) {
    es == [] || (!es[0].Sample? && !es[0].Select? && WithinTick(es[1..]))
  }

  lemma {:induction false} EntryNamesAppend(log: seq<Injection>, more: seq<Injection>)
    ensures EntryNames(log + more) == EntryNames(log) + EntryNames(more)
  {
    if log == [] {
      EmptyUnit(more);
      EmptyUnit(EntryNames(more));
    } else {
      assert (log + more)[1..] == log[1..] + more;
      EntryNamesAppend(log[1..], more);
      Associative([log[0].name], EntryNames(log[1..]), EntryNames(more));
    }
  }

  lemma StepServes(s: State, e: Event)
    requires Safe(s) && Enabled(s, e) && !e.Sample? && !e.Select?
    ensures TicketNames(Pending(s.phase)) == EntryNames(NewEntries(s, e)) + TicketNames(Pending(Step(s, e).phase))
  {
    hide NameOf; hide TimestampOf; hide Safe; hide ValidOrder; hide TicketOf;
    if e.Inject? {
      FrontInRange(s);
      var entry := InjectStep(s).log[|s.log|];
      assert EntryNames([entry]) == [entry.name];
      assert Pending(InjectStep(s).phase) == s.phase.todo[1..];
    } else {
      assert Pending(Step(s, e).phase) == Pending(s.phase);
      EmptyUnit(TicketNames(Pending(s.phase)));
    }
  }

  /** Each drawn queue gets exactly one packet out per tick, in drawing order, whatever the TCP
      threads do to the registrations meanwhile. */
  lemma {:induction false} TickServesEachDrawnOnce(s: State, es: seq<Event>)
    requires Safe(s) && ValidRun(s, es) && WithinTick(es)
    ensures EntryNames(NewEntriesInRun(s, es)) + TicketNames(Pending(Run(s, es).phase))
         == TicketNames(Pending(s.phase))
    decreases |es|
  {
    if es == [] {
      EmptyUnit(TicketNames(Pending(s.phase)));
      return;
    }
    hide Safe; hide Enabled; hide Step; hide NewEntries; hide EntryNames; hide TicketNames;
    var e, rest := es[0], es[1..];
    StepSafe(s, e);
    var s' := Step(s, e);
    StepServes(s, e);
    TickServesEachDrawnOnce(s', rest);
    EntryNamesAppend(NewEntries(s, e), NewEntriesInRun(s', rest));
    Associative(EntryNames(NewEntries(s, e)), EntryNames(NewEntriesInRun(s', rest)),
                TicketNames(Pending(Run(s', rest).phase)));
  }

  // ---------------------------------------------------------------- clock arithmetic

  /** The code's deadline test `clock >= start + interval` on 32-bit clocks never fires early exactly
      when the 32-bit addition does not wrap. */
  lemma DeadlineNeverEarly(start: nat, interval: Dword)
    ensures (forall at: nat :: at >= start && Low32(at) >= Low32(start + interval) ==> at >= start + interval)
        <==> Low32(start) + interval < TWO_32
  {
    if Low32(start) + interval < TWO_32 {
      forall at: nat | at >= start && Low32(at) >= Low32(start + interval)
        ensures at >= start + interval
      {
        DeadlineSound(start, interval, at);
      }
    } else {
      assert Low32(start) >= Low32(start + interval);
      assert start >= start && !(start >= start + interval);
    }
  }

  /** And it is never late, for 2^32 milliseconds from the deadline, exactly while the counter has not wrapped since:
      after the wrap it holds a due packet back until the counter shows the deadline again. */
  lemma DeadlineSeen(deadline: nat, at: nat)
    requires deadline <= at < deadline + TWO_32
    ensures Low32(at) >= Low32(deadline) <==> at / TWO_32 == deadline / TWO_32
  {
  }

  /** A group of one packet that arrives at an empty queue is ready at `at` exactly when the interval has passed by the
      code's count and the counter has not wrapped since the packet came. */
  lemma FreshGroupReady(s: State, n: Name, p: Packet, at: nat)
    requires n in s.configs && !s.configs[n].hasActive && s.configs[n].packetCount <= 1
    requires Waiting(s, n) == [] && Partial(s, n) == [] && s.now <= at < s.now + TWO_32
    ensures Ready(ReceiveStep(s, n, p), n, at)
        <==> Minus32(Low32(at), s.configs[n].lastInjection) >= s.configs[n].interval && at / TWO_32 == s.now / TWO_32
  {
    hide Minus32;
    DeadlineSeen(s.now, at);
    hide Low32;
    EmptyUnit([p]);
    EmptyUnit([Group([p], Low32(s.now), 0, Low32(s.now))]);
  }

  lemma DeadlineSound(start: nat, interval: Dword, at: nat)
    requires Low32(start) + interval < TWO_32
    requires at >= start && Low32(at) >= Low32(start + interval)
    ensures at >= start + interval
  {
    assert Low32(start + interval) == Low32(start) + interval;
    assert at / TWO_32 >= start / TWO_32;
  }

  lemma WrapComplement(a: Dword, b: Dword)
    ensures a != b ==> Minus32(a, b) == TWO_32 - Minus32(b, a)
    ensures Minus32(a, a) == 0
  {
  }
}
