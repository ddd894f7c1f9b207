/** Which queues the limit of ten per tick passes over. */
module SchedulerFairness {
  import opened Words
  import opened SchedulerModel
  import opened SchedulerSafety
  import opened SchedulerFifo
  import opened SchedulerTiming
  import opened SchedulerSpacing
  import opened SchedulerReach

  /** With at most ten ready queues a tick passes over none. */
  lemma FewAreAllDrawn(s: State, order: seq<Name>, n: Name)
    requires Safe(s) && Enabled(s, Select(order)) && |ReadySet(s, s.phase.at)| <= 10
    requires n in ReadySet(s, s.phase.at)
    ensures Servable(s, order) && order != [] && TicketOf(Pending(SelectStep(s, order).phase), n).Some?
  {
    hide Safe; hide TicketOk; hide DistinctNames; hide TicketOf; hide Activated; hide Due;
    OrderServable(s, order, s.phase.at);
    assert ReadySet(s, s.phase.at) == set m | m in order;
    DistinctCardinality(order);
    assert n in order && Chosen(order) == order;
    SelectTicketsOk(s, order);
    var i :| 0 <= i < |order| && order[i] == n;
    var drawn := Pending(SelectStep(s, order).phase);
    assert drawn[i].name == n;
    TicketFound(drawn, i);
  }

  // ---------------------------------------------------------------- more than ten

  ghost predicate AllAhead(s: State, n: Name, at: nat, ahead: set<Name>)
    requires n in s.configs
  {
    forall m :: m in ahead ==> Ready(s, m, at) && s.configs[m].interval < s.configs[n].interval
  }

  /** Ten ready queues have a shorter interval than `n`. */
  ghost predicate Crowded(s: State, n: Name, at: nat)
    requires n in s.configs
  {
    exists ahead :: AllAhead(s, n, at, ahead) && |ahead| == 10
  }

  lemma SmallerSet<T>(a: set<T>, b: set<T>)
    requires a <= b
    ensures |a| <= |b|
  {
    assert b == a + (b - a);
  }

  lemma CrowdedIsNotChosen(s: State, order: seq<Name>, n: Name)
    requires s.phase.Sampled? && ValidOrder(s, order, s.phase.at) && n in s.configs && Crowded(s, n, s.phase.at)
    ensures n !in Chosen(order)
  {
    var ahead :| AllAhead(s, n, s.phase.at, ahead) && |ahead| == 10;
    if n in Chosen(order) {
      var i :| 0 <= i < |Chosen(order)| && Chosen(order)[i] == n;
      var front := order[..i];
      DistinctCardinality(front);
      forall m | m in ahead
        ensures m in front
      {
        assert m in order;
        var j :| 0 <= j < |order| && order[j] == m;
        assert j < i && front[j] == m;
      }
      SmallerSet(ahead, set m | m in front);
    }
  }

  ghost predicate Unserved(s: State, n: Name, interval: Dword) {
    n in s.configs && s.configs[n].interval == interval && !Drawn(s.phase, n)
  }

  /** Every tick of the run finds ten queues ahead of `n`. */
  ghost predicate AlwaysCrowded(s: State, es: seq<Event>, n: Name)
    requires ValidRun(s, es)
    decreases |es|
  {
    es == [] ||
    (&& (es[0].Select? ==> n in s.configs && Crowded(s, n, s.phase.at))
     && AlwaysCrowded(Step(s, es[0]), es[1..], n))
  }

  lemma UnservedStep(s: State, e: Event, n: Name, interval: Dword)
    requires Safe(s) && Enabled(s, e) && !EndsEpoch(e, n) && Unserved(s, n, interval)
    requires e.Select? ==> Crowded(s, n, s.phase.at)
    ensures Unserved(Step(s, e), n, interval) && EntriesFor(NewEntries(s, e), n) == []
  {
    HeadIsDrawn(s, n);
    if e.Select? {
      OrderServable(s, e.order, s.phase.at);
      CrowdedIsNotChosen(s, e.order, n);
      if e.order != [] {
        SelectLeavesOut(s, e.order, n);
      }
      hide Safe; hide TicketOf; hide Activated; hide Crowded;
      assert Step(s, e) == SelectStep(s, e.order);
    } else if e.Inject? {
      QuietEntries(s, e, n);
      InjectOutcome(s);
      hide Safe; hide InjectStep;
    } else {
      UnservedQuiet(s, e, n, interval);
    }
  }

  lemma UnservedQuiet(s: State, e: Event, n: Name, interval: Dword)
    requires Safe(s) && Enabled(s, e) && !EndsEpoch(e, n) && Unserved(s, n, interval) && !e.Select? && !e.Inject?
    ensures Unserved(Step(s, e), n, interval) && EntriesFor(NewEntries(s, e), n) == []
  {
    hide Safe; hide TicketOf; hide NameOf; hide TimestampOf;
  }

  /** As long as every tick finds ten ready queues with shorter intervals, a queue's packets never go out. */
  lemma {:induction false} LongIntervalStarves(s: State, es: seq<Event>, n: Name, interval: Dword)
    requires Safe(s) && ValidRun(s, es) && WithinEpoch(es, n) && Unserved(s, n, interval) && AlwaysCrowded(s, es, n)
    ensures EntriesFor(NewEntriesInRun(s, es), n) == []
    decreases |es|
  {
    if es != [] {
      hide Safe; hide Enabled; hide Step; hide NewEntries; hide EntriesFor; hide EndsEpoch; hide Unserved; hide Crowded;
      StepSafe(s, es[0]);
      UnservedStep(s, es[0], n, interval);
      LongIntervalStarves(Step(s, es[0]), es[1..], n, interval);
      EntriesAppend(NewEntries(s, es[0]), NewEntriesInRun(Step(s, es[0]), es[1..]), n);
    } else {
      NoEntries(n);
    }
  }

  lemma NoEntries(n: Name)
    ensures EntriesFor([], n) == []
  {
  }
}
