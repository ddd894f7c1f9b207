/** What a registration message promises about the packets of its epoch, in the message's own fields: which bytes
    are stamped, how far apart the calls are, and that the later packets of a group do come. */
module SchedulerMessage {
  import opened Words
  import opened SchedulerModel
  import opened SchedulerSafety
  import opened SchedulerFifo
  import opened SchedulerTiming
  import opened SchedulerSpacing
  import opened SchedulerReach
  import opened SchedulerRegistration
  import opened PacketPatching

  /** The slots of the message that count. */
  function Slots(m: QueueConfigMessage): nat {
    if m.packetCount < 8 then m.packetCount else 8
  }

  /** The delay before packet `i` of a group. */
  function DelayBefore(m: QueueConfigMessage, i: nat): Dword
    requires m.Valid()
  {
    if i < Slots(m) then m.packetIntervals[i] else 0
  }

  /** The offsets of slot `i` that count. */
  function OffsetsAt(m: QueueConfigMessage, i: nat): seq<Dword>
    requires m.Valid() && i < 8
  {
    m.timestamps[i].offsets[..if m.timestamps[i].offsetCount < 8 then m.timestamps[i].offsetCount else 8]
  }

  /** `log` are the calls for the queue in the run `es` of the epoch that registering `m` in `s` begins; no tick has
      drawn the queue at that moment. */
  ghost predicate Registered(s: State, m: QueueConfigMessage, es: seq<Event>, log: seq<Injection>) {
    && m.Valid() && Safe(s) && !Drawn(s.phase, NameOf(m.queueName))
    && var s', n := RegisterStep(s, m), NameOf(m.queueName);
    && Safe(s') && ValidRun(s', es) && WithinEpoch(es, n) && EntriesFor(NewEntriesInRun(s', es), n) == log
  }

  lemma MessageIsValid(s: State, m: QueueConfigMessage, es: seq<Event>, log: seq<Injection>)
    requires Registered(s, m, es, log)
    ensures m.Valid() && Safe(RegisterStep(s, m)) && ValidRun(RegisterStep(s, m), es)
  {
  }

  /** The configuration that the message registers, field by field. */
  lemma RegisteredFields(s: State, m: QueueConfigMessage)
    requires m.Valid()
    ensures var n := NameOf(m.queueName);
      && n in RegisterStep(s, m).configs
      && var c := RegisterStep(s, m).configs[n];
      && c.interval == m.interval && c.packetCount == m.packetCount && !c.hasActive
      && |c.timestamps| == Slots(m)
      && (forall i :: 0 <= i < Slots(m) ==>
            && (c.timestamps[i].needsUpdate <==> m.timestamps[i].needsUpdate != 0)
            && c.timestamps[i].offsets == OffsetsAt(m, i))
      && (forall i: nat :: PacketInterval(c, i) == DelayBefore(m, i))
  {
    hide NameOf;
  }

  lemma RegisteredLog(s: State, m: QueueConfigMessage, es: seq<Event>, log: seq<Injection>)
    requires Registered(s, m, es, log)
    ensures NameOf(m.queueName) in RegisterStep(s, m).configs
    ensures Successive(log, RegisterStep(s, m).configs[NameOf(m.queueName)])
  {
    RegisteredFields(s, m);
    hide Safe; hide NameOf; hide ConfigOf; hide Successive;
    InjectionSpacing(RegisterStep(s, m), es, NameOf(m.queueName));
  }

  // ---------------------------------------------------------------- which bytes are stamped

  /** The timestamps of the slot are in place, if the message asks for them and the packet is one that is sent; any
      other packet goes out as it came. */
  ghost predicate Stamped(m: QueueConfigMessage, e: Injection)
    requires m.Valid()
  {
    if e.index < Slots(m) && m.timestamps[e.index].needsUpdate != 0 && ReadDword(e.original, 0) == 0 then
      WritesDone(e.original, e.sent, OffsetsAt(m, e.index), e.stamp % 0x1_0000_0000)
    else e.sent == e.original
  }

  lemma PatchedIsStamped(s: State, m: QueueConfigMessage, e: Injection)
    requires m.Valid() && NameOf(m.queueName) in RegisterStep(s, m).configs
    requires Patched(e, RegisterStep(s, m).configs[NameOf(m.queueName)])
    ensures Stamped(m, e)
  {
    RegisteredFields(s, m);
    hide NameOf; hide ConfigOf; hide RegisterStep; hide PatchPacket; hide WritesDone; hide ReadDword;
  }

  /** Over every run of the epoch each call hands over its packet stamped as the message says. */
  lemma RegisteredPackets(s: State, m: QueueConfigMessage, es: seq<Event>, log: seq<Injection>)
    requires Registered(s, m, es, log)
    ensures forall i :: 0 <= i < |log| ==> Stamped(m, log[i])
  {
    RegisteredLog(s, m, es, log);
    hide Stamped; hide Patched; hide Follows; hide RegisterStep; hide NameOf;
    forall i | 0 <= i < |log|
      ensures Stamped(m, log[i])
    {
      PatchedIsStamped(s, m, log[i]);
    }
  }

  /** For offsets that keep away from the length field, in the packet's own bytes: every write that its received
      length allows and that lies inside the message reads back as the tick's timestamp, unless a later one overlaps. */
  lemma RegisteredTimestamp(s: State, m: QueueConfigMessage, es: seq<Event>, log: seq<Injection>, i: nat, j: nat)
    requires Registered(s, m, es, log) && i < |log|
    requires log[i].index < Slots(m) && m.timestamps[log[i].index].needsUpdate != 0
    requires ReadDword(log[i].original, 0) == 0
    requires var offsets, size := OffsetsAt(m, log[i].index), ReadDword(log[i].original, 16);
      && (forall k :: 0 <= k < |offsets| ==> offsets[k] < 0xFFFF_FFF9)
      && j < |offsets| && offsets[j] + 4 <= size && 20 + offsets[j] + 4 <= |log[i].original|
      && (forall k :: j < k < |offsets| ==> offsets[k] + 4 <= offsets[j] || offsets[j] + 4 <= offsets[k])
    ensures var sent, at, v := log[i].sent, 20 + OffsetsAt(m, log[i].index)[j], log[i].stamp % 0x1_0000_0000;
      && at + 4 <= |sent| == |log[i].original| && sent[at] == v % 0x100 && sent[at + 1] == v / 0x100 % 0x100
      && sent[at + 2] == v / 0x1_0000 % 0x100 && sent[at + 3] == v / 0x100_0000
  {
    hide Registered; hide ReadDword; hide WritesDone; hide OffsetsAt;
    RegisteredPackets(s, m, es, log);
    MessageIsValid(s, m, es, log);
    assert Stamped(m, log[i]);
    PlainWord(log[i].original, log[i].sent, OffsetsAt(m, log[i].index), log[i].stamp % 0x1_0000_0000, j);
    ReadDwordInBytes(log[i].sent, 20 + OffsetsAt(m, log[i].index)[j]);
  }

  /** Offsets that do not wrap: what the guard, the length field and two writes are to each other. */
  lemma PlainOffset(o: Dword, length: Dword)
    requires o < 0xFFFF_FFF9
    ensures !HitsLength(o) && (WriteAllowed(o, length) <==> o + 4 <= length)
  {
  }

  lemma PlainApart(a: Dword, b: Dword)
    requires a + 4 <= b || b + 4 <= a
    requires a < 0xFFFF_FFF9 && b < 0xFFFF_FFF9
    ensures Apart(a, b)
  {
  }

  lemma PlainWord(p: Packet, r: Packet, offsets: seq<Dword>, v: Dword, j: nat)
    requires WritesDone(p, r, offsets, v) && j < |offsets|
    requires forall k :: 0 <= k < |offsets| ==> offsets[k] < 0xFFFF_FFF9
    requires offsets[j] + 4 <= ReadDword(p, 16) && 20 + offsets[j] + 4 <= |p|
    requires forall k :: j < k < |offsets| ==> offsets[k] + 4 <= offsets[j] || offsets[j] + 4 <= offsets[k]
    ensures |r| == |p| && ReadDword(r, 20 + offsets[j]) == v
  {
    hide ReadDword; hide PatchAll; hide Happens; hide HitsLength; hide WriteAllowed; hide Apart; hide Uncovered;
    forall k | 0 <= k < |offsets|
      ensures !HitsLength(offsets[k]) && (WriteAllowed(offsets[k], LengthOf(p)) <==> offsets[k] + 4 <= LengthOf(p))
    {
      PlainOffset(offsets[k], LengthOf(p));
    }
    LengthStays(p, offsets, v);
    forall k | j < k < |offsets|
      ensures Apart(offsets[j], offsets[k])
    {
      PlainApart(offsets[j], offsets[k]);
    }
    assert InPlace(p, offsets, v, j);
  }

  // ---------------------------------------------------------------- how far apart the calls are

  /** `b` may follow `a`, by the intervals in the message. */
  ghost predicate FollowsBy(m: QueueConfigMessage, a: Injection, b: Injection)
    requires m.Valid()
  {
    if a.last then b.index == 0 && b.at >= a.stamp + m.interval
    else
      && b.index == a.index + 1
      && (a.stamp % 0x1_0000_0000 + DelayBefore(m, b.index) < 0x1_0000_0000 ==>
            b.at >= a.stamp + DelayBefore(m, b.index))
  }

  lemma RegisteredSpacing(s: State, m: QueueConfigMessage, es: seq<Event>, log: seq<Injection>)
    requires Registered(s, m, es, log)
    ensures forall i :: 0 <= i < |log| - 1 ==> FollowsBy(m, log[i], log[i + 1])
  {
    RegisteredLog(s, m, es, log);
    RegisteredFields(s, m);
    hide Registered; hide RegisterStep; hide NameOf; hide PacketInterval; hide DelayBefore; hide Patched;
    forall i | 0 <= i < |log| - 1
      ensures FollowsBy(m, log[i], log[i + 1])
    {
      assert Follows(log[i], log[i + 1], RegisterStep(s, m).configs[NameOf(m.queueName)]);
    }
  }

  // ---------------------------------------------------------------- the next packet comes

  /** A stored group whose first packet has gone out is ready exactly when the clock shows its next time or more. */
  lemma StoredGroupReady(s: State, n: Name, at: nat)
    requires n in s.configs && s.configs[n].hasActive && s.configs[n].active.index >= 1
    ensures Ready(s, n, at) <==> Low32(at) >= s.configs[n].active.nextTime
  {
  }

  lemma {:induction false} RunTimed(s: State, es: seq<Event>, n: Name, c: QueueConfig, e: Option<Injection>)
    requires Safe(s) && ValidRun(s, es) && WithinEpoch(es, n) && Timed(s, n, c, e)
    ensures Safe(Run(s, es)) && Timed(Run(s, es), n, c, Last(e, EntriesFor(NewEntriesInRun(s, es), n)))
    decreases |es|
  {
    if es != [] {
      hide Safe; hide Enabled; hide Step; hide NewEntries; hide EndsEpoch; hide Timed; hide Spaced; hide EntriesFor;
      hide Last;
      var s', calls := Step(s, es[0]), EntriesFor(NewEntries(s, es[0]), n);
      StepSafe(s, es[0]);
      StepTimed(s, es[0], n, c, e);
      RunTimed(s', es[1..], n, c, Last(e, calls));
      EntriesAppend(NewEntries(s, es[0]), NewEntriesInRun(s', es[1..]), n);
      LastAppend(e, calls, EntriesFor(NewEntriesInRun(s', es[1..]), n));
    } else {
      NoCalls(n);
    }
  }

  lemma LastAppend(e: Option<Injection>, a: seq<Injection>, b: seq<Injection>)
    ensures Last(Last(e, a), b) == Last(e, a + b)
  {
  }

  lemma NoCalls(n: Name)
    ensures EntriesFor([], n) == []
  {
  }

  /** After such a run, with no tick running and the last call not the last of its group, the group is stored with the
      next index and the deadline that the message's delay makes. */
  lemma GroupIsStored(s: State, m: QueueConfigMessage, es: seq<Event>, log: seq<Injection>)
    requires Registered(s, m, es, log) && log != [] && !log[|log| - 1].last && Run(RegisterStep(s, m), es).phase.Idle?
    ensures var t, n, e := Run(RegisterStep(s, m), es), NameOf(m.queueName), log[|log| - 1];
      && Safe(t) && n in t.configs && t.configs[n].hasActive && t.configs[n].active.index == e.index + 1
      && t.configs[n].active.nextTime == Low32(e.stamp + DelayBefore(m, e.index + 1))
  {
    hide *;
    MessageIsValid(s, m, es, log);
    var s', n := RegisterStep(s, m), NameOf(m.queueName);
    StartTimed(s, m, es, log);
    RunTimed(s', es, n, s'.configs[n], None);
    RestOf(s, m, Run(s', es), log);
  }

  lemma StartTimed(s: State, m: QueueConfigMessage, es: seq<Event>, log: seq<Injection>)
    requires Registered(s, m, es, log)
    ensures var s', n := RegisterStep(s, m), NameOf(m.queueName);
      && Safe(s') && ValidRun(s', es) && WithinEpoch(es, n) && n in s'.configs && Timed(s', n, s'.configs[n], None)
      && EntriesFor(NewEntriesInRun(s', es), n) == log
  {
    hide Safe; hide NameOf; hide RegisterStep; hide TicketOf; hide ValidRun; hide NewEntriesInRun; hide EntriesFor;
    RegisteredFields(s, m);
    RegisterPhase(s, m);
  }

  lemma RestOf(s: State, m: QueueConfigMessage, t: State, log: seq<Injection>)
    requires m.Valid() && NameOf(m.queueName) in RegisterStep(s, m).configs
    requires t.phase.Idle? && log != [] && !log[|log| - 1].last
    requires Timed(t, NameOf(m.queueName), RegisterStep(s, m).configs[NameOf(m.queueName)], Last(None, log))
    ensures var n, e := NameOf(m.queueName), log[|log| - 1];
      && n in t.configs && t.configs[n].hasActive && t.configs[n].active.index == e.index + 1
      && t.configs[n].active.nextTime == Low32(e.stamp + DelayBefore(m, e.index + 1))
  {
    hide NameOf; hide RegisterStep; hide PacketInterval; hide DelayBefore;
    RegisteredFields(s, m);
  }

  lemma RegisterPhase(s: State, m: QueueConfigMessage)
    requires m.Valid()
    ensures RegisterStep(s, m).phase == s.phase && RegisterStep(s, m).now == s.now
  {
  }

  lemma NextIsReady(s: State, m: QueueConfigMessage, es: seq<Event>, log: seq<Injection>, at: nat)
    requires Registered(s, m, es, log) && log != [] && !log[|log| - 1].last && Run(RegisterStep(s, m), es).phase.Idle?
    requires var e := log[|log| - 1]; var deadline := e.stamp + DelayBefore(m, e.index + 1);
      at >= deadline && at / 0x1_0000_0000 == deadline / 0x1_0000_0000
    ensures var t, n := Run(RegisterStep(s, m), es), NameOf(m.queueName);
      && m.Valid() && Safe(t) && n in t.configs && t.configs[n].hasActive
      && t.configs[n].active.index == log[|log| - 1].index + 1 && Low32(at) >= t.configs[n].active.nextTime
  {
    hide *;
    MessageIsValid(s, m, es, log);
    GroupIsStored(s, m, es, log);
    NotYetWrapped(log[|log| - 1].stamp + DelayBefore(m, log[|log| - 1].index + 1), at);
  }

  lemma NotYetWrapped(deadline: nat, at: nat)
    requires at >= deadline && at / 0x1_0000_0000 == deadline / 0x1_0000_0000
    ensures Low32(at) >= Low32(deadline)
  {
    DeadlineSeen(deadline, at);
  }

  /** The next packet of a group does come: at any time from its deadline on, as long as the counter has not wrapped
      since the deadline, some run of the epoch makes the next call for the queue, with the next index, at that time. */
  lemma NextPacketComes(s: State, m: QueueConfigMessage, es: seq<Event>, log: seq<Injection>, at: nat)
    returns (more: seq<Event>, next: Injection)
    requires Registered(s, m, es, log) && log != [] && !log[|log| - 1].last && Run(RegisterStep(s, m), es).phase.Idle?
    requires var e := log[|log| - 1]; var deadline := e.stamp + DelayBefore(m, e.index + 1);
      at >= Run(RegisterStep(s, m), es).now && at >= deadline && at / 0x1_0000_0000 == deadline / 0x1_0000_0000
    ensures var t, n := Run(RegisterStep(s, m), es), NameOf(m.queueName);
      && Safe(t) && ValidRun(t, more) && WithinEpoch(more, n) && EntriesFor(NewEntriesInRun(t, more), n) == [next]
      && next.index == log[|log| - 1].index + 1 && next.at == at
  {
    hide *;
    MessageIsValid(s, m, es, log);
    NextIsReady(s, m, es, log, at);
    more, next := StoredCall(Run(RegisterStep(s, m), es), NameOf(m.queueName), at);
  }

  lemma StoredCall(t: State, n: Name, at: nat) returns (es: seq<Event>, entry: Injection)
    requires Safe(t) && t.phase.Idle? && n in t.configs && t.configs[n].hasActive && t.configs[n].active.index >= 1
    requires at >= t.now && Low32(at) >= t.configs[n].active.nextTime
    ensures ValidRun(t, es) && WithinEpoch(es, n) && EntriesFor(NewEntriesInRun(t, es), n) == [entry]
    ensures entry.index == t.configs[n].active.index && entry.at == at
  {
    hide Leads; hide Safe; hide ValidRun; hide WithinEpoch; hide NewEntriesInRun; hide EntriesFor; hide Ready;
    hide Low32;
    LeadsFrom(t, n);
    var u;
    es, u := LeaveAlone(t, [], n, t, []);
    es := AdvanceTo(t, es, n, u, [], at);
    u := u.(now := at);
    NoCall(t, es, n, u, [], Sample);
    es, u := es + [Sample], u.(phase := Sampled(at));
    StoredGroupReady(u, n, at);
    es, entry := ServeSampled(t, es, n, u);
  }
}
