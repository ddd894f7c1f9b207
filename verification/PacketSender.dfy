/** Packet/PacketSender.cpp and the enqueue part of Packet/PacketTCP.cpp in their own form: global maps
    changed in place by loops. Each method is one atomic stretch and is proved to take exactly the step
    of SchedulerModel, so the theorems about runs of steps are theorems about these methods. */
module PacketSender {
  import opened Words
  import opened SchedulerModel
  import opened SchedulerSafety
  import opened PacketPatching

  class Scheduler {
    var now: nat
    var configs: map<Name, QueueConfig>
    var queues: map<Name, seq<Group>>
    var incomplete: map<Name, Incomplete>
    var phase: Phase
    var log: seq<Injection>

    ghost function Model(): State
      reads this
    {
      State(now, configs, queues, incomplete, phase, log)
    }

    constructor ()
      ensures Model() == INITIAL && Safe(Model())
    {
      now, configs, queues, incomplete, phase, log := 0, map[], map[], map[], Idle, [];
    }

    /** GetTickCount. */
    method GetCurrentTimeMs() returns (t: Dword)
      ensures t == Low32(now)
    {
      t := now % 0x1_0000_0000;
    }

    method RegisterQueue(m: QueueConfigMessage)
      requires m.Valid()
      modifies this
      ensures Model() == RegisterStep(old(Model()), m)
    {
      var name := ReadName(m.queueName);
      var last := GetCurrentTimeMs();
      var timestamps: seq<TimestampConfig>, intervals: seq<Dword> := [], [];
      var i := 0;
      while i < m.packetCount && i < MAX_PACKETS_PER_QUEUE
        invariant 0 <= i <= Min(m.packetCount, MAX_PACKETS_PER_QUEUE)
        invariant |timestamps| == i && forall k :: 0 <= k < i ==> timestamps[k] == TimestampOf(m.timestamps[k])
        invariant intervals == m.packetIntervals[..i]
      {
        var tm := m.timestamps[i];
        var offsets: seq<Dword> := [];
        var j := 0;
        while j < tm.offsetCount && j < MAX_TIMESTAMP_OFFSETS
          invariant 0 <= j <= Min(tm.offsetCount, MAX_TIMESTAMP_OFFSETS)
          invariant offsets == tm.offsets[..j]
        {
          offsets := offsets + [tm.offsets[j]];
          j := j + 1;
        }
        timestamps := timestamps + [TimestampConfig(tm.needsUpdate != 0, offsets)];
        intervals := intervals + [m.packetIntervals[i]];
        i := i + 1;
      }
      assert timestamps == ConfigOf(m, now).timestamps;
      var config := QueueConfig(m.interval, last, m.packetCount, timestamps, intervals, false, EMPTY_GROUP);
      configs := configs[name := config];
      if name !in queues {
        queues := queues[name := []];
      }
      assert queues == RegisterStep(old(Model()), m).queues;
    }

    /** std::string(field, strnlen(field, 32)). */
    static method ReadName(field: seq<char>) returns (name: Name)
      ensures name == NameOf(field)
    {
      name := [];
      var i := 0;
      while i < |field| && field[i] != '\0'
        invariant 0 <= i <= |field|
        invariant NameOf(field) == name + NameOf(field[i..])
      {
        assert field[i..][1..] == field[i + 1..];
        Associative(name, [field[i]], NameOf(field[i + 1..]));
        name := name + [field[i]];
        i := i + 1;
      }
      EmptyUnit(name);
    }

    method UnregisterQueue(name: Name) returns (found: bool)
      modifies this
      ensures found == (name in old(configs))
      ensures Model() == UnregisterStep(old(Model()), name)
    {
      if name !in configs {
        return false;
      }
      configs := configs - {name};
      if name in queues {
        while queues[name] != []
          invariant name in queues && queues.Keys == old(queues).Keys
          invariant forall n :: n in queues && n != name ==> queues[n] == old(queues)[n]
          invariant now == old(now) && configs == old(configs) - {name} && incomplete == old(incomplete)
          invariant phase == old(phase) && log == old(log)
          decreases |queues[name]|
        {
          queues := queues[name := queues[name][1..]];
        }
        queues := queues - {name};
      }
      incomplete := incomplete - {name};
      assert queues == old(queues) - {name};
      return true;
    }

    method ClearAllQueues()
      modifies this
      ensures Model() == ClearStep(old(Model()))
    {
      var todo := queues.Keys;
      while todo != {}
        invariant todo <= queues.Keys
        invariant now == old(now) && configs == old(configs) && incomplete == old(incomplete)
        invariant phase == old(phase) && log == old(log)
        decreases todo
      {
        var name :| name in todo;
        queues := queues[name := []];
        todo := todo - {name};
      }
      queues, configs, incomplete := map[], map[], map[];
    }

    /** TCPCommunicate, for one well-formed SENDPACKET or RECVPACKET request. */
    method ReceivePacket(name: Name, packet: Packet)
      modifies this
      ensures Model() == ReceiveStep(old(Model()), name, packet)
      ensures name in configs ==>
        var all, before := Partial(old(Model()), name) + [packet], Waiting(old(Model()), name);
        if |all| < configs[name].packetCount then Partial(Model(), name) == all && Waiting(Model(), name) == before
        else
          && Partial(Model(), name) == [] && |Waiting(Model(), name)| == |before| + 1
          && Waiting(Model(), name)[..|before|] == before
          && Waiting(Model(), name)[|before|].packets == all && Waiting(Model(), name)[|before|].index == 0
    {
      if name !in configs {
        return;
      }
      var expected := configs[name].packetCount;
      var group := if name in incomplete then incomplete[name] else Incomplete([], 0);
      if group.packets == [] {
        var t := GetCurrentTimeMs();
        group := group.(startTime := t);
      }
      group := group.(packets := group.packets + [packet]);
      if |group.packets| >= expected {
        var waiting := if name in queues then queues[name] else [];
        queues := queues[name := waiting + [Group(group.packets, group.startTime, 0, group.startTime)]];
        group := group.(packets := []);
      }
      incomplete := incomplete[name := group];
    }

    /** The first clock sample of PacketInjector, taken before the lock. */
    method SampleClock()
      requires phase.Idle?
      modifies this
      ensures Model() == old(Model()).(phase := Sampled(old(now)))
    {
      phase := Sampled(now);
    }

    method IsReady(name: Name, at: nat) returns (ready: bool)
      requires name in configs
      ensures ready == Ready(Model(), name, at)
      ensures configs[name].hasActive && configs[name].active.index > 0 ==>
        (ready <==> at % 0x1_0000_0000 >= configs[name].active.nextTime)
      ensures !configs[name].hasActive ==>
        (ready <==>
           && name in queues && queues[name] != [] && at % 0x1_0000_0000 >= queues[name][0].nextTime
           && (queues[name][0].index > 0 ||
               (at % 0x1_0000_0000 - configs[name].lastInjection) % 0x1_0000_0000 >= configs[name].interval))
    {
      var c := configs[name];
      var group: Group;
      if c.hasActive {
        group := c.active;
      } else if name !in queues || queues[name] == [] {
        return false;
      } else {
        group := queues[name][0];
      }
      var clock := Low32(at);
      var sinceLast := Minus32(clock, c.lastInjection);
      var nextPacketReady := clock >= group.nextTime;
      if group.index == 0 {
        ready := sinceLast >= c.interval && nextPacketReady;
      } else {
        ready := nextPacketReady;
      }
    }

    /** The ready queues, each once. */
    method ReadyQueues(at: nat) returns (names: seq<Name>)
      ensures Distinct(names)
      ensures forall n :: n in names <==> Ready(Model(), n, at)
    {
      names := [];
      var todo := configs.Keys;
      while todo != {}
        invariant todo <= configs.Keys
        invariant Distinct(names)
        invariant forall n :: n in names <==> n in configs.Keys - todo && Ready(Model(), n, at)
        decreases todo
      {
        var name :| name in todo;
        todo := todo - {name};
        var ready := IsReady(name, at);
        if ready {
          assert name !in names;
          names := names + [name];
        }
      }
    }

    /** Stands for std::sort by interval; ties may end up in any order. */
    method SortByInterval(names: seq<Name>) returns (sorted: seq<Name>)
      requires Distinct(names) && forall n :: n in names ==> n in configs
      ensures Distinct(sorted) && SortedByInterval(configs, sorted)
      ensures forall n :: n in sorted <==> n in names
    {
      sorted := [];
      for i := 0 to |names|
        invariant Distinct(sorted) && SortedByInterval(configs, sorted)
        invariant forall n :: n in sorted <==> n in names[..i]
      {
        assert names[i] !in names[..i];
        sorted := InsertByInterval(sorted, names[i]);
        assert names[..i + 1] == names[..i] + [names[i]];
      }
    }

    method InsertByInterval(names: seq<Name>, name: Name) returns (longer: seq<Name>)
      requires Distinct(names) && SortedByInterval(configs, names) && name !in names && name in configs
      requires forall n :: n in names ==> n in configs
      ensures Distinct(longer) && SortedByInterval(configs, longer)
      ensures forall n :: n in longer <==> n == name || n in names
    {
      var k := |names|;
      while k > 0 && configs[names[k - 1]].interval > configs[name].interval
        invariant 0 <= k <= |names|
        invariant forall i :: k <= i < |names| ==>
          names[i] in configs && configs[names[i]].interval > configs[name].interval
      {
        k := k - 1;
      }
      longer := names[..k] + [name] + names[k..];
      InsertedMembers(names, k, name);
      InsertedSorted(configs, names, k, name);
    }

    /** The locked part of a tick: select, sort, activate and copy out. */
    method SelectReadyQueues() returns (order: seq<Name>)
      requires phase.Sampled? && Safe(Model())
      modifies this
      ensures ValidOrder(old(Model()), order, old(phase.at)) && Servable(old(Model()), order)
      ensures Model() == SelectStep(old(Model()), order)
    {
      var ready := ReadyQueues(phase.at);
      order := SortByInterval(ready);
      assert ValidOrder(Model(), order, phase.at);
      OrderServable(Model(), order, phase.at);
      if order == [] {
        phase := Idle;
        return;
      }
      var limit := Min(|order|, MAX_QUEUES_PER_TICK);
      assert Distinct(order[..limit]) && Servable(Model(), order[..limit]);
      var tickets := ActivateQueues(order[..limit]);
      phase := Selected(tickets);
    }

    method ActivateQueues(names: seq<Name>) returns (tickets: seq<Ticket>)
      requires Distinct(names) && Servable(Model(), names)
      modifies this`configs, this`queues
      ensures configs == ActivatedConfigs(old(Model()), names)
      ensures queues == PulledQueues(old(Model()), names)
      ensures tickets == TicketsFor(old(Model()), names)
    {
      hide ActivatedConfigs; hide PulledQueues; hide TicketsFor; hide Distinct;
      ghost var s := Model();
      tickets := [];
      var q := 0;
      NoneActivated(s);
      assert names[..0] == [];
      while q < |names|
        invariant 0 <= q <= |names| && s == old(Model())
        invariant configs == ActivatedConfigs(s, names[..q])
        invariant queues == PulledQueues(s, names[..q])
        invariant tickets == TicketsFor(s, names[..q])
      {
        ActivateOne(s, names, q);
        DrawOne(s, names, q);
        var ticket := ActivateFront(names[q]);
        tickets := tickets + [ticket];
        q := q + 1;
      }
      assert names[..|names|] == names;
    }

    /** Activate the front group of one queue unless it has an active one, and copy out. */
    method ActivateFront(name: Name) returns (ticket: Ticket)
      requires name in configs
      requires configs[name].hasActive || (name in queues && queues[name] != [])
      modifies this`configs, this`queues
      ensures configs == old(configs)[name := Activated(old(Model()), name)]
      ensures queues ==
        if old(configs)[name].hasActive then old(queues) else old(queues)[name := old(queues)[name][1..]]
      ensures ticket == Ticket(name, configs[name], configs[name].active)
    {
      if !configs[name].hasActive {
        var group := queues[name][0];
        queues := queues[name := queues[name][1..]];
        configs := configs[name := configs[name].(hasActive := true, active := group)];
      }
      ticket := Ticket(name, configs[name], configs[name].active);
    }

    /** The second clock sample, after the lock is released. */
    method StampTick()
      requires phase.Selected?
      modifies this
      ensures Model() == old(Model()).(phase := Injecting(old(now), old(phase.chosen)))
    {
      phase := Injecting(now, phase.chosen);
    }

    /** Patch the packet's timestamps, hand it to the game and advance the copied group. */
    method InjectNext()
      requires phase.Injecting? && Safe(Model())
      modifies this
      ensures Model() == InjectStep(old(Model()))
      ensures var t := old(phase.todo[0]);
        && |log| == |old(log)| + 1 && log[..|old(log)|] == old(log)
        && var e := log[|old(log)|];
        && e.name == t.name && e.index == t.group.index < |t.group.packets| && e.original == t.group.packets[e.index]
        && StampedBy(t.config, e.index, e.original, e.sent, old(phase.stamp) % 0x1_0000_0000)
        && (e.last <==> e.index == |t.group.packets| - 1)
    {
      hide Safe; hide PatchPacket; hide StampedBy;
      FrontInRange(Model());
      var stamp, t := phase.stamp, phase.todo[0];
      var group, index := t.group, t.group.index;
      var packet := UpdateTimestamps(group.packets[index], t.config, index, Low32(stamp));
      group := group.(packets := group.packets[index := packet], index := (index + 1) % 256);
      if group.index < |group.packets| {
        var interval: Dword := 0;
        if group.index < |t.config.packetIntervals| {
          interval := t.config.packetIntervals[group.index];
        }
        group := group.(nextTime := Low32(stamp + interval));
      }
      log := log + [Injection(t.name, t.group.packets[index], packet, index,
                              !(group.index < |group.packets|), stamp, now)];
      phase := Committing(stamp, t.(group := group), phase.todo[1..]);
    }

    static method UpdateTimestamps(p: Packet, config: QueueConfig, index: nat, v: Dword) returns (packet: Packet)
      ensures packet == PatchPacket(p, config, index, v) && StampedBy(config, index, p, packet, v)
    {
      PatchIsStamped(config, index, p, v);
      hide StampedBy;
      packet := p;
      if index < |config.timestamps| {
        var tc := config.timestamps[index];
        if tc.needsUpdate && HeaderOf(packet) == SENDPACKET {
          packet := WriteTimestamps(packet, tc.offsets, v);
        }
      }
    }

    /** The loop reads the length field anew before each write. */
    static method WriteTimestamps(p: Packet, offsets: seq<Dword>, v: Dword) returns (patched: Packet)
      ensures patched == PatchAll(p, offsets, v)
    {
      patched := p;
      for i := 0 to |offsets|
        invariant patched == PatchAll(p, offsets[..i], v)
      {
        assert offsets[..i + 1][..i] == offsets[..i];
        if (offsets[i] + 4) % 0x1_0000_0000 <= LengthOf(patched) {
          patched := WriteDword(patched, offsets[i], v);
        }
      }
      assert offsets[..|offsets|] == offsets;
    }

    /** The second locked part: store the advanced group, or end it. */
    method CommitNext()
      requires phase.Committing?
      modifies this
      ensures Model() == CommitStep(old(Model()))
    {
      var Committing(stamp, done, todo) := phase;
      if done.name !in configs {
        configs := configs[done.name := ZERO_CONFIG];
      }
      if done.group.index < |done.group.packets| {
        configs := configs[done.name := configs[done.name].(active := done.group)];
      } else {
        configs := configs[done.name := configs[done.name].(hasActive := false, lastInjection := Low32(stamp))];
      }
      phase := if todo == [] then Idle else Injecting(stamp, todo);
    }
  }

  ghost predicate SortedByInterval(configs: map<Name, QueueConfig>, names: seq<Name>) {
    forall i, j :: 0 <= i < j < |names| ==>
      names[i] in configs && names[j] in configs && configs[names[i]].interval <= configs[names[j]].interval
  }

  lemma InsertedMembers(names: seq<Name>, k: nat, name: Name)
    requires k <= |names| && Distinct(names) && name !in names
    ensures var longer := names[..k] + [name] + names[k..];
      Distinct(longer) && forall n :: n in longer <==> n == name || n in names
  {
    assert names == names[..k] + names[k..];
  }

  lemma InsertedSorted(configs: map<Name, QueueConfig>, names: seq<Name>, k: nat, name: Name)
    requires k <= |names| && SortedByInterval(configs, names) && name in configs
    requires forall i :: 0 <= i < |names| ==> names[i] in configs
    requires k > 0 ==> configs[names[k - 1]].interval <= configs[name].interval
    requires forall i :: k <= i < |names| ==> configs[names[i]].interval > configs[name].interval
    ensures SortedByInterval(configs, names[..k] + [name] + names[k..])
  {
    var longer := names[..k] + [name] + names[k..];
    forall i, j | 0 <= i < j < |longer|
      ensures && longer[i] in configs && longer[j] in configs
              && configs[longer[i]].interval <= configs[longer[j]].interval
    {
      InsertedAt(names, k, name, i);
      InsertedAt(names, k, name, j);
    }
  }

  lemma InsertedAt(names: seq<Name>, k: nat, name: Name, i: nat)
    requires k <= |names| && i <= |names|
    ensures (names[..k] + [name] + names[k..])[i] == if i < k then names[i] else if i == k then name else names[i - 1]
  {
  }

  lemma NoneActivated(s: State)
    ensures ActivatedConfigs(s, []) == s.configs && PulledQueues(s, []) == s.queues && TicketsFor(s, []) == []
  {
  }

  /** One round of the activation loop: what it finds, */
  lemma FindOne(s: State, names: seq<Name>, q: nat)
    requires Distinct(names) && Servable(s, names) && q < |names|
    ensures var n, c0, q0 := names[q], ActivatedConfigs(s, names[..q]), PulledQueues(s, names[..q]);
      && n in c0 && c0[n] == s.configs[n]
      && (!c0[n].hasActive ==> n in q0 && q0[n] == s.queues[n] && q0[n] != [])
      && Activated(s, n) == (if c0[n].hasActive then c0[n] else c0[n].(hasActive := true, active := q0[n][0]))
  {
    assert names[q] !in names[..q];
    hide Distinct;
  }

  lemma OneMoreName(names: seq<Name>, q: nat)
    requires q < |names|
    ensures forall m :: m in names[..q + 1] <==> m in names[..q] || m == names[q]
  {
    assert names[..q + 1] == names[..q] + [names[q]];
  }

  /** the configurations it leaves, */
  lemma ActivateOneConfig(s: State, names: seq<Name>, q: nat)
    requires Servable(s, names) && q < |names|
    ensures ActivatedConfigs(s, names[..q + 1]) == ActivatedConfigs(s, names[..q])[names[q] := Activated(s, names[q])]
  {
    OneMoreName(names, q);
    hide Activated; hide Candidate;
  }

  /** and the queues. */
  lemma PullOne(s: State, names: seq<Name>, q: nat)
    requires Distinct(names) && Servable(s, names) && q < |names|
    ensures var n, q0 := names[q], PulledQueues(s, names[..q]);
      if s.configs[n].hasActive then PulledQueues(s, names[..q + 1]) == q0
      else n in q0 && q0[n] != [] && PulledQueues(s, names[..q + 1]) == q0[n := q0[n][1..]]
  {
    OneMoreName(names, q);
    assert names[q] !in names[..q];
    assert Candidate(s, names[q]).Some?;
    hide Distinct; hide Servable;
  }

  lemma ActivateOne(s: State, names: seq<Name>, q: nat)
    requires Distinct(names) && Servable(s, names) && q < |names|
    ensures var n, c0, q0 := names[q], ActivatedConfigs(s, names[..q]), PulledQueues(s, names[..q]);
      && n in c0 && c0[n] == s.configs[n]
      && (!c0[n].hasActive ==> n in q0 && q0[n] == s.queues[n] && q0[n] != [])
      && Activated(s, n) == (if c0[n].hasActive then c0[n] else c0[n].(hasActive := true, active := q0[n][0]))
      && ActivatedConfigs(s, names[..q + 1]) == c0[n := Activated(s, n)]
      && PulledQueues(s, names[..q + 1]) == (if c0[n].hasActive then q0 else q0[n := q0[n][1..]])
  {
    hide ActivatedConfigs; hide PulledQueues; hide Activated; hide Distinct;
    FindOne(s, names, q);
    ActivateOneConfig(s, names, q);
    PullOne(s, names, q);
  }

  lemma DrawOne(s: State, names: seq<Name>, q: nat)
    requires Servable(s, names) && q < |names|
    ensures TicketsFor(s, names[..q + 1])
         == TicketsFor(s, names[..q]) + [Ticket(names[q], Activated(s, names[q]), Activated(s, names[q]).active)]
  {
  }
}
