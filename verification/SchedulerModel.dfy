/** The multi-queue group scheduler of Packet/PacketSender.cpp and Packet/PacketTCP.cpp as a step
    machine. Every critical section is one step, and every unlocked stretch of the timer tick ends a
    step, so steps of the TCP threads may fall between any two steps of a tick.

    A tick is: sample the clock, take the lock and select, sample the clock again, then for each
    selected queue hand one packet to the game and, under the lock again, commit. */
module SchedulerModel {
  import opened Words

  const MAX_QUEUE_NAME_LENGTH := 32
  const MAX_PACKETS_PER_QUEUE := 8
  const MAX_TIMESTAMP_OFFSETS := 8
  const MAX_QUEUES_PER_TICK := 10

  type Name = string

  /** One PacketEditorMessage as received, byte by byte: header at 0, id at 4, address at 8, length field at 16,
      packet data from 20 on. Recv hands over at most 1 MiB, of which the queue name takes 32. */
  type Packet = p: seq<Byte> | MIN_MESSAGE <= |p| <= MAX_MESSAGE witness seq(MIN_MESSAGE, _ => 0)

  const MIN_MESSAGE := 29
  const MAX_MESSAGE := 0x10_0000 - MAX_QUEUE_NAME_LENGTH
  const LENGTH_AT := 16
  const DATA_AT := 20
  const SENDPACKET := 0

  function HeaderOf(p: Packet): nat {
    ReadDword(p, 0)
  }

  function LengthOf(p: Packet): Dword {
    ReadDword(p, LENGTH_AT)
  }

  datatype TimestampConfig = TimestampConfig(needsUpdate: bool, offsets: seq<Dword>)

  datatype Group = Group(packets: seq<Packet>, queuedTime: Dword, index: Byte, nextTime: Dword)

  datatype QueueConfig = QueueConfig(
    interval: Dword, lastInjection: Dword, packetCount: Byte,
    timestamps: seq<TimestampConfig>, packetIntervals: seq<Dword>,
    hasActive: bool, active: Group)

  datatype Incomplete = Incomplete(packets: seq<Packet>, startTime: Dword)

  /** What the tick copies out of the locked maps for one selected queue. */
  datatype Ticket = Ticket(name: Name, config: QueueConfig, group: Group)

  /** Where the timer tick stands. Times are true times; the code sees only their low 32 bits. */
  datatype Phase =
    | Idle
    | Sampled(at: nat)
    | Selected(chosen: seq<Ticket>)
    | Injecting(stamp: nat, todo: seq<Ticket>)
    | Committing(stamp: nat, done: Ticket, todo: seq<Ticket>)

  /** One call of InjectSinglePacket. `last` says that the packet ended its group, `stamp` is the
      tick's second clock sample and `at` the true time of the call. */
  datatype Injection = Injection(
    name: Name, original: Packet, sent: Packet, index: Byte, last: bool, stamp: nat, at: nat)

  datatype State = State(
    now: nat,
    configs: map<Name, QueueConfig>,
    queues: map<Name, seq<Group>>,
    incomplete: map<Name, Incomplete>,
    phase: Phase,
    log: seq<Injection>)

  const INITIAL := State(0, map[], map[], map[], Idle, [])

  // ---------------------------------------------------------------- messages

  datatype TimestampMessage = TimestampMessage(needsUpdate: Byte, offsetCount: Byte, offsets: seq<Dword>)

  datatype QueueConfigMessage = QueueConfigMessage(
    queueName: seq<char>, interval: Dword, packetCount: Byte,
    timestamps: seq<TimestampMessage>, packetIntervals: seq<Dword>)
  {
    /** The fixed array sizes of the wire structure. */
    ghost predicate Valid() {
      && |queueName| == MAX_QUEUE_NAME_LENGTH
      && |timestamps| == MAX_PACKETS_PER_QUEUE
      && |packetIntervals| == MAX_PACKETS_PER_QUEUE
      && forall i :: 0 <= i < |timestamps| ==> |timestamps[i].offsets| == MAX_TIMESTAMP_OFFSETS
    }
  }

  function Min(a: nat, b: nat): nat {
    if a <= b then a else b
  }

  /** The text of a fixed-size name field, up to its first NUL. */
  function NameOf(field: seq<char>): (name: Name)
    ensures |name| <= |field| && name == field[..|name|] && '\0' !in name
    ensures |name| < |field| ==> field[|name|] == '\0'
  {
    if field == [] || field[0] == '\0' then [] else [field[0]] + NameOf(field[1..])
  }

  function TimestampOf(m: TimestampMessage): TimestampConfig
    requires |m.offsets| == MAX_TIMESTAMP_OFFSETS
  {
    TimestampConfig(m.needsUpdate != 0, m.offsets[..Min(m.offsetCount, MAX_TIMESTAMP_OFFSETS)])
  }

  function ConfigOf(m: QueueConfigMessage, now: nat): QueueConfig
    requires m.Valid()
  {
    var slots := Min(m.packetCount, MAX_PACKETS_PER_QUEUE);
    QueueConfig(
      m.interval, Low32(now), m.packetCount,
      seq(slots, i requires 0 <= i < slots => TimestampOf(m.timestamps[i])),
      m.packetIntervals[..slots],
      false, EMPTY_GROUP)
  }

  const EMPTY_GROUP := Group([], 0, 0, 0)

  /** The value std::map's operator[] creates for a missing key. */
  const ZERO_CONFIG := QueueConfig(0, 0, 0, [], [], false, EMPTY_GROUP)

  // ---------------------------------------------------------------- steps of the TCP threads

  function Waiting(s: State, n: Name): seq<Group> {
    if n in s.queues then s.queues[n] else []
  }

  function Partial(s: State, n: Name): seq<Packet> {
    if n in s.incomplete then s.incomplete[n].packets else []
  }

  function RegisterStep(s: State, m: QueueConfigMessage): State
    requires m.Valid()
  {
    var n := NameOf(m.queueName);
    s.(configs := s.configs[n := ConfigOf(m, s.now)], queues := s.queues[n := Waiting(s, n)])
  }

  function UnregisterStep(s: State, n: Name): State {
    if n in s.configs then
      s.(configs := s.configs - {n}, queues := s.queues - {n}, incomplete := s.incomplete - {n})
    else s
  }

  function ClearStep(s: State): State {
    s.(configs := map[], queues := map[], incomplete := map[])
  }

  /** A packet of a well-formed injection request arrives for queue `n`. */
  function ReceiveStep(s: State, n: Name, p: Packet): State {
    if n !in s.configs then s
    else
      var known := if n in s.incomplete then s.incomplete[n] else Incomplete([], 0);
      var start := if known.packets == [] then Low32(s.now) else known.startTime;
      var packets := known.packets + [p];
      if |packets| >= s.configs[n].packetCount then
        s.(queues := s.queues[n := Waiting(s, n) + [Group(packets, start, 0, start)]],
           incomplete := s.incomplete[n := Incomplete([], start)])
      else
        s.(incomplete := s.incomplete[n := Incomplete(packets, start)])
  }

  // ---------------------------------------------------------------- selection

  /** The group a tick would serve for queue `n`: the active one, else the front of its queue. */
  function Candidate(s: State, n: Name): Option<Group>
    requires n in s.configs
  {
    if s.configs[n].hasActive then Some(s.configs[n].active)
    else if Waiting(s, n) != [] then Some(Waiting(s, n)[0])
    else None
  }

  /** The timing test, on 32-bit clocks. */
  predicate Due(c: QueueConfig, g: Group, clock: Dword) {
    && clock >= g.nextTime
    && (g.index == 0 ==> Minus32(clock, c.lastInjection) >= c.interval)
  }

  predicate Ready(s: State, n: Name, at: nat) {
    n in s.configs && Candidate(s, n).Some? && Due(s.configs[n], Candidate(s, n).value, Low32(at))
  }

  /** What std::sort may return: all ready queues, each once, by non-decreasing interval. */
  ghost predicate ValidOrder(s: State, order: seq<Name>, at: nat) {
    && Distinct(order)
    && (forall n :: n in order <==> Ready(s, n, at))
    && (forall i, j :: 0 <= i < j < |order| ==>
          && order[i] in s.configs && order[j] in s.configs
          && s.configs[order[i]].interval <= s.configs[order[j]].interval)
  }

  function Activated(s: State, n: Name): QueueConfig
    requires n in s.configs && Candidate(s, n).Some?
  {
    s.configs[n].(hasActive := true, active := Candidate(s, n).value)
  }

  ghost predicate Servable(s: State, names: seq<Name>) {
    forall i :: 0 <= i < |names| ==> names[i] in s.configs && Candidate(s, names[i]).Some?
  }

  lemma OrderServable(s: State, order: seq<Name>, at: nat)
    requires ValidOrder(s, order, at)
    ensures Servable(s, order)
  {
    forall i | 0 <= i < |order|
      ensures Ready(s, order[i], at)
    {
      assert order[i] in order;
    }
  }

  function TicketsFor(s: State, names: seq<Name>): seq<Ticket>
    requires Servable(s, names)
  {
    seq(|names|, i requires 0 <= i < |names| =>
      Ticket(names[i], Activated(s, names[i]), Candidate(s, names[i]).value))
  }

  function ActivatedConfigs(s: State, chosen: seq<Name>): map<Name, QueueConfig>
    requires Servable(s, chosen)
  {
    map n | n in s.configs :: if n in chosen then Activated(s, n) else s.configs[n]
  }

  function PulledQueues(s: State, chosen: seq<Name>): map<Name, seq<Group>>
    requires Servable(s, chosen)
  {
    map n | n in s.queues ::
      if n in chosen && !s.configs[n].hasActive then s.queues[n][1..] else s.queues[n]
  }

  function Chosen(order: seq<Name>): seq<Name> {
    order[..Min(|order|, MAX_QUEUES_PER_TICK)]
  }

  /** Pull and activate the front group of every chosen queue that has none active. */
  function SelectStep(s: State, order: seq<Name>): State
    requires Servable(s, order)
  {
    if order == [] then s.(phase := Idle)
    else
      var chosen := Chosen(order);
      s.(configs := ActivatedConfigs(s, chosen),
         queues := PulledQueues(s, chosen),
         phase := Selected(TicketsFor(s, chosen)))
  }

  // ---------------------------------------------------------------- injection

  /** Byte `i` of the message after a store at `offset` of its packet data. The address is 32 bits wide, as on
      the 32-bit build: an offset close to 2^32 reaches the fields before the data. */
  function WrittenByte(p: Packet, offset: Dword, v: Dword, i: nat): Byte
    requires i < |p|
  {
    var d := (i - (DATA_AT + offset)) % TWO_32;
    if d < 4 then ByteOf(v, d) else p[i]
  }

  /** Store `v` little-endian at `offset`; bytes outside the message are not part of the model. */
  function WriteDword(p: Packet, offset: Dword, v: Dword): (r: Packet)
    ensures |r| == |p|
  {
    seq(|p|, i requires 0 <= i < |p| => WrittenByte(p, offset, v, i))
  }

  /** The guard of one timestamp write; the addition is 32 bits wide. */
  predicate WriteAllowed(offset: Dword, length: Dword) {
    (offset + 4) % TWO_32 <= length
  }

  /** The writes of the loop, each under the length field as the ones before it left it. */
  function PatchAll(p: Packet, offsets: seq<Dword>, v: Dword): (r: Packet)
    ensures |r| == |p|
    decreases |offsets|
  {
    if offsets == [] then p
    else
      var rest := PatchAll(p, offsets[..|offsets| - 1], v);
      var o := offsets[|offsets| - 1];
      if WriteAllowed(o, LengthOf(rest)) then WriteDword(rest, o, v) else rest
  }

  function PatchPacket(p: Packet, c: QueueConfig, index: nat, v: Dword): Packet {
    if index < |c.timestamps| && c.timestamps[index].needsUpdate && HeaderOf(p) == SENDPACKET then
      PatchAll(p, c.timestamps[index].offsets, v)
    else p
  }

  function PacketInterval(c: QueueConfig, index: nat): Dword {
    if index < |c.packetIntervals| then c.packetIntervals[index] else 0
  }

  /** The group after one injection: index advanced (a byte), next deadline set if packets remain. */
  function Advanced(t: Ticket, stamp: nat): Group
    requires t.group.index < |t.group.packets|
  {
    var g := t.group;
    var sent := PatchPacket(g.packets[g.index], t.config, g.index, Low32(stamp));
    var index: Byte := (g.index + 1) % 256;
    Group(g.packets[g.index := sent], g.queuedTime, index,
      if index < |g.packets| then Low32(stamp + PacketInterval(t.config, index)) else g.nextTime)
  }

  function InjectStep(s: State): State
    requires s.phase.Injecting? && s.phase.todo != []
    requires s.phase.todo[0].group.index < |s.phase.todo[0].group.packets|
  {
    var t := s.phase.todo[0];
    var g := Advanced(t, s.phase.stamp);
    var entry := Injection(t.name, t.group.packets[t.group.index], g.packets[t.group.index],
      t.group.index, !(g.index < |g.packets|), s.phase.stamp, s.now);
    s.(log := s.log + [entry], phase := Committing(s.phase.stamp, t.(group := g), s.phase.todo[1..]))
  }

  /** operator[] re-creates a configuration that was unregistered while the lock was free. */
  function CommitStep(s: State): State
    requires s.phase.Committing?
  {
    var Committing(stamp, done, todo) := s.phase;
    var c := if done.name in s.configs then s.configs[done.name] else ZERO_CONFIG;
    var updated :=
      if done.group.index < |done.group.packets| then c.(active := done.group)
      else c.(hasActive := false, lastInjection := Low32(stamp));
    s.(configs := s.configs[done.name := updated],
       phase := if todo == [] then Idle else Injecting(stamp, todo))
  }

  // ---------------------------------------------------------------- runs

  datatype Event =
    | Advance(ms: nat)
    | Register(message: QueueConfigMessage)
    | Unregister(name: Name)
    | Clear
    | Receive(name: Name, packet: Packet)
    | Sample
    | Select(order: seq<Name>)
    | Stamp
    | Inject
    | Commit

  /** Which step the code can take next. No clause mentions an index or an empty queue: that those
      accesses are in range is proved (Safety), not assumed. */
  ghost predicate Enabled(s: State, e: Event) {
    match e
    case Advance(_) => true
    case Register(m) => m.Valid()
    case Unregister(_) => true
    case Clear => true
    case Receive(_, _) => true
    case Sample => s.phase.Idle?
    case Select(order) => s.phase.Sampled? && ValidOrder(s, order, s.phase.at)
    case Stamp => s.phase.Selected?
    case Inject => s.phase.Injecting?
    case Commit => s.phase.Committing?
  }

  /** Tickets whose packet has not been handed over yet. */
  function Pending(p: Phase): seq<Ticket> {
    match p
    case Idle => []
    case Sampled(_) => []
    case Selected(ts) => ts
    case Injecting(_, ts) => ts
    case Committing(_, _, ts) => ts
  }

  function TicketOf(ts: seq<Ticket>, n: Name): Option<Ticket> {
    if ts == [] then None else if ts[0].name == n then Some(ts[0]) else TicketOf(ts[1..], n)
  }

  predicate IsCommitting(p: Phase, n: Name) {
    p.Committing? && p.done.name == n
  }
}
