/** Concrete runs of the scheduler from the start: early injections after a registration, calls closer together than
    the interval, a queue that a commit revives, a group that the wrapped counter holds back. */
module SchedulerExamples {
  import opened Words
  import opened SchedulerModel
  import opened SchedulerSafety
  import SchedulerTiming

  const INTERVAL: Dword := 1000
  const QUEUE: Name := ""

  function Message(): (m: QueueConfigMessage)
    ensures m.Valid()
  {
    QueueConfigMessage(
      seq(MAX_QUEUE_NAME_LENGTH, _ => '\0'), INTERVAL, 1,
      seq(MAX_PACKETS_PER_QUEUE, _ => TimestampMessage(0, 0, seq(MAX_TIMESTAMP_OFFSETS, _ => 0))),
      seq(MAX_PACKETS_PER_QUEUE, _ => 0))
  }

  /** The configuration that the message registers. */
  function Config(registered: Dword): QueueConfig {
    QueueConfig(INTERVAL, registered, 1, [TimestampConfig(false, [])], [0], false, EMPTY_GROUP)
  }

  lemma MessageConfig(now: Dword)
    ensures NameOf(Message().queueName) == QUEUE && ConfigOf(Message(), now) == Config(now)
  {
    var c := ConfigOf(Message(), now);
    assert c.timestamps == [TimestampConfig(false, [])];
    assert c.packetIntervals == [0];
  }

  function OnePacket(p: Packet, queued: Dword): Group {
    Group([p], queued, 0, queued)
  }

  /** A state in which only the one queue exists. */
  function Single(now: nat, c: QueueConfig, groups: seq<Group>, inc: map<Name, Incomplete>, phase: Phase,
                  log: seq<Injection>): State {
    State(now, map[QUEUE := c], map[QUEUE := groups], inc, phase, log)
  }

  lemma FirstRegistration()
    ensures Step(INITIAL, Register(Message())) == Single(0, Config(0), [], map[], Idle, [])
  {
    MessageConfig(0);
    hide NameOf; hide ConfigOf; hide Message; hide Config;
  }

  lemma RegisterAgain(now: Dword, c: QueueConfig, groups: seq<Group>, inc: map<Name, Incomplete>, phase: Phase,
                      log: seq<Injection>)
    ensures RegisterStep(Single(now, c, groups, inc, phase, log), Message())
         == Single(now, Config(now), groups, inc, phase, log)
  {
    MessageConfig(now);
    hide NameOf; hide ConfigOf; hide Message; hide Config;
  }

  lemma Arrives(now: Dword, c: QueueConfig, groups: seq<Group>, inc: map<Name, Incomplete>, phase: Phase,
                log: seq<Injection>, p: Packet)
    requires c.packetCount == 1 && (QUEUE in inc ==> inc[QUEUE].packets == [])
    ensures ReceiveStep(Single(now, c, groups, inc, phase, log), QUEUE, p)
         == Single(now, c, groups + [OnePacket(p, now)], inc[QUEUE := Incomplete([], now)], phase, log)
  {
    var more := groups + [OnePacket(p, now)];
    assert map[QUEUE := groups][QUEUE := more] == map[QUEUE := more];
    assert [] + [p] == [p];
  }

  function Drawn(c: QueueConfig, g: Group): QueueConfig {
    c.(hasActive := true, active := g)
  }

  lemma Selects(now: nat, c: QueueConfig, g: Group, inc: map<Name, Incomplete>, at: nat, log: seq<Injection>)
    requires !c.hasActive && Due(c, g, Low32(at))
    ensures var s := Single(now, c, [g], inc, Sampled(at), log);
      && Enabled(s, Select([QUEUE])) && Servable(s, [QUEUE])
      && SelectStep(s, [QUEUE])
         == Single(now, Drawn(c, g), [], inc, Selected([Ticket(QUEUE, Drawn(c, g), g)]), log)
  {
    hide Due;
    var s := Single(now, c, [g], inc, Sampled(at), log);
    assert Candidate(s, QUEUE) == Some(g);
    assert forall n :: n in [QUEUE] <==> Ready(s, n, at);
    assert Chosen([QUEUE]) == [QUEUE];
    assert ActivatedConfigs(s, [QUEUE]) == map[QUEUE := Drawn(c, g)];
    assert PulledQueues(s, [QUEUE]) == map[QUEUE := []];
    assert TicketsFor(s, [QUEUE]) == [Ticket(QUEUE, Drawn(c, g), g)];
  }

  lemma Injects(now: nat, c: QueueConfig, p: Packet, queued: Dword, inc: map<Name, Incomplete>, stamp: nat,
                log: seq<Injection>, drawn: QueueConfig)
    requires drawn.timestamps == [TimestampConfig(false, [])]
    ensures var g := OnePacket(p, queued);
      var s := Single(now, c, [], inc, Injecting(stamp, [Ticket(QUEUE, drawn, g)]), log);
      InjectStep(s) == Single(now, c, [], inc, Committing(stamp, Ticket(QUEUE, drawn, g.(index := 1)), []),
                              log + [Injection(QUEUE, p, p, 0, true, stamp, now)])
  {
    var g := OnePacket(p, queued);
    var t := Ticket(QUEUE, drawn, g);
    assert g.packets[0 := p] == g.packets;
    assert Advanced(t, stamp) == g.(index := 1);
    assert [t][1..] == [];
  }

  lemma Commits(now: nat, c: QueueConfig, t: Ticket, inc: map<Name, Incomplete>, stamp: nat, log: seq<Injection>)
    requires t.name == QUEUE && t.group.index == 1 && |t.group.packets| == 1
    ensures CommitStep(Single(now, c, [], inc, Committing(stamp, t, []), log))
         == Single(now, c.(hasActive := false, lastInjection := Low32(stamp)), [], inc, Idle, log)
  {
  }

  // ---------------------------------------------------------------- runs

  /** `es` is a run from the start that ends in `s`. */
  ghost predicate Reaches(es: seq<Event>, s: State) {
    ValidRun(INITIAL, es) && Run(INITIAL, es) == s && Safe(s)
  }

  lemma Ends(es: seq<Event>, s: State)
    requires Reaches(es, s)
    ensures ValidRun(INITIAL, es) && Run(INITIAL, es) == s
  {
  }

  lemma Starts()
    ensures Reaches([], INITIAL)
  {
  }

  lemma Next(es: seq<Event>, s: State, e: Event)
    requires Reaches(es, s) && Enabled(s, e)
    ensures Safe(s) && Reaches(es + [e], Step(s, e))
  {
    RunGoesOn(INITIAL, es, e);
    StepSafe(s, e);
    hide Safe; hide Enabled; hide Step; hide Run; hide ValidRun;
  }

  lemma SelectNext(es: seq<Event>, now: nat, c: QueueConfig, g: Group, inc: map<Name, Incomplete>, at: nat,
                   log: seq<Injection>)
    requires Reaches(es, Single(now, c, [g], inc, Sampled(at), log)) && !c.hasActive && Due(c, g, Low32(at))
    ensures Reaches(es + [Select([QUEUE])],
                    Single(now, Drawn(c, g), [], inc, Selected([Ticket(QUEUE, Drawn(c, g), g)]), log))
  {
    Selects(now, c, g, inc, at, log);
    hide Reaches; hide Safe; hide Due; hide SelectStep; hide Enabled;
    Next(es, Single(now, c, [g], inc, Sampled(at), log), Select([QUEUE]));
  }

  lemma StampNext(es: seq<Event>, now: nat, c: QueueConfig, t: Ticket, inc: map<Name, Incomplete>, log: seq<Injection>)
    requires Reaches(es, Single(now, c, [], inc, Selected([t]), log))
    ensures Reaches(es + [Stamp], Single(now, c, [], inc, Injecting(now, [t]), log))
  {
    hide Reaches; hide Safe;
    Next(es, Single(now, c, [], inc, Selected([t]), log), Stamp);
  }

  lemma AdvanceNext(es: seq<Event>, ms: nat, now: nat, c: QueueConfig, groups: seq<Group>,
                    inc: map<Name, Incomplete>, phase: Phase, log: seq<Injection>)
    requires Reaches(es, Single(now, c, groups, inc, phase, log))
    ensures Reaches(es + [Advance(ms)], Single(now + ms, c, groups, inc, phase, log))
  {
    hide Reaches; hide Safe;
    Next(es, Single(now, c, groups, inc, phase, log), Advance(ms));
  }

  lemma SampleNext(es: seq<Event>, now: nat, c: QueueConfig, groups: seq<Group>, inc: map<Name, Incomplete>,
                   log: seq<Injection>)
    requires Reaches(es, Single(now, c, groups, inc, Idle, log))
    ensures Reaches(es + [Sample], Single(now, c, groups, inc, Sampled(now), log))
  {
    hide Reaches; hide Safe;
    Next(es, Single(now, c, groups, inc, Idle, log), Sample);
  }

  lemma InjectNext(es: seq<Event>, now: nat, c: QueueConfig, p: Packet, queued: Dword, inc: map<Name, Incomplete>,
                   stamp: nat, log: seq<Injection>, drawn: QueueConfig)
    requires drawn.timestamps == [TimestampConfig(false, [])]
    requires Reaches(es, Single(now, c, [], inc, Injecting(stamp, [Ticket(QUEUE, drawn, OnePacket(p, queued))]), log))
    ensures Reaches(es + [Inject],
      Single(now, c, [], inc, Committing(stamp, Ticket(QUEUE, drawn, OnePacket(p, queued).(index := 1)), []),
             log + [Injection(QUEUE, p, p, 0, true, stamp, now)]))
  {
    hide Reaches; hide Safe; hide InjectStep;
    Injects(now, c, p, queued, inc, stamp, log, drawn);
    Next(es, Single(now, c, [], inc, Injecting(stamp, [Ticket(QUEUE, drawn, OnePacket(p, queued))]), log), Inject);
  }

  lemma CommitNext(es: seq<Event>, now: nat, c: QueueConfig, t: Ticket, inc: map<Name, Incomplete>, stamp: nat,
                   log: seq<Injection>)
    requires t.name == QUEUE && t.group.index == 1 && |t.group.packets| == 1
    requires Reaches(es, Single(now, c, [], inc, Committing(stamp, t, []), log))
    ensures Reaches(es + [Commit],
                    Single(now, c.(hasActive := false, lastInjection := Low32(stamp)), [], inc, Idle, log))
  {
    Commits(now, c, t, inc, stamp, log);
    hide Reaches; hide Safe; hide CommitStep;
    Next(es, Single(now, c, [], inc, Committing(stamp, t, []), log), Commit);
  }

  lemma ReceiveNext(es: seq<Event>, now: Dword, c: QueueConfig, inc: map<Name, Incomplete>, log: seq<Injection>,
                    p: Packet)
    requires c.packetCount == 1 && (QUEUE in inc ==> inc[QUEUE].packets == [])
    requires Reaches(es, Single(now, c, [], inc, Idle, log))
    ensures Reaches(es + [Receive(QUEUE, p)],
                    Single(now, c, [OnePacket(p, now)], inc[QUEUE := Incomplete([], now)], Idle, log))
  {
    Arrives(now, c, [], inc, Idle, log, p);
    EmptyUnit([OnePacket(p, now)]);
    hide Reaches; hide Safe; hide ReceiveStep;
    Next(es, Single(now, c, [], inc, Idle, log), Receive(QUEUE, p));
  }

  lemma RegisterNext(es: seq<Event>, now: Dword, c: QueueConfig, groups: seq<Group>, inc: map<Name, Incomplete>,
                     phase: Phase, log: seq<Injection>)
    requires Reaches(es, Single(now, c, groups, inc, phase, log))
    ensures Reaches(es + [Register(Message())], Single(now, Config(now), groups, inc, phase, log))
  {
    RegisterAgain(now, c, groups, inc, phase, log);
    hide Reaches; hide Safe; hide RegisterStep; hide Message; hide Config;
    Next(es, Single(now, c, groups, inc, phase, log), Register(Message()));
  }

  lemma FirstNext()
    ensures Reaches([Register(Message())], Single(0, Config(0), [], map[], Idle, []))
  {
    FirstRegistration();
    Starts();
    EmptyUnit([Register(Message())]);
    hide Reaches; hide Safe; hide RegisterStep; hide Message; hide Config; hide Single;
    Next([], INITIAL, Register(Message()));
  }

  /** A packet that arrives right after the registration, and a first clock sample `wait` later. */
  function Opening(p: Packet, wait: nat): seq<Event> {
    [Register(Message()), Receive(QUEUE, p), Advance(wait), Sample]
  }

  const NOTHING_PENDING: map<Name, Incomplete> := map[QUEUE := Incomplete([], 0)]

  lemma OpeningRuns(p: Packet, wait: nat)
    ensures Reaches(Opening(p, wait),
                    Single(wait, Config(0), [OnePacket(p, 0)], NOTHING_PENDING, Sampled(wait), []))
  {
    hide Reaches; hide Single; hide Message;
    FirstNext();
    var e := [Register(Message())];
    ReceiveNext(e, 0, Config(0), map[], [], p);
    assert map[][QUEUE := Incomplete([], 0)] == NOTHING_PENDING;
    AdvanceNext(e + [Receive(QUEUE, p)], wait, 0, Config(0), [OnePacket(p, 0)], NOTHING_PENDING, Idle, []);
    SampleNext(e + [Receive(QUEUE, p)] + [Advance(wait)], wait, Config(0), [OnePacket(p, 0)], NOTHING_PENDING, []);
    assert e + [Receive(QUEUE, p)] + [Advance(wait)] + [Sample] == Opening(p, wait);
  }

  /** Draw, stamp and call, `delay` milliseconds passing between clock sample and call. */
  function Serve(delay: nat): seq<Event> {
    [Select([QUEUE]), Stamp, Advance(delay), Inject]
  }

  lemma ServeRuns(es: seq<Event>, now: nat, c: QueueConfig, p: Packet, queued: Dword, inc: map<Name, Incomplete>,
                  at: nat, log: seq<Injection>, delay: nat)
    requires Reaches(es, Single(now, c, [OnePacket(p, queued)], inc, Sampled(at), log))
    requires !c.hasActive && Due(c, OnePacket(p, queued), Low32(at)) && c.timestamps == [TimestampConfig(false, [])]
    ensures var g := OnePacket(p, queued);
      Reaches(es + Serve(delay),
              Single(now + delay, Drawn(c, g), [], inc,
                     Committing(now, Ticket(QUEUE, Drawn(c, g), g.(index := 1)), []),
                     log + [Injection(QUEUE, p, p, 0, true, now, now + delay)]))
  {
    hide Reaches; hide Single; hide Due;
    var g := OnePacket(p, queued);
    var d := Drawn(c, g);
    var t := Ticket(QUEUE, d, g);
    SelectNext(es, now, c, g, inc, at, log);
    StampNext(es + [Select([QUEUE])], now, d, t, inc, log);
    AdvanceNext(es + [Select([QUEUE])] + [Stamp], delay, now, d, [], inc, Injecting(now, [t]), log);
    InjectNext(es + [Select([QUEUE])] + [Stamp] + [Advance(delay)], now + delay, d, p, queued, inc, now, log, d);
    FourMore(es, Select([QUEUE]), Stamp, Advance(delay), Inject);
  }

  lemma FourMore<T>(es: seq<T>, a: T, b: T, c: T, d: T)
    ensures es + [a] + [b] + [c] + [d] == es + [a, b, c, d]
  {
  }

  // ---------------------------------------------------------------- the two runs

  /** The tick samples its clock at 5; the queue is registered again at 6, and its first injection happens at
      6 although the interval of 1000 has not passed. */
  function SkippedWait(p: Packet): seq<Event> {
    Opening(p, 5) + [Advance(1)] + [Register(Message())] + Serve(0)
  }

  lemma RegistrationWaitIsSkipped(p: Packet)
    ensures var es := SkippedWait(p);
      && ValidRun(INITIAL, es)
      && |Run(INITIAL, es).log| == 1 && Run(INITIAL, es).log[0].at == 6
      && QUEUE in Run(INITIAL, es).configs
      && Run(INITIAL, es).configs[QUEUE].lastInjection == 6 && Run(INITIAL, es).configs[QUEUE].interval == INTERVAL
  {
    hide Reaches; hide Opening; hide Serve; hide Message; hide Run; hide ValidRun; hide Safe;
    OpeningRuns(p, 5);
    var g := OnePacket(p, 0);
    var e := Opening(p, 5);
    AdvanceNext(e, 1, 5, Config(0), [g], NOTHING_PENDING, Sampled(5), []);
    RegisterNext(e + [Advance(1)], 6, Config(0), [g], NOTHING_PENDING, Sampled(5), []);
    assert Due(Config(6), g, Low32(5));
    ServeRuns(e + [Advance(1)] + [Register(Message())], 6, Config(6), p, 0, NOTHING_PENDING, 5, [], 0);
    Ends(SkippedWait(p), Single(6, Drawn(Config(6), g), [], NOTHING_PENDING,
                                Committing(6, Ticket(QUEUE, Drawn(Config(6), g), g.(index := 1)), []),
                                [] + [Injection(QUEUE, p, p, 0, true, 6, 6)]));
  }

  /** A tick samples its clock at 1000 and is slow: the call comes at 1900. The next group's call comes at
      2000, an interval after the sample but only 100 after the call. */
  function CloseCalls(p: Packet, q: Packet): seq<Event> {
    Opening(p, 1000) + Serve(900) + [Commit] + [Receive(QUEUE, q)] + [Advance(100)] + [Sample] + Serve(0)
  }

  lemma CallsComeCloser(p: Packet, q: Packet)
    ensures var es := CloseCalls(p, q);
      && ValidRun(INITIAL, es)
      && var log := Run(INITIAL, es).log;
      && |log| == 2 && log[0].last && log[0].stamp == 1000
      && log[1].at - log[0].at == 100 < INTERVAL
  {
    hide Reaches; hide Opening; hide Serve; hide Run; hide ValidRun;
    SlowTick(p);
    var done := Drawn(Config(0), OnePacket(p, 0)).(hasActive := false, lastInjection := 1000);
    var log := [Injection(QUEUE, p, p, 0, true, 1000, 1900)];
    var e := Opening(p, 1000) + Serve(900) + [Commit];
    var inc := NOTHING_PENDING[QUEUE := Incomplete([], 1900)];
    ReceiveNext(e, 1900, done, NOTHING_PENDING, log, q);
    AdvanceNext(e + [Receive(QUEUE, q)], 100, 1900, done, [OnePacket(q, 1900)], inc, Idle, log);
    SampleNext(e + [Receive(QUEUE, q)] + [Advance(100)], 2000, done, [OnePacket(q, 1900)], inc, log);
    assert Due(done, OnePacket(q, 1900), Low32(2000));
    ServeRuns(e + [Receive(QUEUE, q)] + [Advance(100)] + [Sample], 2000, done, q, 1900, inc, 2000, log, 0);
    Ends(CloseCalls(p, q), Single(2000, Drawn(done, OnePacket(q, 1900)), [], inc,
      Committing(2000, Ticket(QUEUE, Drawn(done, OnePacket(q, 1900)), OnePacket(q, 1900).(index := 1)), []),
      log + [Injection(QUEUE, q, q, 0, true, 2000, 2000)]));
  }

  lemma SlowTick(p: Packet)
    ensures Reaches(Opening(p, 1000) + Serve(900) + [Commit],
                    Single(1900, Drawn(Config(0), OnePacket(p, 0)).(hasActive := false, lastInjection := 1000), [],
                           NOTHING_PENDING, Idle, [Injection(QUEUE, p, p, 0, true, 1000, 1900)]))
  {
    hide Reaches; hide Single; hide Serve; hide Opening;
    OpeningRuns(p, 1000);
    var g := OnePacket(p, 0);
    assert Due(Config(0), g, Low32(1000));
    ServeRuns(Opening(p, 1000), 1000, Config(0), p, 0, NOTHING_PENDING, 1000, [], 900);
    var log := [Injection(QUEUE, p, p, 0, true, 1000, 1900)];
    EmptyUnit(log);
    CommitNext(Opening(p, 1000) + Serve(900), 1900, Drawn(Config(0), g),
               Ticket(QUEUE, Drawn(Config(0), g), g.(index := 1)), NOTHING_PENDING, 1000, log);
  }

  // ---------------------------------------------------------------- a registration overtaken by a commit

  /** A tick draws the queue at 1000 and is slow. The queue is registered again at 1900; the packet in flight goes
      out, and the commit puts 1000 on record. */
  function Overtaken(p: Packet): seq<Event> {
    Opening(p, 1000) + [Select([QUEUE])] + [Stamp] + [Advance(900)] + [Register(Message())] + [Inject] + [Commit]
  }

  /** What is registered at 1900, after that commit. */
  function OvertakenConfig(): QueueConfig {
    Config(1900).(lastInjection := 1000)
  }

  function OvertakenLog(p: Packet): seq<Injection> {
    [Injection(QUEUE, p, p, 0, true, 1000, 1900)]
  }

  lemma OvertakenRuns(p: Packet)
    ensures Reaches(Overtaken(p), Single(1900, OvertakenConfig(), [], NOTHING_PENDING, Idle, OvertakenLog(p)))
  {
    hide Reaches; hide Single; hide Opening; hide Message;
    OpeningRuns(p, 1000);
    var g := OnePacket(p, 0);
    var d, e := Drawn(Config(0), g), Opening(p, 1000);
    var t := Ticket(QUEUE, d, g);
    assert Due(Config(0), g, Low32(1000));
    SelectNext(e, 1000, Config(0), g, NOTHING_PENDING, 1000, []);
    e := e + [Select([QUEUE])];
    StampNext(e, 1000, d, t, NOTHING_PENDING, []);
    e := e + [Stamp];
    AdvanceNext(e, 900, 1000, d, [], NOTHING_PENDING, Injecting(1000, [t]), []);
    e := e + [Advance(900)];
    RegisterNext(e, 1900, d, [], NOTHING_PENDING, Injecting(1000, [t]), []);
    e := e + [Register(Message())];
    InjectNext(e, 1900, Config(1900), p, 0, NOTHING_PENDING, 1000, [], d);
    EmptyUnit(OvertakenLog(p));
    CommitNext(e + [Inject], 1900, Config(1900), Ticket(QUEUE, d, g.(index := 1)), NOTHING_PENDING, 1000,
               OvertakenLog(p));
  }

  /** Both that packet and a fresh one go out less than the interval of 1000 after the registration at 1900, the
      second from a tick that samples its clock at 2000. */
  lemma CommitForgetsRegistration(p: Packet, q: Packet)
    ensures var es := Overtaken(p) + [Receive(QUEUE, q)] + [Advance(100)] + [Sample] + Serve(0);
      && ValidRun(INITIAL, es)
      && var log := Run(INITIAL, es).log;
      |log| == 2 && log[0].at == 1900 && log[1].at == 2000 == log[1].stamp
  {
    hide Reaches; hide Overtaken; hide Serve; hide Run; hide ValidRun;
    OvertakenRuns(p);
    var c, log, e := OvertakenConfig(), OvertakenLog(p), Overtaken(p);
    var inc := NOTHING_PENDING[QUEUE := Incomplete([], 1900)];
    ReceiveNext(e, 1900, c, NOTHING_PENDING, log, q);
    AdvanceNext(e + [Receive(QUEUE, q)], 100, 1900, c, [OnePacket(q, 1900)], inc, Idle, log);
    SampleNext(e + [Receive(QUEUE, q)] + [Advance(100)], 2000, c, [OnePacket(q, 1900)], inc, log);
    assert Due(c, OnePacket(q, 1900), Low32(2000));
    ServeRuns(e + [Receive(QUEUE, q)] + [Advance(100)] + [Sample], 2000, c, q, 1900, inc, 2000, log, 0);
    Ends(e + [Receive(QUEUE, q)] + [Advance(100)] + [Sample] + Serve(0),
         Single(2000, Drawn(c, OnePacket(q, 1900)), [], inc,
                Committing(2000, Ticket(QUEUE, Drawn(c, OnePacket(q, 1900)), OnePacket(q, 1900).(index := 1)), []),
                log + [Injection(QUEUE, q, q, 0, true, 2000, 2000)]));
  }

  // ---------------------------------------------------------------- a queue revived by a commit

  /** The queue is unregistered while its packet is in flight. */
  function Revived(p: Packet): seq<Event> {
    Opening(p, 1000) + [Select([QUEUE])] + [Stamp] + [Unregister(QUEUE)] + [Inject] + [Commit]
  }

  /** A state at 1000 with these registrations and nothing queued. */
  function Bare(configs: map<Name, QueueConfig>, phase: Phase, log: seq<Injection>): State {
    State(1000, configs, map[], map[], phase, log)
  }

  lemma Drops(c: QueueConfig, phase: Phase)
    ensures UnregisterStep(Single(1000, c, [], NOTHING_PENDING, phase, []), QUEUE) == Bare(map[], phase, [])
  {
    assert map[QUEUE := c] - {QUEUE} == map[];
    var none: seq<Group> := [];
    assert map[QUEUE := none] - {QUEUE} == map[];
    assert NOTHING_PENDING - {QUEUE} == map[];
  }

  lemma InjectsBare(p: Packet, drawn: QueueConfig)
    requires drawn.timestamps == [TimestampConfig(false, [])]
    ensures var g := OnePacket(p, 0);
      InjectStep(Bare(map[], Injecting(1000, [Ticket(QUEUE, drawn, g)]), []))
      == Bare(map[], Committing(1000, Ticket(QUEUE, drawn, g.(index := 1)), []),
              [Injection(QUEUE, p, p, 0, true, 1000, 1000)])
  {
    var g := OnePacket(p, 0);
    var t := Ticket(QUEUE, drawn, g);
    assert g.packets[0 := p] == g.packets;
    assert Advanced(t, 1000) == g.(index := 1);
    assert [t][1..] == [];
  }

  lemma CommitsBare(t: Ticket, log: seq<Injection>)
    requires t.name == QUEUE && t.group.index == 1 && |t.group.packets| == 1
    ensures CommitStep(Bare(map[], Committing(1000, t, []), log))
         == Bare(map[QUEUE := ZERO_CONFIG.(lastInjection := 1000)], Idle, log)
  {
  }

  lemma RevivedRuns(p: Packet)
    ensures Reaches(Revived(p), Bare(map[QUEUE := ZERO_CONFIG.(lastInjection := 1000)], Idle,
                                     [Injection(QUEUE, p, p, 0, true, 1000, 1000)]))
  {
    hide Reaches; hide Opening; hide Run; hide ValidRun; hide Safe; hide Single;
    OpeningRuns(p, 1000);
    var g := OnePacket(p, 0);
    var d, e := Drawn(Config(0), g), Opening(p, 1000);
    var t := Ticket(QUEUE, d, g);
    assert Due(Config(0), g, Low32(1000));
    hide InjectStep; hide CommitStep; hide UnregisterStep;
    SelectNext(e, 1000, Config(0), g, NOTHING_PENDING, 1000, []);
    e := e + [Select([QUEUE])];
    StampNext(e, 1000, d, t, NOTHING_PENDING, []);
    e := e + [Stamp];
    Drops(d, Injecting(1000, [t]));
    Next(e, Single(1000, d, [], NOTHING_PENDING, Injecting(1000, [t]), []), Unregister(QUEUE));
    e := e + [Unregister(QUEUE)];
    InjectsBare(p, d);
    Next(e, Bare(map[], Injecting(1000, [t]), []), Inject);
    e := e + [Inject];
    CommitsBare(t.(group := g.(index := 1)), [Injection(QUEUE, p, p, 0, true, 1000, 1000)]);
    Next(e, Bare(map[], Committing(1000, t.(group := g.(index := 1)), []),
                 [Injection(QUEUE, p, p, 0, true, 1000, 1000)]), Commit);
  }

  /** The commit re-creates the queue, and it accepts packets again, each a group of its own and to be injected
      without delay. */
  lemma UnregisteredQueueRevives(p: Packet, q: Packet)
    ensures var es := Revived(p) + [Receive(QUEUE, q)];
      && ValidRun(INITIAL, es)
      && var end := Run(INITIAL, es);
      && QUEUE in end.configs && end.configs[QUEUE] == ZERO_CONFIG.(lastInjection := 1000)
      && Waiting(end, QUEUE) == [OnePacket(q, 1000)]
  {
    hide Reaches; hide Revived; hide Run; hide ValidRun; hide Safe;
    RevivedRuns(p);
    var s := Bare(map[QUEUE := ZERO_CONFIG.(lastInjection := 1000)], Idle,
                  [Injection(QUEUE, p, p, 0, true, 1000, 1000)]);
    Next(Revived(p), s, Receive(QUEUE, q));
    EmptyUnit([q]);
    EmptyUnit([OnePacket(q, 1000)]);
    Ends(Revived(p) + [Receive(QUEUE, q)], Step(s, Receive(QUEUE, q)));
  }

  // ---------------------------------------------------------------- a group held back by the counter

  /** The queue is registered at 0; a packet is accepted just before the counter wraps, and a tick samples its clock
      `ms` later. */
  function HeldBack(p: Packet, ms: nat): seq<Event> {
    [Register(Message()), Advance(TWO_32 - 1), Receive(QUEUE, p), Advance(ms), Sample]
  }

  /** For all of the following 2^32 - 1 milliseconds no tick finds the group ready, although its interval has passed
      and it can be injected immediately. */
  lemma WrapHoldsGroupBack(p: Packet, ms: nat)
    requires 0 < ms < TWO_32
    ensures var es := HeldBack(p, ms);
      && ValidRun(INITIAL, es)
      && var end := Run(INITIAL, es);
      && end.phase == Sampled(TWO_32 - 1 + ms) && QUEUE in end.configs && Waiting(end, QUEUE) != []
      && !Ready(end, QUEUE, end.phase.at)
  {
    hide Reaches; hide Run; hide ValidRun; hide Safe; hide Message;
    FirstNext();
    var e, now := [Register(Message())], TWO_32 - 1;
    AdvanceNext(e, now, 0, Config(0), [], map[], Idle, []);
    ReceiveNext(e + [Advance(now)], now, Config(0), map[], [], p);
    var inc := map[QUEUE := Incomplete([], now)];
    assert map[][QUEUE := Incomplete([], now)] == inc;
    AdvanceNext(e + [Advance(now)] + [Receive(QUEUE, p)], ms, now, Config(0), [OnePacket(p, now)], inc, Idle, []);
    SampleNext(e + [Advance(now)] + [Receive(QUEUE, p)] + [Advance(ms)], now + ms, Config(0),
               [OnePacket(p, now)], inc, []);
    FourMore(e, Advance(now), Receive(QUEUE, p), Advance(ms), Sample);
    assert e + [Advance(now), Receive(QUEUE, p), Advance(ms), Sample] == HeldBack(p, ms);
    Ends(HeldBack(p, ms), Single(now + ms, Config(0), [OnePacket(p, now)], inc, Sampled(now + ms), []));
    SchedulerTiming.DeadlineSeen(now, now + ms);
  }
}
