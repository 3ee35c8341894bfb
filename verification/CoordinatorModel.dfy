/**
 Coordinator sessions over one durable directory (src/coordinator.cpp): epochs, registration and fencing as a
 state machine in which a write may fail at any byte and the process may die between any two steps.
 */
module CoordinatorModel {
  import opened Numeric
  import opened Bytes
  import opened RecordFormat
  import opened DurableLog
  import opened Persistence

  const MAX_EPOCH: nat := 0xFFFF_FFFF_FFFF_FFFF
  const FIRST_INCARNATION: nat := 1

  /** The payload formats of the two record kinds a coordinator writes and reads back. */
  datatype Protocol = Protocol(codec: Codec, encodeEpoch: nat -> seq<byte>, encodeFence: Fence -> seq<byte>) {
    ghost predicate RoundTrips() {
      && (forall e: nat :: e <= MAX_EPOCH ==> codec.epoch(encodeEpoch(e)) == Some(e) && |encodeEpoch(e)| <= MAX_PAYLOAD)
      && (forall f: Fence :: codec.fence(encodeFence(f)) == Some(f) && |encodeFence(f)| <= MAX_PAYLOAD)
    }

    function EpochEntry(epoch: nat): Entry { Entry(COORDINATOR_EPOCH, encodeEpoch(epoch)) }

    function FenceEntry(fence: Fence): Entry { Entry(FENCE, encodeFence(fence)) }
  }

  function DecodeEpochField(bytes: seq<byte>): Option<nat> {
    if |bytes| == 8 then Some(DecodeBE(bytes)) else None
  }

  function EncodeFenceFields(f: Fence): seq<byte> {
    EncodeBE(f.publisher, NAME_SIZE) + EncodeBE(f.boot, BOOT_SIZE)
  }

  function DecodeFenceFields(bytes: seq<byte>): Option<Fence> {
    if |bytes| != NAME_SIZE + BOOT_SIZE then None
    else
      DecodeBound(bytes[..NAME_SIZE]);
      DecodeBound(bytes[NAME_SIZE..]);
      Some(Fence(DecodeBE(bytes[..NAME_SIZE]), DecodeBE(bytes[NAME_SIZE..])))
  }

  /** Fields of fixed width, most significant byte first. */
  const FIXED_WIDTH := Protocol(Codec(DecodeEpochField, DecodeFenceFields), (e: nat) => EncodeBE(e, 8),
    EncodeFenceFields)

  /** There are protocols that round-trip: fixed-width fields do. */
  lemma FixedWidthRoundTrips()
    ensures FIXED_WIDTH.RoundTrips()
  {
    forall e: nat | e <= MAX_EPOCH
      ensures DecodeEpochField(EncodeBE(e, 8)) == Some(e)
    {
      FieldBounds();
      DecodeEncode(e, 8);
    }
    forall f: Fence
      ensures DecodeFenceFields(EncodeFenceFields(f)) == Some(f)
    {
      var bytes := EncodeFenceFields(f);
      assert bytes[..NAME_SIZE] == EncodeBE(f.publisher, NAME_SIZE)
        && bytes[NAME_SIZE..] == EncodeBE(f.boot, BOOT_SIZE);
      DecodeEncode(f.publisher, NAME_SIZE);
      DecodeEncode(f.boot, BOOT_SIZE);
    }
  }

  /** What the log says: the largest epoch ever taken, and every fence. */
  function EpochOf(codec: Codec, log: seq<Entry>): nat {
    if log == [] then 0
    else
      var e, before := log[|log| - 1], EpochOf(codec, log[..|log| - 1]);
      if e.kind == COORDINATOR_EPOCH && codec.epoch(e.payload).Some? && codec.epoch(e.payload).value > before then
        codec.epoch(e.payload).value
      else before
  }

  function FencesOf(codec: Codec, log: seq<Entry>): seq<Fence> {
    if log == [] then []
    else
      var e, before := log[|log| - 1], FencesOf(codec, log[..|log| - 1]);
      if e.kind == FENCE && codec.fence(e.payload).Some? then before + [codec.fence(e.payload).value] else before
  }

  /** The state of a running coordinator. */
  datatype Session = Session(epoch: nat, registered: map<PublisherId, BootId>, fences: seq<Fence>, stopping: bool)

  datatype Registration = Registration(publisher: PublisherId, boot: BootId, epoch: nat, incarnation: nat)

  datatype Binding = Binding(
    publisher: PublisherId,
    boot: BootId,
    epoch: nat,
    incarnation: nat,
    attempt: nat,
    attemptGeneration: nat)
  {
    predicate Valid() {
      publisher > 0 && boot > 0 && epoch > 0 && incarnation > 0 && attempt > 0 && attemptGeneration > 0
    }
  }

  datatype Reply = Accepted | StaleEpoch | FencedBoot | NotPersisted

  datatype Verdict = Permitted | ShutDown | InvalidArgument | EpochMismatch | Fenced | Unauthorized

  /** validate_binding */
  function ValidateBinding(session: Session, b: Binding): Verdict {
    if session.stopping then ShutDown
    else if !b.Valid() then InvalidArgument
    else if b.incarnation != FIRST_INCARNATION || b.epoch != session.epoch then EpochMismatch
    else if Fence(b.publisher, b.boot) in session.fences then Fenced
    else if b.publisher !in session.registered || session.registered[b.publisher] != b.boot then Unauthorized
    else Permitted
  }

  /** The registration gets as far as its decision: current epoch, and a boot that is not fenced. */
  predicate Admits(session: Session, r: Registration) {
    r.epoch == session.epoch && r.incarnation == FIRST_INCARNATION && Fence(r.publisher, r.boot) !in session.fences
  }

  /** Another boot of the same publisher is registered, and will be fenced. */
  predicate Replaces(session: Session, r: Registration) {
    r.publisher in session.registered && session.registered[r.publisher] != r.boot
  }

  /** The register branch of dispatch; `persisted` tells whether the fence record, if one is needed, was appended. */
  function Register(session: Session, r: Registration, persisted: bool): (Session, Reply) {
    if r.epoch != session.epoch || r.incarnation != FIRST_INCARNATION then (session, StaleEpoch)
    else if Fence(r.publisher, r.boot) in session.fences then (session, FencedBoot)
    else if Replaces(session, r) && !persisted then (session, NotPersisted)
    else
      var fences := if Replaces(session, r) then session.fences + [Fence(r.publisher,
        session.registered[r.publisher])] else session.fences;
      (session.(registered := session.registered[r.publisher := r.boot], fences := fences), Accepted)
  }

  // ---- Runs ------------------------------------------------------------------------------

  /** How the journal stands to the log in memory. */
  datatype Journal =
    | InStep    // the next record continues the log on disk
    | Broken    // bytes of a failed append are in the way: what is appended now does not survive a reopening
    | Behind    // memory lacks a fence that is on disk

  /** The log that a reopening would find, the log in memory, and the running session. */
  datatype State = State(log: seq<Entry>, held: seq<Entry>, journal: Journal, session: Option<Session>)

  datatype Event =
    | Start(writing: Writing)                               // open the directory and take the next epoch
    | Registering(request: Registration, writing: Writing)  // `writing` matters when a fence is needed
    | Appending(entry: Entry, writing: Writing)             // a record of the engine
    | Compact
    | CrashInCompact(late: bool)                            // after the snapshot is replaced, before the journal is
    | Stop
    | Crash

  /** A closed directory that holds this log. */
  function Closed(log: seq<Entry>): State {
    State(log, log, InStep, None)
  }

  /** One append, by what became of its write. After a failed one the write of a later one does not help. */
  function Append(s: State, e: Entry, writing: Writing): State {
    match s.journal
    case InStep =>
      (match writing
       case Durable => s.(log := s.log + [e], held := s.held + [e])
       case Nothing => s
       case Torn => s.(journal := Broken)
       case Unacknowledged => s.(log := s.log + [e], journal := Broken)
       case OverBound => s.(log := s.log + [e], journal := Behind)
       case Kept => s.(log := s.log + [e], held := s.held + [e]))
    case Broken => if writing.Durable? || writing.Kept? then s.(held := s.held + [e]) else s
    case Behind => s
  }

  /** The fence that a registration has to make durable first. */
  function FenceOf(session: Session, r: Registration): Fence
    requires Replaces(session, r)
  {
    Fence(r.publisher, session.registered[r.publisher])
  }

  predicate NeedsFence(s: State, r: Registration) {
    s.session.Some? && Admits(s.session.value, r) && Replaces(s.session.value, r)
  }

  function Step(P: Protocol, s: State, event: Event): State {
    match event
    case Start(writing) =>
      var previous := EpochOf(P.codec, s.log);
      if previous >= MAX_EPOCH then Closed(s.log)
      else
        var next := Append(Closed(s.log), P.EpochEntry(previous + 1), writing);
        if writing.Durable? then
          next.(session := Some(Session(previous + 1, map[], FencesOf(P.codec, next.held), false)))
        else Closed(next.log)
    case Registering(r, writing) =>
      if s.session.None? then s
      else
        var next := if NeedsFence(s, r) then Append(s, P.FenceEntry(FenceOf(s.session.value, r)), writing) else s;
        next.(session := Some(Register(s.session.value, r, writing.Durable?).0))
    case Appending(e, writing) => if s.session.None? then s else Append(s, e, writing)
    case Compact => if s.session.None? then s else State(s.held, s.held, InStep, s.session)
    case CrashInCompact(late) => Closed(if late && |s.log| > |s.held| then s.log else s.held)
    case Stop => if s.session.None? then s else s.(session := Some(s.session.value.(stopping := true)))
    case Crash => Closed(s.log)
  }

  predicate Appends(s: State, event: Event) {
    s.session.Some? && (event.Appending? || (event.Registering? && NeedsFence(s, event.request)))
  }

  predicate Compacts(event: Event) {
    event.Compact? || event.CrashInCompact?
  }

  /** The engine appends neither epochs nor fences. What follows a fence beyond the bound is not modelled. */
  predicate Possible(s: State, event: Event) {
    && (event.Appending? ==>
          event.entry.kind != FENCE && event.entry.kind != COORDINATOR_EPOCH && !event.writing.OverBound?)
    && (event.Start? ==> !event.writing.OverBound?)
    && (s.journal == Behind ==> !Appends(s, event) && !Compacts(event))
  }

  /** No append while bytes of a failed one are in the journal. */
  predicate Careful(s: State, event: Event) {
    s.journal == Broken ==> !Appends(s, event)
  }

  predicate PossibleRun(P: Protocol, s: State, events: seq<Event>)
    decreases |events|
  {
    events != [] ==> Possible(s, events[0]) && PossibleRun(P, Step(P, s, events[0]), events[1..])
  }

  predicate CarefulRun(P: Protocol, s: State, events: seq<Event>)
    decreases |events|
  {
    events != [] ==> Careful(s, events[0]) && CarefulRun(P, Step(P, s, events[0]), events[1..])
  }

  function Run(P: Protocol, s: State, events: seq<Event>): State
    decreases |events|
  {
    if events == [] then s else Run(P, Step(P, s, events[0]), events[1..])
  }

  // ---- Invariant ---------------------------------------------------------------------

  predicate NoneFenced(session: Session) {
    forall p :: p in session.registered ==> Fence(p, session.registered[p]) !in session.fences
  }

  /**
   A session holds the newest epoch of the log, only fences that are in memory, and no registered boot that is fenced.
   */
  ghost predicate Invariant(P: Protocol, s: State) {
    && (s.journal == InStep ==> s.held == s.log)
    && EpochOf(P.codec, s.held) == EpochOf(P.codec, s.log)
    && (s.session.Some? ==>
          && s.session.value.epoch == EpochOf(P.codec, s.log)
          && (forall f :: f in s.session.value.fences ==> f in FencesOf(P.codec, s.held))
          && NoneFenced(s.session.value))
  }

  /** Every fence in memory would be found again. */
  ghost predicate Backed(P: Protocol, s: State) {
    forall f :: f in FencesOf(P.codec, s.held) ==> f in FencesOf(P.codec, s.log)
  }

  lemma OneMore(P: Protocol, log: seq<Entry>, e: Entry)
    ensures EpochOf(P.codec, log + [e]) >= EpochOf(P.codec, log)
    ensures e.kind != COORDINATOR_EPOCH ==> EpochOf(P.codec, log + [e]) == EpochOf(P.codec, log)
    ensures e.kind != FENCE ==> FencesOf(P.codec, log + [e]) == FencesOf(P.codec, log)
    ensures forall f :: f in FencesOf(P.codec, log) ==> f in FencesOf(P.codec, log + [e])
  {
    assert (log + [e])[..|log|] == log;
  }

  /** Taking the next epoch really takes it. */
  lemma NextEpoch(P: Protocol, log: seq<Entry>)
    requires P.RoundTrips() && EpochOf(P.codec, log) < MAX_EPOCH
    ensures EpochOf(P.codec, log + [P.EpochEntry(EpochOf(P.codec, log) + 1)]) == EpochOf(P.codec, log) + 1
  {
    var e := P.EpochEntry(EpochOf(P.codec, log) + 1);
    assert (log + [e])[..|log|] == log;
  }

  lemma NextFence(P: Protocol, log: seq<Entry>, f: Fence)
    requires P.RoundTrips()
    ensures FencesOf(P.codec, log + [P.FenceEntry(f)]) == FencesOf(P.codec, log) + [f]
    ensures EpochOf(P.codec, log + [P.FenceEntry(f)]) == EpochOf(P.codec, log)
  {
    assert (log + [P.FenceEntry(f)])[..|log|] == log;
  }

  /** The session of the later state is the same one, and it has forgotten no fence. */
  ghost predicate SameSession(s: State, next: State) {
    && s.session.Some? && next.session.Some? && next.session.value.epoch == s.session.value.epoch
    && (forall f :: f in s.session.value.fences ==> f in next.session.value.fences)
  }

  ghost predicate OpensSession(P: Protocol, s: State, next: State) {
    next.session.Some? && next.session.value.epoch > EpochOf(P.codec, s.log)
  }

  /** No fence in memory is forgotten, neither by the log nor by a later session. */
  ghost predicate FencesLast(P: Protocol, s: State, next: State) {
    && Backed(P, next)
    && (forall f :: f in FencesOf(P.codec, s.held) ==> f in FencesOf(P.codec, next.held))
    && (next.session.Some? && !SameSession(s, next) ==>
          forall f :: f in FencesOf(P.codec, s.held) ==> f in next.session.value.fences)
  }

  /** One append of a record that is no epoch. */
  lemma AppendKeeps(P: Protocol, s: State, e: Entry, writing: Writing)
    requires Invariant(P, s) && e.kind != COORDINATOR_EPOCH
    ensures var next := Append(s, e, writing);
      && Invariant(P, next) && EpochOf(P.codec, next.log) == EpochOf(P.codec, s.log)
      && (forall f :: f in FencesOf(P.codec, s.held) ==> f in FencesOf(P.codec, next.held))
      && (s.journal != Broken && Backed(P, s) ==> Backed(P, next))
  {
    hide EpochOf, FencesOf;
    OneMore(P, s.log, e);
    OneMore(P, s.held, e);
  }

  lemma StartKeeps(P: Protocol, s: State, writing: Writing)
    requires P.RoundTrips() && Invariant(P, s)
    ensures var next := Step(P, s, Start(writing));
      && Invariant(P, next) && EpochOf(P.codec, next.log) >= EpochOf(P.codec, s.log)
      && (next.session.Some? ==> OpensSession(P, s, next)) && (Backed(P, s) ==> FencesLast(P, s, next))
  {
    hide EpochOf, FencesOf, Protocol.RoundTrips;
    OneMore(P, s.log, P.EpochEntry(EpochOf(P.codec, s.log) + 1));
    if EpochOf(P.codec, s.log) < MAX_EPOCH { NextEpoch(P, s.log); }
  }

  lemma RegisteringKeeps(P: Protocol, s: State, r: Registration, writing: Writing)
    requires P.RoundTrips() && Invariant(P, s) && Possible(s, Registering(r, writing)) && s.session.Some?
    ensures var next := Step(P, s, Registering(r, writing));
      && Invariant(P, next) && EpochOf(P.codec, next.log) == EpochOf(P.codec, s.log) && SameSession(s, next)
      && (Backed(P, s) && Careful(s, Registering(r, writing)) ==> FencesLast(P, s, next))
  {
    hide EpochOf, FencesOf, Protocol.RoundTrips;
    if NeedsFence(s, r) {
      var f := FenceOf(s.session.value, r);
      AppendKeeps(P, s, P.FenceEntry(f), writing);
      NextFence(P, s.held, f);
    }
  }

  lemma StepKeeps(P: Protocol, s: State, event: Event)
    requires P.RoundTrips() && Invariant(P, s) && Possible(s, event)
    ensures var next := Step(P, s, event);
      && Invariant(P, next) && EpochOf(P.codec, next.log) >= EpochOf(P.codec, s.log)
      && (next.session.Some? ==> SameSession(s, next) || (event.Start? && OpensSession(P, s, next)))
      && (Backed(P, s) && Careful(s, event) ==> FencesLast(P, s, next))
  {
    hide EpochOf, FencesOf, Protocol.RoundTrips, Append;
    match event
    case Start(writing) => StartKeeps(P, s, writing);
    case Registering(r, writing) => if s.session.Some? { RegisteringKeeps(P, s, r, writing); }
    case Appending(e, writing) => if s.session.Some? { AppendKeeps(P, s, e, writing); SessionUntouched(s, e, writing); }
    case _ =>
  }

  lemma SessionUntouched(s: State, e: Entry, writing: Writing)
    ensures Append(s, e, writing).session == s.session
  {
  }

  predicate Starts(events: seq<Event>) {
    exists i :: 0 <= i < |events| && events[i].Start?
  }

  /** Over any run: either the session is still the same, or it is one of a higher epoch. */
  lemma {:induction false} RunKeeps(P: Protocol, s: State, events: seq<Event>)
    requires P.RoundTrips() && Invariant(P, s) && PossibleRun(P, s, events)
    ensures Invariant(P, Run(P, s, events)) && EpochOf(P.codec, Run(P, s, events).log) >= EpochOf(P.codec, s.log)
    ensures Run(P, s, events).session.Some? ==>
      SameSession(s, Run(P, s, events)) || (Starts(events) && OpensSession(P, s, Run(P, s, events)))
    ensures Starts(events) && Run(P, s, events).session.Some? ==> OpensSession(P, s, Run(P, s, events))
    decreases |events|
  {
    hide Step, EpochOf, FencesOf, Protocol.RoundTrips, Possible;
    if events != [] {
      var next, rest := Step(P, s, events[0]), events[1..];
      StepKeeps(P, s, events[0]);
      RunKeeps(P, next, rest);
      assert Starts(rest) ==> Starts(events) by {
        if i :| 0 <= i < |rest| && rest[i].Start? { assert events[i + 1].Start?; }
      }
      if events[0].Start? { StartKeeps(P, s, events[0].writing); }
      assert Starts(events) && !events[0].Start? ==> Starts(rest) by {
        if i :| 0 < i < |events| && events[i].Start? { assert rest[i - 1].Start?; }
      }
    }
  }

  /** Over any run without an append after a failed one, no fence in memory is ever forgotten. */
  lemma {:induction false} CarefulRunKeeps(P: Protocol, s: State, events: seq<Event>)
    requires P.RoundTrips() && Invariant(P, s) && Backed(P, s) && PossibleRun(P, s, events) && CarefulRun(P, s, events)
    ensures FencesLast(P, s, Run(P, s, events))
    decreases |events|
  {
    hide Step, EpochOf, FencesOf, Protocol.RoundTrips, Possible, Careful;
    if events != [] {
      var next, rest := Step(P, s, events[0]), events[1..];
      StepKeeps(P, s, events[0]);
      RunKeeps(P, next, rest);
      CarefulRunKeeps(P, next, rest);
    }
  }

  /** Session epochs strictly increase, and what was bound in one session is refused in every later one. */
  lemma OldBindingsAreRefused(P: Protocol, s: State, events: seq<Event>, b: Binding)
    requires P.RoundTrips() && Invariant(P, s) && s.session.Some? && PossibleRun(P, s, events)
    requires Starts(events) && Run(P, s, events).session.Some? && b.epoch <= s.session.value.epoch
    ensures var later := Run(P, s, events).session.value;
      && later.epoch > s.session.value.epoch
      && ValidateBinding(later, b) in {ShutDown, InvalidArgument, EpochMismatch}
      && (!later.stopping && b.Valid() ==> ValidateBinding(later, b) == EpochMismatch)
      && forall r: Registration, persisted: bool ::
           r.epoch <= s.session.value.epoch ==> Register(later, r, persisted) == (later, StaleEpoch)
  {
    hide Run, EpochOf, FencesOf, Protocol.RoundTrips, PossibleRun;
    RunKeeps(P, s, events);
  }

  /**
   A fenced boot is refused for good: no later registration or mutation of it succeeds, in this session or any
   other, unless a record was appended to a journal that a failed append had broken.
   */
  lemma FencedForever(P: Protocol, s: State, events: seq<Event>, f: Fence, r: Registration, b: Binding, persisted: bool)
    requires P.RoundTrips() && Invariant(P, s) && Backed(P, s) && s.session.Some?
    requires PossibleRun(P, s, events) && CarefulRun(P, s, events)
    requires f in s.session.value.fences && Run(P, s, events).session.Some?
    requires r.publisher == b.publisher == f.publisher && r.boot == b.boot == f.boot
    ensures var later := Run(P, s, events).session.value;
      && Register(later, r, persisted).1 in {StaleEpoch, FencedBoot} && Register(later, r, persisted).0 == later
      && ValidateBinding(later, b) != Permitted
  {
    hide Run, EpochOf, FencesOf, Protocol.RoundTrips, PossibleRun, CarefulRun;
    CarefulRunKeeps(P, s, events);
  }

  /** An acknowledged fence is durable if and only if no failed append had broken the journal before. */
  lemma AcknowledgedFence(P: Protocol, s: State, r: Registration)
    requires P.RoundTrips() && Invariant(P, s) && NeedsFence(s, r) && s.journal != Behind
    requires FenceOf(s.session.value, r) !in FencesOf(P.codec, s.log)
    ensures var f, next := FenceOf(s.session.value, r), Step(P, s, Registering(r, Durable));
      && Register(s.session.value, r, true).1 == Accepted && f in next.session.value.fences
      && (f in FencesOf(P.codec, next.log) <==> s.journal == InStep)
  {
    hide EpochOf, FencesOf, Protocol.RoundTrips;
    NextFence(P, s.log, FenceOf(s.session.value, r));
  }

  /** A session in which boot `b` replaces boot `a`, whose fence is written only at the second attempt. */
  function LosingSession(p: PublisherId, a: BootId, b: BootId): seq<Event> {
    [Start(Durable), Registering(Registration(p, a, 1, 1), Nothing)]
    + [Registering(Registration(p, b, 1, 1), Torn), Registering(Registration(p, b, 1, 1), Durable)]
  }

  /** After the losing session the replaced boot is fenced in memory, and nothing on disk says so. */
  lemma AfterLosingSession(P: Protocol, p: PublisherId, a: BootId, b: BootId)
    requires P.RoundTrips() && a != b
    ensures PossibleRun(P, Closed([]), LosingSession(p, a, b))
    ensures Run(P, Closed([]), LosingSession(p, a, b))
      == State([P.EpochEntry(1)], [P.EpochEntry(1), P.FenceEntry(Fence(p, a))], Broken,
               Some(Session(1, map[p := b], [Fence(p, a)], false)))
  {
    hide EpochOf, FencesOf, Protocol.RoundTrips, Run, PossibleRun;
    var epoch := P.EpochEntry(1);
    FirstEpoch(P);
    var first, second := Registering(Registration(p, a, 1, 1), Nothing), Registering(Registration(p, b, 1, 1), Torn);
    var third := Registering(Registration(p, b, 1, 1), Durable);
    var s1 := State([epoch], [epoch], InStep, Some(Session(1, map[], [], false)));
    var s2 := s1.(session := Some(Session(1, map[p := a], [], false)));
    assert Step(P, s1, first) == s2;
    var s3 := s2.(journal := Broken);
    assert Step(P, s2, second) == s3;
    assert NeedsFence(s3, third.request) && FenceOf(s3.session.value, third.request) == Fence(p, a);
    assert map[p := a][p := b] == map[p := b];
    assert [epoch] + [P.FenceEntry(Fence(p, a))] == [epoch, P.FenceEntry(Fence(p, a))];
    assert Step(P, s3, third).held == [epoch, P.FenceEntry(Fence(p, a))];
    var none: seq<Fence> := [];
    assert none + [Fence(p, a)] == [Fence(p, a)];
    assert Register(s3.session.value, third.request, true).0 == Session(1, map[p := b], [Fence(p, a)], false);
    assert Step(P, s3, third).session == Some(Session(1, map[p := b], [Fence(p, a)], false));
    RunOfTwo(P, Closed([]), Start(Durable), first);
    RunOfTwo(P, s2, second, third);
    RunConcat(P, Closed([]), [Start(Durable), first], [second, third]);
  }

  lemma NothingLogged(P: Protocol)
    ensures EpochOf(P.codec, []) == 0 && FencesOf(P.codec, []) == []
  {
    hide Protocol.RoundTrips;
  }

  lemma FirstEpoch(P: Protocol)
    requires P.RoundTrips()
    ensures Step(P, Closed([]), Start(Durable))
      == State([P.EpochEntry(1)], [P.EpochEntry(1)], InStep, Some(Session(1, map[], [], false)))
    ensures EpochOf(P.codec, [P.EpochEntry(1)]) == 1 && FencesOf(P.codec, [P.EpochEntry(1)]) == []
  {
    hide EpochOf, FencesOf, Protocol.RoundTrips;
    NothingLogged(P);
    NextEpoch(P, []);
    OneMore(P, [], P.EpochEntry(1));
    assert [] + [P.EpochEntry(1)] == [P.EpochEntry(1)];
  }

  /**
   The failing run: a fence append that fails half-way, the same registration again, a crash and a new session.
   The replaced boot, acknowledged as fenced, registers again.
   */
  lemma FenceIsLost(P: Protocol, p: PublisherId, a: BootId, b: BootId)
    requires P.RoundTrips() && a != b
    ensures var lost := Run(P, Closed([]), LosingSession(p, a, b));
      var again := Run(P, lost, [Crash, Start(Durable)]);
      && PossibleRun(P, Closed([]), LosingSession(p, a, b)) && PossibleRun(P, lost, [Crash, Start(Durable)])
      && lost.session.Some? && Fence(p, a) in lost.session.value.fences && again.session.Some?
      && Register(again.session.value, Registration(p, a, 2, 1), true).1 == Accepted
  {
    hide EpochOf, FencesOf, Protocol.RoundTrips, Run, PossibleRun;
    AfterLosingSession(P, p, a, b);
    FirstEpoch(P);
    NextEpoch(P, [P.EpochEntry(1)]);
    OneMore(P, [P.EpochEntry(1)], P.EpochEntry(2));
    RunOfTwo(P, Run(P, Closed([]), LosingSession(p, a, b)), Crash, Start(Durable));
  }

  lemma RunOfTwo(P: Protocol, s: State, a: Event, b: Event)
    ensures Run(P, s, [a, b]) == Step(P, Step(P, s, a), b)
    ensures PossibleRun(P, s, [a, b]) <==> Possible(s, a) && Possible(Step(P, s, a), b)
  {
    hide Step, Possible;
    assert [a, b][1..] == [b] && [b][1..] == [];
    assert Run(P, Step(P, s, a), [b]) == Run(P, Step(P, Step(P, s, a), b), []);
    assert PossibleRun(P, Step(P, s, a), [b]) <==> Possible(Step(P, s, a), b);
  }

  lemma {:induction false} RunConcat(P: Protocol, s: State, a: seq<Event>, b: seq<Event>)
    ensures Run(P, s, a + b) == Run(P, Run(P, s, a), b)
    ensures PossibleRun(P, s, a) && PossibleRun(P, Run(P, s, a), b) ==> PossibleRun(P, s, a + b)
    decreases |a|
  {
    hide Step, Possible;
    if a == [] {
      assert a + b == b;
    } else {
      assert (a + b)[0] == a[0] && (a + b)[1..] == a[1..] + b;
      RunConcat(P, Step(P, s, a[0]), a[1..], b);
    }
  }

  /** Nothing but the current epoch, a boot that is not fenced, and a durable fence for the boot it replaces lets in. */
  lemma AcceptedExactly(session: Session, r: Registration, persisted: bool)
    ensures Register(session, r, persisted).1 == Accepted
      <==> (&& r.epoch == session.epoch && r.incarnation == FIRST_INCARNATION
            && (forall f :: f in session.fences ==> f.publisher != r.publisher || f.boot != r.boot)
            && (r.publisher in session.registered && session.registered[r.publisher] != r.boot ==> persisted))
    ensures Register(session, r, persisted).1 != Accepted ==> Register(session, r, persisted).0 == session
  {
    forall f | f in session.fences && f.publisher == r.publisher && f.boot == r.boot
      ensures f == Fence(r.publisher, r.boot)
    {
    }
  }

  /** A complete binding of this publisher and boot, minted in this session. */
  predicate Mints(session: Session, r: Registration, b: Binding) {
    && b.Valid() && b.publisher == r.publisher && b.boot == r.boot
    && b.epoch == session.epoch && b.incarnation == FIRST_INCARNATION
  }

  /** Replacing a boot fences it: from then on the new boot may mutate, and no other boot of the publisher. */
  lemma ReplacementFences(P: Protocol, s: State, r: Registration)
    requires Invariant(P, s) && NeedsFence(s, r)
    ensures var (session, reply) := Register(s.session.value, r, true);
      && reply == Accepted && FenceOf(s.session.value, r) in session.fences
      && session.registered[r.publisher] == r.boot && NoneFenced(session)
      && (forall b: Binding :: Mints(session, r, b) && !session.stopping ==> ValidateBinding(session, b) == Permitted)
      && (forall b: Binding ::
            b.publisher == r.publisher && b.boot != r.boot ==> ValidateBinding(session, b) != Permitted)
  {
  }

  // ---- Who may mutate, over every run ------------------------------------------------------

  /** The boot whose registration the running session has accepted last, read off the answers it gave. */
  function LastAccepted(P: Protocol, s: State, events: seq<Event>, p: PublisherId, known: Option<BootId>)
    : (boot: Option<BootId>)
    decreases |events|
  {
    if events == [] then known
    else
      var now :=
        match events[0]
        case Registering(r, writing) =>
          if s.session.Some? && r.publisher == p && Register(s.session.value, r, writing.Durable?).1 == Accepted then
            Some(r.boot)
          else known
        case Appending(_, _) => known
        case Compact => known
        case Stop => known
        case _ => None;
      LastAccepted(P, Step(P, s, events[0]), events[1..], p, now)
  }

  function RegisteredBoot(session: Session, p: PublisherId): Option<BootId> {
    if p in session.registered then Some(session.registered[p]) else None
  }

  /** The registered boot is the one accepted last. */
  lemma {:induction false} RegisteredIsAccepted(P: Protocol, s: State, events: seq<Event>, p: PublisherId,
                                                known: Option<BootId>)
    requires s.session.Some? ==> RegisteredBoot(s.session.value, p) == known
    ensures Run(P, s, events).session.Some? ==>
      RegisteredBoot(Run(P, s, events).session.value, p) == LastAccepted(P, s, events, p, known)
    decreases |events|
  {
    hide EpochOf, FencesOf, Append;
    if events != [] {
      var next := Step(P, s, events[0]);
      var now :=
        match events[0]
        case Registering(r, writing) =>
          if s.session.Some? && r.publisher == p && Register(s.session.value, r, writing.Durable?).1 == Accepted then
            Some(r.boot)
          else known
        case Appending(_, _) => known
        case Compact => known
        case Stop => known
        case _ => None;
      NextRegistered(P, s, events[0], p);
      RegisteredIsAccepted(P, next, events[1..], p, now);
    }
  }

  /** What one event does to the registered boot of a publisher. */
  lemma NextRegistered(P: Protocol, s: State, event: Event, p: PublisherId)
    ensures var next := Step(P, s, event);
      next.session.Some? ==>
        match event
        case Start(_) => RegisteredBoot(next.session.value, p) == None
        case Registering(r, writing) =>
          s.session.Some?
          && RegisteredBoot(next.session.value, p)
             == if r.publisher == p && Register(s.session.value, r, writing.Durable?).1 == Accepted then Some(r.boot)
                else RegisteredBoot(s.session.value, p)
        case _ => s.session.Some? && RegisteredBoot(next.session.value, p) == RegisteredBoot(s.session.value, p)
  {
    hide EpochOf, FencesOf;
  }

  /**
   Over every run from a closed directory: a binding is permitted exactly if it is complete, carries the current epoch
   of a session that is not stopping, and names the boot whose registration this session has accepted last for the
   publisher.
   */
  lemma PermittedExactly(P: Protocol, log: seq<Entry>, events: seq<Event>, b: Binding)
    requires P.RoundTrips() && PossibleRun(P, Closed(log), events) && Run(P, Closed(log), events).session.Some?
    ensures var session := Run(P, Closed(log), events).session.value;
      ValidateBinding(session, b) == Permitted
      <==> (&& !session.stopping && b.epoch == session.epoch > 0 && b.incarnation == FIRST_INCARNATION
            && b.publisher > 0 && b.boot > 0 && b.attempt > 0 && b.attemptGeneration > 0
            && LastAccepted(P, Closed(log), events, b.publisher, None) == Some(b.boot))
  {
    hide Run, LastAccepted, EpochOf, FencesOf, Protocol.RoundTrips, PossibleRun;
    assert Invariant(P, Closed(log));
    RunKeeps(P, Closed(log), events);
    RegisteredIsAccepted(P, Closed(log), events, b.publisher, None);
  }
}
