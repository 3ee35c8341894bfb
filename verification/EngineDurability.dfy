/**
 The engine on top of the durable log (src/engine.cpp over src/persist.cpp): runs of operations, compactions,
 crashes at any byte and restarts, starting from an empty directory.
 */
module EngineDurability {
  import opened Numeric
  import opened Bytes
  import opened RecordFormat
  import opened DurableLog
  import opened Recovery
  import opened DurableRuns
  import opened PlanLog
  import opened EngineModel
  import opened EngineSafety

  const PLAN_RECORD: nat := 1

  /** encode_plan and decode_plan. */
  datatype PlanCodec = PlanCodec(encode: Plan -> seq<byte>, decode: seq<byte> -> Option<Plan>)

  /**
   The record of this plan fits into the log, and is read back exactly when the plan is within the decoder's bounds.
   */
  predicate Codes(codec: PlanCodec, p: Plan) {
    |codec.encode(p)| <= MAX_PAYLOAD && codec.decode(codec.encode(p)) == if Readable(p) then Some(p) else None
  }

  /** The plans among the records, in order. Other kinds and undecodable payloads are skipped. */
  function PlansIn(codec: PlanCodec, records: seq<DurableRecord>): seq<Plan> {
    if records == [] then []
    else
      var r, before := records[|records| - 1], PlansIn(codec, records[..|records| - 1]);
      if r.kind == PLAN_RECORD && codec.decode(r.payload).Some?
        then before + [codec.decode(r.payload).value] else before
  }

  function EntryPlans(codec: PlanCodec, entries: seq<Entry>): seq<Plan> {
    if entries == [] then []
    else
      var e, before := entries[|entries| - 1], EntryPlans(codec, entries[..|entries| - 1]);
      if e.kind == PLAN_RECORD && codec.decode(e.payload).Some?
        then before + [codec.decode(e.payload).value] else before
  }

  lemma {:induction false} PlansOfChain(I: Integrity, codec: PlanCodec, entries: seq<Entry>)
    ensures PlansIn(codec, Chain(I, entries)) == EntryPlans(codec, entries)
  {
    if entries != [] {
      var m := |entries| - 1;
      PlansOfChain(I, codec, entries[..m]);
      assert Chain(I, entries)[..m] == Chain(I, entries[..m]);
    }
  }

  function PlanEntry(codec: PlanCodec, p: Plan): Entry {
    Entry(PLAN_RECORD, codec.encode(p))
  }

  function PlanEntries(codec: PlanCodec, plans: seq<Plan>): (entries: seq<Entry>)
    ensures |entries| == |plans|
  {
    seq(|plans|, i requires 0 <= i < |plans| => PlanEntry(codec, plans[i]))
  }

  ghost predicate AllCode(codec: PlanCodec, plans: seq<Plan>) {
    forall i :: 0 <= i < |plans| ==> Codes(codec, plans[i])
  }

  /** Of the appended plan records, recovery reads the readable ones. */
  lemma {:induction false} AppendedPlans(codec: PlanCodec, entries: seq<Entry>, plans: seq<Plan>)
    requires AllCode(codec, plans)
    ensures EntryPlans(codec, entries + PlanEntries(codec, plans)) == EntryPlans(codec, entries) + Readables(plans)
  {
    hide Readable;
    var all := entries + PlanEntries(codec, plans);
    if plans == [] {
      assert all == entries;
    } else {
      var m := |plans| - 1;
      AppendedPlans(codec, entries, plans[..m]);
      assert all[..|all| - 1] == entries + PlanEntries(codec, plans[..m]);
      assert Codes(codec, plans[m]);
    }
  }

  /** An appended record of another kind leaves the plans alone. */
  lemma AppendOfOtherKind(codec: PlanCodec, entries: seq<Entry>, e: Entry)
    requires e.kind != PLAN_RECORD
    ensures EntryPlans(codec, entries + [e]) == EntryPlans(codec, entries)
  {
    assert (entries + [e])[..|entries|] == entries;
  }

  // ---- Runs of the whole -----------------------------------------------------------------

  datatype System = System(engine: State, repository: Repository)

  datatype SystemEvent =
    | Operating(op: Operation)                                 // every record of the operation is acknowledged
    | CrashDuring(op: Operation, whole: nat, written: nat)     // the process dies inside the record after `whole` ones
    | Other(entry: Entry)                                      // a record of another kind, from the coordinator
    | Compacting
    | CrashInCompaction
    | Restarting

  /** The records that an operation appends. */
  ghost function NewRecords(s: State, op: Operation): seq<Plan>
    requires |s.log| <= |EngineModel.Step(s, op).0.log|
  {
    EngineModel.Step(s, op).0.log[|s.log|..]
  }

  function Appends(entries: seq<Entry>): (steps: seq<DurableRuns.Step>)
    ensures |steps| == |entries|
  {
    seq(|entries|, i requires 0 <= i < |entries| => Append(entries[i]))
  }

  ghost predicate PossibleHere(codec: PlanCodec, s: State, op: Operation) {
    && (op.SubmitOp? ==> Lists(op.order, s.plans))
    && |s.log| <= |EngineModel.Step(s, op).0.log| && AllCode(codec, NewRecords(s, op))
  }

  ghost predicate PossibleEvent(codec: PlanCodec, s: State, event: SystemEvent) {
    match event
    case Operating(op) => PossibleHere(codec, s, op)
    case CrashDuring(op, whole, written) => PossibleHere(codec, s, op) && whole < |NewRecords(s, op)|
    case Other(e) => e.kind != PLAN_RECORD
    case _ => true
  }

  /** What the event does to the log. */
  ghost function StepsOf(codec: PlanCodec, s: State, event: SystemEvent): seq<DurableRuns.Step>
    requires PossibleEvent(codec, s, event)
  {
    match event
    case Operating(op) => Appends(PlanEntries(codec, NewRecords(s, op)))
    case CrashDuring(op, whole, written) =>
      var plans := NewRecords(s, op);
      Appends(PlanEntries(codec, plans[..whole])) + [CrashInAppend(PlanEntry(codec, plans[whole]), written)]
    case Other(e) => [Append(e)]
    case Compacting => [DurableRuns.Compact]
    case CrashInCompaction => [DurableRuns.CrashInCompact]
    case Restarting => [DurableRuns.Restart]
  }

  predicate Dies(event: SystemEvent) {
    event.CrashDuring? || event.CrashInCompaction? || event.Restarting?
  }

  /** The log goes through its steps; the engine operates, or recovers from the records that were rebuilt. */
  ghost function Next(I: Integrity, codec: PlanCodec, system: System, event: SystemEvent): (next: Option<System>)
    requires PossibleEvent(codec, system.engine, event)
  {
    match DurableRuns.Run(I, system.repository, StepsOf(codec, system.engine, event))
    case None => None
    case Some(r) =>
      var engine := if Dies(event) then Recover(PlansIn(codec, r.records))
                    else if event.Operating? then EngineModel.Step(system.engine, event.op).0
                    else system.engine;
      Some(System(engine, r))
  }

  /**
   The engine is in a good state, and recovery would read what it has read and written, as far as that can be read.
   */
  ghost predicate InGoodState(I: Integrity, codec: PlanCodec, system: System, entries: seq<Entry>) {
    && Running(I, system.repository, entries) && Invariant(system.engine)
    && EntryPlans(codec, entries) == Readables(system.engine.log)
  }

  lemma {:induction false} LogOfAppends(entries: seq<Entry>, more: seq<Entry>, last: seq<DurableRuns.Step>)
    ensures LogOf(entries, Appends(more) + last) == LogOf(entries + more, last)
    decreases |more|
  {
    var steps := Appends(more) + last;
    if more == [] {
      assert steps == last && entries + more == entries;
    } else {
      assert steps[0] == Append(more[0]) && steps[1..] == Appends(more[1..]) + last;
      LogOfAppends(entries + [more[0]], more[1..], last);
      assert entries + [more[0]] + more[1..] == entries + more;
    }
  }

  lemma LogOfOne(entries: seq<Entry>, step: DurableRuns.Step)
    ensures LogOf(entries, [step]) == LogAfter(entries, step)
  {
    assert [step][1..] == [];
    assert LogOf(LogAfter(entries, step), []) == LogAfter(entries, step);
  }

  /** The plan records that are durable after the event: all of an operation, or those before the crash. */
  ghost function DurableRecords(codec: PlanCodec, s: State, event: SystemEvent): seq<Plan>
    requires PossibleEvent(codec, s, event)
  {
    match event
    case Operating(op) => NewRecords(s, op)
    case CrashDuring(op, whole, written) =>
      var plans := NewRecords(s, op);
      if written == ImageSize(PlanEntry(codec, plans[whole])) then plans[..whole + 1] else plans[..whole]
    case _ => []
  }

  /** What recovery would read after the appends of some plans. */
  lemma PlansAppended(codec: PlanCodec, log: seq<Plan>, entries: seq<Entry>, plans: seq<Plan>)
    requires AllCode(codec, plans) && EntryPlans(codec, entries) == Readables(log)
    ensures LogOf(entries, Appends(PlanEntries(codec, plans))) == entries + PlanEntries(codec, plans)
    ensures EntryPlans(codec, entries + PlanEntries(codec, plans)) == Readables(log + plans)
  {
    hide Readable, Readables, Codes, EntryPlans, LogOf;
    var appends := Appends(PlanEntries(codec, plans));
    ReadablesConcat(log, plans);
    LogOfAppends(entries, PlanEntries(codec, plans), []);
    LogOfNothing(entries + PlanEntries(codec, plans));
    assert appends + [] == appends;
    AppendedPlans(codec, entries, plans);
  }

  lemma LogOfNothing(entries: seq<Entry>)
    ensures LogOf(entries, []) == entries
  {
  }

  /** The same when the process dies inside the record of the next plan. */
  lemma PlansUpToCrash(codec: PlanCodec, log: seq<Plan>, entries: seq<Entry>, plans: seq<Plan>, whole: nat,
                       written: nat)
    requires AllCode(codec, plans) && EntryPlans(codec, entries) == Readables(log) && whole < |plans|
    ensures var e := PlanEntry(codec, plans[whole]);
      EntryPlans(codec, LogOf(entries, Appends(PlanEntries(codec, plans[..whole])) + [CrashInAppend(e, written)]))
      == Readables(log + if written == ImageSize(e) then plans[..whole + 1] else plans[..whole])
  {
    hide Readable, Readables, Codes, EntryPlans, LogOf;
    var e, front := PlanEntry(codec, plans[whole]), PlanEntries(codec, plans[..whole]);
    LogOfAppends(entries, front, [CrashInAppend(e, written)]);
    LogOfOne(entries + front, CrashInAppend(e, written));
    if written == ImageSize(e) {
      PlansAppended(codec, log, entries, plans[..whole + 1]);
      assert entries + front + [e] == entries + PlanEntries(codec, plans[..whole + 1]);
    } else {
      PlansAppended(codec, log, entries, plans[..whole]);
    }
  }

  /** What recovery would read after the event. */
  lemma PlansAfter(codec: PlanCodec, s: State, entries: seq<Entry>, event: SystemEvent)
    requires PossibleEvent(codec, s, event) && EntryPlans(codec, entries) == Readables(s.log)
    ensures EntryPlans(codec, LogOf(entries, StepsOf(codec, s, event))) == Readables(s.log + DurableRecords(codec, s,
      event))
  {
    hide Readable, Readables, EngineModel.Step, Codes, EntryPlans, LogOf, NewRecords, Appends, PlanEntries;
    match event
    case Operating(op) => PlansAppended(codec, s.log, entries, NewRecords(s, op));
    case CrashDuring(op, whole, written) => PlansUpToCrash(codec, s.log, entries, NewRecords(s, op), whole, written);
    case Other(e) =>
      LogOfOne(entries, Append(e));
      AppendOfOtherKind(codec, entries, e);
      assert s.log + [] == s.log;
    case _ =>
      LogOfOne(entries, StepsOf(codec, s, event)[0]);
      assert s.log + [] == s.log;
  }

  /**
   A log cut after any record of an operation is a good log, and recovery from what can be read of it is a good state.
   */
  lemma RecoverFromReadables(s: State, event: SystemEvent, codec: PlanCodec)
    requires Invariant(s) && PossibleEvent(codec, s, event)
    ensures var log := s.log + DurableRecords(codec, s, event);
      && Recover(Readables(log)) == Recover(log) && Invariant(Recover(log))
      && Readables(Recover(log).log) == Readables(log)
  {
    hide Invariant, EngineModel.Step, GoodLog, Readable, Restored, IncumbentOf, MayFollow;
    var log := s.log + DurableRecords(codec, s, event);
    LogIsGood(s);
    if event.Operating? || event.CrashDuring? {
      var next := EngineModel.Step(s, event.op).0;
      StepKeeps(s, event.op);
      StepFollowsTable(s, event.op, 0);
      LogIsGood(next);
      assert next.log == s.log + NewRecords(s, event.op) by { assert Progress(s, next); Extends(s, next); }
      GoodPrefix(next.log, |log|);
      assert next.log[..|log|] == log;
    } else {
      assert log == s.log;
    }
    ReadablesConcat(log, []);
    assert Readables(log) + [] == Readables(log) && log + [] == log;
    RecoverKeeps(log);
  }

  lemma Extends(s: State, next: State)
    requires Progress(s, next)
    ensures |s.log| <= |next.log| && next.log == s.log + next.log[|s.log|..]
  {
    assert next.log[..|s.log|] == s.log;
  }

  lemma LogIsGood(s: State)
    requires Invariant(s)
    ensures GoodLog(s.log)
  {
  }

  /**
   Every event keeps engine and log together; one that kills the process leads to what recovery makes of the durable
   records.
   */
  lemma EventKeeps(I: Integrity, codec: PlanCodec, system: System, entries: seq<Entry>, event: SystemEvent)
    requires InGoodState(I, codec, system, entries) && PossibleEvent(codec, system.engine, event)
    requires PermittedRun(entries, StepsOf(codec, system.engine, event))
    ensures var next, s := Next(I, codec, system, event), system.engine;
      && next.Some? && InGoodState(I, codec, next.value, LogOf(entries, StepsOf(codec, s, event)))
      && (Dies(event) ==> next.value.engine == Recover(s.log + DurableRecords(codec, s, event)))
  {
    hide Running, Invariant, Readable, Readables, EngineModel.Step, DurableRuns.Run, LogOf, EntryPlans, PlansIn,
      Recover,
      PermittedRun, StepsOf, DurableRecords;
    var s, steps := system.engine, StepsOf(codec, system.engine, event);
    RunRebuilds(I, system.repository, entries, steps);
    var r := DurableRuns.Run(I, system.repository, steps).value;
    PlansAfter(codec, s, entries, event);
    RecordsOfRunning(I, r, LogOf(entries, steps));
    PlansOfChain(I, codec, LogOf(entries, steps));
    RecoverFromReadables(s, event, codec);
    if !Dies(event) { Survives(codec, s, event); }
  }

  lemma RecordsOfRunning(I: Integrity, r: Repository, entries: seq<Entry>)
    requires Running(I, r, entries)
    ensures r.records == Chain(I, entries)
  {
  }

  /** The engine after an event that it survives. */
  lemma Survives(codec: PlanCodec, s: State, event: SystemEvent)
    requires Invariant(s) && PossibleEvent(codec, s, event) && !Dies(event)
    ensures var next := if event.Operating? then EngineModel.Step(s, event.op).0 else s;
      Invariant(next) && next.log == s.log + DurableRecords(codec, s, event)
  {
    hide Invariant, EngineModel.Step, Readable;
    if event.Operating? {
      StepKeeps(s, event.op);
      StepFollowsTable(s, event.op, 0);
      Extends(s, EngineModel.Step(s, event.op).0);
    } else {
      assert s.log + [] == s.log;
    }
  }

  ghost predicate PossibleEvents(I: Integrity, codec: PlanCodec, system: System, entries: seq<Entry>,
                                 events: seq<SystemEvent>)
    decreases |events|
  {
    events != [] ==>
      && PossibleEvent(codec, system.engine, events[0])
      && var steps := StepsOf(codec, system.engine, events[0]);
      && PermittedRun(entries, steps)
      && (Next(I, codec, system, events[0]).Some? ==>
            PossibleEvents(I, codec, Next(I, codec, system, events[0]).value, LogOf(entries, steps), events[1..]))
  }

  ghost function RunAll(I: Integrity, codec: PlanCodec, system: System, entries: seq<Entry>, events: seq<SystemEvent>)
    : (end: Option<(System, seq<Entry>)>)
    requires PossibleEvents(I, codec, system, entries, events)
    decreases |events|
  {
    if events == [] then Some((system, entries))
    else
      match Next(I, codec, system, events[0])
      case None => None
      case Some(next) => RunAll(I, codec, next, LogOf(entries, StepsOf(codec, system.engine, events[0])), events[1..])
  }

  lemma {:induction false} RunAllKeeps(I: Integrity, codec: PlanCodec, system: System, entries: seq<Entry>,
                                       events: seq<SystemEvent>)
    requires InGoodState(I, codec, system, entries) && PossibleEvents(I, codec, system, entries, events)
    ensures var end := RunAll(I, codec, system, entries, events);
      end.Some? && InGoodState(I, codec, end.value.0, end.value.1)
    decreases |events|
  {
    hide InGoodState, Next, StepsOf, LogOf, PossibleEvent, PermittedRun;
    if events != [] {
      EventKeeps(I, codec, system, entries, events[0]);
      var next := Next(I, codec, system, events[0]).value;
      RunAllKeeps(I, codec, next, LogOf(entries, StepsOf(codec, system.engine, events[0])), events[1..]);
    }
  }

  /** A fresh engine on an empty directory. */
  ghost function FreshSystem(I: Integrity): System
    requires OpenImage(I, EMPTY_DISK).Some?
  {
    System(START, OpenImage(I, EMPTY_DISK).value)
  }

  /**
   Main result for engine and log together. Over every run of engine operations, records of other kinds,
   compactions, crashes at any byte and restarts, every reopening succeeds, the engine stays in a good state (at most
   one committed plan, bound to the live authority), and a reopening at the end would read exactly the readable part
   of the engine's log.
   */
  lemma EngineSurvivesRuns(I: Integrity, codec: PlanCodec, events: seq<SystemEvent>)
    requires OpenImage(I, EMPTY_DISK).Some? ==> PossibleEvents(I, codec, FreshSystem(I), [], events)
    ensures OpenImage(I, EMPTY_DISK).Some?
    ensures var end := RunAll(I, codec, FreshSystem(I), [], events);
      && end.Some? && Invariant(end.value.0.engine)
      && end.value.0.repository.records == Chain(I, end.value.1)
      && OpenImage(I, end.value.0.repository.disk).Some?
      && PlansIn(codec, OpenImage(I, end.value.0.repository.disk).value.records) == Readables(end.value.0.engine.log)
  {
    hide OpenImage, Stored, Rebuilt, RunAll, PossibleEvents, Invariant, EntryPlans, PlansIn, Readables, Clean, Chain;
    EmptyDiskHoldsNothing(I);
    Reopens(I, EMPTY_DISK, []);
    StartsGood(codec);
    var first := FreshSystem(I);
    assert InGoodState(I, codec, first, []);
    RunAllKeeps(I, codec, first, [], events);
    var (system, entries) := RunAll(I, codec, first, [], events).value;
    RunningIsStored(I, system.repository, entries);
    OpenStored(I, system.repository.disk, entries);
    RecordsOfRunning(I, OpenImage(I, system.repository.disk).value, entries) by {
      Reopens(I, system.repository.disk, entries);
    }
    PlansOfChain(I, codec, entries);
    RecordsOfRunning(I, system.repository, entries);
  }

  lemma StartsGood(codec: PlanCodec)
    ensures Invariant(START) && EntryPlans(codec, []) == Readables(START.log)
  {
    assert Fold([]) == map[];
  }

  lemma RunningIsStored(I: Integrity, r: Repository, entries: seq<Entry>)
    requires Running(I, r, entries)
    ensures Stored(I, r.disk, entries) && Fits(r.disk)
  {
    CleanIsStored(I, r.disk, entries);
  }
}
