/** The coordinator as an object over its repository: start, register and validate_binding of src/coordinator.cpp. */
module CoordinatorObject {
  import opened Numeric
  import opened Bytes
  import opened RecordFormat
  import opened DurableLog
  import opened Recovery
  import opened Intact
  import opened Persistence
  import opened CoordinatorModel

  /** What recovery folds out of the records is what the log says. */
  lemma {:induction false} FoldsAgree(I: Integrity, codec: Codec, log: seq<Entry>)
    ensures EpochIn(codec, Chain(I, log)) == EpochOf(codec, log)
    ensures FencesIn(codec, Chain(I, log)) == FencesOf(codec, log)
  {
    if log != [] {
      var m := |log| - 1;
      FoldsAgree(I, codec, log[..m]);
      assert Chain(I, log)[..m] == Chain(I, log[..m]);
    }
  }

  /** What a start leaves when its epoch is durable. */
  lemma StartTakesEpoch(P: Protocol, log: seq<Entry>)
    requires P.RoundTrips() && EpochOf(P.codec, log) < MAX_EPOCH
    ensures var epoch := EpochOf(P.codec, log) + 1;
      var next := log + [P.EpochEntry(epoch)];
      var state := State(next, next, InStep, Some(Session(epoch, map[], FencesOf(P.codec, next), false)));
      Step(P, Closed(log), Start(Durable)) == state && Invariant(P, state)
  {
    hide EpochOf, FencesOf, Protocol.RoundTrips;
    NoSession(P, log);
    StartKeeps(P, Closed(log), Durable);
  }

  class Coordinator {
    const protocol: Protocol
    const repository: PlanRepository
    var epoch: nat
    var registered: map<PublisherId, BootId>
    var fences: seq<Fence>
    var stopping: bool

    constructor (protocol: Protocol, repository: PlanRepository, epoch: nat, fences: seq<Fence>)
      ensures this.protocol == protocol && this.repository == repository
      ensures Current() == Session(epoch, map[], fences, false)
    {
      this.protocol, this.repository := protocol, repository;
      this.epoch, this.fences := epoch, fences;
      registered, stopping := map[], false;
    }

    ghost function Current(): Session
      reads this
    {
      Session(epoch, registered, fences, stopping)
    }

    ghost function State(): CoordinatorModel.State
      reads this, repository
    {
      CoordinatorModel.State(repository.entries, repository.held, JournalOf(repository), Some(Current()))
    }

    ghost predicate Valid()
      reads this, repository, repository.directory
    {
      && protocol.RoundTrips() && repository.codec == protocol.codec && repository.Valid()
      && Invariant(protocol, State())
    }

    static ghost function JournalOf(repository: PlanRepository): Journal
      reads repository
    {
      if repository.sound then InStep else if repository.gapped then Behind else Broken
    }

    /**
     Coordinator::start: recover the repository, then take the next epoch durably before anything else. A start
     that fails may or may not have written the epoch.
     */
    static method Start(I: Integrity, protocol: Protocol, directory: Directory, maxRecords: nat, compactAfter: nat,
                        ghost log: seq<Entry>)
      returns (status: Status, coordinator: Coordinator?)
      requires protocol.RoundTrips() && maxRecords < MAX_SEQUENCE - 1 && Stored(I, directory.Image(), log)
      modifies directory
      ensures status == Success <==> coordinator != null
      ensures status == Success ==> coordinator.Valid() && coordinator.protocol == protocol && fresh(coordinator)
      ensures status == Success ==> coordinator.repository.directory == directory && coordinator.repository.sound
      ensures status == Success ==> coordinator.State() == Step(protocol, Closed(log), CoordinatorModel.Start(Durable))
      ensures !Fits(old(directory.Image())) ==> status == Failure(IntegrityFailure)
      ensures Stored(I, directory.Image(), log)
        || Stored(I, directory.Image(), log + [protocol.EpochEntry(EpochOf(protocol.codec, log) + 1)])
    {
      hide Stored, EpochOf, FencesOf, EpochIn, FencesIn, OpenImage, Chain, Clean, Protocol.RoundTrips, Invariant,
        AllStored, Step, CoordinatorModel.Append, Image, NextRecord, Written, CompactedDisk, Fits, OpensTo, ValidLog,
        LastDigest;
      coordinator := null;
      OpenStored(I, directory.Image(), log);
      var repository;
      status, repository := PlanRepository.Open(I, protocol.codec, directory, maxRecords, compactAfter, log);
      if status != Success {
        return;
      }
      FoldsAgree(I, protocol.codec, log);
      var previous := repository.epoch;
      if previous >= MAX_EPOCH { return Failure(InvalidGeneration), null; }
      EpochFits(protocol, previous + 1);
      ghost var writing;
      status, writing := repository.Append(COORDINATOR_EPOCH, protocol.encodeEpoch(previous + 1));
      if status != Success {
        return status, null;
      }
      FoldsAgree(I, protocol.codec, repository.entries);
      coordinator := new Coordinator(protocol, repository, previous + 1, repository.fences);
      StartTakesEpoch(protocol, log);
    }

    /**
     The register branch of dispatch. A newer boot takes the place of the registered one only after the fence of
     the old boot is durable.
     */
    method Register(request: Registration) returns (reply: Reply, ghost writing: Writing)
      requires Valid()
      modifies this, repository, repository.directory
      ensures (Current(), reply) == CoordinatorModel.Register(old(Current()), request, writing == Durable)
      ensures old(repository.sound) ==> State() == Step(protocol, old(State()), Registering(request, writing))
      ensures Valid()
    {
      hide Stored, EpochOf, FencesOf, EpochIn, FencesIn, Chain, Clean, Protocol.RoundTrips, AllStored, Image, Invariant;
      writing := Durable;
      ghost var before := State();
      if request.epoch != epoch || request.incarnation != FIRST_INCARNATION {
        reply := StaleEpoch;
        return;
      }
      var fenced := IsFenced(request.publisher, request.boot);
      if fenced {
        reply := FencedBoot;
        return;
      }
      if request.publisher in registered && registered[request.publisher] != request.boot {
        var fence := Fence(request.publisher, registered[request.publisher]);
        FenceFits(protocol, fence);
        var status;
        status, writing := repository.Append(FENCE, protocol.encodeFence(fence));
        FenceAppended(protocol, before, request, State(), writing == Durable);
        if status != Success {
          reply := NotPersisted;
          return;
        }
        fences := fences + [fence];
      } else {
        StepKeeps(protocol, before, Registering(request, Durable));
      }
      registered := registered[request.publisher := request.boot];
      reply := Accepted;
    }

    method Validate(binding: Binding) returns (verdict: Verdict)
      ensures verdict == ValidateBinding(Current(), binding)
    {
      if stopping { return ShutDown; }
      if !binding.Valid() { return InvalidArgument; }
      if binding.incarnation != FIRST_INCARNATION || binding.epoch != epoch { return EpochMismatch; }
      var fenced := IsFenced(binding.publisher, binding.boot);
      if fenced { return Fenced; }
      if binding.publisher !in registered || registered[binding.publisher] != binding.boot { return Unauthorized; }
      verdict := Permitted;
    }

    method IsFenced(publisher: PublisherId, boot: BootId) returns (fenced: bool)
      ensures fenced <==> Fence(publisher, boot) in fences
    {
      for i := 0 to |fences|
        invariant Fence(publisher, boot) !in fences[..i]
      {
        if fences[i].publisher == publisher && fences[i].boot == boot { return true; }
      }
      fenced := false;
    }
  }

  lemma EpochFits(P: Protocol, e: nat)
    requires P.RoundTrips() && e <= MAX_EPOCH
    ensures |P.encodeEpoch(e)| <= MAX_PAYLOAD
  {
  }

  lemma FenceFits(P: Protocol, f: Fence)
    requires P.RoundTrips()
    ensures |P.encodeFence(f)| <= MAX_PAYLOAD
  {
  }

  /** Whatever state the journal is in, an append of the fence keeps the invariant, and so does the registration. */
  lemma FenceAppended(P: Protocol, before: CoordinatorModel.State, r: Registration, after: CoordinatorModel.State,
                      persisted: bool)
    requires P.RoundTrips() && Invariant(P, before) && NeedsFence(before, r) && after.session == before.session
    requires var e := P.FenceEntry(FenceOf(before.session.value, r));
      && (after.held == before.held || after.held == before.held + [e])
      && (persisted ==> after.held == before.held + [e])
      && (after.log == before.log || after.log == before.log + [e] || after.log == after.held)
      && (after.journal == InStep ==> after.held == after.log)
    ensures Invariant(P, after.(session := Some(CoordinatorModel.Register(before.session.value, r, persisted).0)))
  {
    hide EpochOf, FencesOf, Protocol.RoundTrips;
    var f := FenceOf(before.session.value, r);
    NextFence(P, before.held, f);
    NextFence(P, before.log, f);
  }

  lemma NoSession(P: Protocol, log: seq<Entry>)
    ensures Invariant(P, Closed(log))
  {
  }
}
