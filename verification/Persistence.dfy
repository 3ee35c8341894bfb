/** The durable repository as an object: open, append, compact_locked and close of src/persist.cpp. */
module Persistence {
  import opened Numeric
  import opened Bytes
  import opened RecordFormat
  import opened DurableLog
  import opened Recovery
  import opened Intact

  const MAX_FENCES: nat := 4096
  const FENCE: nat := 4
  const COORDINATOR_EPOCH: nat := 5

  type RecordKind = k: nat | 1 <= k <= 6 witness 1

  datatype ErrorCode = Shutdown | InvalidGeneration | LimitExceeded | OversizedInput | IoFailure | IntegrityFailure

  datatype Status = Success | Failure(code: ErrorCode)

  const NAME_SIZE: nat := 97
  const BOOT_SIZE: nat := 16

  /** A name of at most 96 characters with its length, and 16 bytes, each read as a number. */
  type PublisherId = n: nat | n < Pow256(NAME_SIZE)
  type BootId = n: nat | n < Pow256(BOOT_SIZE)

  /** A (publisher, boot) pair that may never register again. */
  datatype Fence = Fence(publisher: PublisherId, boot: BootId)

  /** decode_coordinator_epoch and decode_fence; a payload they reject is ignored. */
  datatype Codec = Codec(epoch: seq<byte> -> Option<nat>, fence: seq<byte> -> Option<Fence>)

  /** The largest epoch among the epoch records. */
  function EpochIn(codec: Codec, records: seq<DurableRecord>): nat {
    if records == [] then 0
    else
      var r, before := records[|records| - 1], EpochIn(codec, records[..|records| - 1]);
      if r.kind == COORDINATOR_EPOCH && codec.epoch(r.payload).Some? && codec.epoch(r.payload).value > before then
        codec.epoch(r.payload).value
      else before
  }

  /** The fences among the records, in order. */
  function FencesIn(codec: Codec, records: seq<DurableRecord>): seq<Fence> {
    if records == [] then []
    else
      var r, before := records[|records| - 1], FencesIn(codec, records[..|records| - 1]);
      if r.kind == FENCE && codec.fence(r.payload).Some? then before + [codec.fence(r.payload).value] else before
  }

  /** The files of one data directory. `history` lists every state a crash could have left behind. */
  class Directory {
    var snapshot: Option<seq<byte>>
    var journal: Option<seq<byte>>
    ghost var history: seq<DiskImage>

    function Image(): DiskImage
      reads this
    {
      DiskImage(snapshot, journal)
    }

    /** write_atomic: the file is replaced as a whole, or nothing changes. */
    method ReplaceSnapshot(bytes: seq<byte>) returns (ok: bool)
      modifies this
      ensures Image() == if ok then old(Image()).(snapshot := Some(bytes)) else old(Image())
      ensures history == old(history) + [Image()]
    {
      ok := *;
      if ok { snapshot := Some(bytes); }
      history := history + [Image()];
    }

    method ReplaceJournal(bytes: seq<byte>) returns (ok: bool)
      modifies this
      ensures Image() == if ok then old(Image()).(journal := Some(bytes)) else old(Image())
      ensures history == old(history) + [Image()]
    {
      ok := *;
      if ok { journal := Some(bytes); }
      history := history + [Image()];
    }

    /** An append that may stop after any byte, and may fail to synchronise even when complete. */
    method AppendJournal(bytes: seq<byte>) returns (written: nat, ok: bool)
      requires journal.Some?
      modifies this
      ensures written <= |bytes| && (ok ==> written == |bytes|)
      ensures Image() == Written(old(Image()), bytes, written)
      ensures |history| == |old(history)| + written + 1 && history[..|old(history)|] == old(history)
      ensures forall k :: 0 <= k <= written ==> history[|old(history)| + k] == Written(old(Image()), bytes, k)
    {
      written :| 0 <= written <= |bytes|;
      ok := *;
      ok := ok && written == |bytes|;
      ghost var before := Image();
      journal := Some(journal.value + bytes[..written]);
      history := history + seq(written + 1, k requires 0 <= k <= written => Written(before, bytes, k));
    }
  }

  /** The scan over the records of a snapshot payload. */
  method ScanSnapshot(I: Integrity, payload: seq<byte>, sequence: nat) returns (loaded: Option<Loaded>)
    ensures loaded == SnapshotRecords(I, payload, Loaded([], ZERO_DIGEST, sequence))
  {
    hide ReadSnapshotFrame;
    var offset: nat := 0;
    var records: seq<DurableRecord>, previous := [], ZERO_DIGEST;
    assert payload[0..] == payload;
    while offset < |payload|
      invariant offset <= |payload|
      invariant SnapshotRecords(I, payload, Loaded([], ZERO_DIGEST, sequence))
        == SnapshotRecords(I, payload[offset..], Loaded(records, previous, sequence))
    {
      var frame := ReadSnapshotFrame(I, payload[offset..]);
      if frame.None? || frame.value.record.previous != previous { return None; }
      assert payload[offset..][frame.value.total..] == payload[offset + frame.value.total..];
      previous := frame.value.digest;
      records := records + [frame.value.record];
      offset := offset + frame.value.total;
    }
    loaded := Some(Loaded(records, previous, sequence));
  }

  /** The snapshot part of open. */
  method ReadSnapshot(I: Integrity, disk: DiskImage) returns (base: Option<Loaded>)
    ensures base == Base(I, disk)
  {
    hide SnapshotRecords, SnapshotBody;
    if disk.snapshot.None? { return Some(Loaded([], ZERO_DIGEST, 0)); }
    var body := SnapshotBody(I, disk.snapshot.value);
    if body.None? { return None; }
    base := ScanSnapshot(I, body.value.0, body.value.1);
  }

  lemma LongEnough(I: Integrity, bytes: seq<byte>)
    requires JournalHeaderOk(I, bytes)
    ensures |bytes| >= JOURNAL_HEADER_SIZE
  {
  }

  /** The journal scan, from the end of the header to the first frame that does not continue the log. */
  method ScanJournal(I: Integrity, bytes: seq<byte>, base: Loaded) returns (end: Replay)
    requires |bytes| >= JOURNAL_HEADER_SIZE
    ensures end == ReplayJournal(I, bytes[JOURNAL_HEADER_SIZE..], base.lastDigest, base.sequence,
                                 Replay(base.records, base.sequence, base.lastDigest, JOURNAL_HEADER_SIZE))
    ensures end.valid <= |bytes|
  {
    hide ReadFrame;
    var offset := JOURNAL_HEADER_SIZE;
    var previous := base.lastDigest;
    end := Replay(base.records, base.sequence, base.lastDigest, JOURNAL_HEADER_SIZE);
    ghost var start := end;
    while true
      invariant JOURNAL_HEADER_SIZE <= offset <= |bytes| && end.valid == offset
      invariant ReplayJournal(I, bytes[JOURNAL_HEADER_SIZE..], base.lastDigest, base.sequence, start)
        == ReplayJournal(I, bytes[offset..], previous, base.sequence, end)
      decreases |bytes| - offset
    {
      var frame := ReadFrame(I, bytes[offset..]);
      if frame.None? { break; }
      var record, total := frame.value.record, frame.value.total;
      if record.previous != previous { break; }
      assert bytes[offset..][total..] == bytes[offset + total..];
      if record.sequence <= base.sequence {
        end := end.(valid := offset + total);
      } else {
        if record.sequence != end.lastSequence + 1 { break; }
        end := Replay(end.records + [record], record.sequence, frame.value.digest, offset + total);
      }
      previous := frame.value.digest;
      offset := offset + total;
    }
  }

  /** After recovery the epoch and the fence list are folded out of the records. */
  method FoldRecords(codec: Codec, records: seq<DurableRecord>) returns (epoch: nat, fences: seq<Fence>)
    ensures epoch == EpochIn(codec, records) && fences == FencesIn(codec, records)
  {
    epoch, fences := 0, [];
    assert records[..0] == [];
    for i := 0 to |records|
      invariant epoch == EpochIn(codec, records[..i]) && fences == FencesIn(codec, records[..i])
    {
      assert records[..i + 1][..i] == records[..i];
      var r := records[i];
      if r.kind == COORDINATOR_EPOCH {
        var decoded := codec.epoch(r.payload);
        if decoded.Some? && decoded.value > epoch { epoch := decoded.value; }
      } else if r.kind == FENCE {
        var decoded := codec.fence(r.payload);
        if decoded.Some? { fences := fences + [decoded.value]; }
      }
    }
    assert records[..|records|] == records;
  }

  /** Every disk image in the list recovers to one of two logs. */
  ghost predicate AllStored(I: Integrity, images: seq<DiskImage>, a: seq<Entry>, b: seq<Entry>) {
    forall i :: 0 <= i < |images| ==> Stored(I, images[i], a) || Stored(I, images[i], b)
  }

  /** What became of an append, if the repository was sound before it. */
  datatype Writing =
    | Durable         // acknowledged: on disk and in memory
    | Nothing         // refused before the first byte
    | Torn            // the write failed after some bytes
    | Unacknowledged  // every byte was written, but not synchronised
    | OverBound       // a fence beyond the bound: on disk, but not in memory
    | Kept            // on disk and in memory, but the compaction that followed failed

  class PlanRepository {
    const I: Integrity
    const codec: Codec
    const directory: Directory
    const maxRecords: nat
    const compactAfter: nat
    var records: seq<DurableRecord>
    var lastSequence: nat
    var lastDigest: Digest
    var fences: seq<Fence>
    var epoch: nat
    var recordsSinceCompaction: nat
    var closed: bool
    var journalOpen: bool
    ghost var held: seq<Entry>        // the log in memory
    ghost var entries: seq<Entry>     // the log on disk, as long as it is known
    ghost var known: bool
    // memory and disk hold the same log; lost when a write or a fence is refused half-way
    ghost var sound: bool
    ghost var gapped: bool            // memory lacks a fence that the chain has already counted

    constructor (I: Integrity, codec: Codec, directory: Directory, maxRecords: nat, compactAfter: nat,
                 records: seq<DurableRecord>, lastSequence: nat, lastDigest: Digest, fences: seq<Fence>, epoch: nat,
                 ghost log: seq<Entry>)
      ensures this.I == I && this.codec == codec && this.directory == directory
      ensures this.maxRecords == maxRecords && this.compactAfter == compactAfter
      ensures this.records == records && this.lastSequence == lastSequence && this.lastDigest == lastDigest
      ensures this.fences == fences && this.epoch == epoch && recordsSinceCompaction == |records| && !closed
      ensures journalOpen
      ensures held == entries == log && known && sound && !gapped
    {
      this.I, this.codec, this.directory := I, codec, directory;
      this.maxRecords, this.compactAfter := maxRecords, compactAfter;
      this.records, this.lastSequence, this.lastDigest := records, lastSequence, lastDigest;
      this.fences, this.epoch, this.recordsSinceCompaction := fences, epoch, |records|;
      closed, journalOpen := false, true;
      held, entries, known, sound, gapped := log, log, true, true, false;
    }

    ghost function State(): Repository
      reads this, directory
    {
      Repository(records, lastSequence, lastDigest, directory.Image())
    }

    /** The records in memory are the digest chain of a log. */
    ghost predicate Regular()
      reads this
    {
      records == Chain(I, held) && lastSequence == |held| && lastDigest == LastDigest(I, records)
    }

    ghost predicate Valid()
      reads this, directory
    {
      && 1 <= compactAfter && maxRecords < MAX_SEQUENCE - 1 && |records| == |held| && ValidLog(held)
      && epoch == EpochIn(codec, records) && fences == FencesIn(codec, records)
      && (!gapped ==> Regular())
      && directory.journal.Some?
      && (known ==> Stored(I, directory.Image(), entries))
      && (sound ==> known && !gapped && held == entries && (journalOpen ==> Clean(I, directory.Image(), entries)))
    }

    /** The effect of an append on the log in memory and the log on disk. */
    ghost predicate Became(writing: Writing, log: seq<Entry>, entry: Entry)
      reads this
    {
      match writing
      case Durable => sound && entries == log + [entry]
      case Nothing => sound && entries == log
      case Torn => known && !sound && !gapped && entries == held == log
      case Unacknowledged => known && !sound && !gapped && held == log && entries == log + [entry]
      case OverBound => known && !sound && gapped && held == log && entries == log + [entry]
      case Kept => sound && entries == log + [entry]
    }

    /**
     PlanRepository::open. It refuses a disk exactly when a file on it is not intact, and otherwise takes over what
     the files hold; if the disk held a log, that log is in memory afterwards and no crash on the way
     could have endangered it.
     */
    static method Open(I: Integrity, codec: Codec, directory: Directory, maxRecords: nat, compactAfter: nat,
                       ghost log: seq<Entry>)
      returns (status: Status, repository: PlanRepository?)
      requires maxRecords < MAX_SEQUENCE - 1
      modifies directory
      ensures status == Failure(IntegrityFailure) <==> OpenImage(I, old(directory.Image())).None?
      ensures status == Failure(IntegrityFailure) <==> !exists r: Repository :: OpensTo(I, old(directory.Image()), r)
      ensures status == Success || status == Failure(IntegrityFailure) || status == Failure(IoFailure)
      ensures status == Success <==> repository != null
      ensures status != Success ==> directory.Image() == old(directory.Image())
      ensures status == Success ==> fresh(repository) && repository.directory == directory
      ensures status == Success ==> repository.I == I && repository.codec == codec
      ensures status == Success ==> repository.State() == OpenImage(I, old(directory.Image())).value
      ensures status == Success ==> OpensTo(I, old(directory.Image()), repository.State())
      ensures status == Success && Stored(I, old(directory.Image()), log) ==>
        repository.Valid() && repository.sound && repository.entries == log && !repository.closed
          && repository.journalOpen
      ensures |old(directory.history)| <= |directory.history|
      ensures directory.history[..|old(directory.history)|] == old(directory.history)
      ensures status != Failure(IntegrityFailure) && Stored(I, old(directory.Image()), log) ==>
        AllStored(I, directory.history[|old(directory.history)|..], log, log)
    {
      hide Stored, Clean, Base, ReplayJournal, JournalHeaderOk, EpochIn, FencesIn, JournalHeader, OpensTo;
      ghost var disk := directory.Image();
      OpenFails(I, disk);
      status, repository := Failure(IntegrityFailure), null;
      var loaded := ReadSnapshot(I, directory.Image());
      if loaded.None? { return; }
      var base := loaded.value;
      var end := Replay(base.records, base.sequence, base.lastDigest, 0);
      var ok := true;
      if directory.journal.Some? {
        var bytes := directory.journal.value;
        if !JournalHeaderOk(I, bytes) { return; }
        LongEnough(I, bytes);
        end := ScanJournal(I, bytes, base);
        if end.valid < |bytes| {
          ok := directory.ReplaceJournal(bytes[..end.valid]);
        } else {
          assert bytes[..end.valid] == bytes;
        }
      } else {
        ok := directory.ReplaceJournal(JournalHeader(I, base.sequence + 1));
      }
      ghost var opening := OpenImage(I, disk).value;
      assert opening == Repository(end.records, end.lastSequence, end.lastDigest, opening.disk);
      assert ok ==> directory.Image() == opening.disk;
      OpenMeaning(I, disk, opening);
      if Stored(I, disk, log) {
        OpenStored(I, disk, log);
        CleanIsStored(I, opening.disk, log);
        CleanFacts(I, opening.disk, log);
      }
      if !ok {
        status := Failure(IoFailure);
        return;
      }
      var epoch, fences := FoldRecords(codec, end.records);
      repository := new PlanRepository(I, codec, directory, maxRecords, if compactAfter < 1 then 1 else compactAfter,
        end.records, end.lastSequence, end.lastDigest, fences, epoch, log);
      status := Success;
    }

    /** The journal write of append(). */
    method WriteRecord(entry: Entry) returns (record: DurableRecord, ok: bool, ghost written: nat)
      requires Valid() && ValidEntry(entry) && |held| + 1 < MAX_SEQUENCE
      modifies directory, this`entries
      ensures record == NextRecord(entry, lastSequence, lastDigest) && written <= |Image(I, record)|
      ensures ok ==> journalOpen && written == |Image(I, record)|
      ensures !journalOpen ==> !ok && written == 0
      ensures directory.Image() == Written(old(directory.Image()), Image(I, record), written)
      ensures old(sound) && written < |Image(I, record)| ==>
        entries == old(entries) && Stored(I, directory.Image(), entries)
      ensures old(sound) && written == |Image(I, record)| ==>
        entries == old(entries) + [entry] && Stored(I, directory.Image(), entries)
          && Clean(I, directory.Image(), entries)
      ensures !old(sound) ==> entries == old(entries)
      ensures |old(directory.history)| <= |directory.history|
      ensures directory.history[..|old(directory.history)|] == old(directory.history)
      ensures old(sound) ==>
        AllStored(I, directory.history[|old(directory.history)|..], old(entries), old(entries) + [entry])
    {
      hide Stored, Clean, Image, Chain, EpochIn, FencesIn;
      ghost var disk, log, n := directory.Image(), entries, |directory.history|;
      record := NextRecord(entry, lastSequence, lastDigest);
      var image := Image(I, record);
      ok, written := false, 0;
      if !journalOpen {
        NothingWritten(disk, image);
        return;
      }
      var count;
      count, ok := directory.AppendJournal(image);
      written := count;
      if sound {
        AppendImages(I, disk, log, entry, image, count);
        assert forall i :: 0 <= i < |directory.history| - n ==> directory.history[n..][i] == Written(disk, image, i);
        if count == |image| {
          CleanIsStored(I, directory.Image(), log + [entry]);
          entries := log + [entry];
        }
      }
    }

    /** The epoch and fence bookkeeping of append(); false when the fence bound is reached. */
    method TakeOver(record: DurableRecord) returns (ok: bool)
      requires epoch == EpochIn(codec, records) && fences == FencesIn(codec, records)
      modifies this`epoch, this`fences
      ensures ok <==> !(record.kind == FENCE && codec.fence(record.payload).Some? && |old(fences)| >= MAX_FENCES)
      ensures ok ==> epoch == EpochIn(codec, records + [record]) && fences == FencesIn(codec, records + [record])
      ensures !ok ==> epoch == old(epoch) && fences == old(fences)
    {
      assert (records + [record])[..|records|] == records;
      if record.kind == COORDINATOR_EPOCH {
        var decoded := codec.epoch(record.payload);
        if decoded.Some? && decoded.value > epoch { epoch := decoded.value; }
      } else if record.kind == FENCE {
        var decoded := codec.fence(record.payload);
        if decoded.Some? {
          if |fences| >= MAX_FENCES { return false; }
          fences := fences + [decoded.value];
        }
      }
      return true;
    }

    /** append() after the write: the record joins the log in memory, unless it is a fence beyond the bound. */
    method Remember(entry: Entry, record: DurableRecord) returns (accepted: bool)
      requires 1 <= compactAfter && maxRecords < MAX_SEQUENCE - 1 && |records| == |held| && ValidLog(held + [entry])
      requires epoch == EpochIn(codec, records) && fences == FencesIn(codec, records) && (!gapped ==> Regular())
      requires directory.journal.Some? && record == NextRecord(entry, lastSequence, lastDigest)
      requires sound ==> !gapped && entries == held + [entry]
      requires sound ==> Stored(I, directory.Image(), entries) && Clean(I, directory.Image(), entries)
      modifies this`records, this`lastSequence, this`lastDigest, this`fences, this`epoch, this`recordsSinceCompaction
      modifies this`held, this`known, this`sound, this`gapped
      ensures Valid() && known == old(sound)
      ensures accepted ==> held == old(held) + [entry] && records == old(records) + [record]
      ensures accepted ==> sound == old(sound) && gapped == old(gapped)
      ensures !accepted ==> entry.kind == FENCE && |old(fences)| >= MAX_FENCES && gapped && !sound && held == old(held)
    {
      hide Stored, Clean, RecordDigest, Chain, EpochIn, FencesIn;
      ghost var before := State();
      lastSequence, lastDigest := record.sequence, RecordDigest(I, record);
      recordsSinceCompaction := recordsSinceCompaction + 1;
      known := sound;
      accepted := TakeOver(record);
      if !accepted {
        sound, gapped := false, true;
        assert (held + [entry])[..|held|] == held;
        return;
      }
      records := records + [record];
      if !gapped { RegularAfterAppend(I, before, held, entry, State()); }
      held := held + [entry];
    }

    /**
     PlanRepository::append. Success means the entry is the next of the log in memory and its image the next of the
     journal. As long as memory and disk agreed before, the log on disk afterwards is the old one or the extended
     one, `writing` says which, and at no byte of the write was it neither.
     */
    method Append(kind: RecordKind, payload: seq<byte>) returns (status: Status, ghost writing: Writing)
      requires Valid()
      modifies this, directory
      ensures Valid() && closed == old(closed)
      ensures old(closed) ==> status == Failure(Shutdown)
      ensures !old(closed) && |old(records)| >= maxRecords ==> status == Failure(LimitExceeded)
      ensures !old(closed) && |old(records)| < maxRecords && |payload| > MAX_PAYLOAD ==>
        status == Failure(OversizedInput)
      ensures old(closed) || |old(records)| >= maxRecords || |payload| > MAX_PAYLOAD || !old(journalOpen) ==>
        status != Success && State() == old(State()) && sound == old(sound) && entries == old(entries)
          && held == old(held)
      ensures status == Success ==> held == old(held) + [Entry(kind, payload)]
      ensures status == Success ==>
        records == old(records) + [NextRecord(Entry(kind, payload), old(lastSequence), old(lastDigest))]
      ensures status == Success ==>
        var image := Image(I, NextRecord(Entry(kind, payload), old(lastSequence), old(lastDigest)));
        directory.Image() == Written(old(directory.Image()), image, |image|)
        || directory.Image() == CompactedDisk(I, records, lastSequence)
      ensures status == Success <==> writing == Durable
      ensures held == old(held) || held == old(held) + [Entry(kind, payload)]
      ensures old(sound) ==> Became(writing, old(entries), Entry(kind, payload))
      ensures !old(sound) ==> entries == old(entries) || entries == held
      // A fence refused for its number is on disk all the same.
      ensures status == Failure(LimitExceeded) && |old(records)| < maxRecords ==> |old(fences)| >= MAX_FENCES && gapped
      ensures old(sound) && writing == OverBound ==> kind == FENCE && |old(fences)| >= MAX_FENCES
      ensures |old(directory.history)| <= |directory.history|
      ensures directory.history[..|old(directory.history)|] == old(directory.history)
      ensures old(sound) ==>
        AllStored(I, directory.history[|old(directory.history)|..], old(entries), old(entries) + [Entry(kind, payload)])
    {
      hide Stored, Clean, RecordDigest, Chain, EpochIn, FencesIn, AllStored, Image, SnapshotFile, JournalHeader;
      writing := Nothing;
      EmptyAllStored(I, directory.history, entries, entries + [Entry(kind, payload)]);
      if closed { return Failure(Shutdown), writing; }
      if |records| >= maxRecords { return Failure(LimitExceeded), writing; }
      if |payload| > MAX_PAYLOAD { return Failure(OversizedInput), writing; }
      ghost var disk, log, n, wasSound := directory.Image(), entries, |directory.history|, sound;
      var entry := Entry(kind, payload);
      ghost var written;
      var record, ok;
      record, ok, written := WriteRecord(entry);
      if !ok {
        if written > 0 {
          known, sound := sound, false;
          writing := if written < |Image(I, record)| then Torn else Unacknowledged;
        } else {
          NothingWritten(disk, Image(I, record));
        }
        return Failure(IoFailure), writing;
      }
      var accepted := Remember(entry, record);
      if !accepted {
        return Failure(LimitExceeded), OverBound;
      }
      writing := Durable;
      if recordsSinceCompaction >= compactAfter {
        ghost var exposed := directory.history;
        status := CompactLocked();
        if wasSound { AllStoredConcat(I, exposed, directory.history, n, log, entries); }
        writing := if status == Success then Durable else Kept;
        return;
      }
      return Success, writing;
    }

    /**
     compact_locked: the snapshot takes over the whole log in memory, then the journal is reset. Whatever state the
     journal was in, a complete compaction makes the disk agree with memory, unless memory lacks a record.
     */
    method CompactLocked() returns (status: Status)
      requires Valid()
      modifies directory, this`recordsSinceCompaction, this`sound, this`known, this`entries, this`journalOpen
      ensures Valid()
      ensures status == Success || status == Failure(IoFailure)
      ensures status == Success ==> recordsSinceCompaction == 0 && journalOpen
      ensures status == Success ==> directory.Image() == CompactedDisk(I, records, lastSequence)
      ensures status == Success && !gapped ==> sound && entries == held
      ensures old(sound) ==> sound && entries == old(entries)
      ensures entries == old(entries) || entries == held
      ensures |old(directory.history)| <= |directory.history|
      ensures directory.history[..|old(directory.history)|] == old(directory.history)
      ensures old(sound) ==> AllStored(I, directory.history[|old(directory.history)|..], entries, entries)
    {
      hide Stored, Clean, Chain, EpochIn, FencesIn, SnapshotFile, JournalHeader, LastDigest, ValidLog, AllStored;
      ghost var disk, history := directory.Image(), directory.history;
      EmptyAllStored(I, history, entries, entries);
      if !gapped {
        CompactedIsClean(I, held);
        CleanIsStored(I, CompactedDisk(I, records, lastSequence), held);
      }
      if sound { SnapshotIsStored(I, disk, entries); }
      var ok := directory.ReplaceSnapshot(SnapshotFile(I, records, lastSequence));
      if sound { OneMoreStored(I, directory.history, history, entries); }
      if !ok { return Failure(IoFailure); }
      journalOpen, known := false, sound;
      ghost var middle := directory.history;
      ok := directory.ReplaceJournal(JournalHeader(I, lastSequence + 1));
      if sound {
        OneMoreStored(I, directory.history, middle, entries);
        AllStoredConcat(I, middle, directory.history, |history|, entries, entries);
      }
      if !ok { return Failure(IoFailure); }
      journalOpen, recordsSinceCompaction := true, 0;
      known, sound, entries := !gapped, !gapped, held;
      return Success;
    }

    method Close()
      requires Valid()
      modifies this`closed
      ensures Valid() && closed
    {
      closed := true;
    }

    method Compact() returns (status: Status)
      requires Valid()
      modifies directory, this`recordsSinceCompaction, this`sound, this`known, this`entries, this`journalOpen
      ensures Valid() && (status == Failure(Shutdown) <==> closed)
      ensures status == Success ==> directory.Image() == CompactedDisk(I, records, lastSequence)
      ensures status == Success && !gapped ==> sound && entries == held
      ensures old(sound) ==> sound && entries == old(entries)
      ensures |old(directory.history)| <= |directory.history|
      ensures directory.history[..|old(directory.history)|] == old(directory.history)
      ensures old(sound) ==> AllStored(I, directory.history[|old(directory.history)|..], entries, entries)
    {
      if closed {
        EmptyAllStored(I, directory.history, entries, entries);
        return Failure(Shutdown);
      }
      status := CompactLocked();
    }
  }

  lemma NothingWritten(disk: DiskImage, image: seq<byte>)
    requires disk.journal.Some?
    ensures Written(disk, image, 0) == disk
  {
    assert disk.journal.value + image[..0] == disk.journal.value;
  }

  lemma EmptyAllStored(I: Integrity, history: seq<DiskImage>, a: seq<Entry>, b: seq<Entry>)
    ensures AllStored(I, history[|history|..], a, b)
  {
  }

  lemma OneMoreStored(I: Integrity, history: seq<DiskImage>, before: seq<DiskImage>, a: seq<Entry>)
    requires |history| == |before| + 1 && history[..|before|] == before && Stored(I, history[|before|], a)
    ensures AllStored(I, history[|before|..], a, a)
  {
  }

  lemma AllStoredConcat(I: Integrity, earlier: seq<DiskImage>, history: seq<DiskImage>, n: nat, a: seq<Entry>,
                        b: seq<Entry>)
    requires n <= |earlier| <= |history| && history[..|earlier|] == earlier
    requires AllStored(I, earlier[n..], a, b) && AllStored(I, history[|earlier|..], b, b)
    ensures AllStored(I, history[n..], a, b)
  {
    hide Stored;
    forall i | 0 <= i < |history| - n
      ensures Stored(I, history[n..][i], a) || Stored(I, history[n..][i], b)
    {
      if i < |earlier| - n {
        assert history[n..][i] == history[..|earlier|][n + i] == earlier[n..][i];
      } else {
        assert history[n..][i] == history[|earlier|..][n + i - |earlier|];
      }
    }
  }

  /** Every image that an append exposes: the log without the entry until the last byte, and with it then. */
  lemma AppendImages(I: Integrity, disk: DiskImage, log: seq<Entry>, entry: Entry, image: seq<byte>, written: nat)
    requires Clean(I, disk, log) && disk.journal.Some? && ValidLog(log + [entry]) && written <= |image|
    requires image == RecordFormat.Image(I, NextRecord(entry, |log|, LastDigest(I, Chain(I, log))))
    ensures forall k :: 0 <= k <= written ==>
      Stored(I, Written(disk, image, k), if k < |image| then log else log + [entry])
    ensures written == |image| ==> Clean(I, Written(disk, image, written), log + [entry])
  {
    hide Stored, Clean, Chain, RecordFormat.Image;
    var record := NextRecord(entry, |log|, LastDigest(I, Chain(I, log)));
    assert ValidEntry((log + [entry])[|log|]);
    forall k | 0 <= k <= written
      ensures Stored(I, Written(disk, image, k), if k < |image| then log else log + [entry])
    {
      if k < |image| {
        TornAppendIsStored(I, disk, log, record, k);
      } else {
        AppendIsClean(I, disk, log, entry, image);
        CleanIsStored(I, Written(disk, image, k), log + [entry]);
      }
    }
    if written == |image| { AppendIsClean(I, disk, log, entry, image); }
  }

  lemma RegularAfterAppend(I: Integrity, before: Repository, log: seq<Entry>, entry: Entry, after: Repository)
    requires before.records == Chain(I, log) && before.lastSequence == |log|
    requires before.lastDigest == LastDigest(I, before.records)
    requires var record := NextRecord(entry, before.lastSequence, before.lastDigest);
      after.records == before.records + [record] && after.lastSequence == record.sequence
      && after.lastDigest == RecordDigest(I, record)
    ensures after.records == Chain(I, log + [entry]) && after.lastSequence == |log| + 1
    ensures after.lastDigest == LastDigest(I, after.records)
  {
    ChainGrows(I, log, entry);
  }
}
