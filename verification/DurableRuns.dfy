/**
 Whole runs of the durable log: appends, compactions, crashes at any byte, and reopenings, starting from an
 empty directory (src/persist.cpp).
 */
module DurableRuns {
  import opened Numeric
  import opened Bytes
  import opened RecordFormat
  import opened DurableLog
  import opened Recovery

  datatype Step =
    | Append(entry: Entry)                             // acknowledged to the caller
    | CrashInAppend(entry: Entry, written: nat)        // the process dies after `written` bytes of the image
    | Compact
    | CrashInCompact                                   // after the snapshot is replaced, before the journal is
    | Restart

  function ImageSize(e: Entry): nat {
    HEADER_SIZE + |e.payload| + DIGEST_SIZE
  }

  function {:induction false} SnapshotSize(entries: seq<Entry>): nat {
    if entries == [] then SNAPSHOT_HEADER_SIZE + DIGEST_SIZE
    else SnapshotSize(entries[..|entries| - 1]) + ImageSize(entries[|entries| - 1])
  }

  /** The log after a step. An interrupted append counts only when its last byte was written. */
  function LogAfter(entries: seq<Entry>, step: Step): seq<Entry> {
    match step
    case Append(e) => entries + [e]
    case CrashInAppend(e, written) => if written == ImageSize(e) then entries + [e] else entries
    case _ => entries
  }

  function LogOf(entries: seq<Entry>, steps: seq<Step>): seq<Entry>
    decreases |steps|
  {
    if steps == [] then entries else LogOf(LogAfter(entries, steps[0]), steps[1..])
  }

  /** Entries within the bounds append() checks, and no compaction that would outgrow the file bound. */
  predicate Permitted(entries: seq<Entry>, step: Step) {
    && ValidLog(LogAfter(entries, step))
    && (step.CrashInAppend? ==> ValidEntry(step.entry) && step.written <= ImageSize(step.entry))
    && (step.Compact? || step.CrashInCompact? ==> SnapshotSize(entries) <= MAX_FILE_BYTES)
  }

  predicate PermittedRun(entries: seq<Entry>, steps: seq<Step>)
    decreases |steps|
  {
    steps != [] ==> Permitted(entries, steps[0]) && PermittedRun(LogAfter(entries, steps[0]), steps[1..])
  }

  /** What the program does in one step; None when a reopening fails. */
  function Do(I: Integrity, r: Repository, step: Step): (next: Option<Repository>)
    requires r.disk.journal.Some?
  {
    match step
    case Append(e) =>
      var record := NextRecord(e, r.lastSequence, r.lastDigest);
      var image := Image(I, record);
      Some(Repository(r.records + [record], record.sequence, RecordDigest(I, record), Written(r.disk, image, |image|)))
    case CrashInAppend(e, written) =>
      var image := Image(I, NextRecord(e, r.lastSequence, r.lastDigest));
      OpenImage(I, Written(r.disk, image, if written <= |image| then written else |image|))
    case Compact => Some(r.(disk := CompactedDisk(I, r.records, r.lastSequence)))
    case CrashInCompact => OpenImage(I, r.disk.(snapshot := Some(SnapshotFile(I, r.records, r.lastSequence))))
    case Restart => OpenImage(I, r.disk)
  }

  /** The snapshot has the size that the bound is about. */
  lemma {:induction false} SizeOfImages(I: Integrity, entries: seq<Entry>)
    ensures SNAPSHOT_HEADER_SIZE + |Images(I, Chain(I, entries))| + DIGEST_SIZE == SnapshotSize(entries)
  {
    if entries != [] {
      var m := |entries| - 1;
      SizeOfImages(I, entries[..m]);
      var before := Chain(I, entries[..m]);
      var last := Chain(I, entries)[m];
      ImagesConcat(I, before, [last]);
      assert Chain(I, entries) == before + [last];
      assert Images(I, [last]) == Image(I, last) + Images(I, []) == Image(I, last);
    }
  }

  /** The state between two steps: the log is rebuilt, and the snapshot on disk can be opened again. */
  ghost predicate Running(I: Integrity, r: Repository, entries: seq<Entry>) {
    Rebuilt(I, r, entries) && Fits(r.disk) && r.disk.journal.Some?
  }

  lemma Reopens(I: Integrity, disk: DiskImage, entries: seq<Entry>)
    requires Stored(I, disk, entries) && Fits(disk)
    ensures OpenImage(I, disk).Some? && Running(I, OpenImage(I, disk).value, entries)
  {
    hide Rebuilt, Stored, Base;
    OpenStored(I, disk, entries);
    assert OpenImage(I, disk).value.disk.snapshot == disk.snapshot;
  }

  lemma AppendStep(I: Integrity, r: Repository, entries: seq<Entry>, step: Step)
    requires Running(I, r, entries) && Permitted(entries, step) && step.Append?
    ensures Do(I, r, step).Some? && Running(I, Do(I, r, step).value, LogAfter(entries, step))
  {
    hide Chain, Image, Clean;
    var e := step.entry;
    var record := NextRecord(e, r.lastSequence, r.lastDigest);
    ChainGrows(I, entries, e);
    AppendIsClean(I, r.disk, entries, e, Image(I, record));
  }

  lemma CrashInAppendStep(I: Integrity, r: Repository, entries: seq<Entry>, step: Step)
    requires Running(I, r, entries) && Permitted(entries, step) && step.CrashInAppend?
    ensures Do(I, r, step).Some? && Running(I, Do(I, r, step).value, LogAfter(entries, step))
  {
    hide Chain, Image, Clean, OpenImage, Stored;
    var e, written := step.entry, step.written;
    var record := NextRecord(e, r.lastSequence, r.lastDigest);
    var image := Image(I, record);
    assert |image| == ImageSize(e);
    var disk := Written(r.disk, image, written);
    if written == |image| {
      AppendIsClean(I, r.disk, entries, e, image);
      CleanIsStored(I, disk, entries + [e]);
      Reopens(I, disk, entries + [e]);
    } else {
      TornAppendIsStored(I, r.disk, entries, record, written);
      Reopens(I, disk, entries);
    }
  }

  lemma OtherStep(I: Integrity, r: Repository, entries: seq<Entry>, step: Step)
    requires Running(I, r, entries) && Permitted(entries, step) && !step.Append? && !step.CrashInAppend?
    ensures Do(I, r, step).Some? && Running(I, Do(I, r, step).value, LogAfter(entries, step))
  {
    hide Chain, Images, Clean, OpenImage, Stored, SnapshotSize, SnapshotHeader, JournalHeader;
    SizeOfImages(I, entries);
    CleanIsStored(I, r.disk, entries);
    CompactedIsClean(I, entries);
    if step.CrashInCompact? {
      var disk := r.disk.(snapshot := Some(SnapshotFile(I, r.records, r.lastSequence)));
      SnapshotIsStored(I, r.disk, entries);
      Reopens(I, disk, entries);
    } else if step.Restart? {
      Reopens(I, r.disk, entries);
    }
  }

  function Run(I: Integrity, r: Repository, steps: seq<Step>): (end: Option<Repository>)
    decreases |steps|
  {
    if steps == [] then Some(r)
    else if r.disk.journal.None? then None
    else
      match Do(I, r, steps[0])
      case None => None
      case Some(next) => Run(I, next, steps[1..])
  }

  lemma {:induction false} RunRebuilds(I: Integrity, r: Repository, entries: seq<Entry>, steps: seq<Step>)
    requires Running(I, r, entries) && PermittedRun(entries, steps)
    ensures Run(I, r, steps).Some? && Running(I, Run(I, r, steps).value, LogOf(entries, steps))
    decreases |steps|
  {
    hide Rebuilt, Permitted, Do, LogAfter, Fits;
    if steps != [] {
      var step := steps[0];
      if step.Append? {
        AppendStep(I, r, entries, step);
      } else if step.CrashInAppend? {
        CrashInAppendStep(I, r, entries, step);
      } else {
        OtherStep(I, r, entries, step);
      }
      RunRebuilds(I, Do(I, r, step).value, LogAfter(entries, step), steps[1..]);
    }
  }

  /**
   Main result for runs: from an empty directory, any sequence of appends, compactions and crashes keeps every
   reopening successful, and the records in memory are exactly the digest chain of the log: every acknowledged
   entry in order, plus those interrupted ones whose last byte was written.
   */
  lemma RunRefinesLog(I: Integrity, steps: seq<Step>)
    requires PermittedRun([], steps)
    ensures OpenImage(I, EMPTY_DISK).Some? && Run(I, OpenImage(I, EMPTY_DISK).value, steps).Some?
    ensures var end, entries := Run(I, OpenImage(I, EMPTY_DISK).value, steps).value, LogOf([], steps);
      && end.records == Chain(I, entries) && end.lastSequence == |entries|
        && end.lastDigest == LastDigest(I, end.records)
      && OpenImage(I, end.disk).Some? && OpenImage(I, end.disk).value.records == end.records
  {
    hide OpenImage, Run, Chain, LogOf, Clean, Stored, PermittedRun;
    EmptyDiskHoldsNothing(I);
    Reopens(I, EMPTY_DISK, []);
    var first := OpenImage(I, EMPTY_DISK).value;
    RunRebuilds(I, first, [], steps);
    var end := Run(I, first, steps).value;
    CleanIsStored(I, end.disk, LogOf([], steps));
    OpenStored(I, end.disk, LogOf([], steps));
  }

  // ---- Where the code falls short -------------------------------------------------------------

  /**
   After a crash between the two replacements of a compaction, the old journal is not verified and skipped:
   it is cut back to its header, unless its anchor digest happens to equal the digest of the whole log.
   */
  lemma StaleJournalIsDropped(I: Integrity, disk: DiskImage, entries: seq<Entry>, s: nat, start: nat)
    requires Layout(I, disk, entries, s, s, start, []) && disk.journal.Some? && s < |entries|
    requires SnapshotSize(entries) <= MAX_FILE_BYTES
    ensures var outcome := OpenImage(I, disk.(snapshot := Some(SnapshotFile(I, Chain(I, entries), |entries|))));
      outcome.Some?
      && (outcome.value.disk.journal == Some(JournalHeader(I, start))
          <==> LastDigest(I, Chain(I, entries)[..s]) != LastDigest(I, Chain(I, entries)))
  {
    hide OpenJournal, SnapshotSize, SnapshotHeader, JournalHeader, Rebuilt, Base, LastDigest, ReadFrame;
    var n, chain := |entries|, Chain(I, entries);
    var crashed := disk.(snapshot := Some(SnapshotFile(I, chain, n)));
    SizeOfImages(I, entries);
    assert chain[..n] == chain;
    assert Layout(I, crashed, entries, n, s, start, []);
    BaseOfLayout(I, crashed, entries, n, s, start, []);
    if Anchored(I, entries, n, s) {
      KeptJournal(I, crashed, entries, n, s, start);
      FirstFrame(I, entries, s, []);
    } else {
      assert ReadFrame(I, []) == None by { EmptyEnds(I); }
      OpenStale(I, crashed, entries, s, start, []);
    }
  }

  lemma EmptyEnds(I: Integrity)
    ensures ReadFrame(I, []) == None
  {
  }

  lemma KeptJournal(I: Integrity, disk: DiskImage, entries: seq<Entry>, s: nat, k: nat, start: nat)
    requires Layout(I, disk, entries, s, k, start, []) && disk.journal.Some? && Anchored(I, entries, s, k)
    ensures var outcome := OpenJournal(I, disk, LoadedAt(I, Chain(I, entries), s, s));
      outcome.Some? && |outcome.value.disk.journal.value| == JOURNAL_HEADER_SIZE + |Images(I, Chain(I, entries)[k..])|
  {
    hide ReadFrame, Images, Chain, SnapshotFile, JournalHeader, JournalHeaderOk, ReplayJournal;
    var chain, bytes := Chain(I, entries), disk.journal.value;
    EmptyEnds(I);
    HeaderIsAccepted(I, start, Images(I, chain[k..]) + []);
    ReplaySkips(I, entries, k, s, [], JOURNAL_HEADER_SIZE);
    NoFrameEnds(I, entries, s, []);
    assert chain[..|entries|] == chain;
    assert EndsAt(I, entries, s, [], JOURNAL_HEADER_SIZE + |Images(I, chain[k..])|);
  }

  /** What the journal holds of the failed record, and the image that is written behind it. */
  function Remnant(I: Integrity, entries: seq<Entry>, failed: Entry, written: nat): seq<byte>
    requires written <= ImageSize(failed)
  {
    NextImage(I, entries, failed)[..written]
  }

  function NextImage(I: Integrity, entries: seq<Entry>, e: Entry): (image: seq<byte>)
    ensures |image| == ImageSize(e)
  {
    Image(I, NextRecord(e, |entries|, LastDigest(I, Chain(I, entries))))
  }

  /** The disk after a failed append of which `written` bytes were written, and then a complete one. */
  function AfterFailure(I: Integrity, disk: DiskImage, entries: seq<Entry>, failed: Entry, next: Entry,
                        written: nat): DiskImage
    requires disk.journal.Some? && written <= ImageSize(failed)
  {
    Written(Written(disk, NextImage(I, entries, failed), written), NextImage(I, entries, next), ImageSize(next))
  }

  /**
   append() may be called again after a write failed. What it then acknowledges is kept if no byte of the failed
   record is in the journal, or if all are and it is the same record again; otherwise it is lost. When the failed
   record is incomplete, this is so unless its remnant and the next image happen to read as one record.
   */
  lemma AppendAfterFailure(I: Integrity, disk: DiskImage, entries: seq<Entry>, failed: Entry, next: Entry, written: nat)
    requires Clean(I, disk, entries) && Fits(disk) && ValidLog(entries + [failed]) && ValidLog(entries + [next])
    requires written <= ImageSize(failed)
    requires 0 < written < ImageSize(failed) ==>
      ReadFrame(I, Remnant(I, entries, failed, written) + NextImage(I, entries, next)) == None
    ensures var outcome := OpenImage(I, AfterFailure(I, disk, entries, failed, next, written));
      && outcome.Some?
      && outcome.value.records == Chain(I, if written == 0 then entries + [next]
                                           else if written == ImageSize(failed) then entries + [failed] else entries)
      && (outcome.value.records == Chain(I, entries + [next])
          <==> written == 0 || (written == ImageSize(failed) && failed == next))
  {
    hide OpenImage, Chain, Image, Clean;
    ChainGrows(I, entries, failed);
    ChainGrows(I, entries, next);
    if written == 0 {
      NothingFailed(I, disk, entries, failed, next);
    } else if written == ImageSize(failed) {
      RepeatIsLost(I, disk, entries, failed, next);
      var n, last := |entries|, LastDigest(I, Chain(I, entries));
      assert Chain(I, entries + [failed])[n] == NextRecord(failed, n, last);
      assert Chain(I, entries + [next])[n] == NextRecord(next, n, last);
    } else {
      BehindRemnantIsLost(I, disk, entries, failed, next, written);
    }
  }

  lemma NothingFailed(I: Integrity, disk: DiskImage, entries: seq<Entry>, failed: Entry, next: Entry)
    requires Clean(I, disk, entries) && Fits(disk) && ValidLog(entries + [next])
    ensures var outcome := OpenImage(I, AfterFailure(I, disk, entries, failed, next, 0));
      outcome.Some? && outcome.value.records == Chain(I, entries + [next])
  {
    hide OpenImage, Chain, Image, Clean;
    var image := NextImage(I, entries, next);
    CleanFacts(I, disk, entries);
    assert Written(disk, NextImage(I, entries, failed), 0) == disk by {
      assert disk.journal.value + NextImage(I, entries, failed)[..0] == disk.journal.value;
    }
    AppendIsClean(I, disk, entries, next, image);
    CleanIsStored(I, Written(disk, image, |image|), entries + [next]);
    OpenStored(I, Written(disk, image, |image|), entries + [next]);
  }

  /** The record that repeats a sequence number ends the replay. */
  lemma RepeatIsLost(I: Integrity, disk: DiskImage, entries: seq<Entry>, failed: Entry, next: Entry)
    requires Clean(I, disk, entries) && Fits(disk) && ValidLog(entries + [failed]) && ValidLog(entries + [next])
    ensures var outcome := OpenImage(I, AfterFailure(I, disk, entries, failed, next, ImageSize(failed)));
      outcome.Some? && outcome.value.records == Chain(I, entries + [failed])
  {
    hide ReadFrame, Images, Chain, JournalHeader, OpenJournal, SnapshotFile, Image, Base;
    var log, r := entries + [failed], NextRecord(next, |entries|, LastDigest(I, Chain(I, entries)));
    var image, tail := NextImage(I, entries, failed), NextImage(I, entries, next);
    var s: nat, k: nat, start: nat :| Layout(I, disk, entries, s, k, start, []) && Anchored(I, entries, s, k);
    JournalGrows(I, entries, failed, k, JournalHeader(I, start));
    ChainGrows(I, entries, failed);
    var chain, longer := Chain(I, entries), Chain(I, log);
    assert longer[..s] == chain[..s] && longer[..k] == chain[..k];
    assert image[..|image|] == image && tail[..|tail|] == tail;
    var after := AfterFailure(I, disk, entries, failed, next, |image|);
    var body, header := Images(I, longer[k..]), JournalHeader(I, start);
    assert header + (body + []) + tail == header + (body + tail);
    assert Layout(I, after, log, s, k, start, tail) && Anchored(I, log, s, k);
    assert ValidEntry((entries + [next])[|entries|]);
    RepeatEnds(I, log, s, r, []);
    assert Image(I, r) + [] == tail;
    BaseOfLayout(I, after, log, s, k, start, tail);
    OpenAnchored(I, after, log, s, k, start, tail);
  }

  lemma BehindRemnantIsLost(I: Integrity, disk: DiskImage, entries: seq<Entry>, failed: Entry, next: Entry,
                            written: nat)
    requires Clean(I, disk, entries) && Fits(disk) && written <= ImageSize(failed)
    requires ReadFrame(I, Remnant(I, entries, failed, written) + NextImage(I, entries, next)) == None
    ensures var outcome := OpenImage(I, AfterFailure(I, disk, entries, failed, next, written));
      outcome.Some? && outcome.value.records == Chain(I, entries)
  {
    hide ReadFrame, Images, Chain, JournalHeader, OpenImage, SnapshotFile, Anchored, Image, NextImage;
    var torn, image := Remnant(I, entries, failed, written), NextImage(I, entries, next);
    var after, tail := AfterFailure(I, disk, entries, failed, next, written), torn + image;
    var s: nat, k: nat, start: nat :| Layout(I, disk, entries, s, k, start, []) && Anchored(I, entries, s, k);
    var body, header := Images(I, Chain(I, entries)[k..]), JournalHeader(I, start);
    assert header + (body + []) + torn + image == header + (body + tail);
    assert image[..|image|] == image;
    assert Layout(I, after, entries, s, k, start, tail);
    OpenStored(I, after, entries);
  }

  /**
   The hypothesis on incomplete records holds for every cut in the first eight bytes, and for every cut behind the
   length field as long as the next image does not make up for the missing bytes. Otherwise it fails only if 32 of
   the bytes happen to be the digest of all those before them.
   */
  lemma RemnantIsNoRecord(I: Integrity, a: DurableRecord, b: DurableRecord, written: nat)
    requires ValidRecord(a) && ValidRecord(b) && 0 < written < |Image(I, a)|
    ensures var rest := Image(I, a)[..written] + Image(I, b);
      && (written <= 8 || (12 <= written && |rest| < |Image(I, a)|) ==> ReadFrame(I, rest) == None)
      && (ReadFrame(I, rest).Some? ==>
            exists n :: HEADER_SIZE <= n <= |rest| - DIGEST_SIZE && rest[n..n + DIGEST_SIZE] == I.hash(rest[..n]))
  {
    hide ReadFrame;
    var rest := Image(I, a)[..written] + Image(I, b);
    if written <= 3 {
      MisplacedMagic(I, a, b, written);
    } else if written <= 8 {
      MagicInHeader(I, a, b, written);
    } else if 12 <= written && |rest| < |Image(I, a)| {
      LengthBeyond(I, a, rest);
    }
    if ReadFrame(I, rest).Some? { FrameDigest(I, rest); }
  }

  lemma FrameDigest(I: Integrity, rest: seq<byte>)
    requires ReadFrame(I, rest).Some?
    ensures var n := ReadFrame(I, rest).value.total - DIGEST_SIZE;
      HEADER_SIZE <= n <= |rest| - DIGEST_SIZE && rest[n..n + DIGEST_SIZE] == I.hash(rest[..n])
  {
  }

  lemma LengthBeyond(I: Integrity, a: DurableRecord, rest: seq<byte>)
    requires ValidRecord(a) && 12 <= |rest| < |Image(I, a)| && rest[..12] == Image(I, a)[..12]
    ensures ReadFrame(I, rest) == None
  {
    HeaderSlices(I, a);
    FieldBounds();
    var h := Header(I, a);
    assert Image(I, a)[..12] == h[..12];
    assert rest[8..12] == rest[..12][8..12] == h[..12][8..12] == h[8..12];
    DecodeEncode(|a.payload|, 4);
  }

  lemma LastByte(bytes: seq<byte>)
    requires bytes != []
    ensures DecodeBE(bytes) >= bytes[|bytes| - 1]
  {
  }

  /** The magic number of the second record is no version, no kind and no length. */
  lemma MagicInHeader(I: Integrity, a: DurableRecord, b: DurableRecord, written: nat)
    requires 4 <= written <= 8
    ensures ReadFrame(I, Image(I, a)[..written] + Image(I, b)) == None
  {
    var rest, magic := Image(I, a)[..written] + Image(I, b), EncodeBE(RECORD_MAGIC, 4);
    assert Image(I, b)[..4] == magic;
    MagicBytes();
    assert forall i :: 0 <= i < 4 ==> rest[written + i] == magic[i];
    if written == 8 {
      assert rest[8..12] == magic;
    } else if written >= 6 {
      LastByte(rest[6..8]);
    } else {
      LastByte(rest[4..6]);
    }
  }

  lemma MisplacedMagic(I: Integrity, a: DurableRecord, b: DurableRecord, written: nat)
    requires 1 <= written <= 3
    ensures ReadFrame(I, Image(I, a)[..written] + Image(I, b)) == None
  {
    var rest := Image(I, a)[..written] + Image(I, b);
    assert Image(I, a)[..4] == EncodeBE(RECORD_MAGIC, 4) == Image(I, b)[..4];
    MagicBytes();
    var magic := EncodeBE(RECORD_MAGIC, 4);
    assert forall i :: 0 <= i < 4 ==> rest[i] == if i < written then magic[i] else magic[i - written];
    assert rest[0..4] != magic by { assert rest[0..4][written] == magic[0]; }
    if Field(rest, 0, 4) == RECORD_MAGIC {
      DecodeInjective(rest[0..4], magic);
    }
  }

  lemma MagicBytes()
    ensures EncodeBE(RECORD_MAGIC, 4) == [0x54, 0x45, 0x46, 0x52]
    ensures DecodeBE(EncodeBE(RECORD_MAGIC, 4)) == RECORD_MAGIC
  {
    assert Pow256(1) == 256 && Pow256(2) == 0x1_0000 && Pow256(3) == 0x100_0000;
    FieldBounds();
    DecodeEncode(RECORD_MAGIC, 4);
  }
}
