/**
 What open() rebuilds from the files of a plan repository (src/persist.cpp), for every state of the disk that
 appends, compactions and crashes can leave behind. The integrity functions are arbitrary: no collision
 freedom is assumed anywhere.
 */
module Recovery {
  import opened Numeric
  import opened Bytes
  import opened RecordFormat
  import opened DurableLog

  /** The durable files. write_atomic replaces a file as a whole; a journal append can be cut at any byte. */
  datatype DiskImage = DiskImage(snapshot: Option<seq<byte>>, journal: Option<seq<byte>>)

  /** A repository that has been opened: what is in memory, and the files. */
  datatype Repository = Repository(records: seq<DurableRecord>, lastSequence: nat, lastDigest: Digest, disk: DiskImage)

  const EMPTY_DISK := DiskImage(None, None)

  function Base(I: Integrity, disk: DiskImage): Option<Loaded> {
    if disk.snapshot.None? then Some(Loaded([], ZERO_DIGEST, 0)) else OpenSnapshot(I, disk.snapshot.value)
  }

  /** PlanRepository::open: the snapshot, then the journal, which is truncated after its last valid record. */
  function OpenImage(I: Integrity, disk: DiskImage): (outcome: Option<Repository>) {
    match Base(I, disk)
    case None => None
    case Some(base) => OpenJournal(I, disk, base)
  }

  function OpenJournal(I: Integrity, disk: DiskImage, base: Loaded): (outcome: Option<Repository>) {
    match disk.journal
    case None =>
      Some(Repository(base.records, base.sequence, base.lastDigest,
                      disk.(journal := Some(JournalHeader(I, base.sequence + 1)))))
    case Some(bytes) =>
      if !JournalHeaderOk(I, bytes) then None
      else
        var end := ReplayJournal(I, bytes[JOURNAL_HEADER_SIZE..], base.lastDigest, base.sequence,
                                 Replay(base.records, base.sequence, base.lastDigest, JOURNAL_HEADER_SIZE));
        Some(Repository(end.records, end.lastSequence, end.lastDigest, disk.(journal := Some(bytes[..end.valid]))))
  }

  // ---- Which disks hold which log ----------------------------------------------------------

  /** The snapshot holds the first s records of the log, the journal those from k on and then some tail. */
  ghost predicate Layout(I: Integrity, disk: DiskImage, entries: seq<Entry>, s: nat, k: nat, start: nat,
                         tail: seq<byte>) {
    && ValidLog(entries) && k <= s <= |entries|
    && ((disk.snapshot == None && s == 0) || disk.snapshot == Some(SnapshotFile(I, Chain(I, entries)[..s], s)))
    && ((disk.journal == None && s == |entries|)
        || disk.journal == Some(JournalHeader(I, start) + (Images(I, Chain(I, entries)[k..]) + tail)))
  }

  /** The journal chains on to the snapshot. */
  ghost predicate Anchored(I: Integrity, entries: seq<Entry>, s: nat, k: nat)
    requires k <= s <= |entries|
  {
    k == s || LastDigest(I, Chain(I, entries)[..k]) == LastDigest(I, Chain(I, entries)[..s])
  }

  /** The disk holds the log, whatever follows the last complete journal record. */
  ghost predicate Stored(I: Integrity, disk: DiskImage, entries: seq<Entry>) {
    exists s: nat, k: nat, start: nat, tail: seq<byte> ::
      Layout(I, disk, entries, s, k, start, tail) && ReadFrame(I, tail) == None
      && (s == |entries| || Anchored(I, entries, s, k))
  }

  /** The disk holds the log and the journal ends exactly after its last record: the state to append in. */
  ghost predicate Clean(I: Integrity, disk: DiskImage, entries: seq<Entry>) {
    disk.journal.Some? && exists s: nat, k: nat, start: nat ::
      Layout(I, disk, entries, s, k, start, []) && Anchored(I, entries, s, k)
  }

  /** open() refuses files over 512 MiB. */
  predicate Fits(disk: DiskImage) {
    disk.snapshot.Some? ==> |disk.snapshot.value| <= MAX_FILE_BYTES
  }

  ghost predicate Rebuilt(I: Integrity, r: Repository, entries: seq<Entry>) {
    && r.records == Chain(I, entries) && r.lastSequence == |entries| && r.lastDigest == LastDigest(I, r.records)
    && Clean(I, r.disk, entries)
  }

  // ---- Recovery ------------------------------------------------------------------------------

  lemma BaseOfLayout(I: Integrity, disk: DiskImage, entries: seq<Entry>, s: nat, k: nat, start: nat, tail: seq<byte>)
    requires Layout(I, disk, entries, s, k, start, tail)
    ensures Base(I, disk) == if Fits(disk) then Some(LoadedAt(I, Chain(I, entries), s, s)) else None
  {
    hide SnapshotBody, SnapshotRecords, SnapshotFile, Images, ReadFrame, JournalHeader;
    var chain := Chain(I, entries);
    if disk.snapshot.Some? {
      OpenSnapshotFile(I, chain[..s], s);
      if Fits(disk) { PrefixReadsBack(I, entries, s); }
    } else {
      assert chain[..0] == [];
    }
  }

  lemma PrefixReadsBack(I: Integrity, entries: seq<Entry>, s: nat)
    requires ValidLog(entries) && s <= |entries|
    ensures SnapshotRecords(I, Images(I, Chain(I, entries)[..s]), Loaded([], ZERO_DIGEST, s))
      == Some(LoadedAt(I, Chain(I, entries), s, s))
  {
    hide ReadSnapshotFrame, Image, Chain;
    ChainPrefix(I, entries, s);
    var part := Chain(I, entries[..s]);
    ChainReadsBack(I, entries[..s], 0, [], s);
    assert part[0..] == part && part[..0] == [] && part[..s] == part;
    assert Images(I, part) + [] == Images(I, part);
  }

  /** A journal behind a snapshot that chains on to it completes the log. */
  lemma OpenAnchored(I: Integrity, disk: DiskImage, entries: seq<Entry>, s: nat, k: nat, start: nat, tail: seq<byte>)
    requires Layout(I, disk, entries, s, k, start, tail) && Ends(I, entries, s, tail) && Anchored(I, entries, s, k)
    requires disk.journal.Some?
    ensures OpenJournal(I, disk, LoadedAt(I, Chain(I, entries), s, s)).Some?
    ensures Rebuilt(I, OpenJournal(I, disk, LoadedAt(I, Chain(I, entries), s, s)).value, entries)
  {
    hide ReadFrame, Images, Chain, SnapshotFile, JournalHeader, JournalHeaderOk, ReplayJournal;
    var chain, bytes := Chain(I, entries), disk.journal.value;
    var header, rest := JournalHeader(I, start), Images(I, chain[k..]) + tail;
    HeaderIsAccepted(I, start, rest);
    ReplaySkips(I, entries, k, s, tail, JOURNAL_HEADER_SIZE);
    assert chain[..|entries|] == chain;
    assert EndsAt(I, entries, s, tail, JOURNAL_HEADER_SIZE + |Images(I, chain[k..])|);
    var r := OpenJournal(I, disk, LoadedAt(I, chain, s, s)).value;
    assert bytes[..JOURNAL_HEADER_SIZE + |Images(I, chain[k..])|] == header + Images(I, chain[k..]);
    assert Images(I, chain[k..]) + [] == Images(I, chain[k..]);
    assert Layout(I, r.disk, entries, s, k, start, []);
  }

  /** A stale journal behind a snapshot that already covers everything contributes nothing, and is cut off. */
  lemma OpenStale(I: Integrity, disk: DiskImage, entries: seq<Entry>, k: nat, start: nat, tail: seq<byte>)
    requires Layout(I, disk, entries, |entries|, k, start, tail) && ReadFrame(I, tail) == None
    requires disk.journal.Some? && !Anchored(I, entries, |entries|, k)
    ensures var outcome := OpenJournal(I, disk, LoadedAt(I, Chain(I, entries), |entries|, |entries|));
      outcome.Some? && Rebuilt(I, outcome.value, entries) && outcome.value.disk.journal == Some(JournalHeader(I, start))
  {
    hide ReadFrame, Images, Chain, SnapshotFile, JournalHeader, JournalHeaderOk, ReplayJournal;
    var n, chain, bytes := |entries|, Chain(I, entries), disk.journal.value;
    var header, rest := JournalHeader(I, start), Images(I, chain[k..]) + tail;
    HeaderIsAccepted(I, start, rest);
    ReplayRefuses(I, entries, k, n, tail, LastDigest(I, chain[..n]),
      Replay(chain[..n], n, LastDigest(I, chain[..n]), JOURNAL_HEADER_SIZE));
    var r := OpenJournal(I, disk, LoadedAt(I, chain, n, n)).value;
    assert chain[..n] == chain && chain[n..] == [];
    assert bytes[..JOURNAL_HEADER_SIZE] == header;
    NoImages(I, header);
    assert Layout(I, r.disk, entries, n, n, start, []) && Anchored(I, entries, n, n);
  }

  lemma NoImages(I: Integrity, header: seq<byte>)
    ensures header + (Images(I, []) + []) == header
  {
  }

  lemma OpenWithoutJournal(I: Integrity, disk: DiskImage, entries: seq<Entry>)
    requires Layout(I, disk, entries, |entries|, |entries|, |entries| + 1, []) && disk.journal.None?
    ensures var outcome := OpenJournal(I, disk, LoadedAt(I, Chain(I, entries), |entries|, |entries|));
      outcome.Some? && Rebuilt(I, outcome.value, entries)
  {
    hide ReadFrame, Images, Chain, SnapshotFile, JournalHeader, JournalHeaderOk, ReplayJournal;
    var n, chain := |entries|, Chain(I, entries);
    var r := OpenJournal(I, disk, LoadedAt(I, chain, n, n)).value;
    assert chain[..n] == chain && chain[n..] == [];
    NoImages(I, JournalHeader(I, n + 1));
    assert Layout(I, r.disk, entries, n, n, n + 1, []) && Anchored(I, entries, n, n);
  }

  /**
   Main result for one recovery: opening a disk that holds a log rebuilds exactly that log, leaves the disk
   ready for further appends, and can only fail because the snapshot outgrew the size bound.
   */
  lemma OpenStored(I: Integrity, disk: DiskImage, entries: seq<Entry>)
    requires Stored(I, disk, entries)
    ensures OpenImage(I, disk).Some? <==> Fits(disk)
    ensures OpenImage(I, disk).Some? ==> Rebuilt(I, OpenImage(I, disk).value, entries)
  {
    hide Base, OpenJournal, Rebuilt, Fits, ReadFrame, Chain;
    var s: nat, k: nat, start: nat, tail: seq<byte> :| Layout(I, disk, entries, s, k, start, tail)
      && ReadFrame(I, tail) == None && (s == |entries| || Anchored(I, entries, s, k));
    BaseOfLayout(I, disk, entries, s, k, start, tail);
    if Fits(disk) {
      if disk.journal.None? {
        OpenWithoutJournal(I, disk, entries);
      } else if Anchored(I, entries, s, k) {
        NoFrameEnds(I, entries, s, tail);
        OpenAnchored(I, disk, entries, s, k, start, tail);
      } else {
        OpenStale(I, disk, entries, k, start, tail);
      }
    }
  }

  // ---- Steps on the disk ------------------------------------------------------------------------

  lemma EmptyDiskHoldsNothing(I: Integrity)
    ensures Stored(I, EMPTY_DISK, [])
  {
    assert Layout(I, EMPTY_DISK, [], 0, 0, 1, []) && Anchored(I, [], 0, 0);
  }

  lemma CleanIsStored(I: Integrity, disk: DiskImage, entries: seq<Entry>)
    requires Clean(I, disk, entries)
    ensures Stored(I, disk, entries)
  {
    var s: nat, k: nat, start: nat :| Layout(I, disk, entries, s, k, start, []) && Anchored(I, entries, s, k);
    assert ReadFrame(I, []) == None;
  }

  lemma CleanFacts(I: Integrity, disk: DiskImage, entries: seq<Entry>)
    requires Clean(I, disk, entries)
    ensures disk.journal.Some? && ValidLog(entries)
  {
  }

  function NextRecord(entry: Entry, lastSequence: nat, lastDigest: Digest): DurableRecord {
    DurableRecord(entry.kind, lastSequence + 1, lastDigest, entry.payload)
  }

  /** A journal append, of which only the first `written` bytes reach the disk. */
  function Written(disk: DiskImage, image: seq<byte>, written: nat): DiskImage
    requires disk.journal.Some? && written <= |image|
  {
    disk.(journal := Some(disk.journal.value + image[..written]))
  }

  lemma ChainGrows(I: Integrity, entries: seq<Entry>, e: Entry)
    ensures var chain := Chain(I, entries);
      Chain(I, entries + [e]) == chain + [NextRecord(e, |entries|, LastDigest(I, chain))]
  {
    assert (entries + [e])[..|entries|] == entries;
  }

  /** An append cut short leaves the log as it was. */
  lemma TornAppendIsStored(I: Integrity, disk: DiskImage, entries: seq<Entry>, r: DurableRecord, written: nat)
    requires Clean(I, disk, entries) && ValidRecord(r) && written < |Image(I, r)|
    ensures Stored(I, Written(disk, Image(I, r), written), entries)
  {
    hide ReadFrame, Images, Chain, SnapshotFile, JournalHeader, Image, Anchored;
    var s: nat, k: nat, start: nat :| Layout(I, disk, entries, s, k, start, []) && Anchored(I, entries, s, k);
    var tail := Image(I, r)[..written];
    TornImage(I, r, written);
    var body, header := Images(I, Chain(I, entries)[k..]), JournalHeader(I, start);
    assert header + (body + []) + tail == header + (body + tail);
    assert Layout(I, Written(disk, Image(I, r), written), entries, s, k, start, tail);
  }

  lemma JournalGrows(I: Integrity, entries: seq<Entry>, e: Entry, k: nat, header: seq<byte>)
    requires k <= |entries|
    ensures var chain, r := Chain(I, entries), NextRecord(e, |entries|, LastDigest(I, Chain(I, entries)));
      header + (Images(I, chain[k..]) + []) + Image(I, r) == header + (Images(I, Chain(I, entries + [e])[k..]) + [])
  {
    hide Image, Chain;
    var chain, r := Chain(I, entries), NextRecord(e, |entries|, LastDigest(I, Chain(I, entries)));
    ChainGrows(I, entries, e);
    assert (chain + [r])[k..] == chain[k..] + [r];
    ImagesConcat(I, chain[k..], [r]);
    assert Images(I, [r]) == Image(I, r) + Images(I, []) == Image(I, r);
  }

  /** A complete append extends the log by exactly the appended entry. */
  lemma AppendIsClean(I: Integrity, disk: DiskImage, entries: seq<Entry>, e: Entry, image: seq<byte>)
    requires Clean(I, disk, entries) && ValidLog(entries + [e])
    requires image == Image(I, NextRecord(e, |entries|, LastDigest(I, Chain(I, entries))))
    ensures Clean(I, Written(disk, image, |image|), entries + [e])
  {
    hide ReadFrame, Images, Chain, SnapshotFile, JournalHeader, Image;
    var s: nat, k: nat, start: nat :| Layout(I, disk, entries, s, k, start, []) && Anchored(I, entries, s, k);
    JournalGrows(I, entries, e, k, JournalHeader(I, start));
    ChainGrows(I, entries, e);
    var chain, longer := Chain(I, entries), Chain(I, entries + [e]);
    assert longer[..s] == chain[..s] && longer[..k] == chain[..k];
    assert image[..|image|] == image;
    assert Layout(I, Written(disk, image, |image|), entries + [e], s, k, start, []);
    assert Anchored(I, entries + [e], s, k);
  }

  /** Between the two replacements of a compaction the new snapshot stands before the old journal. */
  lemma SnapshotIsStored(I: Integrity, disk: DiskImage, entries: seq<Entry>)
    requires Stored(I, disk, entries)
    ensures Stored(I, disk.(snapshot := Some(SnapshotFile(I, Chain(I, entries), |entries|))), entries)
  {
    hide ReadFrame, Images, Chain, SnapshotFile, JournalHeader, Anchored;
    var s: nat, k: nat, start: nat, tail: seq<byte> :| Layout(I, disk, entries, s, k, start, tail)
      && ReadFrame(I, tail) == None && (s == |entries| || Anchored(I, entries, s, k));
    var n, chain := |entries|, Chain(I, entries);
    assert chain[..n] == chain;
    assert Layout(I, disk.(snapshot := Some(SnapshotFile(I, chain, n))), entries, n, k, start, tail);
  }

  function CompactedDisk(I: Integrity, records: seq<DurableRecord>, lastSequence: nat): DiskImage {
    DiskImage(Some(SnapshotFile(I, records, lastSequence)), Some(JournalHeader(I, lastSequence + 1)))
  }

  lemma CompactedIsClean(I: Integrity, entries: seq<Entry>)
    requires ValidLog(entries)
    ensures Clean(I, CompactedDisk(I, Chain(I, entries), |entries|), entries)
  {
    hide Images, Chain, SnapshotFile, JournalHeader;
    var n, chain := |entries|, Chain(I, entries);
    assert chain[..n] == chain && chain[n..] == [];
    NoImages(I, JournalHeader(I, n + 1));
    assert Layout(I, CompactedDisk(I, chain, n), entries, n, n, n + 1, []) && Anchored(I, entries, n, n);
  }
}
