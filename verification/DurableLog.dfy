/**
 What the files of a plan repository mean (src/persist.cpp): the hash-chained log, the snapshot file, the
 journal with its possibly torn tail, and what open() makes of them.
 */
module DurableLog {
  import opened Numeric
  import opened Bytes
  import opened RecordFormat

  const JOURNAL_MAGIC: nat := 0x5445464A     // 'TEFJ'
  const SNAPSHOT_MAGIC: nat := 0x54454653    // 'TEFS'
  const JOURNAL_HEADER_SIZE: nat := 32
  const SNAPSHOT_HEADER_SIZE: nat := 40
  const MAX_FILE_BYTES: nat := 512 * 1024 * 1024

  /** What a caller appends. */
  datatype Entry = Entry(kind: nat, payload: seq<byte>)

  predicate ValidEntry(e: Entry) {
    1 <= e.kind <= 6 && |e.payload| <= MAX_PAYLOAD
  }

  predicate ValidLog(entries: seq<Entry>) {
    |entries| < MAX_SEQUENCE && forall i :: 0 <= i < |entries| ==> ValidEntry(entries[i])
  }

  function LastDigest(I: Integrity, records: seq<DurableRecord>): Digest {
    if records == [] then ZERO_DIGEST else RecordDigest(I, records[|records| - 1])
  }

  /** The records of a log: sequence numbers 1..n, each naming the digest of its predecessor. */
  function Chain(I: Integrity, entries: seq<Entry>): (records: seq<DurableRecord>)
    ensures |records| == |entries|
  {
    if entries == [] then []
    else
      var e := entries[|entries| - 1];
      var before := Chain(I, entries[..|entries| - 1]);
      before + [DurableRecord(e.kind, |entries|, LastDigest(I, before), e.payload)]
  }

  lemma {:induction false} ChainPrefix(I: Integrity, entries: seq<Entry>, k: nat)
    requires k <= |entries|
    ensures Chain(I, entries[..k]) == Chain(I, entries)[..k]
  {
    if k < |entries| {
      var m := |entries| - 1;
      ChainPrefix(I, entries[..m], k);
      assert entries[..m][..k] == entries[..k];
      assert Chain(I, entries)[..k] == Chain(I, entries[..m])[..k];
    } else {
      assert entries[..k] == entries;
    }
  }

  /** Record i carries sequence number i + 1 and the digest of the records before it. */
  lemma ChainRecord(I: Integrity, entries: seq<Entry>, i: nat)
    requires i < |entries|
    ensures var chain := Chain(I, entries);
      && chain[i].sequence == i + 1 && chain[i].previous == LastDigest(I, chain[..i])
      && chain[i].kind == entries[i].kind && chain[i].payload == entries[i].payload
      && LastDigest(I, chain[..i + 1]) == RecordDigest(I, chain[i])
    ensures ValidLog(entries) ==> ValidRecord(Chain(I, entries)[i])
  {
    ChainPrefix(I, entries, i + 1);
    ChainPrefix(I, entries, i);
    assert entries[..i + 1][..i] == entries[..i];
    assert Chain(I, entries[..i + 1])[i] == Chain(I, entries)[i];
  }

  function Images(I: Integrity, records: seq<DurableRecord>): seq<byte> {
    if records == [] then [] else Image(I, records[0]) + Images(I, records[1..])
  }

  lemma {:induction false} ImagesConcat(I: Integrity, a: seq<DurableRecord>, b: seq<DurableRecord>)
    ensures Images(I, a + b) == Images(I, a) + Images(I, b)
  {
    hide Image;
    if a == [] {
      assert a + b == b;
    } else {
      ImagesConcat(I, a[1..], b);
      assert (a + b)[0] == a[0] && (a + b)[1..] == a[1..] + b;
      Regroup(Image(I, a[0]), Images(I, a[1..]), Images(I, b));
    }
  }

  lemma Regroup<T>(x: seq<T>, y: seq<T>, z: seq<T>)
    ensures x + (y + z) == (x + y) + z
  {
  }

  // ---- Snapshot file -------------------------------------------------------------------

  function SnapshotHeader(I: Integrity, lastSequence: nat, payload: seq<byte>): (h: seq<byte>)
    ensures |h| == SNAPSHOT_HEADER_SIZE
  {
    EncodeBE(SNAPSHOT_MAGIC, 4) + EncodeBE(FORMAT_VERSION, 2) + EncodeBE(0, 2) + EncodeBE(lastSequence, 8)
    + EncodeBE(lastSequence + 1, 8) + EncodeBE(|payload|, 8) + EncodeBE(I.crc(payload), 4) + EncodeBE(0, 4)
  }

  /** The file that compaction writes for the given records. */
  function SnapshotFile(I: Integrity, records: seq<DurableRecord>, lastSequence: nat): seq<byte> {
    var payload := Images(I, records);
    var body := SnapshotHeader(I, lastSequence, payload) + payload;
    body + I.hash(body)
  }

  /** What reading a snapshot leaves in memory. */
  datatype Loaded = Loaded(records: seq<DurableRecord>, lastDigest: Digest, sequence: nat)

  /** The records of a snapshot payload, each checked against its digest and its predecessor. */
  function SnapshotRecords(I: Integrity, payload: seq<byte>, state: Loaded): (loaded: Option<Loaded>)
    ensures loaded.Some? ==> loaded.value.sequence == state.sequence
    decreases |payload|
  {
    if payload == [] then Some(state)
    else
      match ReadSnapshotFrame(I, payload)
      case None => None
      case Some(f) =>
        if f.record.previous != state.lastDigest then None
        else SnapshotRecords(I, payload[f.total..], Loaded(state.records + [f.record], f.digest, state.sequence))
  }

  /** The payload of a snapshot file and the sequence number it covers, if header and digests check out. */
  function SnapshotBody(I: Integrity, bytes: seq<byte>): (body: Option<(seq<byte>, nat)>) {
    if |bytes| > MAX_FILE_BYTES || |bytes| < SNAPSHOT_HEADER_SIZE + DIGEST_SIZE then None
    else if Field(bytes, 0, 4) != SNAPSHOT_MAGIC || Field(bytes, 4, 2) != FORMAT_VERSION then None
    else
      var length := Field(bytes, 24, 8);
      if length > |bytes| - SNAPSHOT_HEADER_SIZE - DIGEST_SIZE then None
      else
        var end := SNAPSHOT_HEADER_SIZE + length;
        var payload := bytes[SNAPSHOT_HEADER_SIZE..end];
        if I.crc(payload) != Field(bytes, 32, 4) || bytes[end..end + DIGEST_SIZE] != I.hash(bytes[..end]) then None
        else Some((payload, Field(bytes, 8, 8)))
  }

  function OpenSnapshot(I: Integrity, bytes: seq<byte>): Option<Loaded> {
    match SnapshotBody(I, bytes)
    case None => None
    case Some(body) => SnapshotRecords(I, body.0, Loaded([], ZERO_DIGEST, body.1))
  }

  lemma SnapshotHeaderFields(I: Integrity, lastSequence: nat, payload: seq<byte>, bytes: seq<byte>)
    requires lastSequence <= MAX_SEQUENCE && |payload| <= MAX_SEQUENCE
    requires |bytes| >= SNAPSHOT_HEADER_SIZE
    requires bytes[..SNAPSHOT_HEADER_SIZE] == SnapshotHeader(I, lastSequence, payload)
    ensures Field(bytes, 0, 4) == SNAPSHOT_MAGIC && Field(bytes, 4, 2) == FORMAT_VERSION
    ensures Field(bytes, 8, 8) == lastSequence
    ensures Field(bytes, 24, 8) == |payload| && Field(bytes, 32, 4) == I.crc(payload)
  {
    var h := SnapshotHeader(I, lastSequence, payload);
    FieldBounds();
    assert bytes[0..4] == h[0..4] == EncodeBE(SNAPSHOT_MAGIC, 4);
    assert bytes[4..6] == h[4..6] == EncodeBE(FORMAT_VERSION, 2);
    assert bytes[8..16] == h[8..16] == EncodeBE(lastSequence, 8);
    assert bytes[24..32] == h[24..32] == EncodeBE(|payload|, 8);
    assert bytes[32..36] == h[32..36] == EncodeBE(I.crc(payload), 4);
    DecodeEncode(SNAPSHOT_MAGIC, 4);
    DecodeEncode(FORMAT_VERSION, 2);
    DecodeEncode(lastSequence, 8);
    DecodeEncode(|payload|, 8);
    DecodeEncode(I.crc(payload), 4);
  }

  /** Opening a snapshot file comes down to following the digest chain of its records, or fails by its size. */
  lemma OpenSnapshotFile(I: Integrity, records: seq<DurableRecord>, lastSequence: nat)
    requires lastSequence <= MAX_SEQUENCE
    ensures SnapshotBody(I, SnapshotFile(I, records, lastSequence))
      == if |SnapshotFile(I, records, lastSequence)| <= MAX_FILE_BYTES then Some((Images(I, records),
        lastSequence)) else None
  {
    if |SnapshotFile(I, records, lastSequence)| > MAX_FILE_BYTES { return; }
    var payload := Images(I, records);
    var bytes := SnapshotFile(I, records, lastSequence);
    var body := SnapshotHeader(I, lastSequence, payload) + payload;
    var end := SNAPSHOT_HEADER_SIZE + |payload|;
    assert bytes == body + I.hash(body) && |body| == end;
    assert bytes[..SNAPSHOT_HEADER_SIZE] == SnapshotHeader(I, lastSequence, payload);
    SnapshotHeaderFields(I, lastSequence, payload, bytes);
    assert bytes[SNAPSHOT_HEADER_SIZE..end] == payload;
    assert bytes[..end] == body;
    assert bytes[end..end + DIGEST_SIZE] == I.hash(body);
  }

  /** The bytes of records i.. of a chain start with the frame of record i, for either reader. */
  lemma FirstFrame(I: Integrity, entries: seq<Entry>, i: nat, tail: seq<byte>)
    requires ValidLog(entries) && i < |entries|
    ensures var chain := Chain(I, entries);
      var rest, total := Images(I, chain[i..]) + tail, |Image(I, chain[i])|;
      && ReadFrame(I, rest) == ReadSnapshotFrame(I, rest) == Some(Frame(chain[i], RecordDigest(I, chain[i]), total))
      && 0 < total <= |rest| && rest[total..] == Images(I, chain[i + 1..]) + tail
      && |Images(I, chain[i..])| == total + |Images(I, chain[i + 1..])|
      && chain[..i] + [chain[i]] == chain[..i + 1]
  {
    hide ReadFrame, ReadSnapshotFrame, Image;
    var chain := Chain(I, entries);
    ChainRecord(I, entries, i);
    assert chain[i..][0] == chain[i] && chain[i..][1..] == chain[i + 1..];
    var next := Images(I, chain[i + 1..]) + tail;
    assert Images(I, chain[i..]) + tail == Image(I, chain[i]) + next;
    ReadImage(I, chain[i], next);
  }

  ghost function LoadedAt(I: Integrity, chain: seq<DurableRecord>, i: nat, sequence: nat): Loaded
    requires i <= |chain|
  {
    Loaded(chain[..i], LastDigest(I, chain[..i]), sequence)
  }

  /** An unbroken stretch of a chain is taken over exactly, whatever follows it. */
  lemma {:induction false} ChainReadsBack(I: Integrity, entries: seq<Entry>, i: nat, more: seq<byte>, sequence: nat)
    requires ValidLog(entries) && i <= |entries|
    ensures SnapshotRecords(I, Images(I, Chain(I, entries)[i..]) + more, LoadedAt(I, Chain(I, entries), i, sequence))
      == SnapshotRecords(I, more, LoadedAt(I, Chain(I, entries), |entries|, sequence))
    decreases |entries| - i
  {
    hide ReadSnapshotFrame, Image, Chain;
    var chain := Chain(I, entries);
    if i < |entries| {
      FirstFrame(I, entries, i, more);
      ChainRecord(I, entries, i);
      ChainReadsBack(I, entries, i + 1, more, sequence);
    } else {
      assert Images(I, chain[i..]) + more == more;
    }
  }

  /**
   A snapshot that lacks one record in the middle is readable only if the digests on both sides of the gap
   happen to agree. append() leaves such a gap in memory when it rejects a fence after writing it.
   */
  lemma SnapshotWithGap(I: Integrity, entries: seq<Entry>, g: nat, sequence: nat)
    requires ValidLog(entries) && g + 1 < |entries|
    ensures var chain := Chain(I, entries);
      SnapshotRecords(I, Images(I, chain[..g] + chain[g + 1..]), Loaded([], ZERO_DIGEST, sequence)).Some?
      <==> LastDigest(I, chain[..g]) == LastDigest(I, chain[..g + 1])
  {
    hide ReadSnapshotFrame, Image;
    var chain := Chain(I, entries);
    var before := entries[..g];
    ChainPrefix(I, entries, g);
    ImagesConcat(I, chain[..g], chain[g + 1..]);
    var more := Images(I, chain[g + 1..]);
    assert Chain(I, before)[0..] == chain[..g] && Chain(I, before)[..g] == chain[..g];
    ChainReadsBack(I, before, 0, more, sequence);
    FirstFrame(I, entries, g + 1, []);
    ChainRecord(I, entries, g + 1);
    assert more + [] == more;
    assert Images(I, chain[g + 2..]) + [] == Images(I, chain[g + 2..]);
    if LastDigest(I, chain[..g]) == LastDigest(I, chain[..g + 1]) {
      SurvivesFrom(I, entries, g + 2, chain[..g] + [chain[g + 1]], sequence);
    }
  }

  /** From a matching digest on, reading succeeds whatever was taken over before. */
  lemma {:induction false} SurvivesFrom(I: Integrity, entries: seq<Entry>, i: nat, taken: seq<DurableRecord>,
                                        sequence: nat)
    requires ValidLog(entries) && i <= |entries|
    ensures SnapshotRecords(I, Images(I, Chain(I, entries)[i..]), Loaded(taken, LastDigest(I, Chain(I, entries)[..i]),
      sequence)).Some?
    decreases |entries| - i
  {
    hide ReadSnapshotFrame, Image, Chain;
    var chain := Chain(I, entries);
    if i < |entries| {
      FirstFrame(I, entries, i, []);
      ChainRecord(I, entries, i);
      assert Images(I, chain[i..]) + [] == Images(I, chain[i..]);
      assert Images(I, chain[i + 1..]) + [] == Images(I, chain[i + 1..]);
      SurvivesFrom(I, entries, i + 1, taken + [chain[i]], sequence);
    }
  }

  // ---- Journal ---------------------------------------------------------------------------

  function JournalPrefix(start: nat): (h: seq<byte>)
    ensures |h| == 24
  {
    EncodeBE(JOURNAL_MAGIC, 4) + EncodeBE(FORMAT_VERSION, 2) + EncodeBE(0, 2) + EncodeBE(start, 8) + EncodeBE(0, 8)
  }

  /** make_journal_header */
  function JournalHeader(I: Integrity, start: nat): (h: seq<byte>)
    ensures |h| == JOURNAL_HEADER_SIZE
  {
    JournalPrefix(start) + EncodeBE(I.crc(JournalPrefix(start)), 4) + EncodeBE(0, 4)
  }

  /** parse_journal_header, on a file that is long enough. */
  predicate JournalHeaderOk(I: Integrity, bytes: seq<byte>) {
    && |bytes| >= JOURNAL_HEADER_SIZE
    && Field(bytes, 0, 4) == JOURNAL_MAGIC && Field(bytes, 4, 2) == FORMAT_VERSION
    && I.crc(bytes[..24]) == Field(bytes, 24, 4)
  }

  lemma HeaderIsAccepted(I: Integrity, start: nat, tail: seq<byte>)
    ensures JournalHeaderOk(I, JournalHeader(I, start) + tail)
    ensures (JournalHeader(I, start) + tail)[JOURNAL_HEADER_SIZE..] == tail
  {
    var bytes, h := JournalHeader(I, start) + tail, JournalHeader(I, start);
    FieldBounds();
    assert bytes[0..4] == EncodeBE(JOURNAL_MAGIC, 4);
    assert bytes[4..6] == EncodeBE(FORMAT_VERSION, 2);
    assert bytes[..24] == JournalPrefix(start);
    assert bytes[24..28] == EncodeBE(I.crc(JournalPrefix(start)), 4);
    DecodeEncode(JOURNAL_MAGIC, 4);
    DecodeEncode(FORMAT_VERSION, 2);
    DecodeEncode(I.crc(JournalPrefix(start)), 4);
  }

  /** State of the replay loop: records taken over, last sequence and digest, and bytes found valid. */
  datatype Replay = Replay(records: seq<DurableRecord>, lastSequence: nat, lastDigest: Digest, valid: nat)

  /**
   The replay of journal bytes behind a snapshot that ends at `covered`. A frame is kept when it chains on
   and continues the sequence, skipped when the snapshot covers it, and ends the replay otherwise.
   */
  function ReplayJournal(I: Integrity, rest: seq<byte>, previous: Digest, covered: nat, state: Replay): (end: Replay)
    ensures state.valid <= end.valid <= state.valid + |rest|
    decreases |rest|
  {
    match ReadFrame(I, rest)
    case None => state
    case Some(f) =>
      if f.record.previous != previous then state
      else if f.record.sequence <= covered then
        ReplayJournal(I, rest[f.total..], f.digest, covered, state.(valid := state.valid + f.total))
      else if f.record.sequence != state.lastSequence + 1 then state
      else
        ReplayJournal(I, rest[f.total..], f.digest, covered,
          Replay(state.records + [f.record], f.record.sequence, f.digest, state.valid + f.total))
  }

  ghost function StateAt(I: Integrity, chain: seq<DurableRecord>, i: nat, valid: nat): Replay
    requires i <= |chain|
  {
    Replay(chain[..i], i, LastDigest(I, chain[..i]), valid)
  }

  /** One record of the chain: skipped when covered, otherwise appended. */
  lemma ReplayOne(I: Integrity, entries: seq<Entry>, i: nat, covered: nat, tail: seq<byte>, state: Replay)
    requires ValidLog(entries) && i < |entries| && (covered <= i ==> state.lastSequence == i)
    ensures var chain := Chain(I, entries);
      var valid := state.valid + |Image(I, chain[i])|;
      var next := if i < covered then state.(valid := valid)
                  else Replay(state.records + [chain[i]], i + 1, LastDigest(I, chain[..i + 1]), valid);
      ReplayJournal(I, Images(I, chain[i..]) + tail, LastDigest(I, chain[..i]), covered, state)
      == ReplayJournal(I, Images(I, chain[i + 1..]) + tail, LastDigest(I, chain[..i + 1]), covered, next)
  {
    hide ReadFrame, Image, Chain;
    FirstFrame(I, entries, i, tail);
    ChainRecord(I, entries, i);
  }

  /**
   Replaying records i.. of the chain on top of the first i records yields the whole chain, and goes on with the tail.
   */
  lemma {:induction false} ReplayKeeps(I: Integrity, entries: seq<Entry>, i: nat, covered: nat, tail: seq<byte>,
                                       valid: nat)
    requires ValidLog(entries) && covered <= i <= |entries|
    ensures var chain := Chain(I, entries);
      ReplayJournal(I, Images(I, chain[i..]) + tail, LastDigest(I, chain[..i]), covered, StateAt(I, chain, i, valid))
      == ReplayJournal(I, tail, LastDigest(I, chain[..|entries|]), covered,
                       StateAt(I, chain, |entries|, valid + |Images(I, chain[i..])|))
    decreases |entries| - i
  {
    var chain := Chain(I, entries);
    if i == |entries| {
      hide ReadFrame, Image, Chain, ReplayJournal;
      assert Images(I, chain[i..]) + tail == tail;
    } else {
      hide ReadFrame, Image, Chain, ReplayJournal;
      ReplayOne(I, entries, i, covered, tail, StateAt(I, chain, i, valid));
      FirstFrame(I, entries, i, tail);
      ReplayKeeps(I, entries, i + 1, covered, tail, valid + |Image(I, chain[i])|);
    }
  }

  /** Records that the snapshot covers are verified and skipped, provided the first one chains on. */
  lemma {:induction false} ReplaySkips(I: Integrity, entries: seq<Entry>, i: nat, covered: nat, tail: seq<byte>,
                                       valid: nat)
    requires ValidLog(entries) && i <= covered <= |entries|
    ensures var chain := Chain(I, entries);
      ReplayJournal(I, Images(I, chain[i..]) + tail, LastDigest(I, chain[..i]), covered, StateAt(I, chain, covered,
        valid))
      == ReplayJournal(I, tail, LastDigest(I, chain[..|entries|]), covered,
                       StateAt(I, chain, |entries|, valid + |Images(I, chain[i..])|))
    decreases covered - i
  {
    hide ReadFrame, Image, Chain, ReplayJournal;
    var chain := Chain(I, entries);
    if i == covered {
      ReplayKeeps(I, entries, i, covered, tail, valid);
    } else {
      ReplayOne(I, entries, i, covered, tail, StateAt(I, chain, covered, valid));
      FirstFrame(I, entries, i, tail);
      ReplaySkips(I, entries, i + 1, covered, tail, valid + |Image(I, chain[i])|);
    }
  }

  /** The replay of a whole log ends before this tail. */
  ghost predicate Ends(I: Integrity, entries: seq<Entry>, covered: nat, tail: seq<byte>) {
    forall valid: nat :: EndsAt(I, entries, covered, tail, valid)
  }

  ghost predicate EndsAt(I: Integrity, entries: seq<Entry>, covered: nat, tail: seq<byte>, valid: nat) {
    var chain := Chain(I, entries);
    var state := StateAt(I, chain, |chain|, valid);
    ReplayJournal(I, tail, LastDigest(I, chain), covered, state) == state
  }

  lemma NoFrameEnds(I: Integrity, entries: seq<Entry>, covered: nat, tail: seq<byte>)
    requires ReadFrame(I, tail) == None
    ensures Ends(I, entries, covered, tail)
  {
  }

  /** A record whose sequence number is already taken ends the replay. */
  lemma RepeatEnds(I: Integrity, entries: seq<Entry>, covered: nat, r: DurableRecord, tail: seq<byte>)
    requires ValidRecord(r) && covered < r.sequence <= |entries|
    ensures Ends(I, entries, covered, Image(I, r) + tail)
  {
    hide ReadFrame, Image, Chain;
    ReadImage(I, r, tail);
  }

  /** A journal whose first record does not chain on to the snapshot contributes nothing. */
  lemma ReplayRefuses(I: Integrity, entries: seq<Entry>, i: nat, covered: nat, tail: seq<byte>, previous: Digest,
                      state: Replay)
    requires ValidLog(entries) && i < |entries| && ReadFrame(I, tail) == None
    requires previous != LastDigest(I, Chain(I, entries)[..i])
    ensures ReplayJournal(I, Images(I, Chain(I, entries)[i..]) + tail, previous, covered, state) == state
  {
    hide ReadFrame, Image, Chain;
    FirstFrame(I, entries, i, tail);
    ChainRecord(I, entries, i);
  }
}
