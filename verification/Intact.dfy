/**
 What open() accepts, byte by byte (src/persist.cpp): which files are intact, for any disk whatsoever, and that
 a damaged file is refused unless two digests agree.
 */
module Intact {
  import opened Numeric
  import opened Bytes
  import opened RecordFormat
  import opened DurableLog
  import opened Recovery

  // ---- Records -------------------------------------------------------------------------

  /** The bytes start with a header that describes the record, its payload, and the digest of exactly these bytes. */
  ghost predicate IsRecord(I: Integrity, bytes: seq<byte>, f: Frame) {
    && |bytes| >= HEADER_SIZE
    && var header, payload := bytes[..HEADER_SIZE], f.record.payload;
    && f.digest == I.hash(header + payload)
    && f.total == HEADER_SIZE + |payload| + DIGEST_SIZE <= |bytes| && bytes[..f.total] == header + payload + f.digest
    && Field(header, 0, 4) == RECORD_MAGIC && Field(header, 6, 2) == f.record.kind && Field(header, 8, 4) == |payload|
    && Field(header, 12, 8) == f.record.sequence && header[20..52] == f.record.previous
  }

  /** A journal record also names the format version, a known kind, and the checksum of its payload. */
  ghost predicate IsJournalRecord(I: Integrity, bytes: seq<byte>, f: Frame) {
    && IsRecord(I, bytes, f)
    && Field(bytes, 4, 2) == FORMAT_VERSION && ValidRecord(f.record)
    && Field(bytes, 52, 4) == I.crc(f.record.payload)
  }

  lemma HeaderField(bytes: seq<byte>, from: nat, size: nat)
    requires from + size <= HEADER_SIZE <= |bytes|
    ensures Field(bytes[..HEADER_SIZE], from, size) == Field(bytes, from, size)
  {
    assert bytes[..HEADER_SIZE][from..from + size] == bytes[from..from + size];
  }

  lemma HeaderIsRead(bytes: seq<byte>)
    requires |bytes| >= HEADER_SIZE
    ensures var header := bytes[..HEADER_SIZE];
      && Field(header, 0, 4) == Field(bytes, 0, 4) && Field(header, 6, 2) == Field(bytes, 6, 2)
      && Field(header, 8, 4) == Field(bytes, 8, 4) && Field(header, 12, 8) == Field(bytes, 12, 8)
      && header[20..52] == bytes[20..52]
  {
    HeaderField(bytes, 0, 4);
    HeaderField(bytes, 6, 2);
    HeaderField(bytes, 8, 4);
    HeaderField(bytes, 12, 8);
  }

  lemma Parts(bytes: seq<byte>, payload: seq<byte>, digest: Digest)
    requires |bytes| >= HEADER_SIZE + |payload| + DIGEST_SIZE
    ensures bytes[..HEADER_SIZE + |payload| + DIGEST_SIZE] == bytes[..HEADER_SIZE] + payload + digest
      <==> (bytes[HEADER_SIZE..HEADER_SIZE + |payload|] == payload
            && bytes[HEADER_SIZE + |payload|..HEADER_SIZE + |payload| + DIGEST_SIZE] == digest)
    ensures bytes[HEADER_SIZE..HEADER_SIZE + |payload|] == payload ==>
      bytes[..HEADER_SIZE + |payload|] == bytes[..HEADER_SIZE] + payload
  {
    var n := HEADER_SIZE + |payload|;
    var whole := bytes[..HEADER_SIZE] + payload + digest;
    if bytes[..n + DIGEST_SIZE] == whole {
      assert bytes[HEADER_SIZE..n] == whole[HEADER_SIZE..n] == payload;
      assert bytes[n..n + DIGEST_SIZE] == whole[n..n + DIGEST_SIZE] == digest;
    }
    if bytes[HEADER_SIZE..n] == payload && bytes[n..n + DIGEST_SIZE] == digest {
      assert bytes[..n + DIGEST_SIZE] == bytes[..HEADER_SIZE] + bytes[HEADER_SIZE..n] + bytes[n..n + DIGEST_SIZE];
    }
  }

  /** A snapshot record is read exactly when it is intact. */
  lemma SnapshotFrameMeaning(I: Integrity, bytes: seq<byte>, f: Frame)
    ensures ReadSnapshotFrame(I, bytes) == Some(f) <==> IsRecord(I, bytes, f)
  {
    if |bytes| >= HEADER_SIZE + DIGEST_SIZE {
      HeaderIsRead(bytes);
      if HEADER_SIZE + |f.record.payload| + DIGEST_SIZE <= |bytes| { Parts(bytes, f.record.payload, f.digest); }
    }
  }

  /** A journal record is read exactly when it is intact. */
  lemma FrameMeaning(I: Integrity, bytes: seq<byte>, f: Frame)
    ensures ReadFrame(I, bytes) == Some(f) <==> IsJournalRecord(I, bytes, f)
  {
    if |bytes| >= HEADER_SIZE + DIGEST_SIZE {
      HeaderIsRead(bytes);
      FieldBounds();
      DecodeBound(bytes[12..20]);
      if HEADER_SIZE + |f.record.payload| + DIGEST_SIZE <= |bytes| { Parts(bytes, f.record.payload, f.digest); }
    }
  }

  // ---- The snapshot file -----------------------------------------------------------------

  /** The bytes are intact records, one behind the other, each naming the digest of its predecessor. */
  ghost predicate AreRecords(I: Integrity, bytes: seq<byte>, previous: Digest, records: seq<DurableRecord>,
                             last: Digest)
    decreases |records|
  {
    if records == [] then bytes == [] && last == previous
    else
      exists f: Frame ::
        && IsRecord(I, bytes, f) && f.record == records[0] && f.record.previous == previous
        && AreRecords(I, bytes[f.total..], f.digest, records[1..], last)
  }

  lemma {:induction false} RecordsMeaning(I: Integrity, bytes: seq<byte>, state: Loaded, records: seq<DurableRecord>,
                                          last: Digest)
    ensures SnapshotRecords(I, bytes, state) == Some(Loaded(state.records + records, last, state.sequence))
      <==> AreRecords(I, bytes, state.lastDigest, records, last)
    decreases |bytes|
  {
    hide IsRecord, ReadSnapshotFrame;
    if bytes == [] {
      NothingIsNoRecord(I, state.lastDigest, records, last);
      assert state.records + [] == state.records;
      if state.records + records == state.records { assert records == []; }
    } else {
      match ReadSnapshotFrame(I, bytes)
      case None =>
        forall f: Frame ensures !IsRecord(I, bytes, f) { SnapshotFrameMeaning(I, bytes, f); }
      case Some(f) =>
        SnapshotFrameMeaning(I, bytes, f);
        forall g: Frame | IsRecord(I, bytes, g) ensures g == f { SnapshotFrameMeaning(I, bytes, g); }
        var next := Loaded(state.records + [f.record], f.digest, state.sequence);
        if records == [] {
          SnapshotGrows(I, bytes[f.total..], next);
        } else {
          RecordsMeaning(I, bytes[f.total..], next, records[1..], last);
          if f.record == records[0] {
            assert next.records + records[1..] == state.records + records;
          } else if SnapshotRecords(I, bytes[f.total..], next).Some? {
            FirstTaken(I, bytes[f.total..], next, state.records, f.record);
          }
        }
    }
  }

  lemma NothingIsNoRecord(I: Integrity, previous: Digest, records: seq<DurableRecord>, last: Digest)
    ensures AreRecords(I, [], previous, records, last) <==> records == [] && last == previous
  {
  }

  /** What was taken over stays in front. */
  lemma {:induction false} SnapshotGrows(I: Integrity, bytes: seq<byte>, state: Loaded)
    ensures var loaded := SnapshotRecords(I, bytes, state);
      loaded.Some? ==>
        |state.records| <= |loaded.value.records| && loaded.value.records[..|state.records|] == state.records
    decreases |bytes|
  {
    hide ReadSnapshotFrame;
    if bytes != [] && ReadSnapshotFrame(I, bytes).Some? {
      var f := ReadSnapshotFrame(I, bytes).value;
      var next := Loaded(state.records + [f.record], f.digest, state.sequence);
      SnapshotGrows(I, bytes[f.total..], next);
      if f.record.previous == state.lastDigest && SnapshotRecords(I, bytes[f.total..], next).Some? {
        var loaded := SnapshotRecords(I, bytes[f.total..], next).value;
        assert loaded.records[..|state.records|] == loaded.records[..|next.records|][..|state.records|];
      }
    }
  }

  lemma FirstTaken(I: Integrity, bytes: seq<byte>, next: Loaded, before: seq<DurableRecord>, r: DurableRecord)
    requires next.records == before + [r] && SnapshotRecords(I, bytes, next).Some?
    ensures var records := SnapshotRecords(I, bytes, next).value.records;
      |records| > |before| && records[|before|] == r
  {
    SnapshotGrows(I, bytes, next);
    var records := SnapshotRecords(I, bytes, next).value.records;
    assert records[|before|] == records[..|next.records|][|before|];
  }

  /** A snapshot file: a header with these fields, the records, the digest of all bytes so far, and perhaps more. */
  ghost predicate IsSnapshot(I: Integrity, bytes: seq<byte>, loaded: Loaded) {
    |bytes| <= MAX_FILE_BYTES
    && exists header: seq<byte>, payload: seq<byte>, more: seq<byte> ::
         && |header| == SNAPSHOT_HEADER_SIZE && bytes == header + payload + I.hash(header + payload) + more
         && Field(header, 0, 4) == SNAPSHOT_MAGIC && Field(header, 4, 2) == FORMAT_VERSION
         && Field(header, 8, 8) == loaded.sequence && Field(header, 24, 8) == |payload|
         && Field(header, 32, 4) == I.crc(payload)
         && AreRecords(I, payload, ZERO_DIGEST, loaded.records, loaded.lastDigest)
  }

  lemma SnapshotFields(bytes: seq<byte>, header: seq<byte>)
    requires |header| == SNAPSHOT_HEADER_SIZE <= |bytes| && bytes[..SNAPSHOT_HEADER_SIZE] == header
    ensures Field(header, 0, 4) == Field(bytes, 0, 4) && Field(header, 4, 2) == Field(bytes, 4, 2)
    ensures Field(header, 8, 8) == Field(bytes, 8, 8) && Field(header, 24, 8) == Field(bytes, 24, 8)
    ensures Field(header, 32, 4) == Field(bytes, 32, 4)
  {
    assert header[0..4] == bytes[0..4] && header[4..6] == bytes[4..6] && header[8..16] == bytes[8..16];
    assert header[24..32] == bytes[24..32] && header[32..36] == bytes[32..36];
  }

  /** A snapshot file that is taken apart is intact. */
  lemma BodyIsIntact(I: Integrity, bytes: seq<byte>, body: (seq<byte>, nat))
    requires SnapshotBody(I, bytes) == Some(body)
    ensures |bytes| <= MAX_FILE_BYTES
    ensures exists header: seq<byte>, more: seq<byte> ::
      && |header| == SNAPSHOT_HEADER_SIZE && bytes == header + body.0 + I.hash(header + body.0) + more
      && Field(header, 0, 4) == SNAPSHOT_MAGIC && Field(header, 4, 2) == FORMAT_VERSION
      && Field(header, 8, 8) == body.1 && Field(header, 24, 8) == |body.0| && Field(header, 32, 4) == I.crc(body.0)
  {
    var header, end := bytes[..SNAPSHOT_HEADER_SIZE], SNAPSHOT_HEADER_SIZE + |body.0|;
    SnapshotFields(bytes, header);
    assert bytes[..end] == header + body.0;
    var more := bytes[end + DIGEST_SIZE..];
    assert bytes == bytes[..end] + bytes[end..end + DIGEST_SIZE] + more;
    assert bytes == header + body.0 + I.hash(header + body.0) + more;
  }

  /** An intact snapshot file is taken apart into its payload. */
  lemma IntactBody(I: Integrity, bytes: seq<byte>, header: seq<byte>, payload: seq<byte>, more: seq<byte>)
    requires |bytes| <= MAX_FILE_BYTES && |header| == SNAPSHOT_HEADER_SIZE
    requires bytes == header + payload + I.hash(header + payload) + more
    requires Field(header, 0, 4) == SNAPSHOT_MAGIC && Field(header, 4, 2) == FORMAT_VERSION
    requires Field(header, 24, 8) == |payload| && Field(header, 32, 4) == I.crc(payload)
    ensures SnapshotBody(I, bytes) == Some((payload, Field(header, 8, 8)))
  {
    var end := SNAPSHOT_HEADER_SIZE + |payload|;
    assert bytes[..SNAPSHOT_HEADER_SIZE] == header;
    SnapshotFields(bytes, header);
    assert bytes[SNAPSHOT_HEADER_SIZE..end] == payload && bytes[..end] == header + payload;
    assert bytes[end..end + DIGEST_SIZE] == I.hash(header + payload);
  }

  /** A snapshot file opens to exactly what an intact file says. */
  lemma SnapshotMeaning(I: Integrity, bytes: seq<byte>, loaded: Loaded)
    ensures OpenSnapshot(I, bytes) == Some(loaded) <==> IsSnapshot(I, bytes, loaded)
  {
    hide SnapshotBody, SnapshotRecords, AreRecords;
    if SnapshotBody(I, bytes).Some? {
      var body := SnapshotBody(I, bytes).value;
      BodyIsIntact(I, bytes, body);
      PayloadMeaning(I, body.0, body.1, loaded);
    }
    if IsSnapshot(I, bytes, loaded) {
      var header: seq<byte>, payload: seq<byte>, more: seq<byte> :|
        && |header| == SNAPSHOT_HEADER_SIZE && bytes == header + payload + I.hash(header + payload) + more
        && Field(header, 0, 4) == SNAPSHOT_MAGIC && Field(header, 4, 2) == FORMAT_VERSION
        && Field(header, 8, 8) == loaded.sequence && Field(header, 24, 8) == |payload|
        && Field(header, 32, 4) == I.crc(payload)
        && AreRecords(I, payload, ZERO_DIGEST, loaded.records, loaded.lastDigest);
      IntactBody(I, bytes, header, payload, more);
      PayloadMeaning(I, payload, loaded.sequence, loaded);
    }
  }

  lemma PayloadMeaning(I: Integrity, payload: seq<byte>, sequence: nat, loaded: Loaded)
    ensures SnapshotRecords(I, payload, Loaded([], ZERO_DIGEST, sequence)) == Some(loaded)
      <==> (AreRecords(I, payload, ZERO_DIGEST, loaded.records, loaded.lastDigest) && loaded.sequence == sequence)
  {
    hide SnapshotRecords, AreRecords;
    RecordsMeaning(I, payload, Loaded([], ZERO_DIGEST, sequence), loaded.records, loaded.lastDigest);
    assert [] + loaded.records == loaded.records;
    KeepsSequence(I, payload, sequence);
  }

  lemma KeepsSequence(I: Integrity, payload: seq<byte>, sequence: nat)
    ensures var loaded := SnapshotRecords(I, payload, Loaded([], ZERO_DIGEST, sequence));
      loaded.Some? ==> loaded.value.sequence == sequence
  {
  }

  // ---- The journal -------------------------------------------------------------------------

  /** The first 24 bytes name magic and version, and the checksum of these 24 bytes follows. */
  ghost predicate IsJournalHeader(I: Integrity, bytes: seq<byte>) {
    exists front: seq<byte>, checksum: seq<byte>, more: seq<byte> ::
      && bytes == front + checksum + more && |front| == 24 && |checksum| == 4 && |more| >= 4
      && Field(front, 0, 4) == JOURNAL_MAGIC && Field(front, 4, 2) == FORMAT_VERSION
      && DecodeBE(checksum) == I.crc(front)
  }

  lemma JournalHeaderMeaning(I: Integrity, bytes: seq<byte>)
    ensures JournalHeaderOk(I, bytes) <==> IsJournalHeader(I, bytes)
  {
    if |bytes| >= JOURNAL_HEADER_SIZE {
      var front, checksum, more := bytes[..24], bytes[24..28], bytes[28..];
      assert bytes == front + checksum + more;
      assert front[0..4] == bytes[0..4] && front[4..6] == bytes[4..6];
    }
    if IsJournalHeader(I, bytes) {
      var front: seq<byte>, checksum: seq<byte>, more: seq<byte> :|
        && bytes == front + checksum + more && |front| == 24 && |checksum| == 4 && |more| >= 4
        && Field(front, 0, 4) == JOURNAL_MAGIC && Field(front, 4, 2) == FORMAT_VERSION
        && DecodeBE(checksum) == I.crc(front);
      assert bytes[..24] == front && bytes[24..28] == checksum;
      assert front[0..4] == bytes[0..4] && front[4..6] == bytes[4..6];
    }
  }

  /** An intact journal record that may come next: it chains on, and is covered by the snapshot or next in sequence. */
  ghost predicate Continues(I: Integrity, bytes: seq<byte>, previous: Digest, covered: nat, lastSequence: nat,
                            f: Frame)
  {
    && IsJournalRecord(I, bytes, f) && f.record.previous == previous
    && (f.record.sequence <= covered || f.record.sequence == lastSequence + 1)
  }

  /** A covered record is passed over, any other joins the log. */
  function Taken(state: Replay, f: Frame, covered: nat): Replay {
    if f.record.sequence <= covered then state.(valid := state.valid + f.total)
    else Replay(state.records + [f.record], f.record.sequence, f.digest, state.valid + f.total)
  }

  /** These records follow one another in the bytes, lead from one state to the other, and none could follow them. */
  ghost predicate Follows(I: Integrity, bytes: seq<byte>, previous: Digest, covered: nat, state: Replay,
                          frames: seq<Frame>, end: Replay)
    decreases |frames|
  {
    if frames == [] then
      end == state && forall f: Frame :: !Continues(I, bytes, previous, covered, state.lastSequence, f)
    else
      var f := frames[0];
      && Continues(I, bytes, previous, covered, state.lastSequence, f)
      && Follows(I, bytes[f.total..], f.digest, covered, Taken(state, f, covered), frames[1..], end)
  }

  /** The replay of a journal takes the longest row of intact records that continue the log, and nothing else. */
  lemma {:induction false} ReplayMeaning(I: Integrity, bytes: seq<byte>, previous: Digest, covered: nat, state: Replay)
    returns (frames: seq<Frame>)
    ensures Follows(I, bytes, previous, covered, state, frames, ReplayJournal(I, bytes, previous, covered, state))
    decreases |bytes|
  {
    hide ReadFrame, IsJournalRecord;
    forall f: Frame ensures ReadFrame(I, bytes) == Some(f) <==> IsJournalRecord(I, bytes, f) {
      FrameMeaning(I, bytes, f);
    }
    if ReadFrame(I, bytes).Some?
       && Continues(I, bytes, previous, covered, state.lastSequence, ReadFrame(I, bytes).value) {
      var f := ReadFrame(I, bytes).value;
      var rest := ReplayMeaning(I, bytes[f.total..], f.digest, covered, Taken(state, f, covered));
      frames := [f] + rest;
      assert frames[1..] == rest;
    } else {
      frames := [];
    }
  }

  /** There is only one such row. */
  lemma {:induction false} FollowsIsUnique(I: Integrity, bytes: seq<byte>, previous: Digest, covered: nat,
                                           state: Replay, a: seq<Frame>, enda: Replay, b: seq<Frame>, endb: Replay)
    requires Follows(I, bytes, previous, covered, state, a, enda)
    requires Follows(I, bytes, previous, covered, state, b, endb)
    ensures a == b && enda == endb
    decreases |a|
  {
    hide IsJournalRecord;
    if a != [] && b != [] {
      FrameMeaning(I, bytes, a[0]);
      FrameMeaning(I, bytes, b[0]);
      var next := Taken(state, a[0], covered);
      FollowsIsUnique(I, bytes[a[0].total..], a[0].digest, covered, next, a[1..], enda, b[1..], endb);
      assert a == [a[0]] + a[1..] && b == [b[0]] + b[1..];
    }
  }

  // ---- Opening -------------------------------------------------------------------------------

  /** What the snapshot file says, or an empty log without one. */
  ghost predicate StartsFrom(I: Integrity, disk: DiskImage, base: Loaded) {
    if disk.snapshot.None? then base == Loaded([], ZERO_DIGEST, 0) else IsSnapshot(I, disk.snapshot.value, base)
  }

  /** Opening this disk gives this repository: intact files, and the records they hold. */
  ghost predicate OpensTo(I: Integrity, disk: DiskImage, r: Repository) {
    exists base: Loaded :: StartsFrom(I, disk, base) && JournalOpensTo(I, disk, base, r)
  }

  ghost predicate JournalOpensTo(I: Integrity, disk: DiskImage, base: Loaded, r: Repository) {
    match disk.journal
    case None =>
      var header := JournalHeader(I, base.sequence + 1);
      r == Repository(base.records, base.sequence, base.lastDigest, disk.(journal := Some(header)))
    case Some(bytes) =>
      && IsJournalHeader(I, bytes) && |bytes| >= JOURNAL_HEADER_SIZE
      && exists frames: seq<Frame>, end: Replay ::
           && Follows(I, bytes[JOURNAL_HEADER_SIZE..], base.lastDigest, base.sequence,
                      Replay(base.records, base.sequence, base.lastDigest, JOURNAL_HEADER_SIZE), frames, end)
           && end.valid <= |bytes|
           && r == Repository(end.records, end.lastSequence, end.lastDigest, disk.(journal := Some(bytes[..end.valid])))
  }

  lemma JournalMeaning(I: Integrity, disk: DiskImage, base: Loaded, r: Repository)
    ensures OpenJournal(I, disk, base) == Some(r) <==> JournalOpensTo(I, disk, base, r)
  {
    hide Follows, ReplayJournal, JournalHeaderOk, IsJournalHeader;
    if disk.journal.Some? {
      var bytes := disk.journal.value;
      JournalHeaderMeaning(I, bytes);
      if JournalHeaderOk(I, bytes) {
        HeaderFits(I, bytes);
        var rest := bytes[JOURNAL_HEADER_SIZE..];
        var start := Replay(base.records, base.sequence, base.lastDigest, JOURNAL_HEADER_SIZE);
        var frames := ReplayMeaning(I, rest, base.lastDigest, base.sequence, start);
        var end := ReplayJournal(I, rest, base.lastDigest, base.sequence, start);
        forall other: seq<Frame>, end': Replay | Follows(I, rest, base.lastDigest, base.sequence, start, other, end')
          ensures end' == end
        {
          FollowsIsUnique(I, rest, base.lastDigest, base.sequence, start, frames, end, other, end');
        }
      }
    }
  }

  lemma HeaderFits(I: Integrity, bytes: seq<byte>)
    requires JournalHeaderOk(I, bytes)
    ensures |bytes| >= JOURNAL_HEADER_SIZE
  {
  }

  /** open() accepts exactly the intact disks, and takes over exactly what they hold. */
  lemma OpenMeaning(I: Integrity, disk: DiskImage, r: Repository)
    ensures OpenImage(I, disk) == Some(r) <==> OpensTo(I, disk, r)
  {
    hide OpenJournal, JournalOpensTo, OpenSnapshot, IsSnapshot;
    forall base: Loaded ensures Base(I, disk) == Some(base) <==> StartsFrom(I, disk, base) {
      if disk.snapshot.Some? { SnapshotMeaning(I, disk.snapshot.value, base); }
    }
    forall base: Loaded ensures OpenJournal(I, disk, base) == Some(r) <==> JournalOpensTo(I, disk, base, r) {
      JournalMeaning(I, disk, base, r);
    }
  }

  lemma OpenFails(I: Integrity, disk: DiskImage)
    ensures OpenImage(I, disk).None? <==> !exists r: Repository :: OpensTo(I, disk, r)
  {
    hide OpenImage, OpensTo;
    forall r: Repository ensures OpenImage(I, disk) == Some(r) <==> OpensTo(I, disk, r) { OpenMeaning(I, disk, r); }
  }

  // ---- Damage --------------------------------------------------------------------------------

  /** Some 32 of the bytes happen to be the digest of all those before them. */
  ghost predicate DigestInside(I: Integrity, bytes: seq<byte>, n: nat) {
    n + DIGEST_SIZE <= |bytes| && bytes[n..n + DIGEST_SIZE] == I.hash(bytes[..n])
  }

  ghost predicate DigestInPayload(I: Integrity, bytes: seq<byte>, n: nat) {
    exists k: nat :: SNAPSHOT_HEADER_SIZE <= k < n && DigestInside(I, bytes, k)
  }

  /**
   A snapshot file with one wrong byte before its digest is refused, unless two bodies of the same length have the same
   digest, or, with a wrong payload length, 32 bytes of the payload happen to be the digest of those before them.
   */
  lemma DamagedSnapshotIsRefused(I: Integrity, records: seq<DurableRecord>, lastSequence: nat, i: nat, b: byte)
    requires var bytes := SnapshotFile(I, records, lastSequence);
      i < |bytes| - DIGEST_SIZE && b != bytes[i] && OpenSnapshot(I, bytes[i := b]).Some?
    ensures var bytes := SnapshotFile(I, records, lastSequence);
      var n := |bytes| - DIGEST_SIZE;
      || (bytes[i := b][..n] != bytes[..n] && I.hash(bytes[i := b][..n]) == I.hash(bytes[..n]))
      || (24 <= i < 32 && DigestInPayload(I, bytes[i := b], n))
  {
    hide SnapshotRecords, SnapshotBody, SnapshotHeader, Images, Field;
    var bytes, payload := SnapshotFile(I, records, lastSequence), Images(I, records);
    var damaged, n := bytes[i := b], |bytes| - DIGEST_SIZE;
    var body := SnapshotHeader(I, lastSequence, payload) + payload;
    assert bytes == body + I.hash(body) && |body| == n == SNAPSHOT_HEADER_SIZE + |payload|;
    OpenedDigest(I, damaged);
    var end := SNAPSHOT_HEADER_SIZE + Field(damaged, 24, 8);
    assert bytes[..n] == body && damaged[n..] == I.hash(body);
    assert damaged[..n][i] == b && bytes[..n][i] == bytes[i];
    if end != n && (i < 24 || 32 <= i) {
      assert bytes[..SNAPSHOT_HEADER_SIZE] == SnapshotHeader(I, lastSequence, payload);
      LengthField(I, lastSequence, payload, bytes, damaged);
    } else if end == n {
      assert damaged[n..n + DIGEST_SIZE] == damaged[n..];
    }
  }

  /** A file that opens holds the digest of its first bytes behind them. */
  lemma OpenedDigest(I: Integrity, bytes: seq<byte>)
    requires OpenSnapshot(I, bytes).Some?
    ensures SNAPSHOT_HEADER_SIZE + DIGEST_SIZE <= |bytes| <= MAX_FILE_BYTES
    ensures DigestInside(I, bytes, SNAPSHOT_HEADER_SIZE + Field(bytes, 24, 8))
  {
  }

  /** A payload length that was not touched is the one written. */
  lemma LengthField(I: Integrity, lastSequence: nat, payload: seq<byte>, bytes: seq<byte>, damaged: seq<byte>)
    requires |bytes| >= SNAPSHOT_HEADER_SIZE
    requires bytes[..SNAPSHOT_HEADER_SIZE] == SnapshotHeader(I, lastSequence, payload)
    requires |damaged| >= 32 && damaged[24..32] == bytes[24..32] && |payload| <= MAX_FILE_BYTES
    ensures Field(damaged, 24, 8) == |payload|
  {
    var h := SnapshotHeader(I, lastSequence, payload);
    FieldBounds();
    assert bytes[24..32] == h[24..32] == EncodeBE(|payload|, 8);
    DecodeEncode(|payload|, 8);
  }

  /** The same for one record, in either file: a wrong byte before its digest, whatever follows the record. */
  lemma DamagedRecordIsRefused(I: Integrity, r: DurableRecord, i: nat, b: byte, tail: seq<byte>)
    requires ValidRecord(r) && i < |Image(I, r)| - DIGEST_SIZE && b != Image(I, r)[i]
    requires ReadSnapshotFrame(I, Image(I, r)[i := b] + tail).Some? || ReadFrame(I, Image(I, r)[i := b] + tail).Some?
    ensures var image, rest := Image(I, r), Image(I, r)[i := b] + tail;
      var n := |image| - DIGEST_SIZE;
      || (rest[..n] != image[..n] && I.hash(rest[..n]) == I.hash(image[..n]))
      || (8 <= i < 12 && exists k :: HEADER_SIZE <= k && k != n && DigestInside(I, rest, k))
  {
    var image := Image(I, r);
    var rest, n := image[i := b] + tail, |image| - DIGEST_SIZE;
    var k := HEADER_SIZE + Field(rest, 8, 4);
    assert DigestInside(I, rest, k);
    assert image[..n] == Header(I, r) + r.payload && rest[n..n + DIGEST_SIZE] == I.hash(image[..n]);
    assert rest[..n][i] == b && image[..n][i] == image[i];
    if k != n && !(8 <= i < 12) {
      HeaderSlices(I, r);
      FieldBounds();
      assert rest[8..12] == image[8..12] == Header(I, r)[8..12] == EncodeBE(|r.payload|, 4);
      DecodeEncode(|r.payload|, 4);
      assert false;
    }
  }

  /** A journal header with a wrong byte in its checked part is refused, unless two checksums agree. */
  lemma DamagedJournalHeaderIsRefused(I: Integrity, start: nat, i: nat, b: byte, tail: seq<byte>)
    requires i < 28 && b != JournalHeader(I, start)[i] && JournalHeaderOk(I, JournalHeader(I, start)[i := b] + tail)
    ensures i < 24 && I.crc(JournalPrefix(start)[i := b]) == I.crc(JournalPrefix(start))
  {
    var bytes, header := JournalHeader(I, start)[i := b] + tail, JournalHeader(I, start);
    var stored := EncodeBE(I.crc(JournalPrefix(start)), 4);
    FieldBounds();
    DecodeEncode(I.crc(JournalPrefix(start)), 4);
    if i < 24 {
      assert bytes[..24] == JournalPrefix(start)[i := b];
      assert bytes[24..28] == header[24..28] == stored;
    } else {
      assert bytes[..24] == JournalPrefix(start);
      assert bytes[24..28] == stored[i - 24 := b];
      DecodeInjective(bytes[24..28], stored);
      assert false;
    }
  }
}
