/** Framing of durable records: encode_record_image and the frame checks of src/persist.cpp. */
module RecordFormat {
  import opened Numeric
  import opened Bytes

  const RECORD_MAGIC: nat := 0x54454652     // 'TEFR'
  const FORMAT_VERSION: nat := 1
  const HEADER_SIZE: nat := 56
  const DIGEST_SIZE: nat := 32
  const MAX_PAYLOAD: nat := 16 * 1024 * 1024
  const MAX_SEQUENCE: nat := 0xFFFF_FFFF_FFFF_FFFF

  type Digest = s: seq<byte> | |s| == 32 witness seq(32, _ => 0)
  type u32 = x: int | 0 <= x < 0x1_0000_0000

  const ZERO_DIGEST: Digest :=
    [0, 0, 0, 0, 0, 0, 0, 0, 0, 0, 0, 0, 0, 0, 0, 0, 0, 0, 0, 0, 0, 0, 0, 0, 0, 0, 0, 0, 0, 0, 0, 0]

  /** The two integrity functions. Nothing below depends on which functions they are. */
  datatype Integrity = Integrity(hash: seq<byte> -> Digest, crc: seq<byte> -> u32)

  /** kind is the RecordType ordinal, 1 (plan) to 6 (audit). */
  datatype DurableRecord = DurableRecord(kind: nat, sequence: nat, previous: Digest, payload: seq<byte>)

  predicate ValidRecord(r: DurableRecord) {
    1 <= r.kind <= 6 && r.sequence <= MAX_SEQUENCE && |r.payload| <= MAX_PAYLOAD
  }

  function Header(I: Integrity, r: DurableRecord): (h: seq<byte>)
    ensures |h| == HEADER_SIZE
  {
    EncodeBE(RECORD_MAGIC, 4) + EncodeBE(FORMAT_VERSION, 2) + EncodeBE(r.kind, 2) + EncodeBE(|r.payload|, 4)
    + EncodeBE(r.sequence, 8) + r.previous + EncodeBE(I.crc(r.payload), 4)
  }

  function RecordDigest(I: Integrity, r: DurableRecord): Digest {
    I.hash(Header(I, r) + r.payload)
  }

  /** encode_record_image: header, payload, and a digest over both. */
  function Image(I: Integrity, r: DurableRecord): (image: seq<byte>)
    ensures |image| == HEADER_SIZE + |r.payload| + DIGEST_SIZE
  {
    Header(I, r) + r.payload + RecordDigest(I, r)
  }

  // ---- Reading -------------------------------------------------------------------

  function Field(bytes: seq<byte>, from: nat, size: nat): nat
    requires from + size <= |bytes|
  {
    DecodeBE(bytes[from..from + size])
  }

  datatype Frame = Frame(record: DurableRecord, digest: Digest, total: nat)

  /** One record at the front of the remaining journal bytes, or nothing if any check fails. */
  function ReadFrame(I: Integrity, rest: seq<byte>): (frame: Option<Frame>)
    ensures frame.Some? ==> HEADER_SIZE + DIGEST_SIZE <= frame.value.total <= |rest| && ValidRecord(frame.value.record)
  {
    if |rest| < HEADER_SIZE + DIGEST_SIZE then None
    else if Field(rest, 0, 4) != RECORD_MAGIC || Field(rest, 4, 2) != FORMAT_VERSION then None
    else
      var kind, length, sequence := Field(rest, 6, 2), Field(rest, 8, 4), Field(rest, 12, 8);
      var total := HEADER_SIZE + length + DIGEST_SIZE;
      if kind < 1 || kind > 6 || length > MAX_PAYLOAD || total > |rest| then None
      else
        var payload := rest[HEADER_SIZE..HEADER_SIZE + length];
        var stored := rest[HEADER_SIZE + length..total];
        if I.crc(payload) != Field(rest, 52, 4) || stored != I.hash(rest[..HEADER_SIZE + length]) then None
        else
          FieldBounds();
          DecodeBound(rest[12..20]);
          Some(Frame(DurableRecord(kind, sequence, rest[20..52], payload), stored, total))
  }

  /** The same inside a snapshot, where version, type and payload checksum are not looked at again. */
  function ReadSnapshotFrame(I: Integrity, rest: seq<byte>): (frame: Option<Frame>)
    ensures frame.Some? ==> HEADER_SIZE + DIGEST_SIZE <= frame.value.total <= |rest|
  {
    if |rest| < HEADER_SIZE + DIGEST_SIZE then None
    else if Field(rest, 0, 4) != RECORD_MAGIC then None
    else
      var length := Field(rest, 8, 4);
      var total := HEADER_SIZE + length + DIGEST_SIZE;
      if total > |rest| then None
      else
        var stored := rest[HEADER_SIZE + length..total];
        if stored != I.hash(rest[..HEADER_SIZE + length]) then None
        else
          var record := DurableRecord(Field(rest, 6, 2), Field(rest, 12, 8), rest[20..52],
            rest[HEADER_SIZE..HEADER_SIZE + length]);
          Some(Frame(record, stored, total))
  }

  /** Where the header fields lie. */
  lemma HeaderSlices(I: Integrity, r: DurableRecord)
    ensures var h := Header(I, r);
      && h[0..4] == EncodeBE(RECORD_MAGIC, 4) && h[4..6] == EncodeBE(FORMAT_VERSION, 2)
        && h[6..8] == EncodeBE(r.kind, 2)
      && h[8..12] == EncodeBE(|r.payload|, 4) && h[12..20] == EncodeBE(r.sequence, 8) && h[20..52] == r.previous
      && h[52..56] == EncodeBE(I.crc(r.payload), 4)
  {
  }

  lemma HeaderFields(I: Integrity, r: DurableRecord, rest: seq<byte>)
    requires ValidRecord(r) && |rest| >= HEADER_SIZE && rest[..HEADER_SIZE] == Header(I, r)
    ensures Field(rest, 0, 4) == RECORD_MAGIC && Field(rest, 4, 2) == FORMAT_VERSION && Field(rest, 6, 2) == r.kind
    ensures Field(rest, 8, 4) == |r.payload| && Field(rest, 12, 8) == r.sequence && rest[20..52] == r.previous
    ensures Field(rest, 52, 4) == I.crc(r.payload)
  {
    HeaderSlices(I, r);
    FieldBounds();
    var h := Header(I, r);
    assert rest[0..4] == h[0..4] && rest[4..6] == h[4..6] && rest[6..8] == h[6..8] && rest[8..12] == h[8..12];
    assert rest[12..20] == h[12..20] && rest[20..52] == h[20..52] && rest[52..56] == h[52..56];
    DecodeEncode(RECORD_MAGIC, 4);
    DecodeEncode(FORMAT_VERSION, 2);
    DecodeEncode(r.kind, 2);
    DecodeEncode(|r.payload|, 4);
    DecodeEncode(r.sequence, 8);
    DecodeEncode(I.crc(r.payload), 4);
  }

  /** A complete image is read back exactly, whatever follows it. */
  lemma ReadImage(I: Integrity, r: DurableRecord, tail: seq<byte>)
    requires ValidRecord(r)
    ensures ReadFrame(I, Image(I, r) + tail) == Some(Frame(r, RecordDigest(I, r), |Image(I, r)|))
    ensures ReadSnapshotFrame(I, Image(I, r) + tail) == Some(Frame(r, RecordDigest(I, r), |Image(I, r)|))
  {
    var rest, h, n := Image(I, r) + tail, Header(I, r), |r.payload|;
    assert rest[..HEADER_SIZE] == h;
    HeaderFields(I, r, rest);
    assert rest[HEADER_SIZE..HEADER_SIZE + n] == r.payload;
    assert rest[..HEADER_SIZE + n] == h + r.payload;
    assert rest[HEADER_SIZE + n..HEADER_SIZE + n + DIGEST_SIZE] == RecordDigest(I, r);
  }

  /** A torn image is never mistaken for a record: its length field promises more than there is. */
  lemma TornImage(I: Integrity, r: DurableRecord, cut: nat)
    requires ValidRecord(r) && cut < |Image(I, r)|
    ensures ReadFrame(I, Image(I, r)[..cut]) == None
  {
    var rest := Image(I, r)[..cut];
    if cut >= HEADER_SIZE + DIGEST_SIZE {
      assert rest[..HEADER_SIZE] == Header(I, r);
      HeaderFields(I, r, rest);
    }
  }
}
