/** The snapshot and plan formats of src/model.cpp and src/persist.cpp, field by field. */
module Formats {
  import opened Numeric
  import opened Bytes
  import opened Codec

  const U8 := Unsigned(1, 0, 0xFF)
  const U32 := Unsigned(4, 0, 0xFFFF_FFFF)
  const U64 := Unsigned(8, 0, 0xFFFF_FFFF_FFFF_FFFF)
  const GENERATION := Unsigned(8, 1, 0xFFFF_FFFF_FFFF_FFFF)
  const FLAG := Unsigned(1, 0, 1)
  const VERSION := Unsigned(2, 1, 1)
  const DIGEST := Raw(32, true)
  const PLAIN_TEXT := Text(MAX_TEXT)

  const MAX_REFS: nat := 64
  const MAX_DOMAINS: nat := 16
  const MAX_PATH_RESOURCES: nat := 256
  const MAX_DEMANDS: nat := 4096
  const MAX_RESOURCES: nat := 65536
  const MAX_RESERVATIONS: nat := 65536
  const MAX_PATHS: nat := 65536

  /** Fields in the order in which they are written. */
  function Fields(fields: seq<Schema>): Schema {
    if fields == [] then Empty else Sequence(fields[0], Fields(fields[1..]))
  }

  const PROVENANCE_FIELDS: seq<Schema> := [Name, U64, U64, DIGEST, PLAIN_TEXT]
  const PROVENANCE := Fields(PROVENANCE_FIELDS)
  const INTERVAL_FIELDS: seq<Schema> := [U64, U64, FLAG]
  const INTERVAL := Fields(INTERVAL_FIELDS)
  const REFERENCE_FIELDS: seq<Schema> := [Name, GENERATION]
  const REFERENCE := Fields(REFERENCE_FIELDS)
  const LABEL_FIELDS: seq<Schema> := [Text(MAX_NAME), PLAIN_TEXT]
  const LABEL := Fields(LABEL_FIELDS)

  const RESOURCE_FIELDS: seq<Schema> := [Name, GENERATION, Signed64, Signed64, Many(MAX_DOMAINS, Name), PROVENANCE]
  const RESOURCE := Fields(RESOURCE_FIELDS)

  const RESERVATION_FIELDS: seq<Schema> := [Name, GENERATION, Many(MAX_REFS, Name), Many(MAX_PATH_RESOURCES, Name),
    Signed64,
    Unsigned(1, 0, 2), U8, NameOrNothing, INTERVAL, PROVENANCE]
  const RESERVATION := Fields(RESERVATION_FIELDS)

  const POLICY_FIELDS: seq<Schema> := [Name, GENERATION, PROVENANCE, FLAG, FLAG, FLAG, FLAG, Signed64, Signed64,
    Signed64, Signed64,
    U32, U32, Many(4 * MAX_REFS, Name), Many(4 * MAX_REFS, Name)]
  const POLICY := Fields(POLICY_FIELDS)

  const OBJECTIVE_FIELDS: seq<Schema> := [Name, GENERATION, PROVENANCE, Many(16, Fields([Unsigned(2, 0, 10),
    Signed64]))]
  const OBJECTIVE := Fields(OBJECTIVE_FIELDS)

  const DEMAND_FIELDS: seq<Schema> := [Name, GENERATION, PROVENANCE, NameOrNothing, NameOrNothing, Signed64, Signed64,
    Signed64, U8,
    Optional(Signed64), Optional(Signed64), REFERENCE, Many(MAX_REFS, Name), Many(MAX_REFS, Name), Many(MAX_REFS, Name),
    Many(MAX_REFS, Name), Many(MAX_DOMAINS, Name), U32, Many(MAX_REFS, Name), INTERVAL, Unsigned(1, 0, 2),
    Many(4 * MAX_REFS, LABEL)]
  const DEMAND := Fields(DEMAND_FIELDS)

  const PATH_FIELDS: seq<Schema> := [Name, GENERATION, REFERENCE, REFERENCE, Many(MAX_PATH_RESOURCES, Name),
    Many(MAX_DOMAINS, Name),
    Many(2 * MAX_REFS, PLAIN_TEXT), Signed64, Optional(Signed64), Unsigned(1, 0, 2), NameOrNothing, NameOrNothing,
      PROVENANCE]
  const PATH := Fields(PATH_FIELDS)

  /** encode_snapshot and decode_snapshot. */
  const SNAPSHOT_FIELDS: seq<Schema> := [VERSION, GENERATION, GENERATION, GENERATION, GENERATION, GENERATION,
    PROVENANCE,
    Name, GENERATION, GENERATION, PROVENANCE, Many(MAX_RESOURCES, RESOURCE),
    Name, GENERATION, GENERATION, PROVENANCE, Many(MAX_RESERVATIONS, RESERVATION),
    POLICY, OBJECTIVE, REFERENCE, Many(MAX_DEMANDS, DEMAND), Many(MAX_PATHS, PATH), U64]
  const SNAPSHOT := Fields(SNAPSHOT_FIELDS)

  const AUTHORITY_FIELDS: seq<Schema> := [GENERATION, GENERATION, GENERATION, GENERATION, GENERATION,
    REFERENCE, REFERENCE, REFERENCE, REFERENCE, REFERENCE, DIGEST, DIGEST, DIGEST, DIGEST, DIGEST, DIGEST]
  const AUTHORITY := Fields(AUTHORITY_FIELDS)
  const COMPONENT_FIELDS: seq<Schema> := [Unsigned(2, 0, 10), Signed64, Signed64, Signed64]
  const COMPONENT := Fields(COMPONENT_FIELDS)
  const ALTERNATIVE_FIELDS: seq<Schema> := [PLAIN_TEXT, PLAIN_TEXT, Signed64]
  const ALTERNATIVE := Fields(ALTERNATIVE_FIELDS)
  const CONSTRAINT_FIELDS: seq<Schema> := [Unsigned(2, 0, 22), PLAIN_TEXT, NameOrNothing, NameOrNothing, NameOrNothing,
    Signed64, Signed64, Signed64, PLAIN_TEXT]
  const CONSTRAINT := Fields(CONSTRAINT_FIELDS)
  const SHARE_FIELDS: seq<Schema> := [Name, GENERATION, Signed64, Signed64, Signed64, Signed64, Signed64, FLAG]
  const SHARE := Fields(SHARE_FIELDS)
  const GRANT_FIELDS: seq<Schema> := [Name, GENERATION, Signed64, Signed64, Signed64, Signed64, Signed64, Signed64,
    Signed64, FLAG,
    Signed64, Signed64, Many(64, SHARE)]
  const GRANT := Fields(GRANT_FIELDS)
  const USE_FIELDS: seq<Schema> := [Name, GENERATION, Signed64, Signed64, Signed64, Signed64, Signed64, Signed64,
    Signed64, FLAG]
  const USE := Fields(USE_FIELDS)
  const CHURN_FIELDS: seq<Schema> := [Unsigned(1, 0, 3), Signed64, Signed64, Signed64, Signed64, Signed64, U32, U32,
    U32, U32,
    Signed64, PLAIN_TEXT]
  const CHURN := Fields(CHURN_FIELDS)

  /** encode_plan and decode_plan. The three references at the end may name nothing. */
  const PLAN_FIELDS: seq<Schema> := [VERSION, Name, GENERATION, Unsigned(2, 0, 10), Unsigned(2, 0, 5), Name,
    GENERATION, Name,
    Raw(16, false), GENERATION, AUTHORITY, Many(16, COMPONENT), Many(32, ALTERNATIVE), PLAIN_TEXT, Unsigned(2, 0, 9),
    Many(128, CONSTRAINT), Many(MAX_DEMANDS, GRANT), Many(MAX_RESOURCES, USE), Signed64, Signed64, FLAG, CHURN,
      Signed64,
    NameOrNothing, DIGEST, LooseRef, LooseRef, LooseRef, U64, U64, U64]
  const PLAN := Fields(PLAN_FIELDS)

  ghost predicate Sound(s: Schema) {
    WellFormed(s) && Strict(s)
  }

  lemma {:induction false} FieldsAreSound(fields: seq<Schema>)
    requires forall i :: 0 <= i < |fields| ==> Sound(fields[i])
    ensures Sound(Fields(fields))
  {
    hide Sound;
    if fields != [] {
      FieldsAreSound(fields[1..]);
      SequenceIsSound(fields[0], Fields(fields[1..]));
    } else {
      EmptyIsSound();
    }
  }

  lemma EmptyIsSound()
    ensures Sound(Empty)
  {
  }

  lemma SequenceIsSound(first: Schema, rest: Schema)
    requires Sound(first) && Sound(rest)
    ensures Sound(Sequence(first, rest))
  {
  }

  lemma BasicsAreSound()
    ensures Sound(U8) && Sound(U32) && Sound(U64) && Sound(GENERATION) && Sound(FLAG) && Sound(VERSION) && Sound(DIGEST)
    ensures Sound(PLAIN_TEXT) && Sound(Text(MAX_NAME)) && Sound(Name) && Sound(NameOrNothing) && Sound(Signed64)
    ensures Sound(Unsigned(1, 0, 2)) && Sound(Unsigned(2, 0, 10)) && Sound(Optional(Signed64))
    ensures forall n: nat :: n < 0x1_0000_0000 ==> Sound(Many(n, Name)) && Sound(Many(n, PLAIN_TEXT))
  {
    FieldBounds();
    assert Pow256(1) == 256;
  }

  lemma ListIsSound(n: nat, item: Schema)
    requires Sound(item) && n < 0x1_0000_0000
    ensures Sound(Many(n, item))
  {
  }

  lemma SmallRecordsAreSound()
    ensures Sound(PROVENANCE) && Sound(INTERVAL) && Sound(REFERENCE) && Sound(LABEL) && Sound(RESOURCE)
  {
    hide Sound;
    BasicsAreSound();
    FieldsAreSound(PROVENANCE_FIELDS);
    FieldsAreSound(INTERVAL_FIELDS);
    FieldsAreSound(REFERENCE_FIELDS);
    FieldsAreSound(LABEL_FIELDS);
    FieldsAreSound(RESOURCE_FIELDS);
  }

  lemma LargeRecordsAreSound()
    ensures Sound(RESERVATION) && Sound(POLICY) && Sound(OBJECTIVE) && Sound(DEMAND) && Sound(PATH)
  {
    hide Sound, Fields;
    BasicsAreSound();
    SmallRecordsAreSound();
    FieldsAreSound(RESERVATION_FIELDS);
    FieldsAreSound(POLICY_FIELDS);
    FieldsAreSound([Unsigned(2, 0, 10), Signed64]);
    ListIsSound(16, Fields([Unsigned(2, 0, 10), Signed64]));
    FieldsAreSound(OBJECTIVE_FIELDS);
    ListIsSound(4 * MAX_REFS, LABEL);
    FieldsAreSound(DEMAND_FIELDS);
    FieldsAreSound(PATH_FIELDS);
  }

  lemma SnapshotFormatIsSound()
    ensures Sound(SNAPSHOT)
  {
    hide Sound, Fields;
    BasicsAreSound();
    SmallRecordsAreSound();
    LargeRecordsAreSound();
    ListIsSound(MAX_RESOURCES, RESOURCE);
    ListIsSound(MAX_RESERVATIONS, RESERVATION);
    ListIsSound(MAX_DEMANDS, DEMAND);
    ListIsSound(MAX_PATHS, PATH);
    FieldsAreSound(SNAPSHOT_FIELDS);
  }

  lemma {:induction false} FieldsAreWellFormed(fields: seq<Schema>)
    requires forall i :: 0 <= i < |fields| ==> WellFormed(fields[i])
    ensures WellFormed(Fields(fields))
  {
    if fields != [] { FieldsAreWellFormed(fields[1..]); }
  }

  lemma SoundIsWellFormed(s: Schema)
    requires Sound(s)
    ensures WellFormed(s)
  {
  }

  lemma PlanPartsAreSound()
    ensures Sound(AUTHORITY) && Sound(Many(16, COMPONENT)) && Sound(Many(32, ALTERNATIVE))
    ensures Sound(Many(128, CONSTRAINT))
    ensures Sound(Many(MAX_DEMANDS, GRANT)) && Sound(Many(MAX_RESOURCES, USE)) && Sound(CHURN)
  {
    hide Sound, Fields;
    BasicsAreSound();
    SmallRecordsAreSound();
    MoreNumbersAreSound();
    FieldsAreSound(AUTHORITY_FIELDS);
    FieldsAreSound(COMPONENT_FIELDS);
    FieldsAreSound(ALTERNATIVE_FIELDS);
    FieldsAreSound(CONSTRAINT_FIELDS);
    FieldsAreSound(SHARE_FIELDS);
    ListIsSound(64, SHARE);
    FieldsAreSound(GRANT_FIELDS);
    FieldsAreSound(USE_FIELDS);
    FieldsAreSound(CHURN_FIELDS);
    ListIsSound(16, COMPONENT);
    ListIsSound(32, ALTERNATIVE);
    ListIsSound(128, CONSTRAINT);
    ListIsSound(MAX_DEMANDS, GRANT);
    ListIsSound(MAX_RESOURCES, USE);
  }

  lemma MoreNumbersAreSound()
    ensures Sound(Unsigned(2, 0, 22)) && Sound(Unsigned(1, 0, 3)) && Sound(Unsigned(2, 0, 5))
    ensures Sound(Unsigned(2, 0, 9))
    ensures Sound(Raw(16, false))
  {
    FieldBounds();
    assert Pow256(1) == 256;
  }

  lemma LooseRefIsWellFormed()
    ensures WellFormed(LooseRef)
  {
  }

  lemma PlanFormatIsWellFormed()
    ensures WellFormed(PLAN)
  {
    hide Sound, Fields, WellFormed;
    BasicsAreSound();
    MoreNumbersAreSound();
    PlanPartsAreSound();
    LooseRefIsWellFormed();
    forall i | 0 <= i < |PLAN_FIELDS|
      ensures WellFormed(PLAN_FIELDS[i])
    {
      if PLAN_FIELDS[i] != LooseRef { SoundIsWellFormed(PLAN_FIELDS[i]); }
    }
    FieldsAreWellFormed(PLAN_FIELDS);
  }

  /** decode_snapshot undoes encode_snapshot, and accepts nothing but encodings: no prefix, no extension, no variant. */
  lemma SnapshotFormatIsExact(v: Value, bytes: seq<byte>)
    ensures Parse(SNAPSHOT, bytes) == Some(v) <==> Valid(SNAPSHOT, v) && bytes == Encode(SNAPSHOT, v)
  {
    hide Decode, Encode, Valid, Parse;
    SnapshotFormatIsSound();
    ParseIsExact(SNAPSHOT, bytes, v);
  }

  lemma SnapshotRoundTrip(v: Value, cut: nat, extra: seq<byte>)
    requires Valid(SNAPSHOT, v) && cut < |Encode(SNAPSHOT, v)| && extra != []
    ensures Parse(SNAPSHOT, Encode(SNAPSHOT, v)) == Some(v)
    ensures Parse(SNAPSHOT, Encode(SNAPSHOT, v)[..cut]) == None && Parse(SNAPSHOT, Encode(SNAPSHOT, v) + extra) == None
  {
    hide Decode, Encode, Valid, Parse;
    SnapshotFormatIsSound();
    RoundTrip(SNAPSHOT, v, cut, extra);
  }

  /** decode_plan undoes encode_plan for plans within the decoder's bounds. */
  lemma PlanRoundTrip(v: Value, cut: nat, extra: seq<byte>)
    requires Valid(PLAN, v) && cut < |Encode(PLAN, v)| && extra != []
    ensures Parse(PLAN, Encode(PLAN, v)) == Some(v)
    ensures Parse(PLAN, Encode(PLAN, v)[..cut]) == None && Parse(PLAN, Encode(PLAN, v) + extra) == None
  {
    hide Decode, Encode, Valid, Parse;
    PlanFormatIsWellFormed();
    RoundTrip(PLAN, v, cut, extra);
  }

  /** The writer puts no bound on a text that the reader bounds: a longer one is written and then refused. */
  lemma LongTextIsRefused(b: seq<byte>, tail: seq<byte>)
    requires |b| < 0x1_0000_0000
    ensures Decode(PLAIN_TEXT, EncodeText(b) + tail).Some? <==> |b| <= MAX_TEXT
  {
    FieldBounds();
    assert EncodeText(b) + tail == EncodeBE(|b|, 4) + (b + tail);
    NumberReadsBack(|b|, 4, b + tail);
  }
}
