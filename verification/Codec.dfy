/**
 The canonical binary codec (include/tef/binary.hpp) and the snapshot format of src/model.cpp, as a grammar of
 fields with one encoder and one decoder.
 */
module Codec {
  import opened Numeric
  import opened Bytes

  const TWO_64: int := 0x1_0000_0000_0000_0000
  const MAX_NAME: nat := 96
  const MAX_TEXT: nat := 512

  /** The kinds of fields that the writers and readers of the source are built from. */
  datatype Schema =
    | Empty
    | Unsigned(width: nat, least: nat, most: nat)     // u8, u16, u32, u64, boolean and enumerations
    | Signed64
    | Text(longest: nat)
    | Name                                            // an identity
    | NameOrNothing
    | Raw(size: nat, mayBeZero: bool)                 // digests and boot identities
    | Optional(inner: Schema)                         // a flag, then the value
    | Many(bound: nat, item: Schema)                  // a count, then the items
    | Sequence(first: Schema, rest: Schema)
    | LooseRef                                        // a reference whose generation is ignored when it names nothing

  datatype Value =
    | Unit
    | Number(n: int)
    | Chars(bytes: seq<byte>)
    | Missing
    | Present(value: Value)
    | Items(values: seq<Value>)
    | Both(first: Value, rest: Value)

  predicate IsNameChar(c: byte) {
    65 <= c <= 90 || 97 <= c <= 122 || 48 <= c <= 57 || IsSeparator(c)
  }

  /** '.', '_', '-', ':', '/' and '+' */
  predicate IsSeparator(c: byte) {
    c == 46 || c == 95 || c == 45 || c == 58 || c == 47 || c == 43
  }

  /** is_valid_name */
  predicate IsName(b: seq<byte>) {
    && 0 < |b| <= MAX_NAME && (forall i :: 0 <= i < |b| ==> IsNameChar(b[i]))
    && !IsSeparator(b[0]) && !IsSeparator(b[|b| - 1])
  }

  predicate AllZero(b: seq<byte>) {
    forall i :: 0 <= i < |b| ==> b[i] == 0
  }

  /** Bounds that fit their length fields. */
  predicate WellFormed(s: Schema) {
    match s
    case Unsigned(width, least, most) => most < Pow256(width)
    case Text(longest) => longest < 0x1_0000_0000
    case Optional(inner) => WellFormed(inner)
    case Many(bound, item) => bound < 0x1_0000_0000 && WellFormed(item)
    case Sequence(first, rest) => WellFormed(first) && WellFormed(rest)
    case _ => true
  }

  /** No field drops what it reads. */
  predicate Strict(s: Schema) {
    match s
    case Optional(inner) => Strict(inner)
    case Many(_, item) => Strict(item)
    case Sequence(first, rest) => Strict(first) && Strict(rest)
    case LooseRef => false
    case _ => true
  }

  /** The values a schema describes: what the decoder's bounds admit. */
  predicate Valid(s: Schema, v: Value)
    decreases s
  {
    match s
    case Empty => v == Unit
    case Unsigned(_, least, most) => v.Number? && least <= v.n <= most
    case Signed64 => v.Number? && MIN_INT64 <= v.n <= MAX_INT64
    case Text(longest) => v.Chars? && |v.bytes| <= longest
    case Name => v.Chars? && IsName(v.bytes)
    case NameOrNothing => v.Chars? && (v.bytes == [] || IsName(v.bytes))
    case Raw(size, mayBeZero) => v.Chars? && |v.bytes| == size && (mayBeZero || !AllZero(v.bytes))
    case Optional(inner) => v == Missing || (v.Present? && Valid(inner, v.value))
    case Many(bound, item) => v.Items? && |v.values| <= bound
      && forall i :: 0 <= i < |v.values| ==> Valid(item, v.values[i])
    case Sequence(first, rest) => v.Both? && Valid(first, v.first) && Valid(rest, v.rest)
    case LooseRef =>
      && v.Both? && v.first.Chars? && v.rest.Number?
      && (if v.first.bytes == [] then v.rest.n == 0 else IsName(v.first.bytes) && 0 < v.rest.n < TWO_64)
  }

  // ---- Writing ----------------------------------------------------------------------------------

  function TwosComplement(n: int): nat
    requires MIN_INT64 <= n <= MAX_INT64
  {
    if n < 0 then n + TWO_64 else n
  }

  function EncodeText(b: seq<byte>): seq<byte> {
    EncodeBE(|b|, 4) + b
  }

  function Encode(s: Schema, v: Value): seq<byte>
    requires Valid(s, v)
    decreases s, 0
  {
    match s
    case Empty => []
    case Unsigned(width, _, _) => EncodeBE(v.n, width)
    case Signed64 => EncodeBE(TwosComplement(v.n), 8)
    case Text(_) => EncodeText(v.bytes)
    case Name => EncodeText(v.bytes)
    case NameOrNothing => EncodeText(v.bytes)
    case Raw(_, _) => v.bytes
    case Optional(inner) => if v == Missing then EncodeBE(0, 1) else EncodeBE(1, 1) + Encode(inner, v.value)
    case Many(_, item) => EncodeBE(|v.values|, 4) + EncodeAll(item, v.values)
    case Sequence(first, rest) => Encode(first, v.first) + Encode(rest, v.rest)
    case LooseRef => EncodeText(v.first.bytes) + EncodeBE(v.rest.n, 8)
  }

  function EncodeAll(item: Schema, values: seq<Value>): seq<byte>
    requires forall i :: 0 <= i < |values| ==> Valid(item, values[i])
    decreases item, 1 + |values|
  {
    if values == [] then [] else Encode(item, values[0]) + EncodeAll(item, values[1..])
  }

  // ---- Reading ----------------------------------------------------------------------------------

  /** A value and how many bytes it took. */
  datatype Parsed = Parsed(value: Value, used: nat)

  function DecodeNumber(bytes: seq<byte>, width: nat): (n: Option<nat>) {
    if |bytes| < width then None else Some(DecodeBE(bytes[..width]))
  }

  function DecodeText(bytes: seq<byte>, longest: nat): (text: Option<seq<byte>>)
    ensures text.Some? ==> |text.value| <= longest && 4 + |text.value| <= |bytes|
  {
    match DecodeNumber(bytes, 4)
    case None => None
    case Some(length) => if length > longest || |bytes| - 4 < length then None else Some(bytes[4..4 + length])
  }

  function Signed(n: nat): int {
    if n > MAX_INT64 then n - TWO_64 else n
  }

  function Decode(s: Schema, bytes: seq<byte>): (r: Option<Parsed>)
    ensures r.Some? ==> r.value.used <= |bytes|
    decreases s, 1
  {
    match s
    case Empty => Some(Parsed(Unit, 0))
    case Unsigned(width, least, most) =>
      (match DecodeNumber(bytes, width)
       case None => None
       case Some(n) => if least <= n <= most then Some(Parsed(Number(n), width)) else None)
    case Signed64 =>
      (match DecodeNumber(bytes, 8)
       case None => None
       case Some(n) => Some(Parsed(Number(Signed(n)), 8)))
    case Text(longest) => TextParsed(DecodeText(bytes, longest), true, true)
    case Name => TextParsed(DecodeText(bytes, MAX_NAME), false, false)
    case NameOrNothing => TextParsed(DecodeText(bytes, MAX_NAME), false, true)
    case Raw(size, mayBeZero) =>
      if |bytes| < size || (!mayBeZero
        && AllZero(bytes[..size])) then None else Some(Parsed(Chars(bytes[..size]), size))
    case Optional(inner) => DecodeOptional(inner, bytes)
    case Many(bound, item) => DecodeMany(bound, item, bytes)
    case Sequence(first, rest) => DecodeSequence(first, rest, bytes)
    case LooseRef => DecodeLooseRef(bytes)
  }

  function DecodeSequence(first: Schema, rest: Schema, bytes: seq<byte>): (r: Option<Parsed>)
    ensures r.Some? ==> r.value.used <= |bytes|
    decreases Sequence(first, rest), 0
  {
    match Decode(first, bytes)
    case None => None
    case Some(p) =>
      match Decode(rest, bytes[p.used..])
      case None => None
      case Some(q) => Some(Parsed(Both(p.value, q.value), p.used + q.used))
  }

  function DecodeOptional(inner: Schema, bytes: seq<byte>): (r: Option<Parsed>)
    ensures r.Some? ==> r.value.used <= |bytes|
    decreases Optional(inner), 0
  {
    match DecodeNumber(bytes, 1)
    case None => None
    case Some(flag) =>
      if flag == 0 then Some(Parsed(Missing, 1))
      else if flag == 1 then
        match Decode(inner, bytes[1..])
        case None => None
        case Some(p) => Some(Parsed(Present(p.value), 1 + p.used))
      else None
  }

  function DecodeMany(bound: nat, item: Schema, bytes: seq<byte>): (r: Option<Parsed>)
    ensures r.Some? ==> r.value.used <= |bytes|
    decreases Many(bound, item), 0
  {
    match DecodeNumber(bytes, 4)
    case None => None
    case Some(count) =>
      if count > bound then None
      else
        match DecodeAll(item, count, bytes[4..])
        case None => None
        case Some(p) => Some(Parsed(Items(p.0), 4 + p.1))
  }

  function DecodeLooseRef(bytes: seq<byte>): (r: Option<Parsed>)
    ensures r.Some? ==> r.value.used <= |bytes|
  {
    match DecodeText(bytes, MAX_NAME)
    case None => None
    case Some(name) =>
      match DecodeNumber(bytes[4 + |name|..], 8)
      case None => None
      case Some(n) =>
        if name == [] then Some(Parsed(Both(Chars([]), Number(0)), 12))
        else if !IsName(name) || n == 0 then None
        else Some(Parsed(Both(Chars(name), Number(n)), 12 + |name|))
  }

  function TextParsed(text: Option<seq<byte>>, anything: bool, orNothing: bool): Option<Parsed> {
    if text.None? then None
    else if anything || IsName(text.value) || (orNothing
      && text.value == []) then Some(Parsed(Chars(text.value), 4 + |text.value|))
    else None
  }

  function DecodeAll(item: Schema, count: nat, bytes: seq<byte>): (r: Option<(seq<Value>, nat)>)
    ensures r.Some? ==> r.value.1 <= |bytes| && |r.value.0| == count
    decreases item, 2 + count
  {
    if count == 0 then Some(([], 0))
    else
      match Decode(item, bytes)
      case None => None
      case Some(p) =>
        match DecodeAll(item, count - 1, bytes[p.used..])
        case None => None
        case Some(q) => Some(([p.value] + q.0, p.used + q.1))
  }

  /** A whole payload: nothing may be left over. */
  function Parse(s: Schema, bytes: seq<byte>): Option<Value> {
    var r := Decode(s, bytes);
    if r.Some? && r.value.used == |bytes| then Some(r.value.value) else None
  }

  // ---- Reading what was written -------------------------------------------------------------------

  lemma NumberReadsBack(n: nat, width: nat, tail: seq<byte>)
    requires n < Pow256(width)
    ensures DecodeNumber(EncodeBE(n, width) + tail, width) == Some(n)
    ensures (EncodeBE(n, width) + tail)[width..] == tail
  {
    DecodeEncode(n, width);
    assert (EncodeBE(n, width) + tail)[..width] == EncodeBE(n, width);
  }

  lemma TextReadsBack(b: seq<byte>, longest: nat, tail: seq<byte>)
    requires |b| <= longest < 0x1_0000_0000
    ensures DecodeText(EncodeText(b) + tail, longest) == Some(b)
    ensures (EncodeText(b) + tail)[4 + |b|..] == tail
  {
    FieldBounds();
    assert EncodeText(b) + tail == EncodeBE(|b|, 4) + (b + tail);
    NumberReadsBack(|b|, 4, b + tail);
    assert (EncodeText(b) + tail)[4..4 + |b|] == b;
  }

  lemma Regroup<T>(x: seq<T>, y: seq<T>, z: seq<T>)
    ensures (x + y) + z == x + (y + z)
    ensures (x + y + z)[|x|..] == y + z
  {
  }

  lemma SignedReadsBack(n: int, tail: seq<byte>)
    requires MIN_INT64 <= n <= MAX_INT64
    ensures DecodeNumber(EncodeBE(TwosComplement(n), 8) + tail, 8) == Some(TwosComplement(n))
    ensures Signed(TwosComplement(n)) == n
  {
    FieldBounds();
    NumberReadsBack(TwosComplement(n), 8, tail);
  }

  lemma LooseRefReadsBack(v: Value, tail: seq<byte>)
    requires Valid(LooseRef, v)
    ensures Decode(LooseRef, Encode(LooseRef, v) + tail) == Some(Parsed(v, |Encode(LooseRef, v)|))
  {
    hide EncodeText, EncodeBE, DecodeText, DecodeNumber;
    var name, n := v.first.bytes, v.rest.n;
    FieldBounds();
    Regroup(EncodeText(name), EncodeBE(n, 8), tail);
    TextReadsBack(name, MAX_NAME, EncodeBE(n, 8) + tail);
    NumberReadsBack(n, 8, tail);
    TextSize(name);
  }

  lemma TextSize(b: seq<byte>)
    ensures |EncodeText(b)| == 4 + |b|
  {
  }

  /** Unfoldings of the codec for composite fields. */
  lemma SequenceEncoded(first: Schema, rest: Schema, v: Value)
    requires Valid(Sequence(first, rest), v)
    ensures v.Both? && Valid(first, v.first) && Valid(rest, v.rest)
    ensures Encode(Sequence(first, rest), v) == Encode(first, v.first) + Encode(rest, v.rest)
  {
  }

  lemma SequenceDecoded(first: Schema, rest: Schema, bytes: seq<byte>, p: Parsed, q: Parsed)
    requires p.used <= |bytes| && Decode(first, bytes) == Some(p) && Decode(rest, bytes[p.used..]) == Some(q)
    ensures DecodeSequence(first, rest, bytes) == Some(Parsed(Both(p.value, q.value), p.used + q.used))
  {
    hide Decode;
  }

  lemma CompositesDecoded(bound: nat, first: Schema, rest: Schema, bytes: seq<byte>)
    ensures Decode(Sequence(first, rest), bytes) == DecodeSequence(first, rest, bytes)
    ensures Decode(Optional(first), bytes) == DecodeOptional(first, bytes)
    ensures Decode(Many(bound, first), bytes) == DecodeMany(bound, first, bytes)
    ensures Decode(LooseRef, bytes) == DecodeLooseRef(bytes)
  {
    hide DecodeSequence, DecodeOptional, DecodeMany, DecodeLooseRef;
  }

  lemma AllEncoded(item: Schema, values: seq<Value>)
    requires values != [] && forall i :: 0 <= i < |values| ==> Valid(item, values[i])
    ensures EncodeAll(item, values) == Encode(item, values[0]) + EncodeAll(item, values[1..])
  {
  }

  function Prepend(p: Parsed, rest: Option<(seq<Value>, nat)>): Option<(seq<Value>, nat)> {
    if rest.None? then None else Some(([p.value] + rest.value.0, p.used + rest.value.1))
  }

  lemma AllDecoded(item: Schema, count: nat, bytes: seq<byte>)
    requires count > 0
    ensures Decode(item, bytes).None? ==> DecodeAll(item, count, bytes) == None
    ensures Decode(item, bytes).Some? ==> Decode(item, bytes).value.used <= |bytes|
    ensures Decode(item, bytes).Some? ==> var p := Decode(item, bytes).value;
      DecodeAll(item, count, bytes) == Prepend(p, DecodeAll(item, count - 1, bytes[p.used..]))
  {
    hide Decode;
  }

  lemma NoneDecoded(item: Schema, bytes: seq<byte>)
    ensures DecodeAll(item, 0, bytes) == Some(([], 0)) && EncodeAll(item, []) == []
  {
  }

  lemma {:induction false} AllReadBack(item: Schema, values: seq<Value>, tail: seq<byte>)
    requires WellFormed(item) && forall i :: 0 <= i < |values| ==> Valid(item, values[i])
    ensures DecodeAll(item, |values|, EncodeAll(item, values) + tail) == Some((values, |EncodeAll(item, values)|))
    decreases item, 2 + |values|
  {
    hide Decode, Encode, Valid, EncodeAll, DecodeAll;
    NoneDecoded(item, EncodeAll(item, values) + tail);
    if values != [] {
      var first, rest := Encode(item, values[0]), EncodeAll(item, values[1..]);
      AllEncoded(item, values);
      Regroup(first, rest, tail);
      ReadsBack(item, values[0], rest + tail);
      AllReadBack(item, values[1..], tail);
      AllDecoded(item, |values|, EncodeAll(item, values) + tail);
      assert [values[0]] + values[1..] == values;
    }
  }

  /** What was written is read back, whatever follows it: encodings are self-delimiting. */
  lemma {:induction false} ReadsBack(s: Schema, v: Value, tail: seq<byte>)
    requires WellFormed(s) && Valid(s, v)
    ensures Decode(s, Encode(s, v) + tail) == Some(Parsed(v, |Encode(s, v)|))
    decreases s, 1
  {
    hide EncodeBE, EncodeText, DecodeText, DecodeNumber, TwosComplement, Signed;
    match s
    case Empty =>
    case Unsigned(width, least, most) => NumberReadsBack(v.n, width, tail);
    case Signed64 => SignedReadsBack(v.n, tail);
    case Text(longest) => TextReadsBack(v.bytes, longest, tail); TextSize(v.bytes);
    case Name => TextReadsBack(v.bytes, MAX_NAME, tail); TextSize(v.bytes);
    case NameOrNothing => TextReadsBack(v.bytes, MAX_NAME, tail); TextSize(v.bytes);
    case Raw(size, mayBeZero) => assert (v.bytes + tail)[..size] == v.bytes;
    case Optional(inner) => OptionalReadsBack(inner, v, tail);
    case Many(bound, item) => ManyReadBack(bound, item, v, tail);
    case Sequence(first, rest) => SequenceReadsBack(first, rest, v, tail);
    case LooseRef => LooseRefReadsBack(v, tail);
  }

  lemma FlagBounds()
    ensures Pow256(1) == 256
  {
  }

  lemma OptionalReadsBack(inner: Schema, v: Value, tail: seq<byte>)
    requires WellFormed(inner) && Valid(Optional(inner), v)
    ensures Decode(Optional(inner), Encode(Optional(inner), v) + tail) == Some(Parsed(v, |Encode(Optional(inner), v)|))
    decreases Optional(inner), 0
  {
    hide EncodeBE, DecodeNumber;
    FlagBounds();
    if v == Missing {
      NumberReadsBack(0, 1, tail);
    } else {
      var body := Encode(inner, v.value);
      Regroup(EncodeBE(1, 1), body, tail);
      NumberReadsBack(1, 1, body + tail);
      ReadsBack(inner, v.value, tail);
    }
  }

  lemma ManyReadBack(bound: nat, item: Schema, v: Value, tail: seq<byte>)
    requires WellFormed(Many(bound, item)) && Valid(Many(bound, item), v)
    ensures Decode(Many(bound, item), Encode(Many(bound, item), v) + tail) == Some(Parsed(v, |Encode(Many(bound,
      item), v)|))
    decreases Many(bound, item), 0
  {
    hide EncodeBE, DecodeNumber, EncodeAll, DecodeAll;
    FieldBounds();
    var body := EncodeAll(item, v.values);
    Regroup(EncodeBE(|v.values|, 4), body, tail);
    NumberReadsBack(|v.values|, 4, body + tail);
    AllReadBack(item, v.values, tail);
  }

  lemma SequenceReadsBack(first: Schema, rest: Schema, v: Value, tail: seq<byte>)
    requires WellFormed(first) && WellFormed(rest) && Valid(Sequence(first, rest), v)
    ensures Decode(Sequence(first, rest), Encode(Sequence(first, rest), v) + tail)
      == Some(Parsed(v, |Encode(Sequence(first, rest), v)|))
    decreases Sequence(first, rest), 0
  {
    hide Decode, Encode, Valid, WellFormed;
    SequenceEncoded(first, rest, v);
    var a, b := Encode(first, v.first), Encode(rest, v.rest);
    Regroup(a, b, tail);
    ReadsBack(first, v.first, b + tail);
    ReadsBack(rest, v.rest, tail);
    SequenceDecoded(first, rest, a + b + tail, Parsed(v.first, |a|), Parsed(v.rest, |b|));
    CompositesDecoded(0, first, rest, a + b + tail);
  }

  // ---- What follows a value does not matter ------------------------------------------------------------

  lemma NumberIsLocal(bytes: seq<byte>, width: nat, tail: seq<byte>)
    requires DecodeNumber(bytes, width).Some?
    ensures width <= |bytes| && DecodeNumber(bytes + tail, width) == DecodeNumber(bytes, width)
    ensures (bytes + tail)[width..] == bytes[width..] + tail
  {
    assert (bytes + tail)[..width] == bytes[..width];
  }

  lemma TextIsLocal(bytes: seq<byte>, longest: nat, tail: seq<byte>)
    requires DecodeText(bytes, longest).Some?
    ensures DecodeText(bytes + tail, longest) == DecodeText(bytes, longest)
    ensures (bytes + tail)[4 + |DecodeText(bytes, longest).value|..] == bytes[4 + |DecodeText(bytes,
      longest).value|..] + tail
  {
    NumberIsLocal(bytes, 4, tail);
    var length := DecodeNumber(bytes, 4).value;
    assert (bytes + tail)[4..4 + length] == bytes[4..4 + length];
  }

  lemma Beyond<T>(bytes: seq<T>, tail: seq<T>, used: nat)
    requires used <= |bytes|
    ensures (bytes + tail)[used..] == bytes[used..] + tail && (bytes + tail)[..used] == bytes[..used]
  {
  }

  lemma LooseRefIsLocal(bytes: seq<byte>, tail: seq<byte>)
    requires DecodeLooseRef(bytes).Some?
    ensures DecodeLooseRef(bytes + tail) == DecodeLooseRef(bytes)
  {
    hide DecodeText, DecodeNumber;
    TextIsLocal(bytes, MAX_NAME, tail);
    NumberIsLocal(bytes[4 + |DecodeText(bytes, MAX_NAME).value|..], 8, tail);
  }

  lemma {:induction false} AllAreLocal(item: Schema, count: nat, bytes: seq<byte>, tail: seq<byte>)
    requires DecodeAll(item, count, bytes).Some?
    ensures DecodeAll(item, count, bytes + tail) == DecodeAll(item, count, bytes)
    decreases item, 2 + count
  {
    hide Decode, DecodeAll;
    NoneDecoded(item, bytes);
    NoneDecoded(item, bytes + tail);
    if count > 0 {
      AllDecoded(item, count, bytes);
      AllDecoded(item, count, bytes + tail);
      var p := Decode(item, bytes).value;
      DecodeIsLocal(item, bytes, tail);
      Beyond(bytes, tail, p.used);
      AllAreLocal(item, count - 1, bytes[p.used..], tail);
    }
  }

  lemma {:induction false} DecodeIsLocal(s: Schema, bytes: seq<byte>, tail: seq<byte>)
    requires Decode(s, bytes).Some?
    ensures Decode(s, bytes + tail) == Decode(s, bytes)
    decreases s, 1
  {
    hide DecodeNumber, DecodeText, DecodeSequence, DecodeOptional, DecodeMany, DecodeLooseRef;
    match s
    case Empty =>
    case Unsigned(width, least, most) => NumberIsLocal(bytes, width, tail);
    case Signed64 => NumberIsLocal(bytes, 8, tail);
    case Text(longest) => TextIsLocal(bytes, longest, tail);
    case Name => TextIsLocal(bytes, MAX_NAME, tail);
    case NameOrNothing => TextIsLocal(bytes, MAX_NAME, tail);
    case Raw(size, mayBeZero) => Beyond(bytes, tail, size);
    case Optional(inner) => OptionalIsLocal(inner, bytes, tail);
    case Many(bound, item) => ManyAreLocal(bound, item, bytes, tail);
    case Sequence(first, rest) => SequenceIsLocal(first, rest, bytes, tail);
    case LooseRef => LooseRefIsLocal(bytes, tail);
  }

  lemma OptionalIsLocal(inner: Schema, bytes: seq<byte>, tail: seq<byte>)
    requires DecodeOptional(inner, bytes).Some?
    ensures DecodeOptional(inner, bytes + tail) == DecodeOptional(inner, bytes)
    decreases Optional(inner), 0
  {
    hide Decode, DecodeNumber;
    NumberIsLocal(bytes, 1, tail);
    if DecodeNumber(bytes, 1) == Some(1) { DecodeIsLocal(inner, bytes[1..], tail); }
  }

  lemma ManyAreLocal(bound: nat, item: Schema, bytes: seq<byte>, tail: seq<byte>)
    requires DecodeMany(bound, item, bytes).Some?
    ensures DecodeMany(bound, item, bytes + tail) == DecodeMany(bound, item, bytes)
    decreases Many(bound, item), 0
  {
    hide Decode, DecodeNumber, DecodeAll;
    NumberIsLocal(bytes, 4, tail);
    AllAreLocal(item, DecodeNumber(bytes, 4).value, bytes[4..], tail);
  }

  lemma SequenceIsLocal(first: Schema, rest: Schema, bytes: seq<byte>, tail: seq<byte>)
    requires DecodeSequence(first, rest, bytes).Some?
    ensures DecodeSequence(first, rest, bytes + tail) == DecodeSequence(first, rest, bytes)
    decreases Sequence(first, rest), 0
  {
    hide Decode;
    var p := Decode(first, bytes).value;
    DecodeIsLocal(first, bytes, tail);
    Beyond(bytes, tail, p.used);
    DecodeIsLocal(rest, bytes[p.used..], tail);
  }

  // ---- Only what was written is read back --------------------------------------------------------------

  lemma NumberIsWritten(bytes: seq<byte>, width: nat)
    requires DecodeNumber(bytes, width).Some?
    ensures width <= |bytes| && DecodeNumber(bytes, width).value < Pow256(width)
    ensures EncodeBE(DecodeNumber(bytes, width).value, width) == bytes[..width]
  {
    EncodeDecode(bytes[..width]);
  }

  lemma TextIsWritten(bytes: seq<byte>, longest: nat)
    requires DecodeText(bytes, longest).Some?
    ensures var b := DecodeText(bytes, longest).value; 4 + |b| <= |bytes| && EncodeText(b) == bytes[..4 + |b|]
  {
    NumberIsWritten(bytes, 4);
    var b := DecodeText(bytes, longest).value;
    assert bytes[..4 + |b|] == bytes[..4] + b;
  }

  lemma SignedIsWritten(bytes: seq<byte>)
    requires DecodeNumber(bytes, 8).Some?
    ensures 8 <= |bytes| && MIN_INT64 <= Signed(DecodeNumber(bytes, 8).value) <= MAX_INT64
    ensures EncodeBE(TwosComplement(Signed(DecodeNumber(bytes, 8).value)), 8) == bytes[..8]
  {
    NumberIsWritten(bytes, 8);
    FieldBounds();
  }

  lemma Adjacent<T>(bytes: seq<T>, m: nat, n: nat)
    requires m + n <= |bytes|
    ensures bytes[..m] + bytes[m..][..n] == bytes[..m + n]
  {
  }

  ghost predicate Written(s: Schema, bytes: seq<byte>, p: Parsed) {
    Valid(s, p.value) && p.used <= |bytes| && Encode(s, p.value) == bytes[..p.used]
  }

  lemma {:induction false} AllAreWritten(item: Schema, count: nat, bytes: seq<byte>)
    requires WellFormed(item) && Strict(item) && DecodeAll(item, count, bytes).Some?
    ensures var p := DecodeAll(item, count, bytes).value;
      && (forall i :: 0 <= i < |p.0| ==> Valid(item, p.0[i])) && EncodeAll(item, p.0) == bytes[..p.1]
    decreases item, 2 + count
  {
    hide Decode, Encode, Valid;
    if count > 0 {
      var p := Decode(item, bytes).value;
      var q := DecodeAll(item, count - 1, bytes[p.used..]).value;
      OnlyWritten(item, bytes);
      AllAreWritten(item, count - 1, bytes[p.used..]);
      Adjacent(bytes, p.used, q.1);
      assert ([p.value] + q.0)[1..] == q.0;
    }
  }

  /** Every accepted input is the encoding of the value it yields: there is one encoding per value. */
  lemma {:induction false} OnlyWritten(s: Schema, bytes: seq<byte>)
    requires WellFormed(s) && Strict(s) && Decode(s, bytes).Some?
    ensures Written(s, bytes, Decode(s, bytes).value)
    decreases s, 1
  {
    hide DecodeNumber, DecodeText, DecodeSequence, DecodeOptional, DecodeMany, DecodeLooseRef, EncodeBE, EncodeText,
      Signed, TwosComplement;
    match s
    case Empty =>
    case Unsigned(width, least, most) => NumberIsWritten(bytes, width);
    case Signed64 => SignedIsWritten(bytes);
    case Text(longest) => TextIsWritten(bytes, longest);
    case Name => TextIsWritten(bytes, MAX_NAME);
    case NameOrNothing => TextIsWritten(bytes, MAX_NAME);
    case Raw(size, mayBeZero) =>
    case Optional(inner) => OptionalIsWritten(inner, bytes);
    case Many(bound, item) => ManyAreWritten(bound, item, bytes);
    case Sequence(first, rest) => SequenceIsWritten(first, rest, bytes);
  }

  lemma OptionalIsWritten(inner: Schema, bytes: seq<byte>)
    requires WellFormed(inner) && Strict(inner) && DecodeOptional(inner, bytes).Some?
    ensures Written(Optional(inner), bytes, DecodeOptional(inner, bytes).value)
    decreases Optional(inner), 0
  {
    hide Decode, DecodeNumber, EncodeBE;
    NumberIsWritten(bytes, 1);
    if DecodeNumber(bytes, 1) == Some(1) {
      OnlyWritten(inner, bytes[1..]);
      Adjacent(bytes, 1, Decode(inner, bytes[1..]).value.used);
    }
  }

  lemma ManyAreWritten(bound: nat, item: Schema, bytes: seq<byte>)
    requires WellFormed(item) && Strict(item) && DecodeMany(bound, item, bytes).Some?
    ensures Written(Many(bound, item), bytes, DecodeMany(bound, item, bytes).value)
    decreases Many(bound, item), 0
  {
    hide Decode, DecodeNumber, DecodeAll, EncodeBE, EncodeAll;
    NumberIsWritten(bytes, 4);
    var count := DecodeNumber(bytes, 4).value;
    AllAreWritten(item, count, bytes[4..]);
    Adjacent(bytes, 4, DecodeAll(item, count, bytes[4..]).value.1);
  }

  lemma SequenceIsWritten(first: Schema, rest: Schema, bytes: seq<byte>)
    requires WellFormed(first) && Strict(first) && WellFormed(rest) && Strict(rest)
    requires DecodeSequence(first, rest, bytes).Some?
    ensures Written(Sequence(first, rest), bytes, DecodeSequence(first, rest, bytes).value)
    decreases Sequence(first, rest), 0
  {
    hide Decode;
    var p := Decode(first, bytes).value;
    OnlyWritten(first, bytes);
    OnlyWritten(rest, bytes[p.used..]);
    Adjacent(bytes, p.used, Decode(rest, bytes[p.used..]).value.used);
    BothWritten(first, rest, bytes, p, Decode(rest, bytes[p.used..]).value);
  }

  lemma BothWritten(first: Schema, rest: Schema, bytes: seq<byte>, p: Parsed, q: Parsed)
    requires Written(first, bytes, p) && Written(rest, bytes[p.used..], q)
    ensures Written(Sequence(first, rest), bytes, Parsed(Both(p.value, q.value), p.used + q.used))
  {
    Adjacent(bytes, p.used, q.used);
  }

  // ---- Whole payloads -----------------------------------------------------------------------------------

  /** Round trip, and rejection of every shorter and every longer input. */
  lemma RoundTrip(s: Schema, v: Value, cut: nat, extra: seq<byte>)
    requires WellFormed(s) && Valid(s, v) && cut < |Encode(s, v)| && extra != []
    ensures Parse(s, Encode(s, v)) == Some(v)
    ensures Parse(s, Encode(s, v)[..cut]) == None
    ensures Parse(s, Encode(s, v) + extra) == None
  {
    hide Decode, Encode, Valid, WellFormed;
    var bytes := Encode(s, v);
    ReadsBack(s, v, []);
    assert bytes + [] == bytes;
    ReadsBack(s, v, extra);
    assert bytes[..cut] + bytes[cut..] == bytes;
    if Decode(s, bytes[..cut]).Some? { DecodeIsLocal(s, bytes[..cut], bytes[cut..]); }
  }

  /** For a strict format, accepted inputs and valid values correspond one to one. */
  lemma ParseIsExact(s: Schema, bytes: seq<byte>, v: Value)
    requires WellFormed(s) && Strict(s)
    ensures Parse(s, bytes) == Some(v) <==> Valid(s, v) && bytes == Encode(s, v)
  {
    hide Decode, Encode, Valid, WellFormed, Strict;
    if Parse(s, bytes) == Some(v) {
      OnlyWritten(s, bytes);
      assert bytes[..|bytes|] == bytes;
    }
    if Valid(s, v) && bytes == Encode(s, v) {
      ReadsBack(s, v, []);
      assert bytes + [] == bytes;
    }
  }

  /** A reference that names nothing loses its generation: two inputs, one value. */
  lemma LooseRefIsNotExact(n: nat)
    requires n < Pow256(8)
    ensures Parse(LooseRef, EncodeText([]) + EncodeBE(n, 8)) == Some(Both(Chars([]), Number(0)))
  {
    hide EncodeBE, EncodeText, DecodeText, DecodeNumber;
    FieldBounds();
    TextReadsBack([], MAX_NAME, EncodeBE(n, 8));
    TextSize([]);
    NumberReadsBack(n, 8, []);
    assert EncodeBE(n, 8) + [] == EncodeBE(n, 8);
    CompositesDecoded(0, Empty, Empty, EncodeText([]) + EncodeBE(n, 8));
  }
}
