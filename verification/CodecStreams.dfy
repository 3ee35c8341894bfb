/** Writer and Reader of include/tef/binary.hpp as objects, driven by a format. */
module CodecStreams {
  import opened Numeric
  import opened Bytes
  import opened Codec

  class Writer {
    var bytes: seq<byte>

    constructor ()
      ensures bytes == []
    {
      bytes := [];
    }

    /** u8, u16, u32 and u64: most significant byte first. */
    method Put(n: nat, width: nat)
      modifies this
      ensures bytes == old(bytes) + EncodeBE(n, width)
    {
      for i := 0 to width
        invariant bytes == old(bytes) + EncodeBE(n, width)[..i]
      {
        assert EncodeBE(n, width)[..i + 1] == EncodeBE(n, width)[..i] + [(n / Pow256(width - 1 - i)) % 256];
        bytes := bytes + [(n / Pow256(width - 1 - i)) % 256];
      }
      assert EncodeBE(n, width)[..width] == EncodeBE(n, width);
    }

    method PutText(text: seq<byte>)
      modifies this
      ensures bytes == old(bytes) + EncodeText(text)
    {
      Put(|text|, 4);
      bytes := bytes + text;
    }

    method Write(s: Schema, v: Value)
      requires Valid(s, v)
      modifies this
      ensures bytes == old(bytes) + Encode(s, v)
      decreases s, 0
    {
      hide EncodeBE, EncodeText;
      match s {
        case Empty =>
        case Unsigned(width, _, _) => Put(v.n, width);
        case Signed64 => Put(TwosComplement(v.n), 8);
        case Text(_) => PutText(v.bytes);
        case Name => PutText(v.bytes);
        case NameOrNothing => PutText(v.bytes);
        case Raw(_, _) => bytes := bytes + v.bytes;
        case Optional(inner) =>
          if v == Missing {
            Put(0, 1);
          } else {
            Put(1, 1);
            Write(inner, v.value);
          }
        case Many(_, item) =>
          Put(|v.values|, 4);
          WriteAll(item, v.values);
        case Sequence(first, rest) =>
          Write(first, v.first);
          Write(rest, v.rest);
        case LooseRef =>
          PutText(v.first.bytes);
          Put(v.rest.n, 8);
      }
    }

    method WriteAll(item: Schema, values: seq<Value>)
      requires forall i :: 0 <= i < |values| ==> Valid(item, values[i])
      modifies this
      ensures bytes == old(bytes) + EncodeAll(item, values)
      decreases item, 1
    {
      hide Encode, Valid;
      assert values[0..] == values;
      for i := 0 to |values|
        invariant old(bytes) + EncodeAll(item, values) == bytes + EncodeAll(item, values[i..])
      {
        hide EncodeAll;
        AllEncoded(item, values[i..]);
        assert values[i..][1..] == values[i + 1..];
        Write(item, values[i]);
      }
      assert values[|values|..] == [];
    }
  }

  class Reader {
    const data: seq<byte>
    var offset: nat
    var failed: bool

    constructor (data: seq<byte>)
      ensures this.data == data && offset == 0 && !failed
    {
      this.data := data;
      offset, failed := 0, false;
    }

    predicate InBounds()
      reads this
    {
      offset <= |data|
    }

    /** ensure(): a short read fails the reader for good. */
    method Ensure(count: nat) returns (ok: bool)
      requires InBounds()
      modifies this`failed
      ensures InBounds() && ok == (!old(failed) && count <= |data| - offset) && failed == !ok
    {
      if failed { return false; }
      if count > |data| - offset {
        failed := true;
        return false;
      }
      return true;
    }

    /** u8 to u64: v = (v << 8) | byte. */
    method Number(width: nat) returns (ok: bool, n: nat)
      requires InBounds()
      modifies this
      ensures InBounds() && old(offset) <= offset && failed == !ok
      ensures ok <==> !old(failed) && DecodeNumber(data[old(offset)..], width).Some?
      ensures ok ==> n == DecodeNumber(data[old(offset)..], width).value && offset == old(offset) + width
    {
      n := 0;
      ok := Ensure(width);
      if !ok { return; }
      var field := data[offset..][..width];
      assert field[..0] == [];
      for i := 0 to width
        invariant n == DecodeBE(field[..i]) && offset == old(offset) && !failed
      {
        assert field[..i + 1][..i] == field[..i] && field[i] == data[offset + i];
        n := n * 256 + data[offset + i];
      }
      assert field[..width] == field;
      offset := offset + width;
    }

    method Str(longest: nat) returns (ok: bool, text: seq<byte>)
      requires InBounds()
      modifies this
      ensures InBounds() && old(offset) <= offset && failed == !ok
      ensures ok <==> !old(failed) && DecodeText(data[old(offset)..], longest).Some?
      ensures ok ==> Some(text) == DecodeText(data[old(offset)..], longest) && offset == old(offset) + 4 + |text|
    {
      text := [];
      ghost var start := data[offset..];
      var length;
      ok, length := Number(4);
      if !ok { return; }
      if length > longest {
        failed := true;
        return false, [];
      }
      ok := Ensure(length);
      if !ok { return; }
      text := data[offset..offset + length];
      assert start[4..4 + length] == text;
      offset := offset + length;
    }

    /** Whatever the format, the reader takes exactly what the decoder describes. */
    method Read(s: Schema) returns (r: Option<Value>)
      requires InBounds() && !failed
      modifies this
      ensures InBounds() && old(offset) <= offset
      ensures r.Some? <==> Decode(s, data[old(offset)..]).Some?
      ensures r.Some? ==> !failed && Decode(s, data[old(offset)..]) == Some(Parsed(r.value, offset - old(offset)))
      decreases s, 1
    {
      hide DecodeNumber, DecodeText, DecodeOptional, DecodeMany, DecodeSequence, DecodeLooseRef;
      match s {
        case Empty => r := Some(Unit);
        case Unsigned(width, least, most) =>
          var ok, n := Number(width);
          r := if ok && least <= n <= most then Some(Codec.Number(n)) else None;
        case Signed64 =>
          var ok, n := Number(8);
          r := if ok then Some(Codec.Number(Signed(n))) else None;
        case Text(longest) =>
          var ok, text := Str(longest);
          r := if ok then Some(Chars(text)) else None;
        case Name =>
          var ok, text := Str(MAX_NAME);
          r := if ok && IsName(text) then Some(Chars(text)) else None;
        case NameOrNothing =>
          var ok, text := Str(MAX_NAME);
          r := if ok && (text == [] || IsName(text)) then Some(Chars(text)) else None;
        case Raw(size, mayBeZero) =>
          var ok := Ensure(size);
          if !ok { return None; }
          var raw := data[offset..][..size];
          if !mayBeZero && AllZero(raw) { return None; }
          offset := offset + size;
          r := Some(Chars(raw));
        case Optional(inner) => r := ReadOptional(inner);
        case Many(bound, item) => r := ReadMany(bound, item);
        case Sequence(first, rest) => r := ReadSequence(first, rest);
        case LooseRef => r := ReadLooseRef();
      }
    }

    method ReadOptional(inner: Schema) returns (r: Option<Value>)
      requires InBounds() && !failed
      modifies this
      ensures InBounds() && old(offset) <= offset
      ensures r.Some? <==> DecodeOptional(inner, data[old(offset)..]).Some?
      ensures r.Some? ==>
        !failed && DecodeOptional(inner, data[old(offset)..]) == Some(Parsed(r.value, offset - old(offset)))
      decreases Optional(inner), 0
    {
      hide DecodeNumber, Decode;
      assert forall k :: 0 <= k <= |data| - offset ==> data[offset..][k..] == data[offset + k..];
      var ok, flag := Number(1);
      if !ok || flag > 1 { return None; }
      if flag == 0 { return Some(Missing); }
      var value := Read(inner);
      r := if value.Some? then Some(Present(value.value)) else None;
    }

    method ReadMany(bound: nat, item: Schema) returns (r: Option<Value>)
      requires InBounds() && !failed
      modifies this
      ensures InBounds() && old(offset) <= offset
      ensures r.Some? <==> DecodeMany(bound, item, data[old(offset)..]).Some?
      ensures r.Some? ==>
        !failed && DecodeMany(bound, item, data[old(offset)..]) == Some(Parsed(r.value, offset - old(offset)))
      decreases Many(bound, item), 0
    {
      hide DecodeNumber, Decode, DecodeAll;
      assert forall k :: 0 <= k <= |data| - offset ==> data[offset..][k..] == data[offset + k..];
      var ok, count := Number(4);
      if !ok { return None; }
      if count > bound {
        failed := true;
        return None;
      }
      var values := ReadAll(item, count);
      r := if values.Some? then Some(Items(values.value)) else None;
    }

    method ReadAll(item: Schema, count: nat) returns (r: Option<seq<Value>>)
      requires InBounds() && !failed
      modifies this
      ensures InBounds() && old(offset) <= offset
      ensures r.Some? <==> DecodeAll(item, count, data[old(offset)..]).Some?
      ensures r.Some? ==>
        !failed && DecodeAll(item, count, data[old(offset)..]) == Some((r.value, offset - old(offset)))
      decreases item, 2
    {
      hide Decode, DecodeAll;
      var values: seq<Value> := [];
      ghost var start := offset;
      ContinuedNothing(DecodeAll(item, count, data[start..]));
      for i := 0 to count
        invariant start <= offset <= |data| && !failed
        invariant DecodeAll(item, count, data[start..])
          == Continued(values, offset - start, DecodeAll(item, count - i, data[offset..]))
      {
        AllDecoded(item, count - i, data[offset..]);
        ghost var here := offset;
        var value := Read(item);
        if value.None? { return None; }
        assert data[here..][offset - here..] == data[offset..];
        ContinuedOnce(values, here - start, Parsed(value.value, offset - here),
          DecodeAll(item, count - i - 1, data[offset..]));
        values := values + [value.value];
      }
      NoneDecoded(item, data[offset..]);
      assert values + [] == values;
      r := Some(values);
    }

    method ReadSequence(first: Schema, rest: Schema) returns (r: Option<Value>)
      requires InBounds() && !failed
      modifies this
      ensures InBounds() && old(offset) <= offset
      ensures r.Some? <==> DecodeSequence(first, rest, data[old(offset)..]).Some?
      ensures r.Some? ==>
        !failed && DecodeSequence(first, rest, data[old(offset)..]) == Some(Parsed(r.value, offset - old(offset)))
      decreases Sequence(first, rest), 0
    {
      hide Decode;
      ghost var start := offset;
      var one := Read(first);
      if one.None? { return None; }
      assert data[start..][offset - start..] == data[offset..];
      var other := Read(rest);
      r := if other.Some? then Some(Both(one.value, other.value)) else None;
    }

    method ReadLooseRef() returns (r: Option<Value>)
      requires InBounds() && !failed
      modifies this
      ensures InBounds() && old(offset) <= offset
      ensures r.Some? <==> DecodeLooseRef(data[old(offset)..]).Some?
      ensures r.Some? ==> !failed && DecodeLooseRef(data[old(offset)..]) == Some(Parsed(r.value, offset - old(offset)))
    {
      hide DecodeText, DecodeNumber;
      ghost var start := offset;
      var ok, name := Str(MAX_NAME);
      if !ok { return None; }
      assert data[start..][4 + |name|..] == data[offset..];
      var n;
      ok, n := Number(8);
      EightBytes(data[start + 4 + |name|..]);
      if !ok { return None; }
      if name == [] { return Some(Both(Chars([]), Codec.Number(0))); }
      if !IsName(name) || n == 0 { return None; }
      r := Some(Both(Chars(name), Codec.Number(n)));
    }

    /** decode_snapshot and decode_plan: one value and nothing behind it. */
    method ReadWhole(s: Schema) returns (r: Option<Value>)
      requires offset == 0 && !failed
      modifies this
      ensures r == Parse(s, data)
    {
      hide Decode;
      assert data[0..] == data;
      r := Read(s);
      if r.Some? && offset != |data| { r := None; }
    }
  }

  lemma EightBytes(bytes: seq<byte>)
    ensures DecodeNumber(bytes, 8).Some? ==> 8 <= |bytes|
  {
  }

  /** The values read so far, put before the rest. */
  function Continued(values: seq<Value>, used: nat, rest: Option<(seq<Value>, nat)>): Option<(seq<Value>, nat)> {
    if rest.None? then None else Some((values + rest.value.0, used + rest.value.1))
  }

  lemma ContinuedNothing(rest: Option<(seq<Value>, nat)>)
    ensures Continued([], 0, rest) == rest
  {
    if rest.Some? { assert [] + rest.value.0 == rest.value.0; }
  }

  lemma ContinuedOnce(values: seq<Value>, used: nat, p: Parsed, rest: Option<(seq<Value>, nat)>)
    ensures Continued(values, used, Prepend(p, rest)) == Continued(values + [p.value], used + p.used, rest)
  {
    if rest.Some? { assert values + ([p.value] + rest.value.0) == values + [p.value] + rest.value.0; }
  }
}
