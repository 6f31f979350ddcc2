/** The loops that the PARSE_ and WRITE_ macros of src/packet/util.h expand to for lists of single bytes. */
module Cursor {
  import opened Bytes
  import opened Codec

  /** WRITE_BYTE: one byte more is in the buffer. */
  method WriteByte(payload: array<byte>, offset: nat, b: byte) returns (next: nat)
    requires offset < payload.Length
    modifies payload
    ensures next == offset + 1 && payload[..next] == old(payload[..offset]) + [b]
  {
    payload[offset] := b;
    next := offset + 1;
  }

  /** WRITE_BYTES, and WRITE_FOR_EACH around a WRITE_BYTE. */
  method WriteBytes(payload: array<byte>, offset: nat, bytes: seq<byte>) returns (next: nat)
    requires offset + |bytes| <= payload.Length
    modifies payload
    ensures next == offset + |bytes| && payload[..next] == old(payload[..offset]) + bytes
  {
    next := offset;
    for i := 0 to |bytes|
      invariant next == offset + i && payload[..next] == old(payload[..offset]) + bytes[..i]
    {
      assert bytes[..i + 1] == bytes[..i] + [bytes[i]];
      next := WriteByte(payload, next, bytes[i]);
    }
  }

  /** PARSE_FOR_EACH around a PARSE_ENUM. */
  method ParseEnums(ghost item: Parser<byte>, payload: seq<byte>, start: nat, count: byte, allowed: set<byte>)
      returns (r: Parsed<seq<byte>>)
    requires forall at: nat :: item(payload, at) == ParseEnum(payload, at, allowed)
    ensures r == ParseMany(item, payload, start, count)
  {
    var values, offset := [], start;
    PrependNothing(ParseMany(item, payload, start, count));
    for i := 0 to count
      invariant Prepend(values, ParseMany(item, payload, offset, count - i)) == ParseMany(item, payload, start, count)
    {
      PrependOne(item, payload, offset, count - i, values);
      var value := ParseEnum(payload, offset, allowed);
      if value == Bad {
        return Bad;
      }
      values := values + [value.value];
      offset := value.next;
    }
    assert values + [] == values;
    r := Parsed(values, offset);
  }
}
