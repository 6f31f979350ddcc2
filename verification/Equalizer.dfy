/** The equaliser capability packet (src/packet/eqebb.h): a list of presets with names of any length. */
module Equalizer {
  import opened Bytes
  import opened Codec
  import opened Cursor

  const RET_CAPABILITY: byte := 0x51

  const PRESET_EQ: byte := 0x01
  const EBB: byte := 0x02
  const PRESET_EQ_NONCUSTOMIZABLE: byte := 0x03

  const PRESET_IDS: set<byte> :=
    (set b: byte | b <= 0x1f :: b) + {0xa0, 0xa1, 0xa2, 0xa3, 0xa4, 0xa5, 0xff}

  datatype NamedPreset = NamedPreset(id: byte, name: seq<byte>)

  predicate NamedOk(p: NamedPreset) {
    p.id in PRESET_IDS && BlobOk(p.name)
  }

  function PrintNamed(p: NamedPreset): seq<byte> {
    [p.id] + PrintBlob(p.name)
  }

  function ParseNamed(payload: seq<byte>, offset: nat): Parsed<NamedPreset> {
    match ParseEnum(payload, offset, PRESET_IDS)
    case Bad => Bad
    case Parsed(id, next) =>
      match ParseBlob(payload, next)
      case Bad => Bad
      case Parsed(name, end) => Parsed(NamedPreset(id, name), end)
  }

  lemma NamedFaithful()
    ensures Faithful(ParseNamed, PrintNamed, NamedOk)
  {
    BlobFaithful();
    forall payload: seq<byte>, offset: nat
      ensures CanonicalAt(ParseNamed, PrintNamed, NamedOk, payload, offset)
    {
      if ParseNamed(payload, offset).Parsed? {
        var p := ParseNamed(payload, offset).value;
        assert CanonicalAt(ParseBlob, PrintBlob, BlobOk, payload, offset + 1);
        AtOne(payload, offset, p.id);
        AtSplit(payload, offset, [p.id], PrintBlob(p.name));
      }
    }
    forall payload: seq<byte>, offset: nat, p: NamedPreset
      ensures CompleteAt(ParseNamed, PrintNamed, NamedOk, payload, offset, p)
    {
      if NamedOk(p) && At(payload, offset, PrintNamed(p)) {
        AtSplit(payload, offset, [p.id], PrintBlob(p.name));
        AtOne(payload, offset, p.id);
        assert CompleteAt(ParseBlob, PrintBlob, BlobOk, payload, offset + 1, p.name);
      }
    }
  }

  // ----- the packet --------------------------------------------------------------------

  datatype Capability =
    | Eq(inquired: byte, bandCount: byte, levelSteps: byte, presets: seq<NamedPreset>)
    | Bass(minLevel: byte, maxLevel: byte)

  predicate CapabilityOk(c: Capability) {
    c.Eq? ==> c.inquired in {PRESET_EQ, PRESET_EQ_NONCUSTOMIZABLE} && CountedOk(NamedOk, c.presets)
  }

  function InquiredOf(c: Capability): byte {
    if c.Eq? then c.inquired else EBB
  }

  function PrintBody(c: Capability): seq<byte> {
    match c
    case Eq(_, bandCount, levelSteps, presets) => [bandCount, levelSteps] + PrintCounted(PrintNamed, presets)
    case Bass(minLevel, maxLevel) => [minLevel, maxLevel]
  }

  function PrintCapability(c: Capability): seq<byte> {
    [RET_CAPABILITY, InquiredOf(c)] + PrintBody(c)
  }

  /** The MDR_PACKET_EQEBB_RET_CAPABILITY case of mdr_packet_eqebb_from_frame, at any offset. */
  function ParseCapability(payload: seq<byte>, offset: nat): Parsed<Capability> {
    if offset + 4 > |payload| || payload[offset] != RET_CAPABILITY then Bad
    else
      var inquired, a, b := payload[offset + 1], payload[offset + 2], payload[offset + 3];
      if inquired in {PRESET_EQ, PRESET_EQ_NONCUSTOMIZABLE} then
        match ParseCounted(ParseNamed, payload, offset + 4)
        case Bad => Bad
        case Parsed(presets, end) => Parsed(Eq(inquired, a, b, presets), end)
      else if inquired == EBB then Parsed(Bass(a, b), offset + 4)
      else Bad
  }

  lemma BodySplit(payload: seq<byte>, offset: nat, c: Capability)
    ensures At(payload, offset, PrintBody(c)) <==>
            match c
            case Eq(_, bandCount, levelSteps, presets) =>
              && offset + 2 <= |payload| && payload[offset] == bandCount && payload[offset + 1] == levelSteps
              && At(payload, offset + 2, PrintCounted(PrintNamed, presets))
            case Bass(minLevel, maxLevel) =>
              offset + 2 <= |payload| && payload[offset] == minLevel && payload[offset + 1] == maxLevel
  {
    match c
    case Eq(_, bandCount, levelSteps, presets) =>
      HeaderSplit(payload, offset, bandCount, levelSteps, PrintCounted(PrintNamed, presets));
    case Bass(minLevel, maxLevel) =>
      HeaderSplit(payload, offset, minLevel, maxLevel, []);
      assert PrintBody(c) + [] == PrintBody(c);
      if offset + 2 <= |payload| {
        assert payload[offset + 2..offset + 2] == [];
      }
  }

  lemma CapabilityIsCanonical(payload: seq<byte>, offset: nat)
    ensures CanonicalAt(ParseCapability, PrintCapability, CapabilityOk, payload, offset)
  {
    var r := ParseCapability(payload, offset);
    if r.Parsed? {
      NamedFaithful();
      CountedCanonical(ParseNamed, PrintNamed, NamedOk, payload, offset + 4);
      HeaderSplit(payload, offset, RET_CAPABILITY, InquiredOf(r.value), PrintBody(r.value));
      BodySplit(payload, offset + 2, r.value);
    }
  }

  lemma CapabilityIsComplete(payload: seq<byte>, offset: nat, c: Capability)
    ensures CompleteAt(ParseCapability, PrintCapability, CapabilityOk, payload, offset, c)
  {
    if CapabilityOk(c) && At(payload, offset, PrintCapability(c)) {
      HeaderSplit(payload, offset, RET_CAPABILITY, InquiredOf(c), PrintBody(c));
      BodySplit(payload, offset + 2, c);
      if c.Eq? {
        NamedFaithful();
        CountedComplete(ParseNamed, PrintNamed, NamedOk, payload, offset + 4, c.presets);
      }
    }
  }

  /** Every equaliser capability parses back from its payload, and only its payload parses to it. */
  lemma CapabilityFaithful()
    ensures Faithful(ParseCapability, PrintCapability, CapabilityOk)
  {
    forall payload: seq<byte>, offset: nat {
      CapabilityIsCanonical(payload, offset);
    }
    forall payload: seq<byte>, offset: nat, c: Capability {
      CapabilityIsComplete(payload, offset, c);
    }
  }

  /** An equaliser payload is read only as far as it is consumed, and refused when cut any shorter. */
  lemma ShorterIsRejected(payload: seq<byte>, cut: nat)
    requires ParseCapability(payload, 0).Parsed? && cut < ParseCapability(payload, 0).next
    ensures ParseCapability(payload, 0).next <= |payload| && ParseCapability(payload[..cut], 0) == Bad
  {
    CapabilityFaithful();
    CapabilityIsCanonical(payload, 0);
    PrefixFree(ParseCapability, PrintCapability, CapabilityOk, payload, 0, cut);
  }

  // ----- the loops ------------------------------------------------------------------------

  method ParsePreset(payload: seq<byte>, start: nat) returns (r: Parsed<NamedPreset>)
    ensures r == ParseNamed(payload, start)
  {
    var id := ParseEnum(payload, start, PRESET_IDS);
    if id == Bad || id.next >= |payload| {
      return Bad;
    }
    var nameLen := payload[id.next];
    var offset := id.next + 1;
    if offset + nameLen > |payload| {
      return Bad;
    }
    return Parsed(NamedPreset(id.value, payload[offset..offset + nameLen]), offset + nameLen);
  }

  method ParsePresets(payload: seq<byte>, start: nat, count: byte) returns (r: Parsed<seq<NamedPreset>>)
    ensures r == ParseMany(ParseNamed, payload, start, count)
  {
    var presets, offset: nat := [], start;
    PrependNothing(ParseMany(ParseNamed, payload, start, count));
    for i := 0 to count
      invariant Prepend(presets, ParseMany(ParseNamed, payload, offset, count - i)) ==
                ParseMany(ParseNamed, payload, start, count)
    {
      PrependOne(ParseNamed, payload, offset, count - i, presets);
      var preset := ParsePreset(payload, offset);
      if preset == Bad {
        return Bad;
      }
      presets := presets + [preset.value];
      offset := preset.next;
    }
    assert presets + [] == presets;
    r := Parsed(presets, offset);
  }

  /** mdr_packet_eqebb_from_frame on a capability payload. */
  method CapabilityFromFrame(payload: seq<byte>) returns (r: Parsed<Capability>)
    ensures r == ParseCapability(payload, 0)
  {
    if |payload| == 0 || payload[0] != RET_CAPABILITY {
      return Bad;
    }
    var inquired := ParseEnum(payload, 1, {PRESET_EQ, EBB, PRESET_EQ_NONCUSTOMIZABLE});
    if inquired == Bad || |payload| < 4 {
      return Bad;
    }
    if inquired.value == EBB {
      return Parsed(Bass(payload[2], payload[3]), 4);
    }
    if |payload| < 5 {
      return Bad;
    }
    var presets := ParsePresets(payload, 5, payload[4]);
    return if presets == Bad then Bad
           else Parsed(Eq(inquired.value, payload[2], payload[3], presets.value), presets.next);
  }

  // ----- the two passes of the encoder -------------------------------------------------------

  function NamesLength(presets: seq<NamedPreset>): nat {
    if presets == [] then 0 else 2 + |presets[0].name| + NamesLength(presets[1..])
  }

  /** What the first pass sums is what the second writes. */
  lemma {:induction false} NamesLengthIsPrinted(presets: seq<NamedPreset>)
    ensures |PrintMany(PrintNamed, presets)| == NamesLength(presets)
  {
    if presets != [] {
      NamesLengthIsPrinted(presets[1..]);
    }
  }

  method SumLength(presets: seq<NamedPreset>) returns (length: nat)
    ensures length == 4 + |PrintMany(PrintNamed, presets)|
  {
    length := 4;
    assert presets[0..] == presets;
    for i := 0 to |presets|
      invariant length + NamesLength(presets[i..]) == 4 + NamesLength(presets)
    {
      assert presets[i..][0] == presets[i] && presets[i..][1..] == presets[i + 1..];
      length := length + 2 + |presets[i].name|;
    }
    assert presets[|presets|..] == [];
    NamesLengthIsPrinted(presets);
  }

  lemma NamedPieces(before: seq<byte>, p: NamedPreset)
    requires BlobOk(p.name)
    ensures before + [p.id] + [|p.name|] + p.name == before + PrintNamed(p)
  {
    ConcatAssociates(before, [p.id], [|p.name|] + p.name);
    ConcatAssociates(before + [p.id], [|p.name|], p.name);
  }

  method WriteNamed(payload: array<byte>, offset: nat, p: NamedPreset) returns (next: nat)
    requires offset + |PrintNamed(p)| <= payload.Length && NamedOk(p)
    modifies payload
    ensures next == offset + |PrintNamed(p)|
    ensures payload[..next] == old(payload[..offset]) + PrintNamed(p)
  {
    next := WriteByte(payload, offset, p.id);
    next := WriteByte(payload, next, |p.name|);
    next := WriteBytes(payload, next, p.name);
    NamedPieces(old(payload[..offset]), p);
  }

  method WritePresets(payload: array<byte>, offset: nat, presets: seq<NamedPreset>) returns (next: nat)
    requires offset + |PrintMany(PrintNamed, presets)| <= payload.Length && AllOk(NamedOk, presets)
    modifies payload
    ensures next == offset + |PrintMany(PrintNamed, presets)|
    ensures payload[..next] == old(payload[..offset]) + PrintMany(PrintNamed, presets)
  {
    next := offset;
    assert presets[..0] == [] && presets[..|presets|] == presets;
    for i := 0 to |presets|
      invariant next == offset + |PrintMany(PrintNamed, presets[..i])| <= payload.Length
      invariant payload[..next] == old(payload[..offset]) + PrintMany(PrintNamed, presets[..i])
    {
      PrintUpTo(PrintNamed, old(payload[..offset]), presets, i);
      next := WriteNamed(payload, next, presets[i]);
    }
  }

  lemma EqPieces(c: Capability)
    requires c.Eq? && |c.presets| < 0x100
    ensures PrintCapability(c) ==
            [RET_CAPABILITY, c.inquired, c.bandCount, c.levelSteps, |c.presets|] + PrintMany(PrintNamed, c.presets)
  {
    var front, levels := [RET_CAPABILITY, c.inquired], [c.bandCount, c.levelSteps];
    ConcatAssociates(front, levels, PrintCounted(PrintNamed, c.presets));
    CountThenItems(front + levels, PrintNamed, c.presets);
    assert front + levels + [|c.presets|] == [RET_CAPABILITY, c.inquired, c.bandCount, c.levelSteps, |c.presets|];
  }

  /** The equaliser case of mdr_packet_eqebb_to_frame: the buffer is filled to its last byte. */
  method EncodeEq(c: Capability) returns (payload: array<byte>)
    requires CapabilityOk(c) && c.Eq?
    ensures fresh(payload) && payload[..] == PrintCapability(c)
  {
    EqPieces(c);
    var length := SumLength(c.presets);
    payload := new byte[1 + length];
    var offset := WriteByte(payload, 0, RET_CAPABILITY);
    offset := WriteByte(payload, offset, c.inquired);
    offset := WriteByte(payload, offset, c.bandCount);
    offset := WriteByte(payload, offset, c.levelSteps);
    offset := WriteByte(payload, offset, |c.presets|);
    assert payload[..offset] == [RET_CAPABILITY, c.inquired, c.bandCount, c.levelSteps, |c.presets|];
    offset := WritePresets(payload, offset, c.presets);
    assert payload[..offset] == payload[..];
  }

  /** Encoding, then parsing with the loops, gives the capability back. */
  method EncodeThenParse(c: Capability) returns (r: Parsed<Capability>)
    requires CapabilityOk(c) && c.Eq?
    ensures r == Parsed(c, |PrintCapability(c)|)
  {
    var payload := EncodeEq(c);
    var bytes := payload[..];
    CapabilityIsComplete(bytes, 0, c);
    assert bytes[0..0 + |bytes|] == bytes;
    r := CapabilityFromFrame(bytes);
  }
}
