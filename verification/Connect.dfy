/** Device information and the list of supported functions (src/packet/connect.h). */
module Connect {
  import opened Bytes
  import opened Codec
  import opened Cursor

  const RET_DEVICE_INFO: byte := 0x05
  const RET_SUPPORT_FUNCTION: byte := 0x07

  const MODEL_NAME: byte := 0x01
  const FW_VERSION: byte := 0x02
  const SERIES_AND_COLOR: byte := 0x03
  const INSTRUCTION_GUIDE: byte := 0x04

  /** At most this much of a name is stored. */
  const NAME_SPACE: nat := 128

  const SERIES: set<byte> := {0x00, 0x10, 0x20, 0x30, 0x40, 0x50}
  const COLORS: set<byte> := {0x00, 0x01, 0x02, 0x03, 0x04, 0x05, 0x06, 0x07, 0x08, 0x09, 0x0a, 0x0b, 0x0c, 0x0d, 0x0e}
  const CATEGORIES: set<byte> := {0x00, 0x10, 0x20, 0x30, 0x40, 0x50, 0x60}
  const FUNCTION_TYPES: set<byte> := {
    0x00, 0x11, 0x12, 0x13, 0x14, 0x15, 0x17, 0x18, 0x21, 0x22, 0x23, 0x30, 0x38,
    0x39, 0x41, 0x42, 0x51, 0x52, 0x53, 0x61, 0x62, 0x63, 0x71, 0x81, 0x92, 0xa1,
    0xb1, 0xc1, 0xd1, 0xd2, 0xd3, 0xe1, 0xe2, 0xf1, 0xf2, 0xf3, 0xf4, 0xf5, 0xf6
  }

  function Min(a: nat, b: nat): nat {
    if a < b then a else b
  }

  /** A name keeps the length it was announced with, whatever was stored. */
  datatype Info =
    | Name(inquired: byte, len: byte, text: seq<byte>)
    | SeriesAndColor(series: byte, color: byte)
    | InstructionGuide(categories: seq<byte>)
    | SupportedFunctions(types: seq<byte>)

  predicate CategoryOk(b: byte) {
    b in CATEGORIES
  }

  predicate FunctionTypeOk(b: byte) {
    b in FUNCTION_TYPES
  }

  function ParseCategory(payload: seq<byte>, offset: nat): Parsed<byte> {
    ParseEnum(payload, offset, CATEGORIES)
  }

  function ParseFunctionType(payload: seq<byte>, offset: nat): Parsed<byte> {
    ParseEnum(payload, offset, FUNCTION_TYPES)
  }

  predicate InfoOk(v: Info) {
    match v
    case Name(inquired, len, text) => inquired in {MODEL_NAME, FW_VERSION} && |text| == Min(NAME_SPACE, len)
    case SeriesAndColor(series, color) => series in SERIES && color in COLORS
    case InstructionGuide(categories) => CountedOk(CategoryOk, categories)
    case SupportedFunctions(types) => CountedOk(FunctionTypeOk, types)
  }

  function PacketType(v: Info): byte {
    if v.SupportedFunctions? then RET_SUPPORT_FUNCTION else RET_DEVICE_INFO
  }

  /** The byte after the packet type: the inquired type, or a fixed zero. */
  function Second(v: Info): byte {
    match v
    case Name(inquired, _, _) => inquired
    case SeriesAndColor(_, _) => SERIES_AND_COLOR
    case InstructionGuide(_) => INSTRUCTION_GUIDE
    case SupportedFunctions(_) => 0
  }

  function PrintBody(v: Info): seq<byte> {
    match v
    case Name(_, len, text) => [len] + text
    case SeriesAndColor(series, color) => [series, color]
    case InstructionGuide(categories) => PrintCounted(PrintByte, categories)
    case SupportedFunctions(types) => PrintCounted(PrintByte, types)
  }

  /** A packet's bytes as far as they were stored. */
  function PrintInfo(v: Info): seq<byte> {
    [PacketType(v), Second(v)] + PrintBody(v)
  }

  function ParseName(payload: seq<byte>, offset: nat, inquired: byte): Parsed<Info> {
    if offset >= |payload| then Bad
    else
      var len := payload[offset];
      var stored := Min(NAME_SPACE, len);
      if offset + 1 + stored > |payload| then Bad
      else Parsed(Name(inquired, len, payload[offset + 1..offset + 1 + stored]), offset + 1 + stored)
  }

  function ParseSeriesAndColor(payload: seq<byte>, offset: nat): Parsed<Info> {
    match ParseEnum(payload, offset, SERIES)
    case Bad => Bad
    case Parsed(series, next) =>
      match ParseEnum(payload, next, COLORS)
      case Bad => Bad
      case Parsed(color, end) => Parsed(SeriesAndColor(series, color), end)
  }

  function ParseGuide(payload: seq<byte>, offset: nat): Parsed<Info> {
    match ParseCounted(ParseCategory, payload, offset)
    case Bad => Bad
    case Parsed(categories, end) => Parsed(InstructionGuide(categories), end)
  }

  function ParseFunctions(payload: seq<byte>, offset: nat): Parsed<Info> {
    match ParseCounted(ParseFunctionType, payload, offset)
    case Bad => Bad
    case Parsed(types, end) => Parsed(SupportedFunctions(types), end)
  }

  /** The two RET cases of mdr_packet_connect_from_frame, at any offset. */
  function ParseInfo(payload: seq<byte>, offset: nat): Parsed<Info> {
    if offset + 2 > |payload| then Bad
    else
      var packetType, second := payload[offset], payload[offset + 1];
      if packetType == RET_SUPPORT_FUNCTION then
        if second == 0 then ParseFunctions(payload, offset + 2) else Bad
      else if packetType != RET_DEVICE_INFO then Bad
      else if second in {MODEL_NAME, FW_VERSION} then ParseName(payload, offset + 2, second)
      else if second == SERIES_AND_COLOR then ParseSeriesAndColor(payload, offset + 2)
      else if second == INSTRUCTION_GUIDE then ParseGuide(payload, offset + 2)
      else Bad
  }

  // ----- the parser is faithful to what it stores ------------------------------------------

  lemma ItemsFaithful()
    ensures Faithful(ParseCategory, PrintByte, CategoryOk)
    ensures Faithful(ParseFunctionType, PrintByte, FunctionTypeOk)
  {
    EnumFaithful(ParseCategory, CATEGORIES, CategoryOk);
    EnumFaithful(ParseFunctionType, FUNCTION_TYPES, FunctionTypeOk);
  }

  /** What one of the body parsers owes: value v of the right kind, found where its body is printed. */
  lemma NameBody(payload: seq<byte>, offset: nat, inquired: byte)
    requires inquired in {MODEL_NAME, FW_VERSION}
    ensures var r := ParseName(payload, offset, inquired);
            r.Parsed? ==> r.value.Name? && r.value.inquired == inquired && InfoOk(r.value)
                          && r.next == offset + |PrintBody(r.value)| && At(payload, offset, PrintBody(r.value))
  {
    var r := ParseName(payload, offset, inquired);
    if r.Parsed? {
      AtSplit(payload, offset, [r.value.len], r.value.text);
      AtOne(payload, offset, r.value.len);
    }
  }

  lemma ColorBody(payload: seq<byte>, offset: nat, v: Info)
    requires v.SeriesAndColor?
    ensures At(payload, offset, PrintBody(v)) <==>
            offset + 2 <= |payload| && payload[offset] == v.series && payload[offset + 1] == v.color
  {
    HeaderSplit(payload, offset, v.series, v.color, []);
    assert PrintBody(v) + [] == PrintBody(v);
    if offset + 2 <= |payload| {
      assert payload[offset + 2..offset + 2] == [];
    }
  }

  lemma InfoIsCanonical(payload: seq<byte>, offset: nat)
    ensures CanonicalAt(ParseInfo, PrintInfo, InfoOk, payload, offset)
  {
    var r := ParseInfo(payload, offset);
    if r.Parsed? {
      var v := r.value;
      HeaderSplit(payload, offset, PacketType(v), Second(v), PrintBody(v));
      match v
      case Name(inquired, _, _) => NameBody(payload, offset + 2, inquired);
      case SeriesAndColor(_, _) => ColorBody(payload, offset + 2, v);
      case InstructionGuide(_) =>
        ItemsFaithful();
        CountedCanonical(ParseCategory, PrintByte, CategoryOk, payload, offset + 2);
      case SupportedFunctions(_) =>
        ItemsFaithful();
        CountedCanonical(ParseFunctionType, PrintByte, FunctionTypeOk, payload, offset + 2);
    }
  }

  lemma BodyIsFound(payload: seq<byte>, offset: nat, v: Info)
    requires InfoOk(v) && offset + 2 <= |payload|
    requires payload[offset] == PacketType(v) && payload[offset + 1] == Second(v)
    requires At(payload, offset + 2, PrintBody(v))
    ensures ParseInfo(payload, offset) == Parsed(v, offset + 2 + |PrintBody(v)|)
  {
    match v
    case Name(_, len, text) =>
      AtSplit(payload, offset + 2, [len], text);
      AtOne(payload, offset + 2, len);
    case SeriesAndColor(_, _) => ColorBody(payload, offset + 2, v);
    case InstructionGuide(categories) =>
      ItemsFaithful();
      CountedComplete(ParseCategory, PrintByte, CategoryOk, payload, offset + 2, categories);
    case SupportedFunctions(types) =>
      ItemsFaithful();
      CountedComplete(ParseFunctionType, PrintByte, FunctionTypeOk, payload, offset + 2, types);
  }

  lemma InfoIsComplete(payload: seq<byte>, offset: nat, v: Info)
    ensures CompleteAt(ParseInfo, PrintInfo, InfoOk, payload, offset, v)
  {
    if InfoOk(v) && At(payload, offset, PrintInfo(v)) {
      HeaderSplit(payload, offset, PacketType(v), Second(v), PrintBody(v));
      BodyIsFound(payload, offset, v);
    }
  }

  /** What is accepted is stored byte for byte, and what is printed is found again. */
  lemma InfoFaithful()
    ensures Faithful(ParseInfo, PrintInfo, InfoOk)
  {
    forall payload: seq<byte>, offset: nat {
      InfoIsCanonical(payload, offset);
    }
    forall payload: seq<byte>, offset: nat, v: Info {
      InfoIsComplete(payload, offset, v);
    }
  }

  /** A payload is read only as far as it is consumed, and refused when cut any shorter. */
  lemma ShorterIsRejected(payload: seq<byte>, cut: nat)
    requires ParseInfo(payload, 0).Parsed? && cut < ParseInfo(payload, 0).next
    ensures ParseInfo(payload, 0).next <= |payload| && ParseInfo(payload[..cut], 0) == Bad
  {
    InfoFaithful();
    InfoIsCanonical(payload, 0);
    PrefixFree(ParseInfo, PrintInfo, InfoOk, payload, 0, cut);
  }

  // ----- the encoder ---------------------------------------------------------------------------

  /**
   * mdr_packet_connect_to_frame.  A name is copied for its announced length; None stands for
   * reading past the bytes that are stored.
   */
  function ToPayload(v: Info): Option<seq<byte>> {
    if v.Name? && v.len > |v.text| then None
    else if v.Name? then Some([RET_DEVICE_INFO, v.inquired, v.len] + v.text[..v.len])
    else Some(PrintInfo(v))
  }

  /**
   * A payload that was accepted can be encoded again exactly when it is not a name announced
   * with more than 128 bytes, and then the encoding is the bytes that were consumed.
   */
  lemma ReencodesIff(payload: seq<byte>)
    requires ParseInfo(payload, 0).Parsed?
    ensures var r := ParseInfo(payload, 0);
            && r.next <= |payload|
            && (ToPayload(r.value).Some? <==> !(r.value.Name? && payload[2] > NAME_SPACE))
            && (ToPayload(r.value).Some? ==> ToPayload(r.value).value == payload[..r.next])
  {
    InfoIsCanonical(payload, 0);
    var v := ParseInfo(payload, 0).value;
    if v.Name? && v.len <= NAME_SPACE {
      ShortNamesPrint(v);
    }
  }

  lemma ShortNamesPrint(v: Info)
    requires v.Name? && v.len == |v.text|
    ensures ToPayload(v) == Some(PrintInfo(v))
  {
    assert v.text[..v.len] == v.text;
    assert [RET_DEVICE_INFO, v.inquired, v.len] + v.text == PrintInfo(v);
  }

  /** Parsing what the encoder wrote gives back the very value that was encoded. */
  lemma EncoderRoundTrips(v: Info)
    requires InfoOk(v) && ToPayload(v).Some?
    ensures var payload := ToPayload(v).value;
            ParseInfo(payload, 0) == Parsed(v, |payload|)
  {
    var payload := ToPayload(v).value;
    if v.Name? {
      ShortNamesPrint(v);
    }
    assert payload[0..0 + |payload|] == payload;
    InfoIsComplete(payload, 0, v);
  }

  // ----- what a host asks ----------------------------------------------------------------------

  const GET_PROTOCOL_INFO: byte := 0x00
  const GET_DEVICE_INFO: byte := 0x04
  const GET_SUPPORT_FUNCTION: byte := 0x06

  datatype Query = GetProtocolInfo | GetDeviceInfo(inquired: byte) | GetSupportFunction

  predicate QueryOk(q: Query) {
    q.GetDeviceInfo? ==> q.inquired in {MODEL_NAME, FW_VERSION, SERIES_AND_COLOR, INSTRUCTION_GUIDE}
  }

  /** The GET cases of mdr_packet_connect_to_frame. */
  function PrintQuery(q: Query): seq<byte> {
    match q
    case GetProtocolInfo => [GET_PROTOCOL_INFO, 0]
    case GetDeviceInfo(inquired) => [GET_DEVICE_INFO, inquired]
    case GetSupportFunction => [GET_SUPPORT_FUNCTION, 0]
  }

  /** The GET cases of mdr_packet_connect_from_frame. */
  function ParseQuery(payload: seq<byte>, offset: nat): Parsed<Query> {
    if offset + 2 > |payload| then Bad
    else if payload[offset] == GET_DEVICE_INFO then
      match ParseEnum(payload, offset + 1, {MODEL_NAME, FW_VERSION, SERIES_AND_COLOR, INSTRUCTION_GUIDE})
      case Bad => Bad
      case Parsed(inquired, end) => Parsed(GetDeviceInfo(inquired), end)
    else if payload[offset + 1] != 0 then Bad
    else if payload[offset] == GET_PROTOCOL_INFO then Parsed(GetProtocolInfo, offset + 2)
    else if payload[offset] == GET_SUPPORT_FUNCTION then Parsed(GetSupportFunction, offset + 2)
    else Bad
  }

  lemma QueryAt(payload: seq<byte>, offset: nat, q: Query)
    ensures At(payload, offset, PrintQuery(q)) <==>
            offset + 2 <= |payload| && payload[offset] == PrintQuery(q)[0] && payload[offset + 1] == PrintQuery(q)[1]
  {
    HeaderSplit(payload, offset, PrintQuery(q)[0], PrintQuery(q)[1], []);
    assert PrintQuery(q) == [PrintQuery(q)[0], PrintQuery(q)[1]] + [];
    if offset + 2 <= |payload| {
      assert payload[offset + 2..offset + 2] == [];
    }
  }

  /** A query is parsed from its two bytes and from no others. */
  lemma QueryFaithful()
    ensures Faithful(ParseQuery, PrintQuery, QueryOk)
  {
    forall payload: seq<byte>, offset: nat
      ensures CanonicalAt(ParseQuery, PrintQuery, QueryOk, payload, offset)
    {
      if ParseQuery(payload, offset).Parsed? {
        QueryAt(payload, offset, ParseQuery(payload, offset).value);
      }
    }
    forall payload: seq<byte>, offset: nat, q: Query
      ensures CompleteAt(ParseQuery, PrintQuery, QueryOk, payload, offset, q)
    {
      QueryAt(payload, offset, q);
    }
  }

  // ----- the loops ------------------------------------------------------------------------------

  /** mdr_packet_connect_from_frame on these two packet types. */
  method InfoFromFrame(payload: seq<byte>) returns (r: Parsed<Info>)
    ensures r == ParseInfo(payload, 0)
  {
    if |payload| == 0 {
      return Bad;
    }
    if payload[0] == RET_SUPPORT_FUNCTION {
      var fixed := ParseEnum(payload, 1, {0});
      if fixed == Bad || |payload| < 3 {
        return Bad;
      }
      var types := ParseEnums(ParseFunctionType, payload, 3, payload[2], FUNCTION_TYPES);
      return if types == Bad then Bad else Parsed(SupportedFunctions(types.value), types.next);
    }
    if payload[0] != RET_DEVICE_INFO {
      return Bad;
    }
    var inquired := ParseEnum(payload, 1, {MODEL_NAME, FW_VERSION, SERIES_AND_COLOR, INSTRUCTION_GUIDE});
    if inquired == Bad {
      return Bad;
    }
    if inquired.value == SERIES_AND_COLOR {
      var series := ParseEnum(payload, 2, SERIES);
      if series == Bad {
        return Bad;
      }
      var color := ParseEnum(payload, 3, COLORS);
      return if color == Bad then Bad else Parsed(SeriesAndColor(series.value, color.value), color.next);
    }
    if |payload| < 3 {
      return Bad;
    }
    if inquired.value == INSTRUCTION_GUIDE {
      var categories := ParseEnums(ParseCategory, payload, 3, payload[2], CATEGORIES);
      return if categories == Bad then Bad else Parsed(InstructionGuide(categories.value), categories.next);
    }
    var stored := Min(NAME_SPACE, payload[2]);
    if 3 + stored > |payload| {
      return Bad;
    }
    return Parsed(Name(inquired.value, payload[2], payload[3..3 + stored]), 3 + stored);
  }

  /** The buffer of one length byte more than the announced list is filled to its end. */
  method EncodeCounted(packetType: byte, second: byte, items: seq<byte>) returns (payload: array<byte>)
    requires |items| < 0x100
    ensures fresh(payload) && payload[..] == [packetType, second] + PrintCounted(PrintByte, items)
  {
    payload := new byte[1 + (2 + |items|)];
    var offset := WriteByte(payload, 0, packetType);
    offset := WriteByte(payload, offset, second);
    offset := WriteByte(payload, offset, |items|);
    assert payload[..offset] == [packetType, second] + [|items|];
    offset := WriteBytes(payload, offset, items);
    assert payload[..offset] == payload[..];
    PrintManyBytes(items);
    CountThenItems([packetType, second], PrintByte, items);
  }

  /** Encoding, then parsing with the loops, gives the list of functions back. */
  method EncodeThenParse(types: seq<byte>) returns (r: Parsed<Info>)
    requires CountedOk(FunctionTypeOk, types)
    ensures r == Parsed(SupportedFunctions(types), 3 + |types|)
  {
    var payload := EncodeCounted(RET_SUPPORT_FUNCTION, 0, types);
    EncoderRoundTrips(SupportedFunctions(types));
    PrintManyBytes(types);
    r := InfoFromFrame(payload[..]);
  }
}
