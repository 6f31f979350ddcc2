/** The system capability packet (src/packet/system.h), chiefly its three-deep assignable settings. */
module Settings {
  import opened Bytes
  import opened Codec

  const RET_CAPABILITY: byte := 0xf1

  const AUTO_POWER_OFF: byte := 0x04
  const SMART_TALKING_MODE: byte := 0x05
  const ASSIGNABLE_SETTINGS: byte := 0x06

  const ACTIONS: set<byte> := {0x00, 0x01, 0x02, 0x10, 0x11, 0x21, 0x22}
  const FUNCTIONS: set<byte> :=
    {0x00, 0x01, 0x02, 0x10, 0x11, 0x12, 0x20, 0x21, 0x22, 0x30, 0x31, 0x32, 0x33, 0x34, 0x35, 0x36}
  const PRESETS: set<byte> := {0x00, 0x10, 0x20, 0x30, 0x31, 0x32, 0x33, 0xff}
  const KEYS: set<byte> := {0x00, 0x01, 0x02, 0x03}
  const KEY_TYPES: set<byte> := {0x00, 0x01}
  const ELEMENT_IDS: set<byte> := {0x00, 0x01, 0x02, 0x03, 0x10, 0x11}

  // ----- actions, presets, keys -----------------------------------------------------

  datatype Action = Action(action: byte, effect: byte)

  predicate ActionOk(a: Action) {
    a.action in ACTIONS && a.effect in FUNCTIONS
  }

  function PrintAction(a: Action): seq<byte> {
    [a.action, a.effect]
  }

  function ParseAction(payload: seq<byte>, offset: nat): Parsed<Action> {
    match ParseEnum(payload, offset, ACTIONS)
    case Bad => Bad
    case Parsed(action, next) =>
      match ParseEnum(payload, next, FUNCTIONS)
      case Bad => Bad
      case Parsed(effect, end) => Parsed(Action(action, effect), end)
  }

  datatype Preset = Preset(preset: byte, actions: seq<Action>)

  predicate PresetOk(p: Preset) {
    p.preset in PRESETS && CountedOk(ActionOk, p.actions)
  }

  function PrintPreset(p: Preset): seq<byte> {
    [p.preset] + PrintCounted(PrintAction, p.actions)
  }

  function ParsePreset(payload: seq<byte>, offset: nat): Parsed<Preset> {
    match ParseEnum(payload, offset, PRESETS)
    case Bad => Bad
    case Parsed(preset, next) =>
      match ParseCounted(ParseAction, payload, next)
      case Bad => Bad
      case Parsed(actions, end) => Parsed(Preset(preset, actions), end)
  }

  datatype Key = Key(key: byte, keyType: byte, defaultPreset: byte, presets: seq<Preset>)

  predicate KeyOk(k: Key) {
    k.key in KEYS && k.keyType in KEY_TYPES && k.defaultPreset in PRESETS && CountedOk(PresetOk, k.presets)
  }

  function PrintKey(k: Key): seq<byte> {
    [k.key] + ([k.keyType] + ([k.defaultPreset] + PrintCounted(PrintPreset, k.presets)))
  }

  function ParseKey(payload: seq<byte>, offset: nat): Parsed<Key> {
    match ParseEnum(payload, offset, KEYS)
    case Bad => Bad
    case Parsed(key, o1) =>
      match ParseEnum(payload, o1, KEY_TYPES)
      case Bad => Bad
      case Parsed(keyType, o2) =>
        match ParseEnum(payload, o2, PRESETS)
        case Bad => Bad
        case Parsed(defaultPreset, o3) =>
          match ParseCounted(ParsePreset, payload, o3)
          case Bad => Bad
          case Parsed(presets, end) => Parsed(Key(key, keyType, defaultPreset, presets), end)
  }

  // ----- each level is faithful --------------------------------------------------------

  lemma ActionFaithful()
    ensures Faithful(ParseAction, PrintAction, ActionOk)
  {
    forall payload: seq<byte>, offset: nat, a: Action
      ensures At(payload, offset, PrintAction(a)) <==>
              offset + 1 < |payload| && payload[offset] == a.action && payload[offset + 1] == a.effect
    {
      AtSplit(payload, offset, [a.action], [a.effect]);
      AtOne(payload, offset, a.action);
      AtOne(payload, offset + 1, a.effect);
    }
    assert forall payload: seq<byte>, offset: nat :: CanonicalAt(ParseAction, PrintAction, ActionOk, payload, offset);
    assert forall payload: seq<byte>, offset: nat, a: Action ::
        CompleteAt(ParseAction, PrintAction, ActionOk, payload, offset, a);
  }

  lemma PresetFaithful()
    ensures Faithful(ParsePreset, PrintPreset, PresetOk)
  {
    ActionFaithful();
    forall payload: seq<byte>, offset: nat
      ensures CanonicalAt(ParsePreset, PrintPreset, PresetOk, payload, offset)
    {
      if ParsePreset(payload, offset).Parsed? {
        var p := ParsePreset(payload, offset).value;
        CountedCanonical(ParseAction, PrintAction, ActionOk, payload, offset + 1);
        AtOne(payload, offset, p.preset);
        AtSplit(payload, offset, [p.preset], PrintCounted(PrintAction, p.actions));
      }
    }
    forall payload: seq<byte>, offset: nat, p: Preset
      ensures CompleteAt(ParsePreset, PrintPreset, PresetOk, payload, offset, p)
    {
      if PresetOk(p) && At(payload, offset, PrintPreset(p)) {
        AtSplit(payload, offset, [p.preset], PrintCounted(PrintAction, p.actions));
        AtOne(payload, offset, p.preset);
        CountedComplete(ParseAction, PrintAction, ActionOk, payload, offset + 1, p.actions);
      }
    }
  }

  lemma KeyHeader(payload: seq<byte>, offset: nat, k: Key)
    ensures At(payload, offset, PrintKey(k)) <==>
            && At(payload, offset, [k.key]) && At(payload, offset + 1, [k.keyType])
            && At(payload, offset + 2, [k.defaultPreset])
            && At(payload, offset + 3, PrintCounted(PrintPreset, k.presets))
  {
    var presets := PrintCounted(PrintPreset, k.presets);
    AtSplit(payload, offset, [k.key], [k.keyType] + ([k.defaultPreset] + presets));
    AtSplit(payload, offset + 1, [k.keyType], [k.defaultPreset] + presets);
    AtSplit(payload, offset + 2, [k.defaultPreset], presets);
  }

  lemma KeyFaithful()
    ensures Faithful(ParseKey, PrintKey, KeyOk)
  {
    PresetFaithful();
    forall payload: seq<byte>, offset: nat
      ensures CanonicalAt(ParseKey, PrintKey, KeyOk, payload, offset)
    {
      if ParseKey(payload, offset).Parsed? {
        var k := ParseKey(payload, offset).value;
        CountedCanonical(ParsePreset, PrintPreset, PresetOk, payload, offset + 3);
        AtOne(payload, offset, k.key);
        AtOne(payload, offset + 1, k.keyType);
        AtOne(payload, offset + 2, k.defaultPreset);
        KeyHeader(payload, offset, k);
      }
    }
    forall payload: seq<byte>, offset: nat, k: Key
      ensures CompleteAt(ParseKey, PrintKey, KeyOk, payload, offset, k)
    {
      if KeyOk(k) && At(payload, offset, PrintKey(k)) {
        KeyHeader(payload, offset, k);
        AtOne(payload, offset, k.key);
        AtOne(payload, offset + 1, k.keyType);
        AtOne(payload, offset + 2, k.defaultPreset);
        CountedComplete(ParsePreset, PrintPreset, PresetOk, payload, offset + 3, k.presets);
      }
    }
  }

  // ----- the packet --------------------------------------------------------------------

  predicate ElementIdOk(b: byte) {
    b in ELEMENT_IDS
  }

  function ParseElementId(payload: seq<byte>, offset: nat): Parsed<byte> {
    ParseEnum(payload, offset, ELEMENT_IDS)
  }

  /** The inquired types with one setting-type byte are 1, 2 and 3. */
  datatype Capability =
    | OnOff(inquired: byte, settingType: byte)
    | AutoPowerOff(elementIds: seq<byte>)
    | SmartTalking(settingType: byte, previewType: byte, details: seq<byte>, timeouts: seq<byte>)
    | Assignable(keys: seq<Key>)

  /** Detail setting, sensitivity, voice focus and mode-out time each have the one value 0. */
  const DETAILS: seq<byte> := [0, 0, 0, 0]

  predicate CapabilityOk(c: Capability) {
    match c
    case OnOff(inquired, settingType) => inquired in {0x01, 0x02, 0x03} && settingType == 0
    case AutoPowerOff(ids) => CountedOk(ElementIdOk, ids)
    case SmartTalking(settingType, previewType, details, timeouts) =>
      settingType == 0 && previewType in {0, 1} && details == DETAILS && |timeouts| == 4
    case Assignable(keys) => CountedOk(KeyOk, keys)
  }

  /** The payload that stands for a capability. */
  function PrintCapability(c: Capability): seq<byte> {
    match c
    case OnOff(inquired, settingType) => [RET_CAPABILITY, inquired] + [settingType]
    case AutoPowerOff(ids) => [RET_CAPABILITY, AUTO_POWER_OFF] + PrintCounted(PrintByte, ids)
    case SmartTalking(settingType, previewType, details, timeouts) =>
      [RET_CAPABILITY, SMART_TALKING_MODE] + ([settingType, previewType] + details + timeouts)
    case Assignable(keys) => [RET_CAPABILITY, ASSIGNABLE_SETTINGS] + PrintCounted(PrintKey, keys)
  }

  function ParseSmartTalking(payload: seq<byte>, offset: nat): Parsed<Capability> {
    if offset + 10 <= |payload| && payload[offset] == 0 && payload[offset + 1] in {0, 1}
       && payload[offset + 2..offset + 6] == DETAILS
    then
      Parsed(SmartTalking(payload[offset], payload[offset + 1], DETAILS, payload[offset + 6..offset + 10]), offset + 10)
    else Bad
  }

  /** The MDR_PACKET_SYSTEM_RET_CAPABILITY case of mdr_packet_system_from_frame, at any offset. */
  function ParseCapability(payload: seq<byte>, offset: nat): Parsed<Capability> {
    if offset + 2 > |payload| || payload[offset] != RET_CAPABILITY then Bad
    else
      var inquired, start := payload[offset + 1], offset + 2;
      if inquired in {0x01, 0x02, 0x03} then
        match ParseEnum(payload, start, {0})
        case Bad => Bad
        case Parsed(settingType, end) => Parsed(OnOff(inquired, settingType), end)
      else if inquired == AUTO_POWER_OFF then
        match ParseCounted(ParseElementId, payload, start)
        case Bad => Bad
        case Parsed(ids, end) => Parsed(AutoPowerOff(ids), end)
      else if inquired == SMART_TALKING_MODE then ParseSmartTalking(payload, start)
      else if inquired == ASSIGNABLE_SETTINGS then
        match ParseCounted(ParseKey, payload, start)
        case Bad => Bad
        case Parsed(keys, end) => Parsed(Assignable(keys), end)
      else Bad
  }

  function InquiredOf(c: Capability): byte {
    match c
    case OnOff(inquired, _) => inquired
    case AutoPowerOff(_) => AUTO_POWER_OFF
    case SmartTalking(_, _, _, _) => SMART_TALKING_MODE
    case Assignable(_) => ASSIGNABLE_SETTINGS
  }

  /** What follows the packet type and the inquired type. */
  function PrintBody(c: Capability): seq<byte> {
    match c
    case OnOff(_, settingType) => [settingType]
    case AutoPowerOff(ids) => PrintCounted(PrintByte, ids)
    case SmartTalking(settingType, previewType, details, timeouts) => [settingType, previewType] + details + timeouts
    case Assignable(keys) => PrintCounted(PrintKey, keys)
  }

  lemma CapabilityHeader(payload: seq<byte>, offset: nat, c: Capability)
    ensures At(payload, offset, PrintCapability(c)) <==>
            && offset + 2 <= |payload| && payload[offset] == RET_CAPABILITY && payload[offset + 1] == InquiredOf(c)
            && At(payload, offset + 2, PrintBody(c))
    ensures |PrintCapability(c)| == 2 + |PrintBody(c)|
  {
    assert PrintCapability(c) == [RET_CAPABILITY, InquiredOf(c)] + PrintBody(c);
    HeaderSplit(payload, offset, RET_CAPABILITY, InquiredOf(c), PrintBody(c));
  }

  lemma SmartTalkingParses(payload: seq<byte>, offset: nat)
    ensures var r := ParseSmartTalking(payload, offset);
            r.Parsed? ==> CapabilityOk(r.value) && r.value.SmartTalking? && r.next == offset + 10
                          && At(payload, offset, PrintBody(r.value))
  {
    var r := ParseSmartTalking(payload, offset);
    if r.Parsed? {
      var details, timeouts := payload[offset + 2..offset + 6], payload[offset + 6..offset + 10];
      assert payload[offset..offset + 10] == [payload[offset], payload[offset + 1]] + details + timeouts;
    }
  }

  lemma SmartTalkingIsFound(payload: seq<byte>, offset: nat, c: Capability)
    requires CapabilityOk(c) && c.SmartTalking? && At(payload, offset, PrintBody(c))
    ensures ParseSmartTalking(payload, offset) == Parsed(c, offset + 10)
  {
    var body := PrintBody(c);
    assert |body| == 10 && body == payload[offset..offset + 10];
    assert payload[offset] == body[0] && payload[offset + 1] == body[1];
    SliceOfSlice(payload, offset, 10, 2, 6);
    SliceOfSlice(payload, offset, 10, 6, 10);
    assert body[2..6] == c.details && body[6..10] == c.timeouts;
  }

  lemma ElementIdsAreFound(payload: seq<byte>, offset: nat, ids: seq<byte>)
    requires CountedOk(ElementIdOk, ids) && At(payload, offset, PrintCounted(PrintByte, ids))
    ensures ParseCounted(ParseElementId, payload, offset) == Parsed(ids, offset + |PrintCounted(PrintByte, ids)|)
  {
    EnumFaithful(ParseElementId, ELEMENT_IDS, ElementIdOk);
    CountedComplete(ParseElementId, PrintByte, ElementIdOk, payload, offset, ids);
  }

  lemma KeysAreFound(payload: seq<byte>, offset: nat, keys: seq<Key>)
    requires CountedOk(KeyOk, keys) && At(payload, offset, PrintCounted(PrintKey, keys))
    ensures ParseCounted(ParseKey, payload, offset) == Parsed(keys, offset + |PrintCounted(PrintKey, keys)|)
  {
    KeyFaithful();
    CountedComplete(ParseKey, PrintKey, KeyOk, payload, offset, keys);
  }

  /** What follows the header is the printed form of what was parsed. */
  lemma BodyIsPrinted(payload: seq<byte>, offset: nat)
    requires ParseCapability(payload, offset).Parsed?
    ensures var r := ParseCapability(payload, offset);
            && CapabilityOk(r.value) && payload[offset + 1] == InquiredOf(r.value)
            && At(payload, offset + 2, PrintBody(r.value)) && r.next == offset + 2 + |PrintBody(r.value)|
  {
    match ParseCapability(payload, offset).value
    case OnOff(_, _) => AtOne(payload, offset + 2, 0);
    case AutoPowerOff(_) =>
      EnumFaithful(ParseElementId, ELEMENT_IDS, ElementIdOk);
      CountedCanonical(ParseElementId, PrintByte, ElementIdOk, payload, offset + 2);
    case SmartTalking(_, _, _, _) => SmartTalkingParses(payload, offset + 2);
    case Assignable(_) =>
      KeyFaithful();
      CountedCanonical(ParseKey, PrintKey, KeyOk, payload, offset + 2);
  }

  lemma CapabilityIsCanonical(payload: seq<byte>, offset: nat)
    ensures CanonicalAt(ParseCapability, PrintCapability, CapabilityOk, payload, offset)
  {
    var r := ParseCapability(payload, offset);
    if r.Parsed? {
      BodyIsPrinted(payload, offset);
      CapabilityHeader(payload, offset, r.value);
    }
  }

  lemma BodyIsFound(payload: seq<byte>, offset: nat, c: Capability)
    requires CapabilityOk(c) && offset + 2 <= |payload|
    requires payload[offset] == RET_CAPABILITY && payload[offset + 1] == InquiredOf(c)
    requires At(payload, offset + 2, PrintBody(c))
    ensures ParseCapability(payload, offset) == Parsed(c, offset + 2 + |PrintBody(c)|)
  {
    match c
    case OnOff(_, settingType) => AtOne(payload, offset + 2, settingType);
    case AutoPowerOff(ids) => ElementIdsAreFound(payload, offset + 2, ids);
    case SmartTalking(_, _, _, _) => SmartTalkingIsFound(payload, offset + 2, c);
    case Assignable(keys) => KeysAreFound(payload, offset + 2, keys);
  }

  lemma CapabilityIsComplete(payload: seq<byte>, offset: nat, c: Capability)
    ensures CompleteAt(ParseCapability, PrintCapability, CapabilityOk, payload, offset, c)
  {
    if CapabilityOk(c) && At(payload, offset, PrintCapability(c)) {
      CapabilityHeader(payload, offset, c);
      BodyIsFound(payload, offset, c);
    }
  }

  /** Every capability packet parses back from its payload, and only its payload parses to it. */
  lemma CapabilityFaithful()
    ensures Faithful(ParseCapability, PrintCapability, CapabilityOk)
  {
    forall payload: seq<byte>, offset: nat {
      CapabilityIsCanonical(payload, offset);
    }
    forall payload: seq<byte>, offset: nat, c: Capability {
      CapabilityIsComplete(payload, offset, c);
    }
  }

  /** A capability is read only as far as it is consumed, and refused when cut any shorter. */
  lemma ShorterIsRejected(payload: seq<byte>, offset: nat, cut: nat)
    requires ParseCapability(payload, offset).Parsed? && cut < ParseCapability(payload, offset).next
    ensures ParseCapability(payload, offset).next <= |payload| && ParseCapability(payload[..cut], offset) == Bad
  {
    CapabilityFaithful();
    CapabilityIsCanonical(payload, offset);
    PrefixFree(ParseCapability, PrintCapability, CapabilityOk, payload, offset, cut);
  }

  // ----- the encoder as written --------------------------------------------------------------

  /**
   * mdr_packet_system_to_frame.  The smart-talking case has no break: it runs on into the
   * assignable-settings case, which builds a new frame and reads its key count from the first
   * byte of the union, where the setting type 0 lies.
   */
  function ToPayload(c: Capability): seq<byte>
    requires CapabilityOk(c)
  {
    if c.SmartTalking? then [RET_CAPABILITY, SMART_TALKING_MODE, c.settingType] else PrintCapability(c)
  }

  /** What the encoder sends parses back exactly for the capabilities other than smart talking. */
  lemma EncoderRoundTripsIff(c: Capability)
    requires CapabilityOk(c)
    ensures ParseCapability(ToPayload(c), 0) == Parsed(c, |ToPayload(c)|) <==> !c.SmartTalking?
  {
    if !c.SmartTalking? {
      var p := PrintCapability(c);
      assert p[0..0 + |p|] == p;
      CapabilityIsComplete(p, 0, c);
    }
  }

  /** A payload the parser accepts is re-encoded to just the bytes it consumed, smart talking apart. */
  lemma ReencodingIsCanonical(payload: seq<byte>)
    requires ParseCapability(payload, 0).Parsed?
    ensures var r := ParseCapability(payload, 0);
            && CapabilityOk(r.value) && r.next <= |payload|
            && (ToPayload(r.value) == payload[..r.next] <==> !r.value.SmartTalking?)
  {
    CapabilityIsCanonical(payload, 0);
  }
}
