/**
 * The loops of src/packet/system.h for the assignable-settings capability: three nested
 * parsing loops over a cursor, and an encoder that sums a length and then fills a buffer.
 * Each nesting level is one method here.
 */
module SettingsCode {
  import opened Bytes
  import opened Codec
  import opened Cursor
  import opened Settings

  // ----- parsing ---------------------------------------------------------------------

  method ParseActions(payload: seq<byte>, start: nat, count: byte) returns (r: Parsed<seq<Action>>)
    ensures r == ParseMany(ParseAction, payload, start, count)
  {
    var actions, offset := [], start;
    PrependNothing(ParseMany(ParseAction, payload, start, count));
    for i := 0 to count
      invariant Prepend(actions, ParseMany(ParseAction, payload, offset, count - i)) ==
                ParseMany(ParseAction, payload, start, count)
    {
      PrependOne(ParseAction, payload, offset, count - i, actions);
      var action := ParseEnum(payload, offset, ACTIONS);
      if action == Bad {
        return Bad;
      }
      var effect := ParseEnum(payload, action.next, FUNCTIONS);
      if effect == Bad {
        return Bad;
      }
      actions := actions + [Action(action.value, effect.value)];
      offset := effect.next;
    }
    assert actions + [] == actions;
    r := Parsed(actions, offset);
  }

  method ParsePresets(payload: seq<byte>, start: nat, count: byte) returns (r: Parsed<seq<Preset>>)
    ensures r == ParseMany(ParsePreset, payload, start, count)
  {
    var presets, offset := [], start;
    PrependNothing(ParseMany(ParsePreset, payload, start, count));
    for i := 0 to count
      invariant Prepend(presets, ParseMany(ParsePreset, payload, offset, count - i)) ==
                ParseMany(ParsePreset, payload, start, count)
    {
      PrependOne(ParsePreset, payload, offset, count - i, presets);
      var preset := ParseEnum(payload, offset, PRESETS);
      if preset == Bad || preset.next >= |payload| {
        return Bad;
      }
      var actions := ParseActions(payload, preset.next + 1, payload[preset.next]);
      if actions == Bad {
        return Bad;
      }
      presets := presets + [Preset(preset.value, actions.value)];
      offset := actions.next;
    }
    assert presets + [] == presets;
    r := Parsed(presets, offset);
  }

  method ParseKeys(payload: seq<byte>, start: nat, count: byte) returns (r: Parsed<seq<Key>>)
    ensures r == ParseMany(ParseKey, payload, start, count)
  {
    var keys, offset := [], start;
    PrependNothing(ParseMany(ParseKey, payload, start, count));
    for i := 0 to count
      invariant Prepend(keys, ParseMany(ParseKey, payload, offset, count - i)) ==
                ParseMany(ParseKey, payload, start, count)
    {
      PrependOne(ParseKey, payload, offset, count - i, keys);
      var key := ParseEnum(payload, offset, KEYS);
      if key == Bad {
        return Bad;
      }
      var keyType := ParseEnum(payload, key.next, KEY_TYPES);
      if keyType == Bad {
        return Bad;
      }
      var defaultPreset := ParseEnum(payload, keyType.next, PRESETS);
      if defaultPreset == Bad || defaultPreset.next >= |payload| {
        return Bad;
      }
      var presets := ParsePresets(payload, defaultPreset.next + 1, payload[defaultPreset.next]);
      if presets == Bad {
        return Bad;
      }
      keys := keys + [Key(key.value, keyType.value, defaultPreset.value, presets.value)];
      offset := presets.next;
    }
    assert keys + [] == keys;
    r := Parsed(keys, offset);
  }

  lemma DetailIsZero(payload: seq<byte>, start: nat, i: nat)
    requires i < 4
    ensures start + 4 <= |payload| && payload[start..start + 4] == DETAILS ==> payload[start + i] == 0
  {
    if start + 4 <= |payload| {
      assert payload[start..start + 4][i] == payload[start + i];
    }
  }

  method ParseSmartTalkingFields(payload: seq<byte>, start: nat) returns (r: Parsed<Capability>)
    ensures r == ParseSmartTalking(payload, start)
  {
    var settingType := ParseEnum(payload, start, {0});
    if settingType == Bad {
      return Bad;
    }
    var previewType := ParseEnum(payload, settingType.next, {0, 1});
    if previewType == Bad {
      return Bad;
    }
    var offset := previewType.next;
    for i := 0 to 4
      invariant offset == start + 2 + i <= |payload| && payload[start + 2..offset] == DETAILS[..i]
    {
      DetailIsZero(payload, start + 2, i);
      var detail := ParseEnum(payload, offset, {0});
      if detail == Bad {
        return Bad;
      }
      assert payload[start + 2..offset + 1] == payload[start + 2..offset] + [payload[offset]];
      offset := detail.next;
    }
    if offset + 4 > |payload| {
      return Bad;
    }
    r := Parsed(SmartTalking(settingType.value, previewType.value, DETAILS, payload[offset..offset + 4]), offset + 4);
  }

  /**
   * mdr_packet_system_from_frame on a frame whose payload has the RET_CAPABILITY type: a
   * payload is accepted or refused just as ParseCapability says.
   */
  method CapabilityFromFrame(payload: seq<byte>) returns (r: Parsed<Capability>)
    ensures r == ParseCapability(payload, 0)
  {
    if |payload| == 0 || payload[0] != RET_CAPABILITY {
      return Bad;
    }
    var inquired := ParseEnum(payload, 1, {0x01, 0x02, 0x03, AUTO_POWER_OFF, SMART_TALKING_MODE, ASSIGNABLE_SETTINGS});
    if inquired == Bad {
      return Bad;
    }
    if inquired.value in {0x01, 0x02, 0x03} {
      var settingType := ParseEnum(payload, 2, {0});
      if settingType == Bad {
        return Bad;
      }
      return Parsed(OnOff(inquired.value, settingType.value), settingType.next);
    }
    if inquired.value == SMART_TALKING_MODE {
      r := ParseSmartTalkingFields(payload, 2);
      return;
    }
    if |payload| < 3 {
      return Bad;
    }
    if inquired.value == AUTO_POWER_OFF {
      var ids := ParseEnums(ParseElementId, payload, 3, payload[2], ELEMENT_IDS);
      return if ids == Bad then Bad else Parsed(AutoPowerOff(ids.value), ids.next);
    }
    var keys := ParseKeys(payload, 3, payload[2]);
    return if keys == Bad then Bad else Parsed(Assignable(keys.value), keys.next);
  }

  // ----- the first pass: the length --------------------------------------------------

  function ActionsLength(actions: seq<Action>): nat {
    2 * |actions|
  }

  function PresetsLength(presets: seq<Preset>): nat {
    if presets == [] then 0
    else 2 + ActionsLength(presets[0].actions) + PresetsLength(presets[1..])
  }

  function KeysLength(keys: seq<Key>): nat {
    if keys == [] then 0 else 4 + PresetsLength(keys[0].presets) + KeysLength(keys[1..])
  }

  lemma {:induction false} ActionsLengthIsPrinted(actions: seq<Action>)
    ensures |PrintMany(PrintAction, actions)| == ActionsLength(actions)
  {
    if actions != [] {
      ActionsLengthIsPrinted(actions[1..]);
    }
  }

  lemma {:induction false} PresetsLengthIsPrinted(presets: seq<Preset>)
    ensures |PrintMany(PrintPreset, presets)| == PresetsLength(presets)
  {
    if presets != [] {
      ActionsLengthIsPrinted(presets[0].actions);
      PresetsLengthIsPrinted(presets[1..]);
    }
  }

  /** The two passes agree: what the first sums is what the second writes. */
  lemma {:induction false} KeysLengthIsPrinted(keys: seq<Key>)
    ensures |PrintMany(PrintKey, keys)| == KeysLength(keys)
  {
    if keys != [] {
      PresetsLengthIsPrinted(keys[0].presets);
      KeysLengthIsPrinted(keys[1..]);
    }
  }

  lemma {:induction false} PresetsLengthBound(presets: seq<Preset>)
    requires AllOk(PresetOk, presets)
    ensures PresetsLength(presets) <= 512 * |presets|
  {
    if presets != [] {
      assert PresetOk(presets[0]);
      PresetsLengthBound(presets[1..]);
    }
  }

  lemma {:induction false} KeysLengthBound(keys: seq<Key>)
    requires AllOk(KeyOk, keys)
    ensures KeysLength(keys) <= 130_564 * |keys|
  {
    if keys != [] {
      assert KeyOk(keys[0]);
      PresetsLengthBound(keys[0].presets);
      KeysLengthBound(keys[1..]);
    }
  }

  /** `length` is a C int, and it does not overflow for any capability a packet can hold. */
  lemma LengthFitsInt(keys: seq<Key>)
    requires CountedOk(KeyOk, keys)
    ensures 2 + KeysLength(keys) < 0x8000_0000
  {
    KeysLengthBound(keys);
  }

  lemma CapabilityPieces(keys: seq<Key>)
    requires |keys| < 0x100
    ensures PrintCapability(Assignable(keys)) ==
            [RET_CAPABILITY, ASSIGNABLE_SETTINGS, |keys|] + PrintMany(PrintKey, keys)
  {
    CountThenItems([RET_CAPABILITY, ASSIGNABLE_SETTINGS], PrintKey, keys);
  }

  method SumLength(keys: seq<Key>) returns (length: nat)
    ensures length == |PrintCapability(Assignable(keys))| - 1
  {
    length := 2;
    assert keys[0..] == keys;
    for i := 0 to |keys|
      invariant length + KeysLength(keys[i..]) == 2 + KeysLength(keys)
    {
      assert keys[i..][0] == keys[i] && keys[i..][1..] == keys[i + 1..];
      length := length + 4;
      var presets := keys[i].presets;
      ghost var before := length;
      assert presets[0..] == presets;
      for j := 0 to |presets|
        invariant length + PresetsLength(presets[j..]) == before + PresetsLength(presets)
      {
        assert presets[j..][0] == presets[j] && presets[j..][1..] == presets[j + 1..];
        length := length + 2;
        length := length + |presets[j].actions| * 2;
      }
      assert presets[|presets|..] == [];
    }
    assert keys[|keys|..] == [];
    KeysLengthIsPrinted(keys);
  }

  // ----- the second pass: the bytes -----------------------------------------------------

  method WriteActions(payload: array<byte>, offset: nat, actions: seq<Action>) returns (next: nat)
    requires offset + |PrintMany(PrintAction, actions)| <= payload.Length
    modifies payload
    ensures next == offset + |PrintMany(PrintAction, actions)|
    ensures payload[..next] == old(payload[..offset]) + PrintMany(PrintAction, actions)
  {
    next := offset;
    assert actions[..0] == [] && actions[..|actions|] == actions;
    for i := 0 to |actions|
      invariant next == offset + |PrintMany(PrintAction, actions[..i])| <= payload.Length
      invariant payload[..next] == old(payload[..offset]) + PrintMany(PrintAction, actions[..i])
    {
      PrintUpTo(PrintAction, old(payload[..offset]), actions, i);
      next := WriteByte(payload, next, actions[i].action);
      next := WriteByte(payload, next, actions[i].effect);
    }
  }

  lemma PresetPieces(before: seq<byte>, p: Preset)
    requires |p.actions| < 0x100
    ensures before + [p.preset] + [|p.actions|] + PrintMany(PrintAction, p.actions) == before + PrintPreset(p)
  {
    var actions := PrintMany(PrintAction, p.actions);
    assert PrintPreset(p) == [p.preset, |p.actions|] + actions;
    assert before + [p.preset] + [|p.actions|] == before + [p.preset, |p.actions|];
  }

  method WritePreset(payload: array<byte>, offset: nat, preset: Preset) returns (next: nat)
    requires offset + |PrintPreset(preset)| <= payload.Length && PresetOk(preset)
    modifies payload
    ensures next == offset + |PrintPreset(preset)|
    ensures payload[..next] == old(payload[..offset]) + PrintPreset(preset)
  {
    next := WriteByte(payload, offset, preset.preset);
    next := WriteByte(payload, next, |preset.actions|);
    next := WriteActions(payload, next, preset.actions);
    PresetPieces(old(payload[..offset]), preset);
  }

  method WritePresets(payload: array<byte>, offset: nat, presets: seq<Preset>) returns (next: nat)
    requires offset + |PrintMany(PrintPreset, presets)| <= payload.Length && AllOk(PresetOk, presets)
    modifies payload
    ensures next == offset + |PrintMany(PrintPreset, presets)|
    ensures payload[..next] == old(payload[..offset]) + PrintMany(PrintPreset, presets)
  {
    next := offset;
    assert presets[..0] == [] && presets[..|presets|] == presets;
    for i := 0 to |presets|
      invariant next == offset + |PrintMany(PrintPreset, presets[..i])| <= payload.Length
      invariant payload[..next] == old(payload[..offset]) + PrintMany(PrintPreset, presets[..i])
    {
      PrintUpTo(PrintPreset, old(payload[..offset]), presets, i);
      next := WritePreset(payload, next, presets[i]);
    }
  }

  lemma KeyPieces(before: seq<byte>, k: Key)
    requires |k.presets| < 0x100
    ensures before + [k.key] + [k.keyType] + [k.defaultPreset] + [|k.presets|] + PrintMany(PrintPreset, k.presets)
            == before + PrintKey(k)
  {
    var header, presets := [k.key, k.keyType, k.defaultPreset, |k.presets|], PrintMany(PrintPreset, k.presets);
    assert PrintKey(k) == header + presets;
    assert before + [k.key] + [k.keyType] + [k.defaultPreset] + [|k.presets|] == before + header;
  }

  method WriteKey(payload: array<byte>, offset: nat, key: Key) returns (next: nat)
    requires offset + |PrintKey(key)| <= payload.Length && KeyOk(key)
    modifies payload
    ensures next == offset + |PrintKey(key)|
    ensures payload[..next] == old(payload[..offset]) + PrintKey(key)
  {
    next := WriteByte(payload, offset, key.key);
    next := WriteByte(payload, next, key.keyType);
    next := WriteByte(payload, next, key.defaultPreset);
    next := WriteByte(payload, next, |key.presets|);
    next := WritePresets(payload, next, key.presets);
    KeyPieces(old(payload[..offset]), key);
  }

  method WriteKeys(payload: array<byte>, offset: nat, keys: seq<Key>) returns (next: nat)
    requires offset + |PrintMany(PrintKey, keys)| <= payload.Length && AllOk(KeyOk, keys)
    modifies payload
    ensures next == offset + |PrintMany(PrintKey, keys)|
    ensures payload[..next] == old(payload[..offset]) + PrintMany(PrintKey, keys)
  {
    next := offset;
    assert keys[..0] == [] && keys[..|keys|] == keys;
    for i := 0 to |keys|
      invariant next == offset + |PrintMany(PrintKey, keys[..i])| <= payload.Length
      invariant payload[..next] == old(payload[..offset]) + PrintMany(PrintKey, keys[..i])
    {
      PrintUpTo(PrintKey, old(payload[..offset]), keys, i);
      next := WriteKey(payload, next, keys[i]);
    }
  }

  /**
   * The assignable-settings case of mdr_packet_system_to_frame: the buffer allocated for the
   * summed length is filled to its last byte and not beyond.
   */
  method EncodeAssignable(keys: seq<Key>) returns (payload: array<byte>)
    requires CountedOk(KeyOk, keys)
    ensures fresh(payload) && payload[..] == PrintCapability(Assignable(keys))
  {
    var length := SumLength(keys);
    payload := new byte[1 + length];
    var offset := WriteByte(payload, 0, RET_CAPABILITY);
    offset := WriteByte(payload, offset, ASSIGNABLE_SETTINGS);
    offset := WriteByte(payload, offset, |keys|);
    assert payload[..offset] == [RET_CAPABILITY, ASSIGNABLE_SETTINGS, |keys|];
    offset := WriteKeys(payload, offset, keys);
    CapabilityPieces(keys);
    assert payload[..offset] == payload[..];
  }

  /** Encoding, then parsing with the loops, gives the keys back and consumes the whole payload. */
  method EncodeThenParse(keys: seq<Key>) returns (r: Parsed<Capability>)
    requires CountedOk(KeyOk, keys)
    ensures r == Parsed(Assignable(keys), |PrintCapability(Assignable(keys))|)
  {
    var payload := EncodeAssignable(keys);
    var bytes := payload[..];
    CapabilityIsComplete(bytes, 0, Assignable(keys));
    assert bytes[0..0 + |bytes|] == bytes;
    r := CapabilityFromFrame(bytes);
  }
}
