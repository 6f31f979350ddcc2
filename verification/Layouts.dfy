/** One packet of every kind, byte by byte: which field lies where is part of the protocol. */
module Layouts {
  import opened Bytes
  import opened Frames
  import opened Escaping
  import opened Codec
  import Settings
  import Equalizer
  import Connect

  // ----- frames ---------------------------------------------------------------------------

  lemma WireParts(f: SizedFrame)
    ensures var w, n := WireBytes(f), |f.payload|;
            && |w| == EMPTY_LEN + n && w[2..6] == BigEndian(n) && w[6..6 + n] == f.payload
            && w[0] == f.dataType && w[1] == f.sequenceId && w[6 + n] == f.checksum
  {
  }

  lemma ParsedIsPrefix(bytes: seq<byte>, f: SizedFrame)
    requires ParseWire(bytes) == Got(f)
    ensures WireBytes(f) <= bytes
  {
    BigEndianInverts(bytes[2..6]);
    assert WireBytes(f) == bytes[..EMPTY_LEN + |f.payload|];
  }

  lemma PrefixIsParsed(bytes: seq<byte>, f: SizedFrame)
    requires WireBytes(f) <= bytes
    ensures ParseWire(bytes) == Got(f)
  {
    var n := |f.payload|;
    WireParts(f);
    assert bytes[0..0 + (EMPTY_LEN + n)] == WireBytes(f);
    SliceOfSlice(bytes, 0, EMPTY_LEN + n, 2, 6);
    SliceOfSlice(bytes, 0, EMPTY_LEN + n, 6, 6 + n);
    FromBigEndianInverts(n);
  }

  /** Only a frame's own bytes parse to it, and whatever lies behind them is ignored. */
  lemma ParseWireIff(bytes: seq<byte>, f: SizedFrame)
    ensures ParseWire(bytes) == Got(f) <==> WireBytes(f) <= bytes
  {
    if ParseWire(bytes) == Got(f) {
      ParsedIsPrefix(bytes, f);
    }
    if WireBytes(f) <= bytes {
      PrefixIsParsed(bytes, f);
    }
  }

  lemma BigEndianInverts(b: seq<byte>)
    requires |b| == 4
    ensures BigEndian(FromBigEndian(b)) == b
  {
    var high := b[0] as nat * 0x100 + b[1];
    var n := (high * 0x100 + b[2]) * 0x100 + b[3];
    assert n == FromBigEndian(b);
    assert n / 0x100 == high * 0x100 + b[2] && n % 0x100 == b[3];
    assert n / 0x1_0000 == high && n / 0x100_0000 == b[0];
  }

  /** Bytes that need no escaping stay as they are. */
  lemma {:induction false} PlainBytes(s: seq<byte>, rest: seq<byte>)
    requires forall b :: b in s ==> !IsSpecial(b)
    ensures EscapeBytes(s + rest) == s + EscapeBytes(rest)
  {
    if s == [] {
      assert s + rest == rest;
    } else {
      assert (s + rest)[1..] == s[1..] + rest;
      PlainBytes(s[1..], rest);
    }
  }

  /** Type, sequence number, length with its high byte first, payload and checksum, between the delimiters. */
  lemma EscapedFrame()
    ensures EscapeFrame(Frame(0x0c, 1, [0x3c, 0x00], 0x4b)) ==
            [0x3e, 0x0c, 0x01, 0x00, 0x00, 0x00, 0x02, 0x3d, 0x2c, 0x00, 0x4b, 0x3c]
  {
    var head, tail := [0x0c, 1, 0, 0, 0, 2], [0x00, 0x4b];
    assert WireBytes(Frame(0x0c, 1, [0x3c, 0x00], 0x4b)) == head + ([0x3c] + tail);
    PlainBytes(head, [0x3c] + tail);
    assert ([0x3c] + tail)[1..] == tail;
    PlainBytes(tail, []);
    assert tail + [] == tail;
    assert EscapeBytes([0x3c] + tail) == [0x3d, 0x2c] + tail;
  }

  // ----- packets --------------------------------------------------------------------------

  lemma PrintOne<T>(write: Printer<T>, v: T)
    ensures PrintCounted(write, [v]) == [1] + write(v)
  {
    assert [v][1..] == [];
    assert PrintMany(write, [v]) == write(v) + [];
  }

  /** One key of type 1 with the default preset 0x20 and one preset of one action. */
  lemma AssignableSettings()
    ensures Settings.ParseCapability([0xf1, 0x06, 1, 0x02, 0x01, 0x20, 1, 0x10, 1, 0x21, 0x30], 0) ==
            Parsed(Settings.Assignable(
                     [Settings.Key(0x02, 0x01, 0x20, [Settings.Preset(0x10, [Settings.Action(0x21, 0x30)])])]), 11)
  {
    var action := Settings.Action(0x21, 0x30);
    var preset := Settings.Preset(0x10, [action]);
    var key := Settings.Key(0x02, 0x01, 0x20, [preset]);
    PrintOne(Settings.PrintAction, action);
    PrintOne(Settings.PrintPreset, preset);
    PrintOne(Settings.PrintKey, key);
    assert Settings.PrintPreset(preset) == [0x10, 1, 0x21, 0x30];
    assert Settings.PrintKey(key) == [0x02, 0x01, 0x20, 1, 0x10, 1, 0x21, 0x30];
    var payload := Settings.PrintCapability(Settings.Assignable([key]));
    assert payload == [0xf1, 0x06, 1, 0x02, 0x01, 0x20, 1, 0x10, 1, 0x21, 0x30];
    assert payload[0..0 + |payload|] == payload;
    Settings.CapabilityIsComplete(payload, 0, Settings.Assignable([key]));
  }

  lemma OtherSettings()
    ensures Settings.ParseCapability([0xf1, 0x01, 0], 0) == Parsed(Settings.OnOff(1, 0), 3)
    ensures Settings.ParseCapability([0xf1, 0x04, 1, 0x10], 0) == Parsed(Settings.AutoPowerOff([0x10]), 4)
    ensures Settings.ParseCapability([0xf1, 0x05, 0, 1, 0, 0, 0, 0, 7, 8, 9, 10], 0) ==
            Parsed(Settings.SmartTalking(0, 1, [0, 0, 0, 0], [7, 8, 9, 10]), 12)
  {
    var p := [0xf1, 0x04, 1, 0x10];
    PrintOne(PrintByte, 0x10);
    assert Settings.PrintCapability(Settings.AutoPowerOff([0x10])) == p;
    assert p[0..0 + |p|] == p;
    Settings.CapabilityIsComplete(p, 0, Settings.AutoPowerOff([0x10]));
    var q := [0xf1, 0x05, 0, 1, 0, 0, 0, 0, 7, 8, 9, 10];
    assert Settings.PrintCapability(Settings.SmartTalking(0, 1, [0, 0, 0, 0], [7, 8, 9, 10])) == q;
    assert q[0..0 + |q|] == q;
    Settings.CapabilityIsComplete(q, 0, Settings.SmartTalking(0, 1, [0, 0, 0, 0], [7, 8, 9, 10]));
  }

  /** Five bands of ten levels, and one preset called Hi. */
  lemma EqualizerCapabilities()
    ensures Equalizer.ParseCapability([0x51, 0x01, 5, 10, 1, 0xa0, 2, 0x48, 0x69], 0) ==
            Parsed(Equalizer.Eq(0x01, 5, 10, [Equalizer.NamedPreset(0xa0, [0x48, 0x69])]), 9)
    ensures Equalizer.ParseCapability([0x51, 0x02, 3, 4], 0) == Parsed(Equalizer.Bass(3, 4), 4)
  {
    var preset := Equalizer.NamedPreset(0xa0, [0x48, 0x69]);
    var p := [0x51, 0x01, 5, 10, 1, 0xa0, 2, 0x48, 0x69];
    PrintOne(Equalizer.PrintNamed, preset);
    assert Equalizer.PrintNamed(preset) == [0xa0, 2, 0x48, 0x69];
    assert Equalizer.PrintCapability(Equalizer.Eq(0x01, 5, 10, [preset])) == p;
    assert p[0..0 + |p|] == p;
    Equalizer.CapabilityIsComplete(p, 0, Equalizer.Eq(0x01, 5, 10, [preset]));
  }

  lemma DeviceInfo()
    ensures Connect.ParseInfo([0x05, 0x01, 2, 0x57, 0x48], 0) == Parsed(Connect.Name(0x01, 2, [0x57, 0x48]), 5)
    ensures Connect.ParseInfo([0x05, 0x03, 0x10, 0x02], 0) == Parsed(Connect.SeriesAndColor(0x10, 0x02), 4)
    ensures Connect.ParseInfo([0x05, 0x04, 1, 0x20], 0) == Parsed(Connect.InstructionGuide([0x20]), 4)
    ensures Connect.ParseInfo([0x07, 0x00, 2, 0x11, 0x51], 0) == Parsed(Connect.SupportedFunctions([0x11, 0x51]), 5)
  {
    assert [0x05, 0x01, 2, 0x57, 0x48][3..5] == [0x57, 0x48];
    var guide, functions := [0x05, 0x04, 1, 0x20], [0x07, 0x00, 2, 0x11, 0x51];
    PrintManyBytes([0x20]);
    PrintManyBytes([0x11, 0x51]);
    assert Connect.PrintInfo(Connect.InstructionGuide([0x20])) == guide == guide[0..0 + |guide|];
    assert Connect.PrintInfo(Connect.SupportedFunctions([0x11, 0x51])) == functions == functions[0..0 + |functions|];
    Connect.InfoIsComplete(guide, 0, Connect.InstructionGuide([0x20]));
    Connect.InfoIsComplete(functions, 0, Connect.SupportedFunctions([0x11, 0x51]));
  }
}
