/**
 * What the PARSE_ and WRITE_ macros of src/packet/util.h amount to: parsers that move a
 * cursor over a payload, printers that produce bytes, and what it means that they agree.
 */
module Codec {
  import opened Bytes

  /** A parse from some offset: INVALID_FRAME, or a value and the new offset. */
  datatype Parsed<+T> = Bad | Parsed(value: T, next: nat)

  type Parser<!T> = (seq<byte>, nat) -> Parsed<T>
  type Printer<!T> = T -> seq<byte>

  /** `part` lies in `payload` at `offset`. */
  predicate At(payload: seq<byte>, offset: nat, part: seq<byte>) {
    offset + |part| <= |payload| && payload[offset..offset + |part|] == part
  }

  ghost predicate CanonicalAt<T>(parse: Parser<T>, write: Printer<T>, ok: T -> bool, payload: seq<byte>, offset: nat) {
    var r := parse(payload, offset);
    r.Parsed? ==> ok(r.value) && r.next == offset + |write(r.value)| && At(payload, offset, write(r.value))
  }

  ghost predicate CompleteAt<T>(parse: Parser<T>, write: Printer<T>, ok: T -> bool, payload: seq<byte>, offset: nat,
                                v: T) {
    ok(v) && At(payload, offset, write(v)) ==> parse(payload, offset) == Parsed(v, offset + |write(v)|)
  }

  /** Whatever is accepted is a good value, and the bytes consumed are its printed form. */
  ghost predicate Canonical<T(!new)>(parse: Parser<T>, write: Printer<T>, ok: T -> bool) {
    forall payload: seq<byte>, offset: nat :: CanonicalAt(parse, write, ok, payload, offset)
  }

  /** Wherever a good value is printed, the parser finds it. */
  ghost predicate Complete<T(!new)>(parse: Parser<T>, write: Printer<T>, ok: T -> bool) {
    forall payload: seq<byte>, offset: nat, v: T :: CompleteAt(parse, write, ok, payload, offset, v)
  }

  ghost predicate Faithful<T(!new)>(parse: Parser<T>, write: Printer<T>, ok: T -> bool) {
    Canonical(parse, write, ok) && Complete(parse, write, ok)
  }

  // ----- what every faithful codec enjoys ------------------------------------------

  /** Printing then parsing gives the value back, whatever follows. */
  lemma RoundTrip<T(!new)>(parse: Parser<T>, write: Printer<T>, ok: T -> bool, before: seq<byte>, v: T,
                           after: seq<byte>)
    requires Complete(parse, write, ok) && ok(v)
    ensures parse(before + write(v) + after, |before|) == Parsed(v, |before| + |write(v)|)
  {
    assert At(before + write(v) + after, |before|, write(v));
    assert CompleteAt(parse, write, ok, before + write(v) + after, |before|, v);
  }

  /** What is accepted stays accepted, with the same value, when more bytes follow. */
  lemma Extends<T(!new)>(parse: Parser<T>, write: Printer<T>, ok: T -> bool, payload: seq<byte>, offset: nat, cut: nat)
    requires Faithful(parse, write, ok) && cut <= |payload|
    ensures var r := parse(payload[..cut], offset);
            r.Parsed? ==> r.next <= cut && parse(payload, offset) == r
  {
    var r := parse(payload[..cut], offset);
    assert CanonicalAt(parse, write, ok, payload[..cut], offset);
    if r.Parsed? {
      assert payload[offset..r.next] == payload[..cut][offset..r.next];
      assert At(payload, offset, write(r.value));
      assert CompleteAt(parse, write, ok, payload, offset, r.value);
    }
  }

  /** An accepted payload is rejected when cut anywhere inside the accepted part. */
  lemma PrefixFree<T(!new)>(parse: Parser<T>, write: Printer<T>, ok: T -> bool, payload: seq<byte>, offset: nat,
                            cut: nat)
    requires Faithful(parse, write, ok) && parse(payload, offset).Parsed?
    requires cut < parse(payload, offset).next && cut <= |payload|
    ensures parse(payload[..cut], offset) == Bad
  {
    Extends(parse, write, ok, payload, offset, cut);
  }

  // ----- one byte ---------------------------------------------------------------------

  /** PARSE_BYTE followed by the cases of PARSE_ENUM. */
  function ParseEnum(payload: seq<byte>, offset: nat, allowed: set<byte>): Parsed<byte> {
    if offset < |payload| && payload[offset] in allowed then Parsed(payload[offset], offset + 1) else Bad
  }

  lemma SliceOfSlice(s: seq<byte>, at: nat, n: nat, i: nat, j: nat)
    requires at + n <= |s| && i <= j <= n
    ensures s[at..at + n][i..j] == s[at + i..at + j]
  {
    var part := s[at..at + n];
    forall k | 0 <= k < j - i
      ensures part[i..j][k] == s[at + i..at + j][k]
    {
      assert part[i..j][k] == part[i + k] == s[at + (i + k)];
      assert s[at + i..at + j][k] == s[(at + i) + k];
    }
  }

  lemma AtOne(payload: seq<byte>, offset: nat, b: byte)
    ensures At(payload, offset, [b]) <==> offset < |payload| && payload[offset] == b
  {
    if offset < |payload| {
      assert payload[offset..offset + 1] == [payload[offset]];
    }
  }

  /** Two leading bytes, such as the packet type and the inquired type, and what follows. */
  lemma HeaderSplit(payload: seq<byte>, offset: nat, a: byte, b: byte, body: seq<byte>)
    ensures At(payload, offset, [a, b] + body) <==>
            && offset + 2 <= |payload| && payload[offset] == a && payload[offset + 1] == b
            && At(payload, offset + 2, body)
  {
    AtSplit(payload, offset, [a, b], body);
    AtSplit(payload, offset, [a], [b]);
    assert [a, b] == [a] + [b];
    AtOne(payload, offset, a);
    AtOne(payload, offset + 1, b);
  }

  function PrintByte(b: byte): seq<byte> {
    [b]
  }

  /** A list of enumerated bytes reads each like this. */
  lemma EnumFaithful(parse: Parser<byte>, allowed: set<byte>, ok: byte -> bool)
    requires forall payload: seq<byte>, offset: nat :: parse(payload, offset) == ParseEnum(payload, offset, allowed)
    requires forall b: byte :: ok(b) <==> b in allowed
    ensures Faithful(parse, PrintByte, ok)
  {
    forall payload: seq<byte>, offset: nat
      ensures CanonicalAt(parse, PrintByte, ok, payload, offset)
    {
      if offset < |payload| {
        AtOne(payload, offset, payload[offset]);
      }
    }
    forall payload: seq<byte>, offset: nat, b: byte
      ensures CompleteAt(parse, PrintByte, ok, payload, offset, b)
    {
      AtOne(payload, offset, b);
    }
  }

  /** PARSE_BYTE into a length, then PARSE_BYTES of that length. */
  function ParseBlob(payload: seq<byte>, offset: nat): Parsed<seq<byte>> {
    if offset < |payload| && offset + 1 + payload[offset] <= |payload| then
      Parsed(payload[offset + 1..offset + 1 + payload[offset]], offset + 1 + payload[offset])
    else Bad
  }

  function PrintBlob(blob: seq<byte>): seq<byte> {
    [|blob| % 0x100] + blob
  }

  predicate BlobOk(blob: seq<byte>) {
    |blob| < 0x100
  }

  lemma BlobFaithful()
    ensures Faithful(ParseBlob, PrintBlob, BlobOk)
  {
    forall payload: seq<byte>, offset: nat
      ensures CanonicalAt(ParseBlob, PrintBlob, BlobOk, payload, offset)
    {
      var r := ParseBlob(payload, offset);
      if r.Parsed? {
        AtSplit(payload, offset, [payload[offset]], r.value);
        AtOne(payload, offset, payload[offset]);
      }
    }
    forall payload: seq<byte>, offset: nat, blob: seq<byte>
      ensures CompleteAt(ParseBlob, PrintBlob, BlobOk, payload, offset, blob)
    {
      AtSplit(payload, offset, [|blob| % 0x100], blob);
      AtOne(payload, offset, |blob| % 0x100);
    }
  }

  // ----- counted lists -------------------------------------------------------------------

  function ParseMany<T>(item: Parser<T>, payload: seq<byte>, offset: nat, n: nat): Parsed<seq<T>>
    decreases n
  {
    if n == 0 then Parsed([], offset)
    else
      match item(payload, offset)
      case Bad => Bad
      case Parsed(first, next) =>
        match ParseMany(item, payload, next, n - 1)
        case Bad => Bad
        case Parsed(rest, end) => Parsed([first] + rest, end)
  }

  function PrintMany<T>(write: Printer<T>, vs: seq<T>): seq<byte> {
    if vs == [] then [] else write(vs[0]) + PrintMany(write, vs[1..])
  }

  predicate AllOk<T>(ok: T -> bool, vs: seq<T>) {
    forall i :: 0 <= i < |vs| ==> ok(vs[i])
  }

  /** A byte with the number of items, then the items. */
  function ParseCounted<T>(item: Parser<T>, payload: seq<byte>, offset: nat): Parsed<seq<T>> {
    if offset < |payload| then ParseMany(item, payload, offset + 1, payload[offset]) else Bad
  }

  /** The count is a uint8_t. */
  function PrintCounted<T>(write: Printer<T>, vs: seq<T>): seq<byte> {
    [|vs| % 0x100] + PrintMany(write, vs)
  }

  predicate CountedOk<T>(ok: T -> bool, vs: seq<T>) {
    |vs| < 0x100 && AllOk(ok, vs)
  }

  /** Two printed parts next to each other. */
  lemma AtSplit(payload: seq<byte>, offset: nat, a: seq<byte>, b: seq<byte>)
    ensures At(payload, offset, a + b) <==> At(payload, offset, a) && At(payload, offset + |a|, b)
  {
    if offset + |a| + |b| <= |payload| {
      var whole := payload[offset..offset + |a| + |b|];
      assert whole[..|a|] == payload[offset..offset + |a|];
      assert whole[|a|..] == payload[offset + |a|..offset + |a| + |b|];
      assert (a + b)[..|a|] == a && (a + b)[|a|..] == b;
      assert whole == whole[..|a|] + whole[|a|..];
    }
  }

  lemma {:induction false} ManyCanonical<T(!new)>(
      item: Parser<T>, write: Printer<T>, ok: T -> bool, payload: seq<byte>, offset: nat, n: nat)
    requires Canonical(item, write, ok)
    ensures var r := ParseMany(item, payload, offset, n);
            r.Parsed? ==>
              && |r.value| == n && AllOk(ok, r.value)
              && r.next == offset + |PrintMany(write, r.value)|
              && (offset <= |payload| ==> At(payload, offset, PrintMany(write, r.value)))
    decreases n
  {
    assert CanonicalAt(item, write, ok, payload, offset);
    if n > 0 && item(payload, offset).Parsed? {
      var first := item(payload, offset);
      ManyCanonical(item, write, ok, payload, first.next, n - 1);
      var rest := ParseMany(item, payload, first.next, n - 1);
      if rest.Parsed? {
        assert ([first.value] + rest.value)[1..] == rest.value;
        AtSplit(payload, offset, write(first.value), PrintMany(write, rest.value));
      }
    }
  }

  lemma {:induction false} ManyComplete<T(!new)>(
      item: Parser<T>, write: Printer<T>, ok: T -> bool, payload: seq<byte>, offset: nat, vs: seq<T>)
    requires Complete(item, write, ok) && AllOk(ok, vs)
    requires At(payload, offset, PrintMany(write, vs))
    ensures ParseMany(item, payload, offset, |vs|) == Parsed(vs, offset + |PrintMany(write, vs)|)
    decreases |vs|
  {
    if vs != [] {
      AtSplit(payload, offset, write(vs[0]), PrintMany(write, vs[1..]));
      assert CompleteAt(item, write, ok, payload, offset, vs[0]);
      ManyComplete(item, write, ok, payload, offset + |write(vs[0])|, vs[1..]);
      assert vs == [vs[0]] + vs[1..];
    }
  }

  /** A list of single bytes is printed as it stands. */
  lemma {:induction false} PrintManyBytes(vs: seq<byte>)
    ensures PrintMany(PrintByte, vs) == vs
  {
    if vs != [] {
      PrintManyBytes(vs[1..]);
    }
  }

  lemma CountedCanonical<T(!new)>(
      item: Parser<T>, write: Printer<T>, ok: T -> bool, payload: seq<byte>, offset: nat)
    requires Canonical(item, write, ok)
    ensures var r := ParseCounted(item, payload, offset);
            r.Parsed? ==>
              && CountedOk(ok, r.value)
              && r.next == offset + |PrintCounted(write, r.value)|
              && At(payload, offset, PrintCounted(write, r.value))
  {
    if offset < |payload| {
      ManyCanonical(item, write, ok, payload, offset + 1, payload[offset]);
      var r := ParseCounted(item, payload, offset);
      if r.Parsed? {
        AtSplit(payload, offset, [payload[offset]], PrintMany(write, r.value));
      }
    }
  }

  lemma CountedComplete<T(!new)>(
      item: Parser<T>, write: Printer<T>, ok: T -> bool, payload: seq<byte>, offset: nat, vs: seq<T>)
    requires Complete(item, write, ok) && CountedOk(ok, vs)
    requires At(payload, offset, PrintCounted(write, vs))
    ensures ParseCounted(item, payload, offset) == Parsed(vs, offset + |PrintCounted(write, vs)|)
  {
    AtSplit(payload, offset, [|vs| % 0x100], PrintMany(write, vs));
    ManyComplete(item, write, ok, payload, offset + 1, vs);
  }

  // ----- the loops ------------------------------------------------------------------------

  /** What a partly run PARSE_FOR_EACH loop still has to deliver. */
  function Prepend<T>(done: seq<T>, rest: Parsed<seq<T>>): Parsed<seq<T>> {
    match rest
    case Bad => Bad
    case Parsed(vs, next) => Parsed(done + vs, next)
  }

  lemma PrependNothing<T>(p: Parsed<seq<T>>)
    ensures Prepend([], p) == p
  {
    if p.Parsed? {
      assert [] + p.value == p.value;
    }
  }

  lemma PrependOne<T>(item: Parser<T>, payload: seq<byte>, offset: nat, n: nat, done: seq<T>)
    requires n > 0
    ensures Prepend(done, ParseMany(item, payload, offset, n)) ==
            match item(payload, offset)
            case Bad => Bad
            case Parsed(v, next) => Prepend(done + [v], ParseMany(item, payload, next, n - 1))
  {
    if item(payload, offset).Parsed? {
      var v, next := item(payload, offset).value, item(payload, offset).next;
      var rest := ParseMany(item, payload, next, n - 1);
      if rest.Parsed? {
        assert done + ([v] + rest.value) == (done + [v]) + rest.value;
      }
    }
  }

  lemma {:induction false} PrintManySnoc<T>(write: Printer<T>, vs: seq<T>, v: T)
    ensures PrintMany(write, vs + [v]) == PrintMany(write, vs) + write(v)
  {
    if vs == [] {
      assert vs + [v] == [v];
    } else {
      assert (vs + [v])[1..] == vs[1..] + [v];
      PrintManySnoc(write, vs[1..], v);
    }
  }

  /** The i-th item is next, and it fits where the whole list fits. */
  lemma PrintUpTo<T>(write: Printer<T>, before: seq<byte>, vs: seq<T>, i: nat)
    requires i < |vs|
    ensures before + PrintMany(write, vs[..i + 1]) == before + PrintMany(write, vs[..i]) + write(vs[i])
    ensures |PrintMany(write, vs[..i + 1])| == |PrintMany(write, vs[..i])| + |write(vs[i])|
    ensures |PrintMany(write, vs[..i])| + |write(vs[i])| <= |PrintMany(write, vs)|
  {
    assert vs[..i + 1] == vs[..i] + [vs[i]];
    PrintManySnoc(write, vs[..i], vs[i]);
    PrintManyAppend(write, vs[..i + 1], vs[i + 1..]);
    assert vs[..i + 1] + vs[i + 1..] == vs;
  }

  lemma {:induction false} PrintManyAppend<T>(write: Printer<T>, a: seq<T>, b: seq<T>)
    ensures PrintMany(write, a + b) == PrintMany(write, a) + PrintMany(write, b)
  {
    if a == [] {
      assert a + b == b;
    } else {
      assert (a + b)[1..] == a[1..] + b;
      PrintManyAppend(write, a[1..], b);
    }
  }

  /** A header, the count and the items, written one after the other. */
  lemma CountThenItems<T>(header: seq<byte>, write: Printer<T>, vs: seq<T>)
    requires |vs| < 0x100
    ensures header + PrintCounted(write, vs) == header + [|vs|] + PrintMany(write, vs)
  {
    var count, many := PrintCounted(write, vs)[..1], PrintMany(write, vs);
    assert count == [|vs|];
    ConcatAssociates(header, count, many);
  }
}
