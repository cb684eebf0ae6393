/**
 * Writing ELF files field by field in the order of the System V gABI, chapter 4, and reading their sections back.
 * The writer knows nothing of the reader: no field position, no layout and no byte order of it is used.
 */
module ElfFiles {
  import opened Basics
  import opened Elf

  // ----- The writer -----

  /** Digit `i` of `n` in base 256, digit 0 being the lowest. */
  function Digit(n: nat, i: nat): byte {
    n / Pow256(i) % 256
  }

  /** `n` in `width` bytes, least significant first. */
  function LowFirst(n: nat, width: nat): (b: bytes)
    ensures |b| == width
  {
    seq(width, i requires 0 <= i < width => Digit(n, i))
  }

  /** `n` in `width` bytes, most significant first. */
  function HighFirst(n: nat, width: nat): (b: bytes)
    ensures |b| == width
  {
    seq(width, i requires 0 <= i < width => Digit(n, width - 1 - i))
  }

  /** Class and byte order of a file. */
  datatype Kind = Kind(wide: bool, little: bool)

  function Number(k: Kind, n: nat, width: nat): (b: bytes)
    ensures |b| == width
  {
    if k.little then LowFirst(n, width) else HighFirst(n, width)
  }

  function Half(k: Kind, n: nat): bytes { Number(k, n, 2) }
  function Word(k: Kind, n: nat): bytes { Number(k, n, 4) }

  /** An address, an offset or a size: eight bytes in the 64-bit class, four in the 32-bit one. */
  function Addr(k: Kind, n: nat): bytes { Number(k, n, if k.wide then 8 else 4) }

  /** Header fields a section reader has no use for; any values do. */
  datatype Rest = Rest(
    abi: byte, type_: nat, machine: nat, version: nat, entry: nat, phoff: nat, flags: nat,
    ehsize: nat, phentsize: nat, phnum: nat,
    shType: nat, shFlags: nat, shAddr: nat, shLink: nat, shInfo: nat, shAlign: nat, shEntsize: nat)

  function Ident(k: Kind, r: Rest): bytes {
    [0x7F, 0x45, 0x4C, 0x46, if k.wide then 2 else 1, if k.little then 1 else 2, 1, r.abi, 0, 0, 0, 0, 0, 0, 0, 0]
  }

  /** e_ident, e_type, e_machine, e_version, e_entry, e_phoff */
  function BeforeShoff(k: Kind, r: Rest): bytes {
    Ident(k, r) + Half(k, r.type_) + Half(k, r.machine) + Word(k, r.version) + Addr(k, r.entry) + Addr(k, r.phoff)
  }

  /** e_flags, e_ehsize, e_phentsize, e_phnum */
  function AfterShoff(k: Kind, r: Rest): bytes {
    Word(k, r.flags) + Half(k, r.ehsize) + Half(k, r.phentsize) + Half(k, r.phnum)
  }

  /** The ELF header; the last three fields are e_shentsize, e_shnum and e_shstrndx. */
  function FileHeader(k: Kind, r: Rest, shoff: nat, shentsize: nat, shnum: nat, shstrndx: nat): bytes {
    BeforeShoff(k, r) + Addr(k, shoff) + AfterShoff(k, r) + Half(k, shentsize) + Half(k, shnum) + Half(k, shstrndx)
  }

  /** sh_name, sh_type, sh_flags, sh_addr */
  function BeforeOffset(k: Kind, r: Rest, name: nat): bytes {
    Word(k, name) + Word(k, r.shType) + Addr(k, r.shFlags) + Addr(k, r.shAddr)
  }

  /** sh_link, sh_info, sh_addralign, sh_entsize */
  function AfterSize(k: Kind, r: Rest): bytes {
    Word(k, r.shLink) + Word(k, r.shInfo) + Addr(k, r.shAlign) + Addr(k, r.shEntsize)
  }

  /** A section header; `pad` is what a larger e_shentsize leaves behind it. */
  function SectionHeader(k: Kind, r: Rest, pad: bytes, name: nat, offset: nat, size: nat): bytes {
    BeforeOffset(k, r, name) + Addr(k, offset) + Addr(k, size) + AfterSize(k, r) + pad
  }

  datatype Section = Section(name: bytes, contents: bytes)

  /** The string table: every name ended by a zero. */
  function StringTable(secs: seq<Section>): bytes {
    if secs == [] then [] else secs[0].name + [0] + StringTable(secs[1..])
  }

  function AllContents(secs: seq<Section>): bytes {
    if secs == [] then [] else secs[0].contents + AllContents(secs[1..])
  }

  /** Their headers, when the names start at `name` in the string table and the contents at `offset` in the file. */
  function Headers(k: Kind, r: Rest, pad: bytes, secs: seq<Section>, name: nat, offset: nat): bytes {
    if secs == [] then []
    else
      SectionHeader(k, r, pad, name, offset, |secs[0].contents|)
      + Headers(k, r, pad, secs[1..], name + |secs[0].name| + 1, offset + |secs[0].contents|)
  }

  /** The sections of a file: the given ones, and last the string table with the names of all. */
  function Complete(secs: seq<Section>, strName: bytes): seq<Section> {
    secs + [Section(strName, StringTable(secs) + strName + [0])]
  }

  function HeaderSize(k: Kind): nat { if k.wide then 64 else 52 }
  function EntrySize(k: Kind, pad: bytes): nat { (if k.wide then 64 else 40) + |pad| }

  /** Header, contents, section headers. */
  function Write(k: Kind, r: Rest, pad: bytes, secs: seq<Section>, strName: bytes): bytes {
    var all := Complete(secs, strName);
    FileHeader(k, r, HeaderSize(k) + |AllContents(all)|, EntrySize(k, pad), |all|, |secs|)
    + AllContents(all)
    + Headers(k, r, pad, all, 0, HeaderSize(k))
  }

  /** Names are UTF-8 text without a zero, and every number fits its field. */
  predicate Writable(k: Kind, r: Rest, pad: bytes, secs: seq<Section>, strName: bytes) {
    && (forall s :: s in Complete(secs, strName) ==> 0 !in s.name && Utf8(s.name))
    && |secs| + 1 < 0x1_0000 && EntrySize(k, pad) < 0x1_0000
    && |StringTable(Complete(secs, strName))| < 0x1_0000_0000
    && |Write(k, r, pad, secs, strName)| < (if k.wide then 0x8000_0000_0000_0000 else 0x1_0000_0000)
  }

  /** The contents of the first section of that name. */
  function FirstOf(secs: seq<Section>, name: bytes): Read<bytes> {
    if secs == [] then Absent
    else if secs[0].name == name then Found(secs[0].contents)
    else FirstOf(secs[1..], name)
  }

  // ----- Reading one number -----

  function LayoutOf(k: Kind): Layout { if k.wide then Elf64 else Elf32 }

  lemma {:induction false} LittleOfLowFirst(n: nat, width: nat)
    requires n < Pow256(width)
    ensures Little(LowFirst(n, width)) == n
  {
    if width > 0 {
      LittleOfLowFirst(n / 256, width - 1);
      forall i | 0 <= i < width - 1 ensures LowFirst(n, width)[1..][i] == LowFirst(n / 256, width - 1)[i] {
        NextDigit(n, i);
      }
      assert LowFirst(n, width)[1..] == LowFirst(n / 256, width - 1);
      assert Digit(n, 0) == n % 256;
    }
  }

  lemma NextDigit(n: nat, i: nat)
    ensures Digit(n, i + 1) == Digit(n / 256, i)
  {
    DivideTwice(n, Pow256(i));
  }

  lemma DivideTwice(n: nat, p: nat)
    requires p > 0
    ensures n / (0x100 * p) == n / 256 / p
  {
    var q := n / 256;
    var a, b := q / p, q % p;
    assert n == 256 * q + n % 256 && q == p * a + b;
    assert n == (0x100 * p) * a + (256 * b + n % 256);
    Quotient(n, 0x100 * p, a, 256 * b + n % 256);
  }

  lemma Quotient(n: nat, d: nat, a: nat, r: nat)
    requires r < d && n == d * a + r
    ensures n / d == a
  {
    if n / d < a { TimesMonotone(n / d + 1, a, d); }
    if n / d > a { TimesMonotone(a + 1, n / d, d); }
  }

  lemma {:induction false} ReversedAt(b: bytes, i: nat)
    requires i < |b|
    ensures Reversed(b)[i] == b[|b| - 1 - i]
  {
    if i < |b| - 1 { ReversedAt(b[1..], i); }
  }

  lemma HighFirstReversed(n: nat, width: nat)
    ensures Reversed(HighFirst(n, width)) == LowFirst(n, width)
  {
    forall i | 0 <= i < width ensures Reversed(HighFirst(n, width))[i] == LowFirst(n, width)[i] {
      ReversedAt(HighFirst(n, width), i);
    }
  }

  lemma ValueOfNumber(k: Kind, n: nat, width: nat)
    requires n < Pow256(width)
    ensures Value(Number(k, n, width), k.little) == n
  {
    LittleOfLowFirst(n, width);
    HighFirstReversed(n, width);
  }

  /** A number written behind `off` bytes is the field read at `off`. */
  lemma FieldOfNumber(data: bytes, before: bytes, after: bytes, k: Kind, n: nat, width: nat)
    requires data == before + Number(k, n, width) + after && n < Pow256(width)
    ensures Field(data, |before|, width, k.little) == Some(n)
  {
    assert data[|before|..|before| + width] == Number(k, n, width);
    ValueOfNumber(k, n, width);
  }

  lemma Powers()
    ensures Pow256(2) == 0x1_0000 && Pow256(4) == 0x1_0000_0000 && Pow256(8) == 0x1_0000_0000_0000_0000
  {
    assert Pow256(2) == 0x1_0000;
    assert Pow256(4) == 0x1_0000_0000;
    assert Pow256(6) == 0x1_0000_0000_0000;
  }

  // ----- The file header -----

  lemma HeaderSizes(k: Kind, r: Rest, pad: bytes, a: nat, b: nat, c: nat, d: nat)
    ensures |BeforeShoff(k, r)| == LayoutOf(k).shoff
    ensures |BeforeShoff(k, r)| + LayoutOf(k).width + |AfterShoff(k, r)| == LayoutOf(k).shentsize
    ensures LayoutOf(k).shnum == LayoutOf(k).shentsize + 2 && LayoutOf(k).shstrndx == LayoutOf(k).shnum + 2
    ensures |FileHeader(k, r, a, b, c, d)| == HeaderSize(k)
    ensures |SectionHeader(k, r, pad, a, b, c)| == EntrySize(k, pad)
    ensures |BeforeOffset(k, r, a)| == LayoutOf(k).offField
    ensures LayoutOf(k).sizeField == LayoutOf(k).offField + LayoutOf(k).width
  {}

  lemma FileHeaderFields(k: Kind, r: Rest, a: nat, b: nat, c: nat, d: nat, tail: bytes)
    requires a < Pow256(LayoutOf(k).width) && b < 0x1_0000 && c < 0x1_0000 && d < 0x1_0000
    ensures var data := FileHeader(k, r, a, b, c, d) + tail;
            var l := LayoutOf(k);
            && Field(data, l.shoff, l.width, k.little) == Some(a)
            && Field(data, l.shentsize, 2, k.little) == Some(b)
            && Field(data, l.shnum, 2, k.little) == Some(c)
            && Field(data, l.shstrndx, 2, k.little) == Some(d)
  {
    HeaderSizes(k, r, [], a, b, c, d);
    FourFields(BeforeShoff(k, r), AfterShoff(k, r), k, a, LayoutOf(k).width, b, c, d, tail);
  }

  lemma FourFields(p: bytes, q: bytes, k: Kind, a: nat, width: nat, b: nat, c: nat, d: nat, tail: bytes)
    requires a < Pow256(width) && b < 0x1_0000 && c < 0x1_0000 && d < 0x1_0000
    ensures var data := p + Number(k, a, width) + q + Half(k, b) + Half(k, c) + Half(k, d) + tail;
            var n := |p| + width + |q|;
            && Field(data, |p|, width, k.little) == Some(a)
            && Field(data, n, 2, k.little) == Some(b)
            && Field(data, n + 2, 2, k.little) == Some(c)
            && Field(data, n + 4, 2, k.little) == Some(d)
  {
    Powers();
    var na, nb, nc, nd := Number(k, a, width), Half(k, b), Half(k, c), Half(k, d);
    var data := p + na + q + nb + nc + nd + tail;
    RegroupedHeader(p, na, q, nb, nc, nd, tail);
    FieldAt(data, p, k, a, width, q + (nb + (nc + (nd + tail))));
    FieldAt(data, p + na + q, k, b, 2, nc + (nd + tail));
    FieldAt(data, p + na + q + nb, k, c, 2, nd + tail);
    FieldAt(data, p + na + q + nb + nc, k, d, 2, tail);
  }

  lemma RegroupedHeader(p: bytes, a: bytes, q: bytes, b: bytes, c: bytes, d: bytes, tail: bytes)
    ensures var data := p + a + q + b + c + d + tail;
            && data == p + (a + (q + (b + (c + (d + tail)))))
            && data == (p + a + q) + (b + (c + (d + tail)))
            && data == (p + a + q + b) + (c + (d + tail))
            && data == (p + a + q + b + c) + (d + tail)
  {}

  lemma FieldAt(data: bytes, before: bytes, k: Kind, n: nat, width: nat, after: bytes)
    requires data == before + (Number(k, n, width) + after) && n < Pow256(width)
    ensures Field(data, |before|, width, k.little) == Some(n)
  {
    assert before + (Number(k, n, width) + after) == before + Number(k, n, width) + after;
    FieldOfNumber(data, before, after, k, n, width);
  }

  // ----- The section headers -----

  /** A section header stands at `hdr`. */
  predicate Points(k: Kind, data: bytes, hdr: nat, name: nat, offset: nat, size: nat) {
    var l := LayoutOf(k);
    && Field(data, hdr, 4, k.little) == Some(name)
    && Field(data, hdr + l.offField, l.width, k.little) == Some(offset)
    && Field(data, hdr + l.sizeField, l.width, k.little) == Some(size)
  }

  lemma SectionHeaderFields(
      k: Kind, r: Rest, pad: bytes, name: nat, offset: nat, size: nat, before: bytes, after: bytes)
    requires name < 0x1_0000_0000 && offset < Pow256(LayoutOf(k).width) && size < Pow256(LayoutOf(k).width)
    ensures Points(k, before + SectionHeader(k, r, pad, name, offset, size) + after, |before|, name, offset, size)
  {
    Powers();
    HeaderSizes(k, r, pad, name, offset, size, 0);
    var data := before + SectionHeader(k, r, pad, name, offset, size) + after;
    var p := BeforeOffset(k, r, name);
    var rest := Word(k, r.shType) + Addr(k, r.shFlags) + Addr(k, r.shAddr);
    var o, s, e := Addr(k, offset), Addr(k, size), AfterSize(k, r);
    assert p == Word(k, name) + rest;
    Regrouped(before, p, o, s, e, pad, after);
    Regrouped2(before, Word(k, name), rest, o + (s + (e + (pad + after))));
    FieldAt(data, before, k, name, 4, rest + (o + (s + (e + (pad + after)))));
    FieldAt(data, before + p, k, offset, LayoutOf(k).width, s + (e + (pad + after)));
    FieldAt(data, before + p + o, k, size, LayoutOf(k).width, e + (pad + after));
  }

  lemma Regrouped(before: bytes, p: bytes, o: bytes, s: bytes, e: bytes, pad: bytes, after: bytes)
    ensures var data := before + (p + o + s + e + pad) + after;
            && data == before + (p + (o + (s + (e + (pad + after)))))
            && data == before + p + (o + (s + (e + (pad + after))))
            && data == before + p + o + (s + (e + (pad + after)))
  {}

  lemma Regrouped2(before: bytes, p: bytes, q: bytes, after: bytes)
    ensures before + ((p + q) + after) == before + (p + (q + after))
  {}

  lemma {:induction false} HeadersLength(k: Kind, r: Rest, pad: bytes, secs: seq<Section>, name: nat, offset: nat)
    ensures |Headers(k, r, pad, secs, name, offset)| == |secs| * EntrySize(k, pad)
  {
    if secs != [] {
      HeadersLength(k, r, pad, secs[1..], name + |secs[0].name| + 1, offset + |secs[0].contents|);
      HeaderSizes(k, r, pad, name, offset, |secs[0].contents|, 0);
      assert |secs| * EntrySize(k, pad) == EntrySize(k, pad) + (|secs| - 1) * EntrySize(k, pad);
    }
  }

  /** The header of section `i` in a table whose names start at `name` and contents at `offset`. */
  function HeaderOf(k: Kind, r: Rest, pad: bytes, secs: seq<Section>, name: nat, offset: nat, i: nat): bytes
    requires i < |secs|
  {
    SectionHeader(k, r, pad, name + |StringTable(secs[..i])|, offset + |AllContents(secs[..i])|, |secs[i].contents|)
  }

  /** It stands behind `i` others. */
  lemma {:induction false} HeaderAt(k: Kind, r: Rest, pad: bytes, secs: seq<Section>, name: nat, offset: nat, i: nat)
      returns (before: bytes, after: bytes)
    requires i < |secs|
    ensures |before| == i * EntrySize(k, pad)
    ensures Headers(k, r, pad, secs, name, offset) ==
            before + HeaderOf(k, r, pad, secs, name, offset, i) + after
  {
    var name', offset' := name + |secs[0].name| + 1, offset + |secs[0].contents|;
    if i == 0 {
      before, after := [], Headers(k, r, pad, secs[1..], name', offset');
      assert secs[..0] == [];
    } else {
      var first := HeadersSplit(k, r, pad, secs, name, offset);
      var b, a := HeaderAt(k, r, pad, secs[1..], name', offset', i - 1);
      HeaderOfRest(k, r, pad, secs, name, offset, i);
      Regrouped4(first, b, HeaderOf(k, r, pad, secs, name, offset, i), a);
      before, after := first + b, a;
      assert i * EntrySize(k, pad) == EntrySize(k, pad) + (i - 1) * EntrySize(k, pad);
    }
  }

  lemma HeaderOfRest(k: Kind, r: Rest, pad: bytes, secs: seq<Section>, name: nat, offset: nat, i: nat)
    requires 0 < i < |secs|
    ensures HeaderOf(k, r, pad, secs[1..], name + |secs[0].name| + 1, offset + |secs[0].contents|, i - 1) ==
            HeaderOf(k, r, pad, secs, name, offset, i)
  {
    PrefixSums(secs, i);
  }

  lemma HeadersSplit(k: Kind, r: Rest, pad: bytes, secs: seq<Section>, name: nat, offset: nat) returns (first: bytes)
    requires secs != []
    ensures |first| == EntrySize(k, pad)
    ensures Headers(k, r, pad, secs, name, offset) ==
            first + Headers(k, r, pad, secs[1..], name + |secs[0].name| + 1, offset + |secs[0].contents|)
  {
    HeaderSizes(k, r, pad, name, offset, |secs[0].contents|, 0);
    first := SectionHeader(k, r, pad, name, offset, |secs[0].contents|);
  }

  lemma PrefixSums(secs: seq<Section>, i: nat)
    requires 0 < i < |secs|
    ensures |StringTable(secs[..i])| == |secs[0].name| + 1 + |StringTable(secs[1..][..i - 1])|
    ensures |AllContents(secs[..i])| == |secs[0].contents| + |AllContents(secs[1..][..i - 1])|
    ensures secs[1..][i - 1] == secs[i]
  {
    assert secs[..i][0] == secs[0] && secs[..i][1..] == secs[1..][..i - 1];
  }

  lemma HeadersPoint(k: Kind, r: Rest, pad: bytes, secs: seq<Section>, offset: nat, i: nat, pre: bytes,
                     hs: bytes, at: nat, name: nat, off: nat, size: nat)
    requires hs == Headers(k, r, pad, secs, 0, offset) && at == |pre| + i * EntrySize(k, pad)
    requires i < |secs| && name == |StringTable(secs[..i])| < 0x1_0000_0000
    requires off == offset + |AllContents(secs[..i])| < Pow256(LayoutOf(k).width)
    requires size == |secs[i].contents| < Pow256(LayoutOf(k).width)
    ensures Points(k, pre + hs, at, name, off, size)
  {
    var b, a := HeaderAt(k, r, pad, secs, 0, offset, i);
    var sh := HeaderOf(k, r, pad, secs, 0, offset, i);
    HeaderPoints(k, r, pad, name, off, size, pre, b, sh, a, hs, at);
  }

  lemma HeaderPoints(k: Kind, r: Rest, pad: bytes, name: nat, offset: nat, size: nat,
                     pre: bytes, b: bytes, sh: bytes, a: bytes, hs: bytes, at: nat)
    requires at == |pre| + |b|
    requires sh == SectionHeader(k, r, pad, name, offset, size) && hs == b + sh + a
    requires name < 0x1_0000_0000 && offset < Pow256(LayoutOf(k).width) && size < Pow256(LayoutOf(k).width)
    ensures Points(k, pre + hs, at, name, offset, size)
  {
    Regrouped4(pre, b, sh, a);
    SectionHeaderFields(k, r, pad, name, offset, size, pre + b, a);
  }

  lemma Regrouped4(pre: bytes, b: bytes, sh: bytes, a: bytes)
    ensures pre + (b + sh + a) == (pre + b) + sh + a
  {}

  lemma {:induction false} ContentsAt(secs: seq<Section>, i: nat) returns (before: bytes, after: bytes)
    requires i < |secs|
    ensures |before| == |AllContents(secs[..i])|
    ensures AllContents(secs) == before + secs[i].contents + after
  {
    if i == 0 {
      before, after := [], AllContents(secs[1..]);
      assert secs[..0] == [];
    } else {
      var b, a := ContentsAt(secs[1..], i - 1);
      before, after := secs[0].contents + b, a;
      assert secs[..i][0] == secs[0] && secs[..i][1..] == secs[1..][..i - 1];
    }
  }

  lemma {:induction false} NameInStrings(secs: seq<Section>, i: nat)
    requires i < |secs| && forall s :: s in secs ==> 0 !in s.name
    ensures |StringTable(secs[..i])| <= |StringTable(secs)|
    ensures UpToZero(StringTable(secs)[|StringTable(secs[..i])|..]) == secs[i].name
  {
    if i == 0 {
      assert secs[..0] == [];
      UpToZeroOf(secs[0].name, StringTable(secs[1..]));
      assert StringTable(secs) == secs[0].name + [0] + StringTable(secs[1..]);
    } else {
      NameInStrings(secs[1..], i - 1);
      assert secs[..i][0] == secs[0] && secs[..i][1..] == secs[1..][..i - 1];
      var n := |secs[0].name| + 1;
      assert StringTable(secs)[n..] == StringTable(secs[1..]);
      assert StringTable(secs)[|StringTable(secs[..i])|..]
          == StringTable(secs[1..])[|StringTable(secs[1..][..i - 1])|..];
    }
  }

  lemma {:induction false} UpToZeroOf(name: bytes, tail: bytes)
    requires 0 !in name
    ensures UpToZero(name + [0] + tail) == name
  {
    if name == [] {
      assert name + [0] + tail == [0] + tail;
    } else {
      UpToZeroOf(name[1..], tail);
      assert (name + [0] + tail)[1..] == name[1..] + [0] + tail;
    }
  }

  lemma {:induction false} StringTableOfComplete(secs: seq<Section>, s: Section)
    ensures StringTable(secs + [s]) == StringTable(secs) + s.name + [0]
  {
    if secs == [] {
      assert secs + [s] == [s] && [s][1..] == [];
    } else {
      StringTableOfComplete(secs[1..], s);
      assert (secs + [s])[1..] == secs[1..] + [s];
    }
  }

  // ----- The whole file -----

  /** The header of section `i` names it and leads to its contents. */
  predicate SectionThere(k: Kind, data: bytes, all: seq<Section>, t: Table, i: nat)
    requires i < |all|
  {
    && Header(t, i) + EntrySize(k, []) <= |data|
    && Field(data, Header(t, i), 4, k.little) == Some(|StringTable(all[..i])|)
    && Contents(LayoutOf(k), data, k.little, Header(t, i)) == Some(all[i].contents)
  }

  /** What a reader needs to know of a written file. */
  ghost predicate WellWritten(k: Kind, data: bytes, all: seq<Section>, t: Table) {
    && t.num == |all| && t.str < |all| && all[t.str].contents == StringTable(all)
    && TableOf(LayoutOf(k), data, k.little) == Some(t)
    && forall i :: 0 <= i < |all| ==> SectionThere(k, data, all, t, i)
  }

  lemma TableOfWritten(k: Kind, r: Rest, pad: bytes, secs: seq<Section>, strName: bytes)
    requires Writable(k, r, pad, secs, strName)
    ensures TableOf(LayoutOf(k), Write(k, r, pad, secs, strName), k.little) ==
            Some(TableAt(k, pad, secs, strName))
  {
    var t := TableAt(k, pad, secs, strName);
    var tail := HeaderThen(k, r, pad, secs, strName);
    HeaderSizes(k, r, pad, t.at, t.ent, t.num, t.str);
    OffsetFits(k, |Write(k, r, pad, secs, strName)|, t.at, 0);
    TableOfHeader(k, r, t, tail);
  }

  lemma HeaderThen(k: Kind, r: Rest, pad: bytes, secs: seq<Section>, strName: bytes) returns (tail: bytes)
    ensures var t := TableAt(k, pad, secs, strName);
            && Write(k, r, pad, secs, strName) == FileHeader(k, r, t.at, t.ent, t.num, t.str) + tail
            && |FileHeader(k, r, t.at, t.ent, t.num, t.str) + tail| >= t.at
  {
    var t, all := TableAt(k, pad, secs, strName), Complete(secs, strName);
    HeaderSizes(k, r, pad, t.at, t.ent, t.num, t.str);
    tail := AllContents(all) + Headers(k, r, pad, all, 0, HeaderSize(k));
    assert FileHeader(k, r, t.at, t.ent, t.num, t.str) + AllContents(all) + Headers(k, r, pad, all, 0, HeaderSize(k))
        == FileHeader(k, r, t.at, t.ent, t.num, t.str) + tail;
  }

  lemma TableOfHeader(k: Kind, r: Rest, t: Table, tail: bytes)
    requires t.at < Pow256(LayoutOf(k).width) && t.ent < 0x1_0000 && t.str < t.num < 0x1_0000
    requires t.ent >= LayoutOf(k).minEnt
    ensures TableOf(LayoutOf(k), FileHeader(k, r, t.at, t.ent, t.num, t.str) + tail, k.little) == Some(t)
  {
    FileHeaderFields(k, r, t.at, t.ent, t.num, t.str, tail);
  }

  /** Behind any file header of the right size, the table of headers leads to every section. */
  lemma SectionBehind(k: Kind, r: Rest, pad: bytes, all: seq<Section>, i: nat, h: bytes, data: bytes, t: Table)
    requires i < |all| && |h| == HeaderSize(k) && |StringTable(all)| < 0x1_0000_0000
    requires data == h + AllContents(all) + Headers(k, r, pad, all, 0, HeaderSize(k))
    requires |data| < (if k.wide then 0x8000_0000_0000_0000 else 0x1_0000_0000)
    requires t.at == |h + AllContents(all)| && t.ent == EntrySize(k, pad)
    ensures SectionThere(k, data, all, t, i)
  {
    ContentsInside(k, r, pad, all, i, h, data);
    NamesGrow(all, i);
    OffsetFits(k, |data|, |h| + |AllContents(all[..i])|, |all[i].contents|);
    HeadersPoint(k, r, pad, all, HeaderSize(k), i, h + AllContents(all),
                 Headers(k, r, pad, all, 0, HeaderSize(k)), Header(t, i),
                 |StringTable(all[..i])|, |h| + |AllContents(all[..i])|, |all[i].contents|);
    HeaderInside(k, r, pad, all, i, h, data, t);
    PointsThere(k, data, all, t, i, |StringTable(all[..i])|, |h| + |AllContents(all[..i])|, |all[i].contents|);
  }

  lemma ContentsInside(k: Kind, r: Rest, pad: bytes, all: seq<Section>, i: nat, h: bytes, data: bytes)
    requires i < |all| && data == h + AllContents(all) + Headers(k, r, pad, all, 0, HeaderSize(k))
    ensures |h| + |AllContents(all[..i])| + |all[i].contents| <= |data|
    ensures Slice(data, |h| + |AllContents(all[..i])|, |all[i].contents|) == Some(all[i].contents)
  {
    var cb, ca := ContentsAt(all, i);
    SliceInside(h, cb, all[i].contents, ca, Headers(k, r, pad, all, 0, HeaderSize(k)));
  }

  lemma SliceInside(h: bytes, cb: bytes, part: bytes, ca: bytes, hs: bytes)
    ensures var data := h + (cb + part + ca) + hs;
            && |h| + |cb| + |part| <= |data| && Slice(data, |h| + |cb|, |part|) == Some(part)
  {
    Regrouped3(h, cb, part, ca, hs);
    SliceBehind(h + (cb + part + ca) + hs, h + cb, part, ca + hs);
  }

  lemma HeaderInside(k: Kind, r: Rest, pad: bytes, all: seq<Section>, i: nat, h: bytes, data: bytes, t: Table)
    requires i < |all|
    requires data == h + AllContents(all) + Headers(k, r, pad, all, 0, HeaderSize(k))
    requires t.at == |h + AllContents(all)| && t.ent == EntrySize(k, pad)
    ensures Header(t, i) + EntrySize(k, []) <= |data|
  {
    HeadersLength(k, r, pad, all, 0, HeaderSize(k));
    EntryFits(i, |all|, EntrySize(k, pad), |pad|);
  }

  lemma PointsThere(k: Kind, data: bytes, all: seq<Section>, t: Table, i: nat, name: nat, off: nat, size: nat)
    requires i < |all| && Header(t, i) + EntrySize(k, []) <= |data|
    requires Points(k, data, Header(t, i), name, off, size) && name == |StringTable(all[..i])|
    requires Slice(data, off, size) == Some(all[i].contents)
    ensures SectionThere(k, data, all, t, i)
  {}

  lemma EntryFits(i: nat, n: nat, ent: nat, pad: nat)
    requires i < n && pad <= ent
    ensures i * ent + (ent - pad) <= n * ent
  {
    assert n * ent == i * ent + (n - i) * ent;
    assert (n - i) * ent >= ent by { TimesMonotone(1, n - i, ent); }
  }

  lemma OffsetFits(k: Kind, length: nat, off: nat, size: nat)
    requires length < (if k.wide then 0x8000_0000_0000_0000 else 0x1_0000_0000) && off + size <= length
    ensures off < Pow256(LayoutOf(k).width) && size < Pow256(LayoutOf(k).width)
  {
    Powers();
  }

  lemma Regrouped3(h: bytes, cb: bytes, part: bytes, ca: bytes, hs: bytes)
    ensures h + (cb + part + ca) + hs == (h + cb) + part + (ca + hs)
    ensures |h + cb| + |part| <= |h + (cb + part + ca) + hs|
  {}

  lemma {:induction false} NamesGrow(secs: seq<Section>, i: nat)
    requires i <= |secs|
    ensures |StringTable(secs[..i])| <= |StringTable(secs)|
  {
    if i == 0 {
      assert secs[..0] == [];
    } else {
      NamesGrow(secs[1..], i - 1);
      assert secs[..i][0] == secs[0] && secs[..i][1..] == secs[1..][..i - 1];
    }
  }

  lemma SliceBehind(data: bytes, before: bytes, part: bytes, after: bytes)
    requires data == before + part + after
    ensures Slice(data, |before|, |part|) == Some(part)
  {
    assert data[|before|..|before| + |part|] == part;
  }

  lemma IdentFirst(k: Kind, r: Rest)
    ensures |Ident(k, r)| == 16 && Ident(k, r) <= BeforeShoff(k, r)
  {}

  lemma HeaderStarts(k: Kind, r: Rest, a: nat, b: nat, c: nat, d: nat)
    ensures BeforeShoff(k, r) <= FileHeader(k, r, a, b, c, d)
  {}

  /** The file starts as its kind says. */
  lemma IdentOfWritten(k: Kind, r: Rest, h: bytes, data: bytes)
    requires BeforeShoff(k, r) <= h <= data
    ensures Identified(k, data)
  {
    IdentFirst(k, r);
    StartsLike(Ident(k, r), BeforeShoff(k, r), h, data);
  }

  lemma StartsLike(a: bytes, b: bytes, c: bytes, d: bytes)
    requires a <= b <= c <= d
    ensures |a| <= |d| && forall i :: 0 <= i < |a| ==> d[i] == a[i]
  {}

  /** Where the section headers of a written file are. */
  function TableAt(k: Kind, pad: bytes, secs: seq<Section>, strName: bytes): Table {
    var all := Complete(secs, strName);
    Table(HeaderSize(k) + |AllContents(all)|, EntrySize(k, pad), |all|, |secs|)
  }

  lemma WriteSplits(k: Kind, r: Rest, pad: bytes, secs: seq<Section>, strName: bytes) returns (h: bytes)
    ensures |h| == HeaderSize(k)
    ensures var all := Complete(secs, strName);
            Write(k, r, pad, secs, strName) == h + AllContents(all) + Headers(k, r, pad, all, 0, HeaderSize(k))
  {
    var t := TableAt(k, pad, secs, strName);
    HeaderSizes(k, r, pad, t.at, t.ent, t.num, t.str);
    h := FileHeader(k, r, t.at, t.ent, t.num, t.str);
  }

  lemma WrittenWell(k: Kind, r: Rest, pad: bytes, secs: seq<Section>, strName: bytes)
    requires Writable(k, r, pad, secs, strName)
    ensures WellWritten(k, Write(k, r, pad, secs, strName), Complete(secs, strName), TableAt(k, pad, secs, strName))
  {
    var all, t := Complete(secs, strName), TableAt(k, pad, secs, strName);
    var h := WriteSplits(k, r, pad, secs, strName);
    TableOfWritten(k, r, pad, secs, strName);
    StringTableOfComplete(secs, all[|secs|]);
    forall i | 0 <= i < |all| ensures SectionThere(k, Write(k, r, pad, secs, strName), all, t, i) {
      SectionBehind(k, r, pad, all, i, h, Write(k, r, pad, secs, strName), t);
    }
  }

  /** Every name of a well-written file decodes. */
  lemma NamesDecode(k: Kind, data: bytes, all: seq<Section>, t: Table, i: nat)
    requires WellWritten(k, data, all, t) && i < |all|
    requires forall s :: s in all ==> 0 !in s.name && Utf8(s.name)
    ensures NameAt(data, k.little, t, StringTable(all), i) == Some(all[i].name)
    ensures Contents(LayoutOf(k), data, k.little, Header(t, i)) == Some(all[i].contents)
  {
    assert SectionThere(k, data, all, t, i);
    NameInStrings(all, i);
  }

  lemma {:induction false} FirstOfIs(secs: seq<Section>, name: bytes) returns (i: nat)
    ensures i <= |secs| && forall j :: 0 <= j < i ==> secs[j].name != name
    ensures i < |secs| ==> secs[i].name == name && FirstOf(secs, name) == Found(secs[i].contents)
    ensures i == |secs| ==> FirstOf(secs, name) == Absent
  {
    if secs == [] || secs[0].name == name {
      i := 0;
    } else {
      var j := FirstOfIs(secs[1..], name);
      i := j + 1;
    }
  }

  /** A table whose names and contents are those of `all` yields the first section of every name. */
  lemma WantedIsFirst(l: Layout, data: bytes, le: bool, t: Table, names: bytes, all: seq<Section>, name: bytes)
    requires TableOf(l, data, le) == Some(t) && Contents(l, data, le, Header(t, t.str)) == Some(names)
    requires t.num == |all| && forall i :: 0 <= i < |all| ==> NameAt(data, le, t, names, i) == Some(all[i].name)
    requires forall i :: 0 <= i < |all| ==> Contents(l, data, le, Header(t, i)) == Some(all[i].contents)
    ensures AsRead(Wanted(l, data, le, name)) == FirstOf(all, name)
  {
    var i := FirstOfIs(all, name);
    assert Passed(data, le, t, names, name, i);
    if i < |all| {
      assert Hit(data, le, t, names, name, i);
      WantedIsHit(l, data, le, name, t, names, i);
    } else {
      assert StopsAt(data, le, t, names, name, i);
      WantedIsNone(l, data, le, name, t, names, i);
    }
  }

  lemma WantedOfWritten(k: Kind, data: bytes, all: seq<Section>, t: Table, name: bytes)
    requires WellWritten(k, data, all, t)
    requires forall s :: s in all ==> 0 !in s.name && Utf8(s.name)
    ensures AsRead(Wanted(LayoutOf(k), data, k.little, name)) == FirstOf(all, name)
  {
    var l := LayoutOf(k);
    forall i | 0 <= i < |all|
      ensures NameAt(data, k.little, t, StringTable(all), i) == Some(all[i].name)
      ensures Contents(l, data, k.little, Header(t, i)) == Some(all[i].contents)
    {
      NamesDecode(k, data, all, t, i);
    }
    WantedIsFirst(l, data, k.little, t, StringTable(all), all, name);
  }

  /**
   * Round trip, for both classes and both byte orders: of every file written from named sections the reader
   * returns the contents of the first section of the name asked for, and nothing if there is none.
   */
  lemma {:induction false} WrittenSectionsReadBack(
      k: Kind, r: Rest, pad: bytes, secs: seq<Section>, strName: bytes, name: bytes)
    requires Writable(k, r, pad, secs, strName)
    ensures SectionData(Write(k, r, pad, secs, strName), name) == FirstOf(Complete(secs, strName), name)
  {
    var data, all := Write(k, r, pad, secs, strName), Complete(secs, strName);
    IdentThere(k, r, pad, secs, strName);
    WrittenWell(k, r, pad, secs, strName);
    DataOfWritten(k, data, all, TableAt(k, pad, secs, strName), name);
  }

  /** The first bytes of a file of this kind. */
  predicate Identified(k: Kind, data: bytes) {
    && |data| >= 16 && data[..4] == [0x7F, 0x45, 0x4C, 0x46]
    && data[4] == (if k.wide then 2 else 1) && data[5] == (if k.little then 1 else 2)
  }

  lemma IdentThere(k: Kind, r: Rest, pad: bytes, secs: seq<Section>, strName: bytes)
    ensures Identified(k, Write(k, r, pad, secs, strName))
  {
    var t := TableAt(k, pad, secs, strName);
    var tail := HeaderThen(k, r, pad, secs, strName);
    HeaderStarts(k, r, t.at, t.ent, t.num, t.str);
    IdentOfWritten(k, r, FileHeader(k, r, t.at, t.ent, t.num, t.str), Write(k, r, pad, secs, strName));
  }

  lemma DataOfWritten(k: Kind, data: bytes, all: seq<Section>, t: Table, name: bytes)
    requires Identified(k, data) && WellWritten(k, data, all, t)
    requires |data| < 0x8000_0000_0000_0000 && forall s :: s in all ==> 0 !in s.name && Utf8(s.name)
    ensures SectionData(data, name) == FirstOf(all, name)
  {
    WantedOfWritten(k, data, all, t, name);
    assert SectionThere(k, data, all, t, t.str);
  }

  /** Behind such a file header no section is found, whatever follows. */
  predicate Unusable(k: Kind, shentsize: nat, shnum: nat, shstrndx: nat) {
    shentsize < (if k.wide then 64 else 40) || shnum == 0 || shstrndx >= shnum
  }

  /** Headers shorter than those of the class, an empty table, and a string table outside of it are refused. */
  lemma {:induction false} UnusableIsRefused(
      k: Kind, r: Rest, shoff: nat, shentsize: nat, shnum: nat, shstrndx: nat, tail: bytes, name: bytes)
    requires Unusable(k, shentsize, shnum, shstrndx)
    requires shoff < (if k.wide then 0x1_0000_0000_0000_0000 else 0x1_0000_0000)
    requires shentsize < 0x1_0000 && shnum < 0x1_0000 && shstrndx < 0x1_0000
    ensures SectionData(FileHeader(k, r, shoff, shentsize, shnum, shstrndx) + tail, name) == Absent
  {
    Powers();
    var h := FileHeader(k, r, shoff, shentsize, shnum, shstrndx);
    HeaderStarts(k, r, shoff, shentsize, shnum, shstrndx);
    IdentOfWritten(k, r, h, h + tail);
    FileHeaderFields(k, r, shoff, shentsize, shnum, shstrndx, tail);
    assert TableOf(LayoutOf(k), h + tail, k.little).None?;
  }

  /**
   * Exactly when reading aborts: in the 64-bit class, when the header of the string table lies below the top of
   * the address space but its offset field does not; in the 32-bit class never.
   */
  lemma {:induction false} OverflowsWhenHigh(
      k: Kind, r: Rest, shoff: nat, shentsize: nat, shnum: nat, shstrndx: nat, tail: bytes, name: bytes)
    requires !Unusable(k, shentsize, shnum, shstrndx)
    requires shoff < (if k.wide then 0x1_0000_0000_0000_0000 else 0x1_0000_0000)
    requires shentsize < 0x1_0000 && shnum < 0x1_0000
    ensures SectionData(FileHeader(k, r, shoff, shentsize, shnum, shstrndx) + tail, name) == Overflow <==>
            k.wide
            && 0x1_0000_0000_0000_0000 - 32 <= shoff + shstrndx * shentsize < 0x1_0000_0000_0000_0000
  {
    Powers();
    var h := FileHeader(k, r, shoff, shentsize, shnum, shstrndx);
    HeaderStarts(k, r, shoff, shentsize, shnum, shstrndx);
    IdentOfWritten(k, r, h, h + tail);
    FileHeaderFields(k, r, shoff, shentsize, shnum, shstrndx, tail);
    assert TableOf(LayoutOf(k), h + tail, k.little) == Some(Table(shoff, shentsize, shnum, shstrndx));
    if !k.wide { ProductBound(shstrndx, shentsize); }
  }
}
