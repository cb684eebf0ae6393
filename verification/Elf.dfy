/** The ELF section reader: what it returns for every byte string, and where its arithmetic can overflow. */
module Elf {
  import opened Basics

  type bytes = seq<byte>

  /** 64-bit `usize`; a slice is never longer than `isize::MAX`. */
  const USIZE_MAX: nat := 0xFFFF_FFFF_FFFF_FFFF
  const ISIZE_MAX: nat := 0x7FFF_FFFF_FFFF_FFFF

  /** A read either aborts on overflow (the release profile checks), finds nothing, or finds a value. */
  datatype Read<+T> = Overflow | Absent | Found(value: T)

  // ----- Integers in the file -----

  /** Little-endian value of the bytes. */
  function Little(b: bytes): nat {
    if b == [] then 0 else b[0] + 0x100 * Little(b[1..])
  }

  function Pow256(n: nat): (p: nat)
    ensures p > 0
  {
    if n == 0 then 1 else 0x100 * Pow256(n - 1)
  }

  lemma {:induction false} LittleBound(b: bytes)
    ensures Little(b) < Pow256(|b|)
  {
    if b != [] { LittleBound(b[1..]); }
  }

  function Reversed(b: bytes): (r: bytes)
    ensures |r| == |b|
  {
    if b == [] then [] else Reversed(b[1..]) + [b[0]]
  }

  /** Value of a field in the file's byte order. */
  function Value(b: bytes, le: bool): nat {
    Little(if le then b else Reversed(b))
  }

  /** The mathematical reading of a field: present when it lies within the data. */
  function Field(data: bytes, off: nat, width: nat, le: bool): Option<nat> {
    if off + width <= |data| then Some(Value(data[off..off + width], le)) else None
  }

  /** `u16_at`, `u32_at`, `u64_at`: the end of the range is computed with checked-at-run-time arithmetic. */
  function UintAt(data: bytes, off: nat, width: nat, le: bool): Read<nat> {
    if off + width > USIZE_MAX then Overflow
    else if off + width <= |data| then Found(Value(data[off..off + width], le))
    else Absent
  }

  // ----- Names -----

  predicate Continuation(b: byte) {
    0x80 <= b <= 0xBF
  }

  /** Well-formed UTF-8 (RFC 3629, section 4). */
  predicate Utf8(s: bytes) {
    if s == [] then true
    else if s[0] < 0x80 then Utf8(s[1..])
    else if 0xC2 <= s[0] <= 0xDF then |s| >= 2 && Continuation(s[1]) && Utf8(s[2..])
    else if 0xE0 <= s[0] <= 0xEF then
      && |s| >= 3 && Continuation(s[1]) && Continuation(s[2])
      && (s[0] == 0xE0 ==> s[1] >= 0xA0) && (s[0] == 0xED ==> s[1] <= 0x9F)
      && Utf8(s[3..])
    else if 0xF0 <= s[0] <= 0xF4 then
      && |s| >= 4 && Continuation(s[1]) && Continuation(s[2]) && Continuation(s[3])
      && (s[0] == 0xF0 ==> s[1] >= 0x90) && (s[0] == 0xF4 ==> s[1] <= 0x8F)
      && Utf8(s[4..])
    else false
  }

  /** Bytes up to the first zero, or all of them. */
  function UpToZero(s: bytes): (r: bytes)
    ensures r <= s && 0 !in r
    ensures |r| < |s| ==> s[|r|] == 0
  {
    if s == [] || s[0] == 0 then [] else [s[0]] + UpToZero(s[1..])
  }

  function CstrAt(table: bytes, off: nat): Option<bytes> {
    if off > |table| then None
    else
      var s := UpToZero(table[off..]);
      if Utf8(s) then Some(s) else None
  }

  /** `data.get(off..off + size)` with mathematical numbers. */
  function Slice(data: bytes, off: nat, size: nat): Option<bytes> {
    if off + size <= |data| then Some(data[off..off + size]) else None
  }

  // ----- The declarative reading, one for both widths -----

  /** Where an ELF class keeps the fields used here (System V gABI, chapter 4). */
  datatype Layout = Layout(
    width: nat,       // of an address or offset
    shoff: nat,       // e_shoff
    shentsize: nat,   // e_shentsize
    shnum: nat,       // e_shnum
    shstrndx: nat,    // e_shstrndx
    minEnt: nat,      // size of a section header
    offField: nat,    // sh_offset in a section header
    sizeField: nat)   // sh_size in a section header

  const Elf64 := Layout(8, 40, 58, 60, 62, 64, 24, 32)
  const Elf32 := Layout(4, 32, 46, 48, 50, 40, 16, 20)

  /** The section header table. */
  datatype Table = Table(at: nat, ent: nat, num: nat, str: nat)

  function TableOf(l: Layout, data: bytes, le: bool): Option<Table> {
    var at, ent := Field(data, l.shoff, l.width, le), Field(data, l.shentsize, 2, le);
    var num, str := Field(data, l.shnum, 2, le), Field(data, l.shstrndx, 2, le);
    if at.None? || ent.None? || num.None? || str.None? then None
    else if ent.value < l.minEnt || num.value == 0 || str.value >= num.value then None
    else Some(Table(at.value, ent.value, num.value, str.value))
  }

  function Header(t: Table, i: nat): nat {
    t.at + i * t.ent
  }

  /** Contents of the section whose header is at `hdr`. */
  function Contents(l: Layout, data: bytes, le: bool, hdr: nat): Option<bytes> {
    var off, size := Field(data, hdr + l.offField, l.width, le), Field(data, hdr + l.sizeField, l.width, le);
    if off.None? || size.None? then None else Slice(data, off.value, size.value)
  }

  /** Name of section `i`, looked up in the string table. */
  function NameAt(data: bytes, le: bool, t: Table, names: bytes, i: nat): Option<bytes> {
    var off := Field(data, Header(t, i), 4, le);
    if off.None? then None else CstrAt(names, off.value)
  }

  /** `i` is the least index with this name, and every earlier name decodes. */
  ghost predicate Hit(data: bytes, le: bool, t: Table, names: bytes, name: bytes, i: nat) {
    && i < t.num
    && NameAt(data, le, t, names, i) == Some(name)
    && forall j :: 0 <= j < i ==> NameAt(data, le, t, names, j).Some? && NameAt(data, le, t, names, j).value != name
  }

  /** The contents of the first section of that name, `None` where the file does not spell one out. */
  ghost function Wanted(l: Layout, data: bytes, le: bool, name: bytes): Option<bytes> {
    var t := TableOf(l, data, le);
    if t.None? then None
    else
      var names := Contents(l, data, le, Header(t.value, t.value.str));
      if names.None? then None
      else if exists i :: Hit(data, le, t.value, names.value, name, i) then
        var i :| Hit(data, le, t.value, names.value, name, i);
        Contents(l, data, le, Header(t.value, i))
      else None
  }

  /** The one place where the arithmetic overflows: the string header exists as a number but lies too high. */
  predicate Overflows(l: Layout, data: bytes, le: bool) {
    var t := TableOf(l, data, le);
    && t.Some?
    && Header(t.value, t.value.str) <= USIZE_MAX
    && Header(t.value, t.value.str) + l.offField + l.width > USIZE_MAX
  }

  /** What the reader returns, for every byte string. */
  ghost function Spec(l: Layout, data: bytes, le: bool, name: bytes): Read<bytes> {
    if Overflows(l, data, le) then Overflow
    else
      AsRead(Wanted(l, data, le, name))
  }

  // ----- The reader -----

  /** Two bytes hold less than 2^16, four less than 2^32. */
  lemma FieldBounds(data: bytes, off: nat, le: bool)
    ensures Field(data, off, 2, le).Some? ==> Field(data, off, 2, le).value < 0x1_0000
    ensures Field(data, off, 4, le).Some? ==> Field(data, off, 4, le).value < 0x1_0000_0000
  {
    if off + 2 <= |data| {
      var b := data[off..off + 2];
      LittleBound(if le then b else Reversed(b));
    }
    if off + 4 <= |data| {
      var b := data[off..off + 4];
      LittleBound(if le then b else Reversed(b));
      assert Pow256(4) == 0x1_0000_0000 by { assert Pow256(2) == 0x1_0000; }
    }
  }

  lemma TimesMonotone(i: nat, n: nat, ent: nat)
    requires i <= n
    ensures i * ent <= n * ent
  {}

  lemma ProductBound(i: nat, ent: nat)
    requires i < 0x1_0000 && ent < 0x1_0000
    ensures i * ent <= 0xFFFE_0001
  {
    TimesMonotone(i, 0xFFFF, ent);
  }

  /** Offset and size from the header at `hdr`, then the bytes they delimit. */
  method ReadContents(l: Layout, data: bytes, le: bool, hdr: nat) returns (r: Read<bytes>)
    requires |data| <= ISIZE_MAX && (l == Elf64 || l == Elf32) && hdr <= USIZE_MAX
    ensures r.Overflow? <==> hdr + l.offField + l.width > USIZE_MAX
    ensures !r.Overflow? ==> r == AsRead(Contents(l, data, le, hdr))
  {
    if hdr + l.offField > USIZE_MAX {
      return Overflow;
    }
    var off := UintAt(data, hdr + l.offField, l.width, le);
    if !off.Found? {
      return if off.Overflow? then Overflow else Absent;
    }
    var size := UintAt(data, hdr + l.sizeField, l.width, le);
    if !size.Found? {
      return Absent;
    }
    if off.value + size.value > USIZE_MAX || off.value + size.value > |data| {
      return Absent;
    }
    return Found(data[off.value..off.value + size.value]);
  }

  /** Earlier names all decode to something else. */
  ghost predicate Passed(data: bytes, le: bool, t: Table, names: bytes, name: bytes, i: nat) {
    forall j :: 0 <= j < i ==> NameAt(data, le, t, names, j).Some? && NameAt(data, le, t, names, j).value != name
  }

  /** A name that does not decode, or the end of the table, means there is no section to return. */
  lemma NoHit(data: bytes, le: bool, t: Table, names: bytes, name: bytes, i: nat)
    requires Passed(data, le, t, names, name, i)
    requires i >= t.num || NameAt(data, le, t, names, i).None?
    ensures !exists k :: Hit(data, le, t, names, name, k)
  {}

  lemma HitIsUnique(data: bytes, le: bool, t: Table, names: bytes, name: bytes, i: nat, k: nat)
    requires Hit(data, le, t, names, name, i) && Hit(data, le, t, names, name, k)
    ensures i == k
  {}

  lemma TableBounds(l: Layout, data: bytes, le: bool, t: Table)
    requires TableOf(l, data, le) == Some(t)
    ensures t.ent < 0x1_0000 && t.num < 0x1_0000 && t.str < t.num
  {
    FieldBounds(data, l.shentsize, le);
    FieldBounds(data, l.shnum, le);
  }

  /** Every header of a table whose string header could be read lies far below the overflow. */
  lemma HeadersAreLow(t: Table, i: nat)
    requires t.ent < 0x1_0000 && t.num < 0x1_0000 && i < t.num
    requires Header(t, t.str) <= ISIZE_MAX
    ensures Header(t, i) + 64 <= USIZE_MAX
  {
    ProductBound(i, t.ent);
    assert t.str * t.ent >= 0;
  }

  /** The loop gives up here: all earlier names differ and there is no further one, or it does not decode. */
  ghost predicate StopsAt(data: bytes, le: bool, t: Table, names: bytes, name: bytes, i: nat) {
    Passed(data, le, t, names, name, i) && (i >= t.num || NameAt(data, le, t, names, i).None?)
  }

  lemma WantedIsHit(l: Layout, data: bytes, le: bool, name: bytes, t: Table, names: bytes, i: nat)
    requires TableOf(l, data, le) == Some(t) && Contents(l, data, le, Header(t, t.str)) == Some(names)
    requires Hit(data, le, t, names, name, i)
    ensures Wanted(l, data, le, name) == Contents(l, data, le, Header(t, i))
  {
    var k: nat :| Hit(data, le, t, names, name, k) && Wanted(l, data, le, name) == Contents(l, data, le, Header(t, k));
    HitIsUnique(data, le, t, names, name, i, k);
  }

  lemma WantedIsNone(l: Layout, data: bytes, le: bool, name: bytes, t: Table, names: bytes, i: nat)
    requires TableOf(l, data, le) == Some(t) && Contents(l, data, le, Header(t, t.str)) == Some(names)
    requires StopsAt(data, le, t, names, name, i)
    ensures Wanted(l, data, le, name) == None
  {
    NoHit(data, le, t, names, name, i);
  }

  function AsRead(r: Option<bytes>): Read<bytes> {
    if r.Some? then Found(r.value) else Absent
  }

  /** The header loop: stop at the first section with the wanted name, or at a name that does not decode. */
  method FindSection(l: Layout, data: bytes, le: bool, name: bytes, t: Table, names: bytes) returns (r: Read<bytes>)
    requires |data| <= ISIZE_MAX && (l == Elf64 || l == Elf32)
    requires t.ent < 0x1_0000 && t.num < 0x1_0000 && Header(t, t.str) <= ISIZE_MAX
    ensures r.Found? || r.Absent?
    ensures (exists i :: Hit(data, le, t, names, name, i) && r == AsRead(Contents(l, data, le, Header(t, i))))
            || (r.Absent? && exists i :: StopsAt(data, le, t, names, name, i))
  {
    for i := 0 to t.num
      invariant Passed(data, le, t, names, name, i)
    {
      HeadersAreLow(t, i);
      var hdr := Header(t, i);
      var nameOff := UintAt(data, hdr, 4, le);
      if !nameOff.Found? {
        assert StopsAt(data, le, t, names, name, i);
        return Absent;
      }
      var secName := CstrAt(names, nameOff.value);
      if secName.None? {
        assert StopsAt(data, le, t, names, name, i);
        return Absent;
      }
      if secName.value != name {
        continue;
      }
      r := ReadContents(l, data, le, hdr);
      assert Hit(data, le, t, names, name, i);
      return;
    }
    assert StopsAt(data, le, t, names, name, t.num);
    return Absent;
  }

  method ReadTable(l: Layout, data: bytes, le: bool) returns (t: Option<Table>)
    requires |data| <= ISIZE_MAX && (l == Elf64 || l == Elf32)
    ensures t == TableOf(l, data, le)
  {
    var shoff := UintAt(data, l.shoff, l.width, le);
    if !shoff.Found? {
      return None;
    }
    var shentsize := UintAt(data, l.shentsize, 2, le);
    if !shentsize.Found? {
      return None;
    }
    var shnum := UintAt(data, l.shnum, 2, le);
    if !shnum.Found? {
      return None;
    }
    var shstrndx := UintAt(data, l.shstrndx, 2, le);
    if !shstrndx.Found? {
      return None;
    }
    if shentsize.value < l.minEnt || shnum.value == 0 || shstrndx.value >= shnum.value {
      return None;
    }
    return Some(Table(shoff.value, shentsize.value, shnum.value, shstrndx.value));
  }

  /** One reader for both classes; every access is as in the two hand-written ones. */
  method SectionIn(l: Layout, data: bytes, le: bool, name: bytes) returns (r: Read<bytes>)
    requires |data| <= ISIZE_MAX && (l == Elf64 || l == Elf32)
    ensures r == Spec(l, data, le, name)
  {
    var table := ReadTable(l, data, le);
    if table.None? {
      return Absent;
    }
    var t := table.value;
    var strHdr := Header(t, t.str);
    if strHdr > USIZE_MAX {
      NoStringTable(l, data, le, name, t);
      return Absent;
    }
    var strtab := ReadContents(l, data, le, strHdr);
    if !strtab.Found? {
      return if strtab.Overflow? then Overflow else Absent;
    }
    TableBounds(l, data, le, t);
    r := FindSection(l, data, le, name, t, strtab.value);
    SectionIsWanted(l, data, le, name, t, strtab.value, r);
  }

  lemma NoStringTable(l: Layout, data: bytes, le: bool, name: bytes, t: Table)
    requires |data| <= ISIZE_MAX && TableOf(l, data, le) == Some(t) && Header(t, t.str) > USIZE_MAX
    ensures Spec(l, data, le, name) == Absent
  {}

  lemma SectionIsWanted(l: Layout, data: bytes, le: bool, name: bytes, t: Table, names: bytes, r: Read<bytes>)
    requires TableOf(l, data, le) == Some(t) && Contents(l, data, le, Header(t, t.str)) == Some(names)
    requires (exists i :: Hit(data, le, t, names, name, i) && r == AsRead(Contents(l, data, le, Header(t, i))))
             || (r.Absent? && exists i :: StopsAt(data, le, t, names, name, i))
    ensures r == AsRead(Wanted(l, data, le, name))
  {
    if i: nat :| Hit(data, le, t, names, name, i) && r == AsRead(Contents(l, data, le, Header(t, i))) {
      WantedIsHit(l, data, le, name, t, names, i);
    } else {
      var i: nat :| StopsAt(data, le, t, names, name, i);
      WantedIsNone(l, data, le, name, t, names, i);
    }
  }

  // ----- The entry point -----

  /** The four magic bytes of an ELF file. */
  const Magic: bytes := [0x7F, 0x45, 0x4C, 0x46]

  /** What the section of that name is, by class and byte order; nothing for anything but an ELF file. */
  ghost function SectionData(data: bytes, name: bytes): Read<bytes> {
    if |data| < 16 || data[..4] != Magic || (data[5] != 1 && data[5] != 2) then Absent
    else if data[4] == 1 then AsRead(Wanted(Elf32, data, data[5] == 1, name))
    else if data[4] == 2 then Spec(Elf64, data, data[5] == 1, name)
    else Absent
  }

  method ElfSectionData(data: bytes, name: bytes) returns (r: Read<bytes>)
    requires |data| <= ISIZE_MAX
    ensures r == SectionData(data, name)
  {
    if |data| < 16 || data[0..4] != Magic {
      return Absent;
    }
    var class_ := data[4];
    var endian := data[5];
    var le := endian == 1;
    if !le && endian != 2 {
      return Absent;
    }
    if class_ == 1 {
      r := SectionIn(Elf32, data, le, name);
      Elf32NeverOverflows(data, le);
      return;
    }
    if class_ == 2 {
      r := SectionIn(Elf64, data, le, name);
      return;
    }
    return Absent;
  }

  /** With 32-bit offsets no input reaches the overflow. */
  lemma Elf32NeverOverflows(data: bytes, le: bool)
    ensures !Overflows(Elf32, data, le)
  {
    var t := TableOf(Elf32, data, le);
    if t.Some? {
      FieldBounds(data, 32, le);
      TableBounds(Elf32, data, le, t.value);
      ProductBound(t.value.str, t.value.ent);
    }
  }

  function Fill(n: nat, b: byte): (r: bytes)
    ensures |r| == n && forall i :: 0 <= i < n ==> r[i] == b
  {
    seq(n, _ => b)
  }

  lemma {:induction false} AllOnes(n: nat)
    ensures Little(Fill(n, 255)) == Pow256(n) - 1
  {
    if n > 0 {
      AllOnes(n - 1);
      assert Fill(n, 255)[1..] == Fill(n - 1, 255);
    } else {
      assert Fill(0, 255) == [];
    }
  }

  /** A 64-bit little-endian file of 64 bytes whose header table lies at the very top of the address space. */
  const HighTable: bytes := Magic + [2, 1] + Fill(34, 0) + Fill(8, 255) + Fill(10, 0) + [64, 0, 1, 0, 0, 0]

  lemma HighTableFields()
    ensures |HighTable| == 64 && TableOf(Elf64, HighTable, true) == Some(Table(USIZE_MAX, 64, 1, 0))
  {
    var data := HighTable;
    assert data[40..48] == Fill(8, 255);
    AllOnes(8);
    assert Pow256(8) == USIZE_MAX + 1 by {
      assert Pow256(4) == 0x1_0000_0000 by { assert Pow256(2) == 0x1_0000; }
      assert Pow256(6) == 0x1_0000_0000_0000;
    }
    TwoBytes(data, 58, 64, 0);
    TwoBytes(data, 60, 1, 0);
    TwoBytes(data, 62, 0, 0);
  }

  /** With 64-bit offsets the reader can overflow: on this file it does, whatever section is asked for. */
  lemma Elf64CanOverflow(name: bytes)
    ensures SectionData(HighTable, name) == Overflow
  {
    HighTableFields();
    assert HighTable[..4] == Magic && HighTable[4] == 2 && HighTable[5] == 1;
  }

  lemma TwoBytes(data: bytes, off: nat, lo: byte, hi: byte)
    requires off + 2 <= |data| && data[off] == lo && data[off + 1] == hi
    ensures Field(data, off, 2, true) == Some(lo + 0x100 * hi)
  {
    var b := data[off..off + 2];
    assert b == [lo, hi] && b[1..][1..] == [];
    assert Little(b[1..]) == hi;
  }
}
