/** Writing a shared object as an image, so that there is one to read for every object. */
module ElfImage {
  import opened Arithmetic
  import opened Wrappers
  import opened Elf

  // ---------------------------------------------------------------- numbers

  function Power(width: nat): nat {
    if width == 0 then 1 else 256 * Power(width - 1)
  }

  /** A byte of a number, lowest first. */
  function Digit(value: nat, k: nat): (d: nat)
    ensures d < 256
  {
    if k == 0 then value % 256 else Digit(value / 256, k - 1)
  }

  lemma {:induction false} UnsignedOf(content: string, at: nat, width: nat, value: nat)
    requires at + width <= |content| && value < Power(width)
    requires forall k :: 0 <= k < width ==> content[at + k] as nat == Digit(value, k)
    ensures Unsigned(content, at, width) == value
    decreases width
  {
    if width > 0 {
      assert content[at + 0] as nat == Digit(value, 0);
      forall k | 0 <= k < width - 1
        ensures content[at + 1 + k] as nat == Digit(value / 256, k)
      {
        assert content[at + (k + 1)] as nat == Digit(value, k + 1);
      }
      UnsignedOf(content, at + 1, width - 1, value / 256);
    }
  }

  // ---------------------------------------------------------------- structures

  datatype Entry = Entry(field: Field, value: nat)

  predicate Inside(f: Field, k: nat) {
    f.offset <= k < f.offset + f.width
  }

  /** A byte of a structure: of the field it belongs to, or zero. */
  function ByteOf(entries: seq<Entry>, k: nat): (d: nat)
    ensures d < 256
  {
    if entries == [] then 0
    else if Inside(entries[0].field, k) then Digit(entries[0].value, k - entries[0].field.offset)
    else ByteOf(entries[1..], k)
  }

  function Struct(size: nat, entries: seq<Entry>): (s: string)
    ensures |s| == size && forall k :: 0 <= k < size ==> s[k] as nat == ByteOf(entries, k)
  {
    seq(size, k requires 0 <= k => ByteOf(entries, k) as char)
  }

  /** The structure lies at a place of the file. */
  predicate Lies(content: string, base: nat, part: string) {
    base + |part| <= |content| && content[base..base + |part|] == part
  }

  /** Each field is in the structure, has room for its value, and shares no byte with another. */
  predicate Sound(size: nat, entries: seq<Entry>) {
    && (forall i :: 0 <= i < |entries| ==>
          entries[i].field.offset + entries[i].field.width <= size && entries[i].value < Power(entries[i].field.width))
    && (forall i, j :: 0 <= i < j < |entries| ==> Apart(entries[i].field, entries[j].field))
  }

  predicate Apart(f: Field, g: Field) {
    f.offset + f.width <= g.offset || g.offset + g.width <= f.offset
  }

  lemma {:induction false} ByteOfEntry(entries: seq<Entry>, i: nat, k: nat)
    requires i < |entries| && Inside(entries[i].field, k)
    requires forall j :: 0 <= j < i ==> Apart(entries[j].field, entries[i].field)
    ensures ByteOf(entries, k) == Digit(entries[i].value, k - entries[i].field.offset)
  {
    if i > 0 {
      assert Apart(entries[0].field, entries[i].field);
      ByteOfEntry(entries[1..], i - 1, k);
    }
  }

  /** Reading a field of a structure gives the value written there. */
  lemma StructGet(content: string, base: nat, size: nat, entries: seq<Entry>, i: nat)
    requires Lies(content, base, Struct(size, entries)) && Sound(size, entries) && i < |entries|
    ensures Fits(content, base, size)
    ensures Get(content, base, entries[i].field) == entries[i].value
  {
    var f := entries[i].field;
    var s := Struct(size, entries);
    forall k | 0 <= k < f.width
      ensures content[base + f.offset + k] as nat == Digit(entries[i].value, k)
    {
      assert content[base + (f.offset + k)] == content[base..base + size][f.offset + k] == s[f.offset + k];
      ByteOfEntry(entries, i, f.offset + k);
    }
    UnsignedOf(content, base + f.offset, f.width, entries[i].value);
  }

  lemma LiesWithin(content: string, base: nat, part: string, at: nat, inner: string)
    requires Lies(content, base, part) && Lies(part, at, inner)
    ensures Lies(content, base + at, inner)
  {
    var n := |inner|;
    forall k | 0 <= k < n
      ensures content[base + at + k] == inner[k]
    {
      assert content[base..base + |part|][at + k] == part[at + k];
      assert part[at..at + n][k] == part[at + k];
    }
    assert content[base + at..base + at + n] == inner;
  }

  // ---------------------------------------------------------------- tables

  /** Structures of one size after another. */
  function Table(size: nat, all: seq<seq<Entry>>): string {
    if all == [] then "" else Table(size, all[..|all| - 1]) + Struct(size, all[|all| - 1])
  }

  lemma {:induction false} TableSize(size: nat, all: seq<seq<Entry>>)
    ensures |Table(size, all)| == EntryAt(0, size, |all|)
  {
    if all != [] {
      TableSize(size, all[..|all| - 1]);
      NextEntry(size, |all| - 1);
    }
  }

  lemma NextEntry(size: nat, i: nat)
    ensures EntryAt(0, size, i + 1) == EntryAt(0, size, i) + size
  {
  }

  lemma {:induction false} TableEntry(size: nat, all: seq<seq<Entry>>, i: nat)
    requires i < |all|
    ensures Lies(Table(size, all), EntryAt(0, size, i), Struct(size, all[i]))
  {
    var init, last := all[..|all| - 1], Struct(size, all[|all| - 1]);
    TableSize(size, init);
    var table := Table(size, init);
    hide Struct, Table, EntryAt;
    if i == |all| - 1 {
      assert (table + last)[|table|..|table| + |last|] == last;
    } else {
      TableEntry(size, init, i);
      var at, part := EntryAt(0, size, i), Struct(size, all[i]);
      assert (table + last)[at..at + |part|] == table[at..at + |part|];
    }
  }

  // ---------------------------------------------------------------- string tables

  /** Strings, each ended by a zero byte. */
  function Strings(names: seq<string>): string {
    if names == [] then "" else names[0] + [0 as char] + Strings(names[1..])
  }

  /** Where a string starts in the table. */
  function StringAt(names: seq<string>, i: nat): (at: nat)
    requires i < |names|
    ensures at < |Strings(names)|
  {
    if i == 0 then 0 else |names[0]| + 1 + StringAt(names[1..], i - 1)
  }

  predicate ZeroFree(s: string) {
    0 as char !in s
  }

  lemma {:induction false} CStringOf(content: string, at: nat, name: string)
    requires ZeroFree(name) && Lies(content, at, name + [0 as char])
    ensures CString(content, at) == name
    decreases |name|
  {
    assert content[at] == (name + [0 as char])[0] by { assert content[at] == content[at..at + |name| + 1][0]; }
    if name != "" {
      assert name[0] in name && forall c :: c in name[1..] ==> c in name;
      assert content[at + 1..at + 1 + |name|] == content[at..at + |name| + 1][1..] == name[1..] + [0 as char];
      CStringOf(content, at + 1, name[1..]);
      assert name == [name[0]] + name[1..];
    }
  }

  lemma {:induction false} StringLies(names: seq<string>, i: nat)
    requires i < |names|
    ensures Lies(Strings(names), StringAt(names, i), names[i] + [0 as char])
  {
    var first, rest := names[0] + [0 as char], Strings(names[1..]);
    assert Strings(names) == first + rest;
    if i == 0 {
      assert (first + rest)[0..|first|] == first;
    } else {
      StringLies(names[1..], i - 1);
      assert (first + rest)[|first|..|first| + |rest|] == rest;
      LiesWithin(first + rest, |first|, rest, StringAt(names[1..], i - 1), names[i] + [0 as char]);
    }
  }

  /** Reading a string of a table that lies in the file gives the string. */
  lemma StringRead(content: string, base: nat, names: seq<string>, i: nat)
    requires i < |names| && ZeroFree(names[i]) && Lies(content, base, Strings(names))
    ensures base + StringAt(names, i) <= |content|
    ensures CString(content, base + StringAt(names, i)) == names[i]
  {
    StringLies(names, i);
    LiesWithin(content, base, Strings(names), StringAt(names, i), names[i] + [0 as char]);
    CStringOf(content, base + StringAt(names, i), names[i]);
  }

  // ---------------------------------------------------------------- the image

  const SECTION_NAMES := ".shstrtab"

  function SymbolNamesOf(o: SharedObject): seq<string> {
    seq(|o.symbols|, j requires 0 <= j < |o.symbols| => o.symbols[j].name)
  }

  /** Where the parts of the image start. */
  datatype Places = Places(sections: nat, symbols: nat, names: nat, symbolNames: nat, end: nat)

  function PlacesOf(l: Layout, o: SharedObject): Places {
    var symbols := l.headerSize + EntryAt(0, l.sectionHeaderSize, |o.sections|);
    var names := symbols + EntryAt(0, l.symbolSize, |o.symbols|);
    var symbolNames := names + |Strings(o.sections)|;
    Places(l.headerSize, symbols, names, symbolNames, symbolNames + |Strings(SymbolNamesOf(o))|)
  }

  function HeaderEntries(l: Layout, o: SharedObject): seq<Entry> {
    var names := LastSection(o.sections, SECTION_NAMES);
    [Entry(Field(0, 1), 0x7F), Entry(Field(1, 1), 0x45), Entry(Field(2, 1), 0x4C), Entry(Field(3, 1), 0x46),
     Entry(Field(4, 1), if l == ELF32 then 1 else 2), Entry(Field(16, 2), ET_DYN),
     Entry(l.sectionsOffset, l.headerSize), Entry(l.sectionSize, l.sectionHeaderSize),
     Entry(l.sectionCount, |o.sections|), Entry(l.namesSection, if names.Some? then names.value else 0)]
  }

  function SectionEntries(l: Layout, o: SharedObject, i: nat): seq<Entry>
    requires i < |o.sections|
  {
    var p, name := PlacesOf(l, o), o.sections[i];
    [Entry(l.name, StringAt(o.sections, i)),
     Entry(l.offset, if name == ".dynsym" then p.symbols else if name == ".dynstr" then p.symbolNames
                     else if name == SECTION_NAMES then p.names else 0),
     Entry(l.size, if name == ".dynsym" then EntryAt(0, l.symbolSize, |o.symbols|) else 0),
     Entry(l.entrySize, if name == ".dynsym" then l.symbolSize else 0)]
  }

  function SymbolEntries(l: Layout, o: SharedObject, j: nat): seq<Entry>
    requires j < |o.symbols|
  {
    var s := o.symbols[j];
    [Entry(l.symbolName, StringAt(SymbolNamesOf(o), j)),
     Entry(l.info, s.kind + 16 * s.bind),
     Entry(l.section, s.section)]
  }

  function SectionStructs(l: Layout, o: SharedObject): seq<seq<Entry>> {
    seq(|o.sections|, i requires 0 <= i < |o.sections| => SectionEntries(l, o, i))
  }

  function SymbolStructs(l: Layout, o: SharedObject): seq<seq<Entry>> {
    seq(|o.symbols|, j requires 0 <= j < |o.symbols| => SymbolEntries(l, o, j))
  }

  function Image(l: Layout, o: SharedObject): string {
    Struct(l.headerSize, HeaderEntries(l, o))
    + (Table(l.sectionHeaderSize, SectionStructs(l, o))
       + (Table(l.symbolSize, SymbolStructs(l, o)) + (Strings(o.sections) + Strings(SymbolNamesOf(o)))))
  }

  /** The limits of the format: the widths of the fields, and names without zero bytes. */
  predicate Encodable(l: Layout, o: SharedObject) {
    && LastSection(o.sections, SECTION_NAMES).Some? && |o.sections| < 0x1_0000
    && PlacesOf(l, o).end < TWO_TO_THE_32
    && (forall i :: 0 <= i < |o.sections| ==> ZeroFree(o.sections[i]))
    && (forall s :: s in o.symbols ==> ZeroFree(s.name) && s.kind < 16 && s.bind < 16 && s.section < 0x1_0000)
  }

  lemma Powers()
    ensures Power(1) == 256 && Power(2) == 0x1_0000 && Power(4) == TWO_TO_THE_32 && TWO_TO_THE_32 <= Power(8)
  {
    assert Power(1) == 256 * Power(0) && Power(2) == 256 * Power(1) && Power(3) == 256 * Power(2);
    assert Power(4) == 256 * Power(3) && Power(5) == 256 * Power(4) && Power(6) == 256 * Power(5);
    assert Power(7) == 256 * Power(6) && Power(8) == 256 * Power(7);
  }

  lemma Parts(l: Layout, o: SharedObject)
    ensures var c, p := Image(l, o), PlacesOf(l, o);
            && |c| == p.end
            && Lies(c, 0, Struct(l.headerSize, HeaderEntries(l, o)))
            && Lies(c, p.sections, Table(l.sectionHeaderSize, SectionStructs(l, o)))
            && Lies(c, p.symbols, Table(l.symbolSize, SymbolStructs(l, o)))
            && Lies(c, p.names, Strings(o.sections))
            && Lies(c, p.symbolNames, Strings(SymbolNamesOf(o)))
  {
    hide Table, Struct, Strings, HeaderEntries, SymbolNamesOf, Lies, EntryAt;
    assert |SectionStructs(l, o)| == |o.sections| && |SymbolStructs(l, o)| == |o.symbols|;
    hide SectionStructs, SymbolStructs;
    TableSize(l.sectionHeaderSize, SectionStructs(l, o));
    TableSize(l.symbolSize, SymbolStructs(l, o));
    var a, b := Struct(l.headerSize, HeaderEntries(l, o)), Table(l.sectionHeaderSize, SectionStructs(l, o));
    var d, e, f := Table(l.symbolSize, SymbolStructs(l, o)), Strings(o.sections), Strings(SymbolNamesOf(o));
    FiveParts(a, b, d, e, f);
  }

  lemma FiveParts(a: string, b: string, d: string, e: string, f: string)
    ensures var c := a + (b + (d + (e + f)));
            Lies(c, 0, a) && Lies(c, |a|, b) && Lies(c, |a| + |b|, d) && Lies(c, |a| + |b| + |d|, e)
            && Lies(c, |a| + |b| + |d| + |e|, f)
  {
    var c := a + (b + (d + (e + f)));
    assert c[|a|..] == b + (d + (e + f));
    assert c[|a| + |b|..] == c[|a|..][|b|..] == d + (e + f);
    assert c[|a| + |b| + |d|..] == c[|a| + |b|..][|d|..] == e + f;
    assert c[|a| + |b| + |d| + |e|..] == c[|a| + |b| + |d|..][|e|..] == f;
  }

  // ---------------------------------------------------------------- the image stands for the object

  lemma HeaderSound(l: Layout, o: SharedObject)
    requires IsLayout(l) && Encodable(l, o)
    ensures Sound(l.headerSize, HeaderEntries(l, o))
  {
    Powers();
    hide Power, PlacesOf, LastSection, ZeroFree;
  }

  lemma SectionSound(l: Layout, o: SharedObject, i: nat)
    requires IsLayout(l) && Encodable(l, o) && i < |o.sections|
    ensures Sound(l.sectionHeaderSize, SectionEntries(l, o, i))
  {
    Powers();
    Ordered(l, o);
    hide Power, PlacesOf, LastSection, ZeroFree, StringAt, Strings, EntryAt;
  }

  lemma SymbolSound(l: Layout, o: SharedObject, j: nat)
    requires IsLayout(l) && Encodable(l, o) && j < |o.symbols|
    ensures Sound(l.symbolSize, SymbolEntries(l, o, j))
  {
    Powers();
    Ordered(l, o);
    assert o.symbols[j] in o.symbols;
    hide Power, PlacesOf, LastSection, ZeroFree, StringAt, Strings, EntryAt, SymbolNamesOf;
  }

  /** Everything lies before the end of the image. */
  lemma Ordered(l: Layout, o: SharedObject)
    ensures var p := PlacesOf(l, o);
            && p.sections <= p.symbols <= p.names <= p.symbolNames <= p.end
            && |Strings(o.sections)| <= p.end && |Strings(SymbolNamesOf(o))| <= p.end
            && EntryAt(0, l.symbolSize, |o.symbols|) <= p.end
            && |SymbolNamesOf(o)| == |o.symbols|
  {
  }

  lemma HeaderRead(l: Layout, o: SharedObject)
    requires IsLayout(l) && Encodable(l, o)
    ensures var c := Image(l, o);
            && Fits(c, 0, l.headerSize)
            && Get(c, 0, l.sectionsOffset) == l.headerSize && Get(c, 0, l.sectionSize) == l.sectionHeaderSize
            && Get(c, 0, l.sectionCount) == |o.sections|
            && Get(c, 0, l.namesSection) == LastSection(o.sections, SECTION_NAMES).value
            && Get(c, 0, Field(0, 1)) == 0x7F && Get(c, 0, Field(1, 1)) == 0x45 && Get(c, 0, Field(2, 1)) == 0x4C
            && Get(c, 0, Field(3, 1)) == 0x46 && Get(c, 0, Field(4, 1)) == (if l == ELF32 then 1 else 2)
            && Get(c, 0, Field(16, 2)) == ET_DYN
  {
    Parts(l, o);
    HeaderSound(l, o);
    var c, size, e := Image(l, o), l.headerSize, HeaderEntries(l, o);
    assert |e| == 10;
    hide Image, Sound, Struct, Lies, Get, LastSection, Encodable, PlacesOf;
    StructGet(c, 0, size, e, 0);
    StructGet(c, 0, size, e, 1);
    StructGet(c, 0, size, e, 2);
    StructGet(c, 0, size, e, 3);
    StructGet(c, 0, size, e, 4);
    StructGet(c, 0, size, e, 5);
    StructGet(c, 0, size, e, 6);
    StructGet(c, 0, size, e, 7);
    StructGet(c, 0, size, e, 8);
    StructGet(c, 0, size, e, 9);
  }

  /** The bytes that identify the file. */
  lemma ImageIdentified(l: Layout, o: SharedObject)
    requires IsLayout(l) && Encodable(l, o)
    ensures Identify(Image(l, o)) == Some(if l == ELF32 then Bits32 else Bits64)
  {
    HeaderRead(l, o);
    var c := Image(l, o);
    hide Image, Encodable;
    assert c[0] as nat == Get(c, 0, Field(0, 1)) - 256 * Unsigned(c, 1, 0);
    assert c[1] as nat == Get(c, 0, Field(1, 1)) - 256 * Unsigned(c, 2, 0);
    assert c[2] as nat == Get(c, 0, Field(2, 1)) - 256 * Unsigned(c, 3, 0);
    assert c[3] as nat == Get(c, 0, Field(3, 1)) - 256 * Unsigned(c, 4, 0);
    assert c[4] as nat == Get(c, 0, Field(4, 1)) - 256 * Unsigned(c, 5, 0);
    assert c[1..4] == "ELF";
  }

  /** The structure of an entry of a table that lies in the file. */
  lemma EntryLies(content: string, base: nat, size: nat, all: seq<seq<Entry>>, i: nat)
    requires Lies(content, base, Table(size, all)) && i < |all|
    ensures Lies(content, EntryAt(base, size, i), Struct(size, all[i]))
  {
    TableEntry(size, all, i);
    LiesWithin(content, base, Table(size, all), EntryAt(0, size, i), Struct(size, all[i]));
  }

  lemma SectionRead(l: Layout, o: SharedObject, i: nat)
    requires IsLayout(l) && Encodable(l, o) && i < |o.sections|
    ensures var c, p, e := Image(l, o), PlacesOf(l, o), SectionEntries(l, o, i);
            && Fits(c, 0, l.headerSize)
            && var at := SectionAt(c, l, i);
            && Fits(c, at, l.sectionHeaderSize)
            && Get(c, at, l.name) == e[0].value && Get(c, at, l.offset) == e[1].value
            && Get(c, at, l.size) == e[2].value && Get(c, at, l.entrySize) == e[3].value
  {
    HeaderRead(l, o);
    Parts(l, o);
    SectionSound(l, o, i);
    var c, p, e := Image(l, o), PlacesOf(l, o), SectionEntries(l, o, i);
    EntryLies(c, p.sections, l.sectionHeaderSize, SectionStructs(l, o), i);
    var at := SectionAt(c, l, i);
    assert at == EntryAt(p.sections, l.sectionHeaderSize, i);
    hide Image, Sound, Struct, Lies, Get, LastSection, Encodable, PlacesOf, Table, SectionAt, EntryAt, StringAt;
    StructGet(c, at, l.sectionHeaderSize, e, 0);
    StructGet(c, at, l.sectionHeaderSize, e, 1);
    StructGet(c, at, l.sectionHeaderSize, e, 2);
    StructGet(c, at, l.sectionHeaderSize, e, 3);
  }

  lemma SymbolStructRead(l: Layout, o: SharedObject, j: nat)
    requires IsLayout(l) && Encodable(l, o) && j < |o.symbols|
    ensures var c, e := Image(l, o), SymbolEntries(l, o, j);
            var at := EntryAt(PlacesOf(l, o).symbols, l.symbolSize, j);
            && Fits(c, at, l.symbolSize)
            && Get(c, at, l.symbolName) == e[0].value && Get(c, at, l.info) == e[1].value
            && Get(c, at, l.section) == e[2].value
  {
    Parts(l, o);
    SymbolSound(l, o, j);
    var c, p, e := Image(l, o), PlacesOf(l, o), SymbolEntries(l, o, j);
    EntryLies(c, p.symbols, l.symbolSize, SymbolStructs(l, o), j);
    var at := EntryAt(p.symbols, l.symbolSize, j);
    hide Image, Sound, Struct, Lies, Get, LastSection, Encodable, PlacesOf, Table, EntryAt, StringAt, SymbolNamesOf;
    StructGet(c, at, l.symbolSize, e, 0);
    StructGet(c, at, l.symbolSize, e, 1);
    StructGet(c, at, l.symbolSize, e, 2);
  }

  lemma SectionsRead(l: Layout, o: SharedObject)
    requires IsLayout(l) && Encodable(l, o)
    ensures Fits(Image(l, o), 0, l.headerSize) && HasSections(Image(l, o), l, o.sections)
    ensures NamesOffset(Image(l, o), l) == Some(PlacesOf(l, o).names)
  {
    var c, names := Image(l, o), PlacesOf(l, o).names;
    HeaderRead(l, o);
    EncodableFacts(l, o);
    hide *;
    SectionRead(l, o, LastSection(o.sections, SECTION_NAMES).value);
    NamesFound(l, o);
    forall i | 0 <= i < |o.sections|
      ensures SectionName(c, l, names, i) == Some(o.sections[i])
    {
      SectionNameRead(l, o, i);
    }
    SectionsFact(c, l, names, o.sections);
  }

  lemma EncodableFacts(l: Layout, o: SharedObject)
    requires Encodable(l, o)
    ensures LastSection(o.sections, SECTION_NAMES).Some?
    ensures forall i :: 0 <= i < |o.sections| ==> ZeroFree(o.sections[i])
    ensures forall j :: 0 <= j < |o.symbols| ==>
              ZeroFree(o.symbols[j].name) && o.symbols[j].kind < 16 && o.symbols[j].bind < 16
  {
    hide LastSection, PlacesOf, ZeroFree;
  }

  lemma SectionsFact(c: string, l: Layout, names: nat, sections: seq<string>)
    requires IsLayout(l) && Fits(c, 0, l.headerSize)
    requires Get(c, 0, l.sectionCount) == |sections| && NamesOffset(c, l) == Some(names)
    requires forall i :: 0 <= i < |sections| ==> SectionName(c, l, names, i) == Some(sections[i])
    ensures HasSections(c, l, sections)
  {
    hide Get, NamesOffset, SectionName, IsLayout, Fits;
  }

  lemma NamesFound(l: Layout, o: SharedObject)
    requires IsLayout(l) && Encodable(l, o)
    ensures Fits(Image(l, o), 0, l.headerSize) && NamesOffset(Image(l, o), l) == Some(PlacesOf(l, o).names)
  {
    var at := LastSection(o.sections, SECTION_NAMES).value;
    HeaderRead(l, o);
    SectionRead(l, o, at);
    assert SectionEntries(l, o, at)[1].value == PlacesOf(l, o).names;
    hide Image, PlacesOf, Get, LastSection, SectionAt, SectionEntries, Encodable;
  }

  lemma SectionNameRead(l: Layout, o: SharedObject, i: nat)
    requires IsLayout(l) && Encodable(l, o) && i < |o.sections|
    ensures Fits(Image(l, o), 0, l.headerSize)
    ensures SectionName(Image(l, o), l, PlacesOf(l, o).names, i) == Some(o.sections[i])
  {
    hide *;
    var c, names := Image(l, o), PlacesOf(l, o).names;
    EncodableFacts(l, o);
    SectionRead(l, o, i);
    Parts(l, o);
    NameEntry(l, o, i);
    StringRead(c, names, o.sections, i);
    NameFact(c, l, names, i, StringAt(o.sections, i), o.sections[i]);
  }

  lemma NameEntry(l: Layout, o: SharedObject, i: nat)
    requires i < |o.sections|
    ensures |SectionEntries(l, o, i)| == 4 && SectionEntries(l, o, i)[0].value == StringAt(o.sections, i)
  {
    hide StringAt, PlacesOf;
  }

  lemma NameFact(c: string, l: Layout, names: nat, i: nat, at: nat, name: string)
    requires IsLayout(l) && Fits(c, 0, l.headerSize) && Fits(c, SectionAt(c, l, i), l.sectionHeaderSize)
    requires Get(c, SectionAt(c, l, i), l.name) == at && names + at <= |c| && CString(c, names + at) == name
    ensures SectionName(c, l, names, i) == Some(name)
  {
    hide Get, SectionAt, CString;
  }

  lemma SymbolRead(l: Layout, o: SharedObject, t: Tables, j: nat)
    requires IsLayout(l) && Encodable(l, o) && j < |o.symbols|
    requires t.symbols == PlacesOf(l, o).symbols && t.entrySize == l.symbolSize && t.names == PlacesOf(l, o).symbolNames
    ensures SymbolAt(Image(l, o), l, t, j) == Some(o.symbols[j])
  {
    hide *;
    var c, s, names := Image(l, o), o.symbols[j], SymbolNamesOf(o);
    EncodableFacts(l, o);
    SymbolStructRead(l, o, j);
    Parts(l, o);
    SymbolValues(l, o, j);
    StringRead(c, t.names, names, j);
    SymbolFact(c, l, t, j, StringAt(names, j), s);
  }

  lemma SymbolValues(l: Layout, o: SharedObject, j: nat)
    requires j < |o.symbols|
    ensures |SymbolNamesOf(o)| == |o.symbols| && SymbolNamesOf(o)[j] == o.symbols[j].name
    ensures var e, s := SymbolEntries(l, o, j), o.symbols[j];
            && |e| == 3 && e[0].value == StringAt(SymbolNamesOf(o), j)
            && e[1].value == s.kind + 16 * s.bind && e[2].value == s.section
  {
    hide StringAt;
  }

  lemma SymbolFact(c: string, l: Layout, t: Tables, j: nat, name: nat, s: Symbol)
    requires IsLayout(l) && s.kind < 16 && Fits(c, EntryAt(t.symbols, t.entrySize, j), l.symbolSize)
    requires var at := EntryAt(t.symbols, t.entrySize, j);
             && Get(c, at, l.symbolName) == name && Get(c, at, l.info) == s.kind + 16 * s.bind
             && Get(c, at, l.section) == s.section
    requires t.names + name <= |c| && CString(c, t.names + name) == s.name
    ensures SymbolAt(c, l, t, j) == Some(s)
  {
    hide Get, EntryAt, CString;
    assert (s.kind + 16 * s.bind) % 16 == s.kind && (s.kind + 16 * s.bind) / 16 == s.bind;
  }

  /** Every object within the limits of the format has an image that stands for it. */
  lemma ImageRepresents(l: Layout, o: SharedObject)
    requires IsLayout(l) && Encodable(l, o)
    ensures Represents(Image(l, o), l, o)
  {
    hide Image, PlacesOf, Get, SectionAt, SymbolAt, HasSections;
    var c, p := Image(l, o), PlacesOf(l, o);
    SectionsRead(l, o);
    if HasNeeded(o) {
      var sym, str := LastSection(o.sections, ".dynsym").value, LastSection(o.sections, ".dynstr").value;
      var t := Tables(p.symbols, l.symbolSize, |o.symbols|, p.symbolNames, LastSection(o.sections, ".text").value);
      SectionRead(l, o, sym);
      SectionRead(l, o, str);
      SymbolCount(l, o);
      forall j | 0 <= j < |o.symbols|
        ensures SymbolAt(c, l, t, j) == Some(o.symbols[j])
      {
        SymbolRead(l, o, t, j);
      }
      hide LastSection;
      assert HasSymbols(c, l, t, o.symbols);
      assert HasTables(c, l, t, o.sections, |o.symbols|);
    }
  }

  lemma SymbolCount(l: Layout, o: SharedObject)
    requires IsLayout(l) && PlacesOf(l, o).end < TWO_TO_THE_32
    ensures EntryAt(0, l.symbolSize, |o.symbols|) == |o.symbols| * l.symbolSize && |o.symbols| < TWO_TO_THE_32
  {
  }

  /**
   Round trip: the image of an object, in either class, is recognised as such and read back as the
   names of the object's global text functions, last one first.
   */
  lemma ImageRoundTrip(l: Layout, o: SharedObject)
    requires IsLayout(l) && Encodable(l, o)
    ensures Identify(Image(l, o)) == Some(if l == ELF32 then Bits32 else Bits64)
    ensures Identify(Image(l, o)).Some? && LayoutOf(Identify(Image(l, o)).value) == l
    ensures Symbols(Image(l, o), l) == Some(Expected(o))
  {
    hide Image, Encodable, Symbols, Expected, Identify, Represents;
    ImageIdentified(l, o);
    ImageRepresents(l, o);
    ReadsObject(Image(l, o), l, o);
  }
}
