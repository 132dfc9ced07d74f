/**
 Reading the dynamic symbols of a shared object (cut-elf-loader.c), by chapter 4 (object files) of
 the System V gABI. A file is a string of bytes; reads are in the byte order of a little-endian host.
 */
module Elf {
  import opened Arithmetic
  import opened Seqs
  import opened Wrappers

  // ---------------------------------------------------------------- layouts

  /** Where a field is in its structure, and how many bytes it has. */
  datatype Field = Field(offset: nat, width: nat)

  /** The fields the reader uses, and the sizes of the structures it reads them from. */
  datatype Layout = Layout(
    headerSize: nat, sectionsOffset: Field, sectionSize: Field, sectionCount: Field, namesSection: Field,
    sectionHeaderSize: nat, name: Field, offset: Field, size: Field, entrySize: Field,
    symbolSize: nat, symbolName: Field, info: Field, section: Field)

  const ELF32 := Layout(
    52, Field(32, 4), Field(46, 2), Field(48, 2), Field(50, 2),
    40, Field(0, 4), Field(16, 4), Field(20, 4), Field(36, 4),
    16, Field(0, 4), Field(12, 1), Field(14, 2))

  const ELF64 := Layout(
    64, Field(40, 8), Field(58, 2), Field(60, 2), Field(62, 2),
    64, Field(0, 4), Field(24, 8), Field(32, 8), Field(56, 8),
    24, Field(0, 4), Field(4, 1), Field(6, 2))

  predicate IsLayout(l: Layout) {
    l == ELF32 || l == ELF64
  }

  function Unsigned(content: string, at: nat, width: nat): nat
    requires at + width <= |content|
    decreases width
  {
    if width == 0 then 0 else content[at] as nat + 256 * Unsigned(content, at + 1, width - 1)
  }

  /** The structure at `base` lies in the file. */
  predicate Fits(content: string, base: nat, size: nat) {
    base + size <= |content|
  }

  function Get(content: string, base: nat, f: Field): nat
    requires Fits(content, base, f.offset + f.width)
  {
    Unsigned(content, base + f.offset, f.width)
  }

  /** The C string at a place; the file is followed by a zero byte in memory. */
  function CString(content: string, at: nat): string
    requires at <= |content|
    decreases |content| - at
  {
    if at == |content| || content[at] as int == 0 then "" else [content[at]] + CString(content, at + 1)
  }

  // ---------------------------------------------------------------- the reader

  const ET_DYN := 3
  const STT_FUNC := 2
  const STB_GLOBAL := 1

  datatype Architecture = Bits32 | Bits64

  /** cut_elf_loader_is_elf: the class of a dynamic library. */
  function Identify(content: string): Option<Architecture> {
    if |content| < 18 then None
    else if content[0] as int != 0x7F || content[1..4] != "ELF" then None
    else if Unsigned(content, 16, 2) != ET_DYN then None
    else if content[4] as int == 1 then Some(Bits32)
    else if content[4] as int == 2 then Some(Bits64)
    else None
  }

  function LayoutOf(a: Architecture): Layout {
    if a == Bits32 then ELF32 else ELF64
  }

  /** The place of an entry of a table. */
  function EntryAt(base: nat, size: nat, i: nat): nat {
    base + size * i
  }

  function SectionAt(content: string, l: Layout, i: nat): nat
    requires IsLayout(l) && Fits(content, 0, l.headerSize)
  {
    EntryAt(Get(content, 0, l.sectionsOffset), Get(content, 0, l.sectionSize), i)
  }

  /** The section headers met so far; the last one of a name counts. */
  datatype Found = Found(dynstr: Option<nat>, dynsym: Option<nat>, text: nat)

  function Note(found: Found, name: string, at: nat, i: nat): Found {
    if name == ".dynstr" then found.(dynstr := Some(at))
    else if name == ".dynsym" then found.(dynsym := Some(at))
    else if name == ".text" then found.(text := i)
    else found
  }

  /** The name of a section, if it lies in the file. */
  function SectionName(content: string, l: Layout, names: nat, i: nat): Option<string>
    requires IsLayout(l) && Fits(content, 0, l.headerSize)
  {
    var at := SectionAt(content, l, i);
    if Fits(content, at, l.sectionHeaderSize) && names + Get(content, at, l.name) <= |content|
    then Some(CString(content, names + Get(content, at, l.name)))
    else None
  }

  /** The first k section headers; None if something lies outside the file. */
  function Scan(content: string, l: Layout, names: nat, k: nat): Option<Found>
    requires IsLayout(l) && Fits(content, 0, l.headerSize)
  {
    if k == 0 then Some(Found(None, None, 0))
    else
      var before, name := Scan(content, l, names, k - 1), SectionName(content, l, names, k - 1);
      if before == None || name == None then None
      else Some(Note(before.value, name.value, SectionAt(content, l, k - 1), k - 1))
  }

  /** Where the table of section names starts, if its header lies in the file. */
  function NamesOffset(content: string, l: Layout): Option<nat>
    requires IsLayout(l) && Fits(content, 0, l.headerSize)
  {
    var at := SectionAt(content, l, Get(content, 0, l.namesSection));
    if Fits(content, at, l.sectionHeaderSize) then Some(Get(content, at, l.offset)) else None
  }

  /** What collect_symbol_information finds out. */
  datatype Tables = Tables(symbols: nat, entrySize: nat, count: nat, names: nat, text: nat)

  datatype Collected = OutOfBounds | NotCollected | Collected(tables: Tables)

  function TablesOf(content: string, l: Layout, found: Found): Collected
    requires IsLayout(l)
  {
    if found.dynsym == None || found.dynstr == None || found.text == 0 then NotCollected
    else
      var sym, str := found.dynsym.value, found.dynstr.value;
      if !Fits(content, sym, l.sectionHeaderSize) || !Fits(content, str, l.sectionHeaderSize) then OutOfBounds else
      var entrySize := Get(content, sym, l.entrySize);
      Collected(Tables(
        Get(content, sym, l.offset), entrySize,
        if entrySize > 0 then (Get(content, sym, l.size) / entrySize) % TWO_TO_THE_32 else 0,
        Get(content, str, l.offset), found.text))
  }

  function CollectTables(content: string, l: Layout): Collected
    requires IsLayout(l)
  {
    if !Fits(content, 0, l.headerSize) then OutOfBounds else
    var names := NamesOffset(content, l);
    if names == None then OutOfBounds else
    var found := Scan(content, l, names.value, Get(content, 0, l.sectionCount));
    if found == None then OutOfBounds else TablesOf(content, l, found.value)
  }

  datatype Symbol = Symbol(name: string, kind: nat, bind: nat, section: nat)

  function SymbolAt(content: string, l: Layout, t: Tables, i: nat): Option<Symbol>
    requires IsLayout(l)
  {
    var at := EntryAt(t.symbols, t.entrySize, i);
    if Fits(content, at, l.symbolSize) && t.names + Get(content, at, l.symbolName) <= |content| then
      var info := Get(content, at, l.info);
      Some(Symbol(CString(content, t.names + Get(content, at, l.symbolName)), info % 16, info / 16,
                  Get(content, at, l.section)))
    else None
  }

  predicate IsTextFunction(s: Symbol, text: nat) {
    s.kind == STT_FUNC && s.bind == STB_GLOBAL && s.section == text
  }

  /** The names of the first k symbols that are global functions of the text section, last one first. */
  function CollectNames(content: string, l: Layout, t: Tables, k: nat): Option<seq<string>>
    requires IsLayout(l)
  {
    if k == 0 then Some([])
    else
      var before, symbol := CollectNames(content, l, t, k - 1), SymbolAt(content, l, t, k - 1);
      if before == None || symbol == None then None
      else if IsTextFunction(symbol.value, t.text) then Some([symbol.value.name] + before.value)
      else before
  }

  /** cut_elf_loader_collect_symbols; None if a read would leave the file. */
  function Symbols(content: string, l: Layout): Option<seq<string>>
    requires IsLayout(l)
  {
    match CollectTables(content, l)
    case OutOfBounds => None
    case NotCollected => Some([])
    case Collected(t) => CollectNames(content, l, t, t.count)
  }

  class ElfLoader {
    var content: Option<string>
    var bit: Option<Architecture>

    constructor ()
      ensures content == None && bit == None
    {
      content, bit := None, None;
    }

    method IsElf(file: string) returns (yes: bool)
      modifies this
      ensures yes <==> Identify(file).Some?
      ensures yes ==> content == Some(file) && bit == Identify(file)
      ensures !yes ==> content == None
    {
      content := Some(file);
      if |file| < 16 {
        content := None;
        return false;
      }
      if file[0] as int == 0x7F && file[1..4] == "ELF" {
        if file[4] as int == 1 {
          bit := Some(Bits32);
        } else if file[4] as int == 2 {
          bit := Some(Bits64);
        } else {
          content := None;
        }
      } else {
        content := None;
      }
      if content.Some? && (|file| < 18 || Unsigned(file, 16, 2) != ET_DYN) {
        content := None;
      }
      yes := content.Some?;
    }

    method CollectSymbolInformation() returns (r: Collected)
      requires content.Some? && bit.Some?
      ensures r == CollectTables(content.value, LayoutOf(bit.value))
    {
      var c, l := content.value, LayoutOf(bit.value);
      if !Fits(c, 0, l.headerSize) {
        return OutOfBounds;
      }
      var names := NamesOffset(c, l);
      if names == None {
        return OutOfBounds;
      }
      var count, found, i := Get(c, 0, l.sectionCount), Found(None, None, 0), 0;
      hide SectionName, SectionAt, NamesOffset, Get, TablesOf;
      while i < count
        invariant i <= count && Scan(c, l, names.value, i) == Some(found)
      {
        var name := SectionName(c, l, names.value, i);
        if name == None {
          ScanFails(c, l, names.value, i, count);
          return OutOfBounds;
        }
        var at := SectionAt(c, l, i);
        if name.value == ".dynstr" {
          found := found.(dynstr := Some(at));
        } else if name.value == ".dynsym" {
          found := found.(dynsym := Some(at));
        } else if name.value == ".text" {
          found := found.(text := i);
        }
        i := i + 1;
      }
      r := TablesOf(c, l, found);
    }

    method CollectSymbols() returns (symbols: Option<seq<string>>)
      requires content.Some? && bit.Some?
      ensures symbols == Symbols(content.value, LayoutOf(bit.value))
    {
      var c, l := content.value, LayoutOf(bit.value);
      SymbolsCases(c, l);
      hide Symbols, SymbolAt, CollectTables;
      var r := CollectSymbolInformation();
      if r == OutOfBounds {
        return None;
      }
      if r == NotCollected {
        return Some([]);
      }
      var t := r.tables;
      var names, i := [], 0;
      NoNames(c, l, t);
      hide CollectNames;
      while i < t.count
        invariant i <= t.count && CollectNames(c, l, t, i) == Some(names)
      {
        var symbol := SymbolAt(c, l, t, i);
        if symbol == None {
          NamesFail(c, l, t, i, t.count);
          return None;
        }
        NextName(c, l, t, i);
        if IsTextFunction(symbol.value, t.text) {
          names := [symbol.value.name] + names;
        }
        i := i + 1;
      }
      symbols := Some(names);
    }
  }

  lemma SymbolsCases(content: string, l: Layout)
    requires IsLayout(l)
    ensures Symbols(content, l) == match CollectTables(content, l)
                                   case OutOfBounds => None
                                   case NotCollected => Some([])
                                   case Collected(t) => CollectNames(content, l, t, t.count)
  {
    hide CollectTables, CollectNames;
  }

  lemma NoNames(content: string, l: Layout, t: Tables)
    requires IsLayout(l)
    ensures CollectNames(content, l, t, 0) == Some([])
  {
  }

  lemma NextName(content: string, l: Layout, t: Tables, i: nat)
    requires IsLayout(l) && CollectNames(content, l, t, i).Some? && SymbolAt(content, l, t, i).Some?
    ensures var names, symbol := CollectNames(content, l, t, i).value, SymbolAt(content, l, t, i).value;
            CollectNames(content, l, t, i + 1)
            == Some(if IsTextFunction(symbol, t.text) then [symbol.name] + names else names)
  {
    hide SymbolAt, IsTextFunction;
  }

  lemma {:induction false} ScanFails(content: string, l: Layout, names: nat, i: nat, k: nat)
    requires IsLayout(l) && Fits(content, 0, l.headerSize)
    requires i < k && SectionName(content, l, names, i) == None
    ensures Scan(content, l, names, k) == None
  {
    hide SectionName, SectionAt;
    if i < k - 1 {
      ScanFails(content, l, names, i, k - 1);
    }
  }

  lemma {:induction false} NamesFail(content: string, l: Layout, t: Tables, i: nat, k: nat)
    requires IsLayout(l) && i < k && SymbolAt(content, l, t, i) == None
    ensures CollectNames(content, l, t, k) == None
  {
    hide SymbolAt;
    if i < k - 1 {
      NamesFail(content, l, t, i, k - 1);
    }
  }

  // ---------------------------------------------------------------- what a file stands for

  /** A shared object as a list of section names and its dynamic symbols. */
  datatype SharedObject = SharedObject(sections: seq<string>, symbols: seq<Symbol>)

  /** The last section of a name. */
  function LastSection(sections: seq<string>, name: string): (i: Option<nat>)
    ensures i.Some? ==> i.value < |sections| && sections[i.value] == name
  {
    if sections == [] then None
    else if sections[|sections| - 1] == name then Some(|sections| - 1)
    else LastSection(sections[..|sections| - 1], name)
  }

  /** The file has these sections, in this order. */
  ghost predicate HasSections(content: string, l: Layout, sections: seq<string>)
    requires IsLayout(l) && Fits(content, 0, l.headerSize)
  {
    && Get(content, 0, l.sectionCount) == |sections|
    && NamesOffset(content, l).Some?
    && forall i :: 0 <= i < |sections| ==>
         SectionName(content, l, NamesOffset(content, l).value, i) == Some(sections[i])
  }

  /** The file has these symbols, in a table and with names at given places. */
  ghost predicate HasSymbols(content: string, l: Layout, t: Tables, symbols: seq<Symbol>)
    requires IsLayout(l)
  {
    forall j :: 0 <= j < |symbols| ==> SymbolAt(content, l, t, j) == Some(symbols[j])
  }

  /** The tables of the file: the symbol section holds that many entries of its entry size. */
  ghost predicate HasTables(content: string, l: Layout, t: Tables, sections: seq<string>, count: nat)
    requires IsLayout(l) && Fits(content, 0, l.headerSize)
    requires LastSection(sections, ".dynsym").Some? && LastSection(sections, ".dynstr").Some?
  {
    var sym := SectionAt(content, l, LastSection(sections, ".dynsym").value);
    var str := SectionAt(content, l, LastSection(sections, ".dynstr").value);
    && Fits(content, sym, l.sectionHeaderSize) && Fits(content, str, l.sectionHeaderSize)
    && t.symbols == Get(content, sym, l.offset) && t.names == Get(content, str, l.offset)
    && t.entrySize == Get(content, sym, l.entrySize) && t.entrySize >= l.symbolSize
    && Get(content, sym, l.size) == count * t.entrySize && count == t.count < TWO_TO_THE_32
  }

  /** The sections the reader needs; a text section in place 0 counts as none. */
  predicate HasNeeded(o: SharedObject) {
    && LastSection(o.sections, ".dynsym").Some? && LastSection(o.sections, ".dynstr").Some?
    && LastSection(o.sections, ".text").Some? && LastSection(o.sections, ".text").value > 0
  }

  /** The file is a well-formed image of the object, in the layout of its class. */
  ghost predicate Represents(content: string, l: Layout, o: SharedObject)
    requires IsLayout(l)
  {
    && Fits(content, 0, l.headerSize) && HasSections(content, l, o.sections)
    && (HasNeeded(o) ==>
          exists t: Tables ::
            && HasTables(content, l, t, o.sections, |o.symbols|)
            && t.text == LastSection(o.sections, ".text").value
            && HasSymbols(content, l, t, o.symbols))
  }

  /** The names of the global functions in the text section, in the order of the symbol table. */
  function TextFunctions(symbols: seq<Symbol>, text: nat): seq<string> {
    if symbols == [] then []
    else (if IsTextFunction(symbols[0], text) then [symbols[0].name] else []) + TextFunctions(symbols[1..], text)
  }

  /** What the object says the reader should return. */
  function Expected(o: SharedObject): seq<string> {
    if HasNeeded(o) then Reverse(TextFunctions(o.symbols, LastSection(o.sections, ".text").value)) else []
  }

  // ---------------------------------------------------------------- the reader reads the object

  function FoundFor(content: string, l: Layout, sections: seq<string>): Found
    requires IsLayout(l) && Fits(content, 0, l.headerSize)
  {
    var str, sym, text := LastSection(sections, ".dynstr"), LastSection(sections, ".dynsym"),
        LastSection(sections, ".text");
    Found(
      if str.Some? then Some(SectionAt(content, l, str.value)) else None,
      if sym.Some? then Some(SectionAt(content, l, sym.value)) else None,
      if text.Some? then text.value else 0)
  }

  lemma {:induction false} ScanFinds(content: string, l: Layout, names: nat, sections: seq<string>)
    requires IsLayout(l) && Fits(content, 0, l.headerSize)
    requires forall i :: 0 <= i < |sections| ==> SectionName(content, l, names, i) == Some(sections[i])
    ensures Scan(content, l, names, |sections|) == Some(FoundFor(content, l, sections))
  {
    hide SectionName, SectionAt, IsLayout, Fits;
    if sections != [] {
      ScanFinds(content, l, names, sections[..|sections| - 1]);
    }
  }

  lemma {:induction false} TextFunctionsSnoc(symbols: seq<Symbol>, symbol: Symbol, text: nat)
    ensures TextFunctions(symbols + [symbol], text)
            == TextFunctions(symbols, text) + if IsTextFunction(symbol, text) then [symbol.name] else []
  {
    hide IsTextFunction;
    var all := symbols + [symbol];
    var last := if IsTextFunction(symbol, text) then [symbol.name] else [];
    if symbols == [] {
      assert all == [symbol] && all[1..] == symbols;
      assert TextFunctions(all, text) == last + [];
    } else {
      assert all[1..] == symbols[1..] + [symbol] && all[0] == symbols[0];
      TextFunctionsSnoc(symbols[1..], symbol, text);
      var first := if IsTextFunction(symbols[0], text) then [symbols[0].name] else [];
      assert TextFunctions(all, text) == first + TextFunctions(all[1..], text);
      assert TextFunctions(symbols, text) == first + TextFunctions(symbols[1..], text);
      hide *;
      Associate(first, TextFunctions(symbols[1..], text), last);
    }
  }

  lemma {:induction false} NamesCollected(content: string, l: Layout, t: Tables, symbols: seq<Symbol>)
    requires IsLayout(l) && HasSymbols(content, l, t, symbols)
    ensures CollectNames(content, l, t, |symbols|) == Some(Reverse(TextFunctions(symbols, t.text)))
  {
    hide SymbolAt, IsTextFunction;
    if symbols != [] {
      var init, last := symbols[..|symbols| - 1], symbols[|symbols| - 1];
      NamesCollected(content, l, t, init);
      TextFunctionsSnoc(init, last, t.text);
      assert symbols == init + [last];
      assert SymbolAt(content, l, t, |symbols| - 1) == Some(last);
      var names := TextFunctions(init, t.text);
      if IsTextFunction(last, t.text) {
        ReverseSnoc(names, last.name);
      } else {
        EmptyTail(names);
      }
      hide TextFunctions, Reverse, HasSymbols;
    }
  }

  lemma TablesRead(content: string, l: Layout, t: Tables, o: SharedObject)
    requires IsLayout(l) && Fits(content, 0, l.headerSize) && HasNeeded(o)
    requires HasTables(content, l, t, o.sections, |o.symbols|) && t.text == LastSection(o.sections, ".text").value
    ensures TablesOf(content, l, FoundFor(content, l, o.sections)) == Collected(t)
  {
    var size, count := t.entrySize, |o.symbols|;
    hide LastSection, SectionAt, Unsigned;
    assert size > 0;
    DivideCount(count, size);
  }

  /** For every image of an object the reader returns what the object says. */
  lemma ReadsObject(content: string, l: Layout, o: SharedObject)
    requires IsLayout(l) && Represents(content, l, o)
    ensures Symbols(content, l) == Some(Expected(o))
  {
    var names := NamesOffset(content, l).value;
    ScanFinds(content, l, names, o.sections);
    if HasNeeded(o) {
      var t: Tables :| && HasTables(content, l, t, o.sections, |o.symbols|)
                       && t.text == LastSection(o.sections, ".text").value
                       && HasSymbols(content, l, t, o.symbols);
      TablesRead(content, l, t, o);
      NamesCollected(content, l, t, o.symbols);
      hide TablesOf, FoundFor, LastSection, HasSymbols, CollectNames, Scan, SectionAt, NamesOffset, Get, SectionName;
      assert t.count == |o.symbols|;
    } else {
      hide Get, LastSection, Scan, SectionAt, SectionName, NamesOffset;
    }
  }

  /** The class of the file does not matter: a 32-bit and a 64-bit image of one object read the same. */
  lemma WidthIndependent(narrow: string, wide: string, o: SharedObject)
    requires Represents(narrow, ELF32, o) && Represents(wide, ELF64, o)
    ensures Symbols(narrow, ELF32) == Symbols(wide, ELF64) == Some(Expected(o))
  {
    ReadsObject(narrow, ELF32, o);
    ReadsObject(wide, ELF64, o);
  }
}
