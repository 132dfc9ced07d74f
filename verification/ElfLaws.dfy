/**
 The reader against the object file format itself: the structures of chapter 4 of the System V gABI
 field by field, the bytes that identify a file, and which symbols are returned.
 */
module ElfLaws {
  import opened Seqs
  import opened Wrappers
  import opened Elf

  // ---------------------------------------------------------------- structures

  /** The member behind another one. */
  function After(f: Field, width: nat): Field {
    Field(f.offset + f.width, width)
  }

  function End(f: Field): nat {
    f.offset + f.width
  }

  /** The file header, the section header and the symbol, member after member; addresses have `word` bytes. */
  function FormatLayout(word: nat): Layout {
    var e_ident := Field(0, 16);
    var e_type := After(e_ident, 2);
    var e_machine := After(e_type, 2);
    var e_version := After(e_machine, 4);
    var e_entry := After(e_version, word);
    var e_phoff := After(e_entry, word);
    var e_shoff := After(e_phoff, word);
    var e_flags := After(e_shoff, 4);
    var e_ehsize := After(e_flags, 2);
    var e_phentsize := After(e_ehsize, 2);
    var e_phnum := After(e_phentsize, 2);
    var e_shentsize := After(e_phnum, 2);
    var e_shnum := After(e_shentsize, 2);
    var e_shstrndx := After(e_shnum, 2);
    var sh_name := Field(0, 4);
    var sh_type := After(sh_name, 4);
    var sh_flags := After(sh_type, word);
    var sh_addr := After(sh_flags, word);
    var sh_offset := After(sh_addr, word);
    var sh_size := After(sh_offset, word);
    var sh_link := After(sh_size, 4);
    var sh_info := After(sh_link, 4);
    var sh_addralign := After(sh_info, word);
    var sh_entsize := After(sh_addralign, word);
    var st_name := Field(0, 4);
    var st_info := if word == 4 then After(After(After(st_name, word), 4), 1) else After(st_name, 1);
    var st_other := After(st_info, 1);
    var st_shndx := After(st_other, 2);
    var symbolSize := if word == 4 then End(st_shndx) else End(After(After(st_shndx, word), 8));
    Layout(End(e_shstrndx), e_shoff, e_shentsize, e_shnum, e_shstrndx,
           End(sh_entsize), sh_name, sh_offset, sh_size, sh_entsize,
           symbolSize, st_name, st_info, st_shndx)
  }

  /** The reader looks for every field where the structures of the format have it. */
  lemma LayoutsMatch()
    ensures ELF32 == FormatLayout(4) && ELF64 == FormatLayout(8)
  {
    NarrowMatches();
    WideMatches();
    hide *;
  }

  lemma NarrowMatches()
    ensures ELF32 == FormatLayout(4)
  {
  }

  lemma WideMatches()
    ensures ELF64 == FormatLayout(8)
  {
  }

  // ---------------------------------------------------------------- identification

  lemma TwoBytes(content: string)
    requires |content| >= 18
    ensures Unsigned(content, 16, 2) == content[16] as nat + 256 * content[17] as nat
  {
    assert Unsigned(content, 18, 0) == 0;
    assert Unsigned(content, 17, 1) == content[17] as nat;
  }

  /**
   A file of bytes is taken for a dynamic library of a class exactly if it starts with the magic
   bytes and that class, and its type, low byte first, is 3.
   */
  lemma IdentifyIff(content: string, a: Architecture)
    requires forall c :: c in content ==> c as int < 256
    ensures Identify(content) == Some(a)
            <==> && |content| >= 18
                 && content[0] as int == 0x7F && content[1] == 'E' && content[2] == 'L' && content[3] == 'F'
                 && content[4] as int == (if a == Bits32 then 1 else 2)
                 && content[16] as int == 3 && content[17] as int == 0
  {
    if |content| >= 18 {
      TwoBytes(content);
      assert content[16] in content && content[17] in content;
      hide Unsigned;
      assert content[1..4] == "ELF" <==> content[1] == 'E' && content[2] == 'L' && content[3] == 'F' by {
        Magic(content);
      }
    }
  }

  lemma Magic(content: string)
    requires |content| >= 18
    ensures content[1..4] == "ELF" <==> content[1] == 'E' && content[2] == 'L' && content[3] == 'F'
  {
    var part := content[1..4];
    assert part[0] == content[1] && part[1] == content[2] && part[2] == content[3];
    assert "ELF"[0] == 'E' && "ELF"[1] == 'L' && "ELF"[2] == 'F';
    if content[1] == 'E' && content[2] == 'L' && content[3] == 'F' {
      assert part == "ELF";
    }
  }

  // ---------------------------------------------------------------- symbols

  lemma {:induction false} TextFunctionsIff(symbols: seq<Symbol>, text: nat, name: string)
    ensures name in TextFunctions(symbols, text)
            <==> exists s :: s in symbols && s.name == name && s.kind == 2 && s.bind == 1 && s.section == text
  {
    if symbols != [] {
      TextFunctionsIff(symbols[1..], text, name);
      assert symbols[0] in symbols && forall s :: s in symbols <==> s == symbols[0] || s in symbols[1..];
      hide TextFunctions;
      var first := symbols[0];
      FirstTextFunction(symbols, text, name);
    }
  }

  lemma FirstTextFunction(symbols: seq<Symbol>, text: nat, name: string)
    requires symbols != []
    ensures var first := symbols[0];
            name in TextFunctions(symbols, text)
            <==> (first.name == name && first.kind == 2 && first.bind == 1 && first.section == text)
                 || name in TextFunctions(symbols[1..], text)
  {
  }

  /**
   The names returned are those of the symbols that are functions (type 2), global (binding 1) and in
   the last section named ".text"; none without tables of dynamic symbols and of their names.
   */
  lemma ExpectedIff(o: SharedObject, name: string)
    ensures name in Expected(o)
            <==> && ".dynsym" in o.sections && ".dynstr" in o.sections
                 && exists i :: && 0 < i < |o.sections| && o.sections[i] == ".text"
                                && (forall j :: i < j < |o.sections| ==> o.sections[j] != ".text")
                                && FunctionIn(o, name, i)
  {
    LastSectionIs(o.sections, ".dynsym");
    LastSectionIs(o.sections, ".dynstr");
    LastSectionIs(o.sections, ".text");
    var text := LastSection(o.sections, ".text");
    if text.Some? {
      TextFunctionsIff(o.symbols, text.value, name);
      Reversed(TextFunctions(o.symbols, text.value), name);
    }
    hide LastSection, TextFunctions, Reverse;
  }

  ghost predicate FunctionIn(o: SharedObject, name: string, i: int) {
    exists s :: s in o.symbols && s.name == name && s.kind == 2 && s.bind == 1 && s.section == i
  }

  lemma {:induction false} LastSectionIs(sections: seq<string>, name: string)
    ensures LastSection(sections, name) == None <==> name !in sections
    ensures forall i :: 0 <= i < |sections| && sections[i] == name
                        && (forall j :: i < j < |sections| ==> sections[j] != name) ==>
                          LastSection(sections, name) == Some(i)
    ensures LastSection(sections, name).Some? ==>
              forall j :: LastSection(sections, name).value < j < |sections| ==> sections[j] != name
  {
    if sections != [] {
      var init := sections[..|sections| - 1];
      LastSectionIs(init, name);
      assert sections == init + [sections[|sections| - 1]];
      assert forall i :: 0 <= i < |init| ==> init[i] == sections[i];
    }
  }

  lemma {:induction false} Reversed(names: seq<string>, name: string)
    ensures name in Reverse(names) <==> name in names
  {
    if names != [] {
      Reversed(names[1..], name);
    }
  }
}
