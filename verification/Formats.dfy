/** The file formats byte by byte, on a small file of each kind. */
module Formats {
  import opened CText
  import opened Wire
  import AccCache
  import IrCache
  import ParallelZip
  import Symbols

  lemma TwoBytes(v: Byte)
    ensures Le(2, v) == [v, 0]
  {
    assert Le(1, 0) == [0];
  }

  lemma FourBytes(v: Byte)
    ensures Le(4, v) == [v, 0, 0, 0]
  {
    TwoBytes(0);
    assert Le(3, 0) == [0] + Le(2, 0);
  }

  lemma EightBytes(v: Byte)
    ensures Le(8, v) == [v, 0, 0, 0, 0, 0, 0, 0]
  {
    FourBytes(0);
    assert Le(5, 0) == [0] + Le(4, 0);
    assert Le(6, 0) == [0] + Le(5, 0);
    assert Le(7, 0) == [0] + Le(6, 0);
  }

  /** An archive: the magic bytes "ACZ2", the number of files, and for each its path, its size and its compressed bytes,
      lengths first. */
  lemma ArchiveBytes(data: Bytes)
    requires |data| == 5
    ensures ParallelZip.Archive([ParallelZip.Entry([97, 98], data)], [[7, 8, 9]]) ==
      [65, 67, 90, 50] + ([1, 0, 0, 0] +
        ([2, 0, 0, 0] + ([97, 98] + ([5, 0, 0, 0] + ([3, 0, 0, 0] + [7, 8, 9])))))
  {
    FourBytes(1);
    FourBytes(2);
    FourBytes(5);
    FourBytes(3);
    var files, comp: seq<Bytes> := [ParallelZip.Entry([97, 98], data)], [[7, 8, 9]];
    assert files[1..] == [] && comp[1..] == [];
    assert ParallelZip.PutRecords(files[1..], comp[1..]) == [];
    assert ParallelZip.PutRecord([97, 98], 5, [7, 8, 9]) ==
      [2, 0, 0, 0] + ([97, 98] + ([5, 0, 0, 0] + ([3, 0, 0, 0] + [7, 8, 9])));
  }

  lemma StrBytes(s: Bytes)
    requires |s| < 256
    ensures PutStr(s) == [|s|, 0] + s
  {
    TwoBytes(|s|);
    CutWhole(s);
  }

  lemma OnePart<T>(put: T -> Bytes, v: T)
    ensures PutAll(put, [v]) == put(v)
  {
    assert [v][1..] == [];
    assert PutAll(put, []) == [];
    NoTail(put(v));
  }

  lemma LeafBytes(typ: Byte, marks: AccCache.Marks)
    ensures AccCache.PutNode(AccCache.Node(typ, [], [], [], marks)) == [typ, 0, 0, 0, 0, 0]
  {
    StrBytes([]);
    TwoBytes(0);
    var n := AccCache.Node(typ, [], [], [], marks);
    assert AccCache.PutFields(n) == [typ, 0, 0, 0, 0, 0];
  }

  // A node of type 7 with the value "a", the attribute "bc", and a leaf of type 4 behind a missing child.
  function SmallTree(marks: AccCache.Marks): AccCache.Node {
    AccCache.Node(7, [97], [[98, 99]], [AccCache.Null, AccCache.Child(AccCache.Node(4, [], [], [], marks))], marks)
  }

  lemma SmallFields(marks: AccCache.Marks)
    ensures AccCache.PutFields(SmallTree(marks)) == [7] + (([1, 0] + [97]) + ([1] + (([2, 0] + [98, 99]) + [1, 0])))
  {
    StrBytes([97]);
    StrBytes([98, 99]);
    OnePart(PutStr, [98, 99]);
    TwoBytes(1);
    var n := SmallTree(marks);
    assert n.children[1..] == [n.children[1]] && [n.children[1]][1..] == [];
    assert AccCache.Valid([]) == 0;
    assert AccCache.Valid(n.children[1..]) == 1;
    assert n.children[0].Null?;
  }

  lemma SmallChildren(marks: AccCache.Marks)
    ensures var n := SmallTree(marks); AccCache.PutChildren(n, n.children) == [4, 0, 0, 0, 0, 0]
  {
    var n := SmallTree(marks);
    var leaf := n.children[1];
    LeafBytes(4, marks);
    assert n.children[1..] == [leaf] && [leaf][1..] == [];
    assert AccCache.PutChildren(n, []) == [];
    assert AccCache.PutChildren(n, [leaf]) == [4, 0, 0, 0, 0, 0];
  }

  /** A saved tree: the magic bytes "ACC1", the version 10, the key in eight bytes, and each node as its type, its
      value, its attributes under an 8-bit count and its children under a 16-bit one, null children left out. */
  lemma TreeBytes(key: Byte, marks: AccCache.Marks)
    ensures AccCache.Save(key, SmallTree(marks)) ==
      ([65, 67, 67, 49] + ([10] + [key, 0, 0, 0, 0, 0, 0, 0])) +
      (([7] + (([1, 0] + [97]) + ([1] + (([2, 0] + [98, 99]) + [1, 0])))) + [4, 0, 0, 0, 0, 0])
  {
    EightBytes(key);
    SmallFields(marks);
    SmallChildren(marks);
  }

  // ---- A small program ----

  lemma IntBytes(v: Byte)
    ensures PutInt32(v) == [v, 0, 0, 0] && PutInt64(v) == [v, 0, 0, 0, 0, 0, 0, 0] && Put32(v) == [v, 0, 0, 0]
  {
    FourBytes(v);
    EightBytes(v);
  }

  // Opcode 9, the temp 5 with the value 6 as result, true as the only operand, the attribute "k", result type 5.
  function SmallInstr(): IrCache.Instr {
    IrCache.Instr(9, IrCache.Ref(2, 5, IrCache.IntV(6)), [IrCache.Ref(1, 0, IrCache.BoolV(true))], [[107]], 5,
      IrCache.NO_NOTES)
  }

  lemma RefBytes()
    ensures IrCache.PutRef(IrCache.Ref(2, 5, IrCache.IntV(6))) == [2] +
      ([5, 0, 0, 0] + ([1] + [6, 0, 0, 0, 0, 0, 0, 0]))
    ensures IrCache.PutRef(IrCache.Ref(1, 0, IrCache.BoolV(true))) == [1] + ([0, 0, 0, 0] + ([7] + [1]))
  {
    IntBytes(5);
    IntBytes(6);
    IntBytes(0);
  }

  lemma ShortBytes<T>(put: T -> Bytes, v: T)
    ensures PutShort(put, [v]) == [1] + put(v)
  {
    assert First255([v]) == [v];
    OnePart(put, v);
  }

  /** An instruction: its opcode, its result, its operands and its attributes under 8-bit counts, and its result type; a
      value as its type's number and its data. */
  lemma InstrBytes()
    ensures IrCache.PutInstr(SmallInstr()) ==
      [9] + (([2] + ([5, 0, 0, 0] + ([1] + [6, 0, 0, 0, 0, 0, 0, 0]))) +
        (([1] + ([1] + ([0, 0, 0, 0] + ([7] + [1])))) + (([1] + ([1, 0] + [107])) + [5])))
  {
    RefBytes();
    StrBytes([107]);
    ShortBytes(PutStr, [107]);
    ShortBytes(IrCache.PutRef, IrCache.Ref(1, 0, IrCache.BoolV(true)));
  }

  lemma EmptyList<T>(put: T -> Bytes)
    ensures PutLong(put, []) == [0, 0, 0, 0]
  {
    IntBytes(0);
  }

  lemma OneItemList<T>(put: T -> Bytes, v: T)
    ensures PutLong(put, [v]) == [1, 0, 0, 0] + put(v)
  {
    IntBytes(1);
    OnePart(put, v);
  }

  /** A function: its name, its owner, its return type, its two counters, whether it is a generator, its parameters
      under an 8-bit count and its code under a 32-bit one. */
  lemma FunctionBytes()
    ensures IrCache.PutFunction(IrCache.Function([102], [], 1, 3, 4, true, [[112]], [])) ==
      (([1, 0] + [102]) + ([0, 0] + ([1] + ([3, 0, 0, 0] + [4, 0, 0, 0])))) +
      ([1] + (([1] + ([1, 0] + [112])) + [0, 0, 0, 0]))
  {
    StrBytes([102]);
    StrBytes([]);
    IntBytes(3);
    IntBytes(4);
    StrBytes([112]);
    ShortBytes(PutStr, [112]);
    EmptyList(IrCache.PutInstr);
  }

  lemma NoCode(name: Text)
    requires |name| < 256
    ensures IrCache.PutCode(name, []) == [|name|, 0] + name + [0, 0, 0, 0]
  {
    StrBytes(name);
    EmptyList(IrCache.PutInstr);
  }

  lemma SectionBytes()
    ensures IrCache.PutSections(IrCache.Sections([], [], [SmallInstr()], [])) ==
      ([4, 0] + [100, 101, 102, 115] + [0, 0, 0, 0]) + (([4, 0] + [100, 97, 116, 97] + [0, 0, 0, 0]) +
        (([4, 0] + [109, 97, 105, 110] + ([1, 0, 0, 0] + IrCache.PutInstr(SmallInstr()))) +
          ([10, 0] + [103, 108, 111, 98, 97, 108, 73, 110, 105, 116] + [0, 0, 0, 0])))
  {
    StrBytes(IrCache.DEFS);
    EmptyList(IrCache.PutFunction);
    NoCode(IrCache.DATA);
    StrBytes(IrCache.MAIN);
    OneItemList(IrCache.PutInstr, SmallInstr());
    NoCode(IrCache.GLOBAL_INIT);
  }

  // Backend "m", three switches, the symbol "x" of type 1 in scope 2, one instruction in main, counters 3 and 4.
  function SmallProgram(ids: map<Text, seq<nat>>): IrCache.Program {
    IrCache.Program(IrCache.Settings([109], true, false, true), [],
      Symbols.Table([Symbols.Symbol([120], 1, 2)], ids, 0),
      IrCache.Sections([], [], [SmallInstr()], []), 3, 4, IrCache.DEFAULTS)
  }

  lemma SettingsBytes()
    ensures IrCache.PutSettings(IrCache.Settings([109], true, false, true)) == ([1, 0] + [109]) + ([1] + ([0] + [1]))
  {
    StrBytes([109]);
  }

  lemma SymbolBytes()
    ensures IrCache.PutSymbol(Symbols.Symbol([120], 1, 2)) == ([1, 0] + [120]) + ([1] + [2, 0, 0, 0])
  {
    StrBytes([120]);
    IntBytes(2);
  }

  /** A saved program: the magic bytes "ACIR", the version 19, the hash, the settings, the symbols, the four sections by
      name, and the two counters. */
  lemma ProgramBytes(hash: Byte, ids: map<Text, seq<nat>>)
    ensures IrCache.Save(hash, SmallProgram(ids)) ==
      ([65, 67, 73, 82] + ([19] + [hash, 0, 0, 0, 0, 0, 0, 0])) + ((([1, 0] + [109]) + ([1] + ([0] + [1]))) +
        (([1, 0, 0, 0] + (([1, 0] + [120]) + ([1] + [2, 0, 0, 0]))) +
          (IrCache.PutSections(IrCache.Sections([], [], [SmallInstr()], [])) + ([3, 0, 0, 0] + [4, 0, 0, 0]))))
  {
    EightBytes(hash);
    SettingsBytes();
    SymbolBytes();
    OneItemList(IrCache.PutSymbol, Symbols.Symbol([120], 1, 2));
    IntBytes(3);
    IntBytes(4);
  }
}
