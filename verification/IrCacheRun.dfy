/** The cache writer and loader as loops over a stream. */
module IrCacheRun {

  import opened CText
  import opened Sequences
  import opened Wire
  import opened IrCache
  import Symbols

  // ---- Writing ----

  method WriteBool(w: Writer, b: bool)
    modifies w
    ensures w.out == old(w.out) + PutBool(b)
  {
    w.Write(Put8(if b then 1 else 0));
  }

  method WriteData(w: Writer, v: Value)
    modifies w
    ensures w.out == old(w.out) + PutData(v)
  {
    match v {
      case IntV(n) => w.Write(PutInt64(n));
      case FloatV(bits) => w.Write(Put64(bits));
      case StringV(s) => w.Str(s);
      case BoolV(b) => WriteBool(w, b);
      case Bare(_) =>
    }
  }

  method WriteValue(w: Writer, v: Value)
    modifies w
    ensures w.out == old(w.out) + PutValue(v)
  {
    w.Write(Put8(TypeOf(v)));
    WriteData(w, v);
    Assoc(old(w.out), Put8(TypeOf(v)), PutData(v));
  }

  method WriteRef(w: Writer, v: Ref)
    modifies w
    ensures w.out == old(w.out) + PutRef(v)
  {
    w.Write(Put8(v.kind));
    w.Write(PutInt32(v.id));
    WriteValue(w, v.value);
    InOrder3(old(w.out), Put8(v.kind), PutInt32(v.id), PutValue(v.value));
  }

  // The items still to be written come behind what stands.
  lemma WroteOne<T>(put: T -> Bytes, vs: seq<T>, i: nat, out: Bytes)
    requires i < |vs|
    ensures out + PutAll(put, vs[i..]) == (out + put(vs[i])) + PutAll(put, vs[i + 1..])
  {
    PutFrom(put, vs, i);
    Assoc(out, put(vs[i]), PutAll(put, vs[i + 1..]));
  }

  lemma WroteAll<T>(put: T -> Bytes, vs: seq<T>, out: Bytes)
    ensures out + PutAll(put, vs[0..]) == out + PutAll(put, vs) && out + PutAll(put, vs[|vs|..]) == out
  {
    assert vs[0..] == vs && vs[|vs|..] == [];
  }

  method WriteRefs(w: Writer, vs: seq<Ref>)
    modifies w
    ensures w.out == old(w.out) + PutShort(PutRef, vs)
  {
    var few := First255(vs);
    w.Write(Put8(|few|));
    ghost var start := w.out;
    WroteAll(PutRef, few, start);
    for i := 0 to |few|
      invariant w.out + PutAll(PutRef, few[i..]) == start + PutAll(PutRef, few)
    {
      WroteOne(PutRef, few, i, w.out);
      WriteRef(w, few[i]);
    }
    WroteAll(PutRef, few, w.out);
    Assoc(old(w.out), Put8(|few|), PutAll(PutRef, few));
  }

  method WriteStrs(w: Writer, vs: seq<Text>)
    modifies w
    ensures w.out == old(w.out) + PutShort(PutStr, vs)
  {
    var few := First255(vs);
    w.Write(Put8(|few|));
    ghost var start := w.out;
    WroteAll(PutStr, few, start);
    for i := 0 to |few|
      invariant w.out + PutAll(PutStr, few[i..]) == start + PutAll(PutStr, few)
    {
      WroteOne(PutStr, few, i, w.out);
      w.Str(few[i]);
    }
    WroteAll(PutStr, few, w.out);
    Assoc(old(w.out), Put8(|few|), PutAll(PutStr, few));
  }

  method WriteInstr(w: Writer, v: Instr)
    modifies w
    ensures w.out == old(w.out) + PutInstr(v)
  {
    w.Write(Put8(v.opcode));
    WriteRef(w, v.result);
    WriteRefs(w, v.operands);
    WriteStrs(w, v.attrs);
    w.Write(Put8(v.resultType));
    InOrder5(old(w.out), Put8(v.opcode), PutRef(v.result), PutShort(PutRef, v.operands), PutShort(PutStr, v.attrs),
      Put8(v.resultType));
  }

  method WriteCode(w: Writer, code: seq<Instr>)
    modifies w
    ensures w.out == old(w.out) + PutLong(PutInstr, code)
  {
    w.Write(Put32(Low32(|code|)));
    ghost var start := w.out;
    WroteAll(PutInstr, code, start);
    for i := 0 to |code|
      invariant w.out + PutAll(PutInstr, code[i..]) == start + PutAll(PutInstr, code)
    {
      WroteOne(PutInstr, code, i, w.out);
      WriteInstr(w, code[i]);
    }
    WroteAll(PutInstr, code, w.out);
    Assoc(old(w.out), Put32(Low32(|code|)), PutAll(PutInstr, code));
  }

  method WriteFunction(w: Writer, f: Function)
    modifies w
    ensures w.out == old(w.out) + PutFunction(f)
  {
    w.Str(f.name);
    w.Str(f.owner);
    w.Write(Put8(f.returnType));
    w.Write(PutInt32(f.temps));
    w.Write(PutInt32(f.labels));
    InOrder5(old(w.out), PutStr(f.name), PutStr(f.owner), Put8(f.returnType), PutInt32(f.temps), PutInt32(f.labels));
    ghost var headed := w.out;
    WriteBool(w, f.generator);
    WriteStrs(w, f.parameters);
    WriteCode(w, f.code);
    InOrder3(headed, PutBool(f.generator), PutShort(PutStr, f.parameters), PutLong(PutInstr, f.code));
    Assoc(old(w.out), PutHead(f), PutBody(f));
  }

  method WriteFunctions(w: Writer, fs: seq<Function>)
    modifies w
    ensures w.out == old(w.out) + PutLong(PutFunction, fs)
  {
    w.Write(Put32(Low32(|fs|)));
    ghost var start := w.out;
    WroteAll(PutFunction, fs, start);
    for i := 0 to |fs|
      invariant w.out + PutAll(PutFunction, fs[i..]) == start + PutAll(PutFunction, fs)
    {
      WroteOne(PutFunction, fs, i, w.out);
      WriteFunction(w, fs[i]);
    }
    WroteAll(PutFunction, fs, w.out);
    Assoc(old(w.out), Put32(Low32(|fs|)), PutAll(PutFunction, fs));
  }

  method WriteSymbols(w: Writer, symbols: seq<Symbols.Symbol>)
    modifies w
    ensures w.out == old(w.out) + PutLong(PutSymbol, symbols)
  {
    w.Write(Put32(Low32(|symbols|)));
    ghost var start := w.out;
    WroteAll(PutSymbol, symbols, start);
    for i := 0 to |symbols|
      invariant w.out + PutAll(PutSymbol, symbols[i..]) == start + PutAll(PutSymbol, symbols)
    {
      var v := symbols[i];
      WroteOne(PutSymbol, symbols, i, w.out);
      ghost var before := w.out;
      w.Str(v.name);
      w.Write(Put8(v.typ));
      w.Write(Put32(v.scope % 0x1_0000_0000));
      InOrder3(before, PutStr(v.name), Put8(v.typ), Put32(v.scope % 0x1_0000_0000));
    }
    WroteAll(PutSymbol, symbols, w.out);
    Assoc(old(w.out), Put32(Low32(|symbols|)), PutAll(PutSymbol, symbols));
  }

  method WriteSection(w: Writer, name: Text, code: seq<Instr>)
    modifies w
    ensures w.out == old(w.out) + PutCode(name, code)
  {
    w.Str(name);
    WriteCode(w, code);
    Assoc(old(w.out), PutStr(name), PutLong(PutInstr, code));
  }

  method WriteSections(w: Writer, s: Sections)
    modifies w
    ensures w.out == old(w.out) + PutSections(s)
  {
    w.Str(DEFS);
    WriteFunctions(w, s.functions);
    Assoc(old(w.out), PutStr(DEFS), PutLong(PutFunction, s.functions));
    WriteSection(w, DATA, s.data);
    WriteSection(w, MAIN, s.main);
    WriteSection(w, GLOBAL_INIT, s.globalInit);
    InOrder4(old(w.out), PutDefs(s.functions), PutCode(DATA, s.data), PutCode(MAIN, s.main),
      PutCode(GLOBAL_INIT, s.globalInit));
  }

  method WriteSettings(w: Writer, s: Settings)
    modifies w
    ensures w.out == old(w.out) + PutSettings(s)
  {
    w.Str(s.backend);
    WriteBool(w, s.highLevel);
    WriteBool(w, s.explicitMain);
    WriteBool(w, s.infiniteMain);
    InOrder4(old(w.out), PutStr(s.backend), PutBool(s.highLevel), PutBool(s.explicitMain), PutBool(s.infiniteMain));
  }

  method SaveIrCache(hash: Word64, p: Program) returns (data: Bytes)
    ensures data == Save(hash, p)
  {
    var w := new Writer();
    w.Write(MAGIC);
    w.Write(Put8(VERSION));
    w.Write(Put64(hash));
    InOrder3([], MAGIC, Put8(VERSION), Put64(hash));
    assert w.out == PutHeader(MAGIC, VERSION, hash);
    WriteSettings(w, p.settings);
    WriteSymbols(w, p.table.symbols);
    WriteSections(w, p.sections);
    w.Write(PutInt32(p.temps));
    w.Write(PutInt32(p.labels));
    InOrder5(PutHeader(MAGIC, VERSION, hash), PutSettings(p.settings), PutLong(PutSymbol, p.table.symbols),
      PutSections(p.sections),
             PutInt32(p.temps), PutInt32(p.labels));
    data := w.out;
  }

  // ---- Loading ----

  method ReadBool(r: Reader) returns (b: bool)
    requires r.Valid()
    modifies r
    ensures r.Valid() && Read(From(old(r.View()), GetBool), b, r.View())
  {
    var v := r.U8();
    b := v != 0;
  }

  method ReadData(r: Reader, tag: Byte) returns (v: Value)
    requires r.Valid()
    modifies r
    ensures r.Valid() && Read(From(old(r.View()), b => GetData(tag, b)), v, r.View())
  {
    if tag == INT {
      var n := r.I64();
      v := IntV(n);
    } else if tag == FLOAT {
      var bits := r.U64();
      v := FloatV(bits);
    } else if tag == STRING {
      var s := r.Str();
      v := StringV(s);
    } else if tag == BOOL {
      var b := ReadBool(r);
      v := BoolV(b);
    } else {
      v := Bare(VOID);
    }
  }

  method ReadValue(r: Reader) returns (v: Value)
    requires r.Valid()
    modifies r
    ensures r.Valid() && Read(From(old(r.View()), GetValue), v, r.View())
  {
    var tag := r.U8();
    v := ReadData(r, tag);
  }

  method ReadRef(r: Reader) returns (v: Ref)
    requires r.Valid()
    modifies r
    ensures r.Valid() && Read(From(old(r.View()), GetRef), v, r.View())
  {
    var kind := r.U8();
    var id := r.I32();
    var value := ReadValue(r);
    v := Ref(kind, id, value);
  }

  method ReadRefs(r: Reader) returns (vs: seq<Ref>)
    requires r.Valid()
    modifies r
    ensures r.Valid() && Read(FromShort(old(r.View()), GetRef), vs, r.View())
  {
    var n := r.U8();
    ghost var start := r.View();
    vs := [];
    for i := 0 to n
      invariant r.Valid() && |vs| == i && Reading(start, GetRef, n, r.View(), vs)
    {
      ghost var now := r.View();
      var v := ReadRef(r);
      ReadOne(start, GetRef, n, now, vs, v, r.View());
      vs := vs + [v];
    }
    ShortRead(old(r.View()), GetRef, n, start, vs, r.View());
  }

  method ReadInstr(r: Reader) returns (v: Instr)
    requires r.Valid()
    modifies r
    ensures r.Valid() && Read(From(old(r.View()), GetInstr), v, r.View())
  {
    var opcode := r.U8();
    var result := ReadRef(r);
    var operands := ReadRefs(r);
    var attrs := r.Strs();
    var resultType := r.U8();
    v := Instr(opcode, result, operands, attrs, resultType, NO_NOTES);
  }

  method ReadCode(r: Reader) returns (ok: bool, code: seq<Instr>)
    requires r.Valid()
    modifies r
    ensures r.Valid() && ReadOrRefused(ok, FromLong(old(r.View()), GetInstr, MAX_CODE), code, r.View()) &&
      |code| <= MAX_CODE
  {
    var n := r.U32();
    ghost var start := r.View();
    code := [];
    if n > MAX_CODE {
      LongRefused(old(r.View()), GetInstr, MAX_CODE, n, start);
      return false, [];
    }
    for i := 0 to n
      invariant r.Valid() && |code| == i && Reading(start, GetInstr, n, r.View(), code)
    {
      ghost var now := r.View();
      var v := ReadInstr(r);
      ReadOne(start, GetInstr, n, now, code, v, r.View());
      code := code + [v];
    }
    LongRead(old(r.View()), GetInstr, MAX_CODE, n, start, code, r.View());
    ok := true;
  }

  method ReadHead(r: Reader) returns (f: Function)
    requires r.Valid()
    modifies r
    ensures r.Valid() && Read(From(old(r.View()), GetHead), f, r.View())
  {
    var name := r.Str();
    var owner := r.Str();
    var returnType := r.U8();
    var temps := r.I32();
    var labels := r.I32();
    f := Function(name, owner, returnType, temps, labels, false, [], []);
  }

  method ReadFunction(r: Reader) returns (ok: bool, f: Function)
    requires r.Valid()
    modifies r
    ensures r.Valid() && ReadOrRefused(ok, From(old(r.View()), GetFunction), f, r.View())
  {
    f := ReadHead(r);
    var generator := ReadBool(r);
    var parameters := r.Strs();
    var code;
    ok, code := ReadCode(r);
    if ok {
      f := f.(generator := generator, parameters := parameters, code := code);
    }
  }

  method ReadFunctions(r: Reader) returns (ok: bool, fs: seq<Function>)
    requires r.Valid()
    modifies r
    ensures r.Valid() && ReadOrRefused(ok, FromLong(old(r.View()), GetFunction, MAX_FUNCTIONS), fs, r.View())
  {
    var n := r.U32();
    ghost var start := r.View();
    fs := [];
    if n > MAX_FUNCTIONS {
      LongRefused(old(r.View()), GetFunction, MAX_FUNCTIONS, n, start);
      return false, [];
    }
    for i := 0 to n
      invariant r.Valid() && |fs| == i && Reading(start, GetFunction, n, r.View(), fs)
    {
      ghost var now := r.View();
      var f;
      ok, f := ReadFunction(r);
      if !ok {
        LongStopped(old(r.View()), GetFunction, MAX_FUNCTIONS, n, start, now, fs);
        return;
      }
      ReadOne(start, GetFunction, n, now, fs, f, r.View());
      fs := fs + [f];
    }
    LongRead(old(r.View()), GetFunction, MAX_FUNCTIONS, n, start, fs, r.View());
    ok := true;
  }

  method ReadSymbol(r: Reader) returns (v: Symbols.Symbol)
    requires r.Valid()
    modifies r
    ensures r.Valid() && Read(From(old(r.View()), GetSymbol), v, r.View())
  {
    var name := r.Str();
    var typ := r.U8();
    var scope := r.I32();
    v := Symbols.Symbol(name, typ, scope);
  }

  lemma RestoreOne(symbols: seq<Symbols.Symbol>, v: Symbols.Symbol)
    ensures RestoreAll(symbols + [v]) == Symbols.Restore(RestoreAll(symbols), v.name, v.typ, v.scope)
  {
    assert (symbols + [v])[..|symbols|] == symbols;
  }

  // Restores the symbols into a new table, one by one.
  method ReadSymbols(r: Reader) returns (ok: bool, table: Symbols.Table)
    requires r.Valid()
    modifies r
    ensures r.Valid() && ReadOrRefused(ok, FromLong(old(r.View()), GetSymbol, MAX_SYMBOLS), table.symbols, r.View())
    ensures ok ==> table == RestoreAll(table.symbols)
  {
    var n := r.U32();
    ghost var start := r.View();
    if n > MAX_SYMBOLS {
      LongRefused(old(r.View()), GetSymbol, MAX_SYMBOLS, n, start);
      return false, Symbols.EMPTY;
    }
    var restored := new Symbols.SymbolTable();
    ghost var read: seq<Symbols.Symbol> := [];
    for i := 0 to n
      invariant r.Valid() && |read| == i && Reading(start, GetSymbol, n, r.View(), read)
      invariant fresh(restored) && restored.View() == RestoreAll(read)
    {
      ghost var now := r.View();
      var v := ReadSymbol(r);
      ReadOne(start, GetSymbol, n, now, read, v, r.View());
      RestoreOne(read, v);
      var _ := restored.RestoreSymbol(v.name, v.typ, v.scope);
      read := read + [v];
    }
    LongRead(old(r.View()), GetSymbol, MAX_SYMBOLS, n, start, read, r.View());
    RestoredIds(read, [], 0);
    table := restored.View();
    ok := true;
  }

  // One section of the file, whatever its name, added to those before it.
  method ReadSection(r: Reader, s: Sections) returns (ok: bool, s': Sections)
    requires r.Valid()
    modifies r
    ensures r.Valid() && ReadOrRefused(ok, FromState(old(r.View()), GetNamed, s), s', r.View())
  {
    var name := r.Str();
    if name == DEFS {
      var fs;
      ok, fs := ReadFunctions(r);
      s' := s.(functions := s.functions + fs);
    } else if name == DATA || name == MAIN || name == GLOBAL_INIT {
      var code;
      ok, code := ReadCode(r);
      s' := Extended(name, s, code);
    } else {
      ok, s' := false, s;
    }
  }

  method ReadSections(r: Reader, count: nat) returns (ok: bool, s: Sections)
    requires r.Valid()
    modifies r
    ensures r.Valid() && ReadOrRefused(ok, FromRepeat(old(r.View()), GetNamed, count, NO_SECTIONS), s, r.View())
  {
    s := NO_SECTIONS;
    for sec := 0 to count
      invariant r.Valid() && FromRepeat(r.View(), GetNamed, count - sec, s) ==
        FromRepeat(old(r.View()), GetNamed, count, NO_SECTIONS)
    {
      ghost var now := r.View();
      var s';
      ok, s' := ReadSection(r, s);
      if !ok {
        RepeatStopped(now, GetNamed, count - sec, s);
        return;
      }
      RepeatOne(now, GetNamed, count - sec, s, s', r.View());
      s := s';
    }
    ok := true;
  }

  method ReadSettings(r: Reader) returns (s: Settings)
    requires r.Valid()
    modifies r
    ensures r.Valid() && Read(From(old(r.View()), GetSettings), s, r.View())
  {
    var backend := r.Str();
    var highLevel := ReadBool(r);
    var explicitMain := ReadBool(r);
    var infiniteMain := ReadBool(r);
    s := Settings(backend, highLevel, explicitMain, infiniteMain);
  }

  method ReadProgram(r: Reader) returns (ok: bool, p: Program)
    requires r.Valid()
    modifies r
    ensures r.Valid() && ReadOrRefused(ok, From(old(r.View()), GetProgram), p, r.View())
  {
    var settings := ReadSettings(r);
    var table;
    ok, table := ReadSymbols(r);
    p := Program(settings, settings.backend, table, NO_SECTIONS, 0, 0, DEFAULTS);
    if !ok {
      return;
    }
    var sections;
    ok, sections := ReadSections(r, 4);
    if !ok {
      return;
    }
    var temps := r.I32();
    var labels := r.I32();
    p := Program(settings, settings.backend, table, sections, temps, labels, DEFAULTS);
  }

  // Reads on to the end even after the file has run out, and looks only then: still nothing is loaded from a short
  // file.
  method LoadIrCache(data: Bytes, expected: Word64) returns (ok: bool, p: Program)
    ensures match Load(data, expected) case Ran => !ok case Got(q, _) => ok && p == q
  {
    var r := new Reader(data);
    ok := r.Header(MAGIC, VERSION, expected);
    p := Program(Settings([], false, false, false), [], Symbols.EMPTY, NO_SECTIONS, 0, 0, DEFAULTS);
    if !ok {
      return;
    }
    ok, p := ReadProgram(r);
    if ok && r.failed {
      ok := false;
    }
  }
}
