/** The compiler's IR cache file: what a saved program reads back as. */
module IrCache {

  import opened CText
  import opened Sequences
  import opened Wire
  import Symbols

  // ---- The program ----

  // The numbers of the IR types whose values carry data; every other type is written as its number alone.
  const VOID: Byte := 0
  const INT: Byte := 1
  const FLOAT: Byte := 5
  const STRING: Byte := 6
  const BOOL: Byte := 7

  // A value of any other type is bare: its data is not stored.
  datatype AnyValue = IntV(n: Int64) | FloatV(bits: Word64) | StringV(s: Text) | BoolV(b: bool) | Bare(tag: Byte)

  type Value = v: AnyValue | v.Bare? ==> v.tag !in {INT, FLOAT, STRING, BOOL} witness Bare(VOID)

  datatype Ref = Ref(kind: Byte, id: Int32, value: Value)

  // The fields of an instruction that the file leaves out.
  datatype Notes = Notes(operands: seq<Text>, value: Value, comment: Text, line: Int32)

  const NO_NOTES := Notes([], Bare(VOID), [], 0)

  datatype Instr = Instr(opcode: Byte, result: Ref, operands: seq<Ref>, attrs: seq<Text>, resultType: Byte,
                         notes: Notes)

  datatype AnyFunction = Function(name: Text, owner: Text, returnType: Byte, temps: Int32, labels: Int32,
                                  generator: bool, parameters: seq<Text>, code: seq<Instr>)

  // Its list of instructions is shorter than a 32-bit count can say.
  type Function = f: AnyFunction | |f.code| < 0x1_0000_0000 witness Function([], [], 0, 0, 0, false, [], [])

  datatype Settings = Settings(backend: Text, highLevel: bool, explicitMain: bool, infiniteMain: bool)

  // The fields of a program that the file leaves out.
  datatype Unsaved = Unsaved(optLevel: Int32, hasRestart: bool, hasShutoff: bool, importedLibs: set<Text>,
                             constVars: set<Text>)

  const DEFAULTS := Unsaved(2, false, false, {}, {})

  datatype Sections = Sections(functions: seq<Function>, data: seq<Instr>, main: seq<Instr>, globalInit: seq<Instr>)

  const NO_SECTIONS := Sections([], [], [], [])

  datatype Program = Program(settings: Settings, target: Text, table: Symbols.Table, sections: Sections,
                             temps: Int32, labels: Int32, options: Unsaved)

  // ---- Writing and reading, field by field ----

  function TypeOf(v: Value): Byte {
    match v
    case IntV(_) => INT
    case FloatV(_) => FLOAT
    case StringV(_) => STRING
    case BoolV(_) => BOOL
    case Bare(tag) => tag
  }

  function PutBool(b: bool): Bytes {
    Put8(if b then 1 else 0)
  }

  function GetBool(b: Bytes): Got<bool> {
    var (v, r) :- Get8(b);
    Got(v != 0, r)
  }

  function PutData(v: Value): Bytes {
    match v
    case IntV(n) => PutInt64(n)
    case FloatV(bits) => Put64(bits)
    case StringV(s) => PutStr(s)
    case BoolV(b) => PutBool(b)
    case Bare(_) => []
  }

  function PutValue(v: Value): Bytes {
    Put8(TypeOf(v)) + PutData(v)
  }

  function GetData(tag: Byte, b: Bytes): Got<Value> {
    if tag == INT then (var (n, r) :- GetInt64(b); Got(IntV(n), r))
    else if tag == FLOAT then (var (bits, r) :- Get64(b); Got(FloatV(bits), r))
    else if tag == STRING then (var (s, r) :- GetStr(b); Got(StringV(s), r))
    else if tag == BOOL then (var (v, r) :- GetBool(b); Got(BoolV(v), r))
    else Got(Bare(VOID), b)
  }

  function GetValue(b: Bytes): Got<Value> {
    var (tag, r) :- Get8(b);
    GetData(tag, r)
  }

  function PutRef(v: Ref): Bytes {
    Put8(v.kind) + (PutInt32(v.id) + PutValue(v.value))
  }

  function GetRef(b: Bytes): Got<Ref> {
    var (kind, r1) :- Get8(b);
    var (id, r2) :- GetInt32(r1);
    var (value, r3) :- GetValue(r2);
    Got(Ref(kind, id, value), r3)
  }

  function PutInstr(v: Instr): Bytes {
    Put8(v.opcode) + (PutRef(v.result) +
      (PutShort(PutRef, v.operands) + (PutShort(PutStr, v.attrs) + Put8(v.resultType))))
  }

  function GetInstr(b: Bytes): Got<Instr> {
    var (opcode, r1) :- Get8(b);
    var (result, r2) :- GetRef(r1);
    var (operands, r3) :- GetShort(GetRef, r2);
    var (attrs, r4) :- GetShort(GetStr, r3);
    var (resultType, r5) :- Get8(r4);
    Got(Instr(opcode, result, operands, attrs, resultType, NO_NOTES), r5)
  }

  function PutHead(f: Function): Bytes {
    PutStr(f.name) + (PutStr(f.owner) + (Put8(f.returnType) + (PutInt32(f.temps) + PutInt32(f.labels))))
  }

  function PutBody(f: Function): Bytes {
    PutBool(f.generator) + (PutShort(PutStr, f.parameters) + PutLong(PutInstr, f.code))
  }

  function PutFunction(f: Function): Bytes {
    PutHead(f) + PutBody(f)
  }

  function GetHead(b: Bytes): Got<Function> {
    var (name, r1) :- GetStr(b);
    var (owner, r2) :- GetStr(r1);
    var (returnType, r3) :- Get8(r2);
    var (temps, r4) :- GetInt32(r3);
    var (labels, r5) :- GetInt32(r4);
    Got(Function(name, owner, returnType, temps, labels, false, [], []), r5)
  }

  const MAX_CODE := 1_000_000
  const MAX_FUNCTIONS := 10_000
  const MAX_SYMBOLS := 100_000

  lemma CodeLength(b: Bytes)
    ensures GetLong(GetInstr, MAX_CODE, b).Got? ==> |GetLong(GetInstr, MAX_CODE, b).value| <= MAX_CODE
  {
    if GetLong(GetInstr, MAX_CODE, b).Got? {
      AllRead(GetInstr, Get32(b).value, [], Get32(b).rest);
    }
  }

  function GetBody(f: Function, b: Bytes): Got<Function> {
    var (generator, r1) :- GetBool(b);
    var (parameters, r2) :- GetShort(GetStr, r1);
    var (code, r3) :- GetLong(GetInstr, MAX_CODE, r2);
    CodeLength(r2);
    Got(f.(generator := generator, parameters := parameters, code := code), r3)
  }

  function GetFunction(b: Bytes): Got<Function> {
    var (f, r) :- GetHead(b);
    GetBody(f, r)
  }

  // The scope as a 32-bit integer.
  function PutSymbol(v: Symbols.Symbol): Bytes {
    PutStr(v.name) + (Put8(v.typ) + Put32(v.scope % 0x1_0000_0000))
  }

  function GetSymbol(b: Bytes): Got<Symbols.Symbol> {
    var (name, r1) :- GetStr(b);
    var (typ, r2) :- Get8(r1);
    var (scope, r3) :- Get32(r2);
    Got(Symbols.Symbol(name, typ, Signed32(scope)), r3)
  }

  // Symbols restored one after the other, in the order of their ids.
  function RestoreAll(symbols: seq<Symbols.Symbol>): Symbols.Table {
    if symbols == [] then Symbols.EMPTY
    else
      var last := symbols[|symbols| - 1];
      Symbols.Restore(RestoreAll(symbols[..|symbols| - 1]), last.name, last.typ, last.scope)
  }

  function PutSettings(s: Settings): Bytes {
    PutStr(s.backend) + (PutBool(s.highLevel) + (PutBool(s.explicitMain) + PutBool(s.infiniteMain)))
  }

  function GetSettings(b: Bytes): Got<Settings> {
    var (backend, r1) :- GetStr(b);
    var (highLevel, r2) :- GetBool(r1);
    var (explicitMain, r3) :- GetBool(r2);
    var (infiniteMain, r4) :- GetBool(r3);
    Got(Settings(backend, highLevel, explicitMain, infiniteMain), r4)
  }

  // "defs", "data", "main" and "globalInit"
  const DEFS: Text := [100, 101, 102, 115]
  const DATA: Text := [100, 97, 116, 97]
  const MAIN: Text := [109, 97, 105, 110]
  const GLOBAL_INIT: Text := [103, 108, 111, 98, 97, 108, 73, 110, 105, 116]

  function PutCode(name: Text, code: seq<Instr>): Bytes {
    PutStr(name) + PutLong(PutInstr, code)
  }

  function PutDefs(functions: seq<Function>): Bytes {
    PutStr(DEFS) + PutLong(PutFunction, functions)
  }

  function PutSections(s: Sections): Bytes {
    PutDefs(s.functions) + (PutCode(DATA, s.data) + (PutCode(MAIN, s.main) + PutCode(GLOBAL_INIT, s.globalInit)))
  }

  function Extended(name: Text, s: Sections, code: seq<Instr>): Sections {
    if name == DATA then s.(data := s.data + code)
    else if name == MAIN then s.(main := s.main + code)
    else s.(globalInit := s.globalInit + code)
  }

  // One section, added to what the sections before it held.
  function GetSection(name: Text, s: Sections, b: Bytes): Got<Sections> {
    if name == DEFS then
      var (fs, r) :- GetLong(GetFunction, MAX_FUNCTIONS, b);
      Got(s.(functions := s.functions + fs), r)
    else if name == DATA || name == MAIN || name == GLOBAL_INIT then
      var (code, r) :- GetLong(GetInstr, MAX_CODE, b);
      Got(Extended(name, s, code), r)
    else Ran
  }

  function GetNamed(s: Sections, b: Bytes): Got<Sections> {
    var (name, r) :- GetStr(b);
    GetSection(name, s, r)
  }

  const MAGIC: Bytes := [65, 67, 73, 82]
  const VERSION: Byte := 19

  function PutProgram(p: Program): Bytes {
    PutSettings(p.settings) + (PutLong(PutSymbol, p.table.symbols) +
      (PutSections(p.sections) + (PutInt32(p.temps) + PutInt32(p.labels))))
  }

  function Save(hash: Word64, p: Program): Bytes {
    PutHeader(MAGIC, VERSION, hash) + PutProgram(p)
  }

  function GetProgram(b: Bytes): Got<Program> {
    var (settings, r1) :- GetSettings(b);
    var (symbols, r2) :- GetLong(GetSymbol, MAX_SYMBOLS, r1);
    var (sections, r3) :- Repeat(GetNamed, 4, NO_SECTIONS, r2);
    var (temps, r4) :- GetInt32(r3);
    var (labels, r5) :- GetInt32(r4);
    Got(Program(settings, settings.backend, RestoreAll(symbols), sections, temps, labels, DEFAULTS), r5)
  }

  // Ran is the null result: no cache, or a bad one.
  function Load(data: Bytes, expected: Word64): Got<Program> {
    var (_, r) :- GetHeader(MAGIC, VERSION, expected, data);
    GetProgram(r)
  }

  // ---- What the file keeps ----

  function KeptValue(v: Value): Value {
    match v
    case StringV(s) => StringV(Cut(s))
    case Bare(_) => Bare(VOID)
    case _ => v
  }

  function KeptRef(v: Ref): Ref {
    v.(value := KeptValue(v.value))
  }

  function KeptInstr(v: Instr): Instr {
    Instr(v.opcode, KeptRef(v.result), Each(KeptRef, First255(v.operands)), Each(Cut, First255(v.attrs)), v.resultType,
      NO_NOTES)
  }

  function KeptFunction(f: Function): Function {
    f.(name := Cut(f.name), owner := Cut(f.owner), parameters := Each(Cut, First255(f.parameters)),
      code := Each(KeptInstr, f.code))
  }

  function KeptSymbol(v: Symbols.Symbol): Symbols.Symbol {
    Symbols.Symbol(Cut(v.name), v.typ, Signed32(v.scope % 0x1_0000_0000))
  }

  function KeptSections(s: Sections): Sections {
    Sections(Each(KeptFunction, s.functions), Each(KeptInstr, s.data), Each(KeptInstr, s.main),
      Each(KeptInstr, s.globalInit))
  }

  function Kept(p: Program): Program {
    var backend := Cut(p.settings.backend);
    Program(p.settings.(backend := backend), backend, RestoreAll(Each(KeptSymbol, p.table.symbols)),
      KeptSections(p.sections),
            p.temps, p.labels, DEFAULTS)
  }

  predicate ShortCode(f: Function) {
    |f.code| <= 1_000_000
  }

  // The counts that the loader accepts.
  predicate Limits(p: Program) {
    && |p.table.symbols| <= 100_000
    && SectionLimits(p.sections)
  }

  // Every list is shorter than a 32-bit count can say.
  predicate Countable(p: Program) {
    && |p.table.symbols| < 0x1_0000_0000 && |p.sections.functions| < 0x1_0000_0000
    && |p.sections.data| < 0x1_0000_0000 && |p.sections.main| < 0x1_0000_0000 && |p.sections.globalInit| < 0x1_0000_0000
  }

  // ---- Field by field, reading inverts writing ----

  lemma BackBool(v: bool, rest: Bytes)
    ensures GetBool(PutBool(v) + rest) == Got(v, rest)
  {
    Back8(if v then 1 else 0, rest);
  }

  lemma BackData(v: Value, rest: Bytes)
    ensures GetData(TypeOf(v), PutData(v) + rest) == Got(KeptValue(v), rest)
  {
    match v
    case IntV(n) => BackInt64(n, rest);
    case FloatV(bits) => Back64(bits, rest);
    case StringV(s) => BackStr(s, rest);
    case BoolV(b) => BackBool(b, rest);
    case Bare(_) => assert [] + rest == rest;
  }

  lemma BackValue(v: Value, rest: Bytes)
    ensures GetValue(PutValue(v) + rest) == Got(KeptValue(v), rest)
  {
    var data := PutData(v);
    Assoc(Put8(TypeOf(v)), data, rest);
    Back8(TypeOf(v), data + rest);
    BackData(v, rest);
  }

  lemma BackRef(v: Ref, rest: Bytes)
    ensures GetRef(PutRef(v) + rest) == Got(KeptRef(v), rest)
  {
    var kind, id, value := Put8(v.kind), PutInt32(v.id), PutValue(v.value);
    Tail3(kind, id, value, rest);
    Back8(v.kind, id + (value + rest));
    BackInt32(v.id, value + rest);
    BackValue(v.value, rest);
  }

  lemma RefsInvert()
    ensures Inverse(PutRef, GetRef, Any, KeptRef)
  {
    forall v, rest ensures BackOne(PutRef, GetRef, Any, KeptRef, v, rest) {
      BackRef(v, rest);
    }
  }

  lemma BackInstr(v: Instr, rest: Bytes)
    ensures GetInstr(PutInstr(v) + rest) == Got(KeptInstr(v), rest)
  {
    var opcode, result, operands, attrs, typ :=
      Put8(v.opcode), PutRef(v.result), PutShort(PutRef, v.operands), PutShort(PutStr, v.attrs), Put8(v.resultType);
    Tail5(opcode, result, operands, attrs, typ, rest);
    Back8(v.opcode, result + (operands + (attrs + (typ + rest))));
    BackRef(v.result, operands + (attrs + (typ + rest)));
    RefsInvert();
    BackShort(PutRef, GetRef, KeptRef, v.operands, attrs + (typ + rest));
    StrsInvert();
    BackShort(PutStr, GetStr, Cut, v.attrs, typ + rest);
    Back8(v.resultType, rest);
  }

  lemma InstrsInvert()
    ensures Inverse(PutInstr, GetInstr, Any, KeptInstr)
  {
    forall v, rest ensures BackOne(PutInstr, GetInstr, Any, KeptInstr, v, rest) {
      BackInstr(v, rest);
    }
  }

  lemma BackCode(code: seq<Instr>, rest: Bytes)
    requires |code| < 0x1_0000_0000
    ensures GetLong(GetInstr, MAX_CODE, PutLong(PutInstr, code) + rest) ==
      if |code| <= MAX_CODE then Got(Each(KeptInstr, code), rest) else Ran
  {
    InstrsInvert();
    BackLong(PutInstr, GetInstr, Any, KeptInstr, MAX_CODE, code, rest);
    assert All(Any, code);
  }

  // A function read as far as its counters.
  function Headed(f: Function): Function {
    Function(Cut(f.name), Cut(f.owner), f.returnType, f.temps, f.labels, false, [], [])
  }

  lemma BackHead(f: Function, rest: Bytes)
    ensures GetHead(PutHead(f) + rest) == Got(Headed(f), rest)
  {
    var name, owner, typ, temps, labels := PutStr(f.name), PutStr(f.owner), Put8(f.returnType), PutInt32(f.temps),
      PutInt32(f.labels);
    Tail5(name, owner, typ, temps, labels, rest);
    BackStr(f.name, owner + (typ + (temps + (labels + rest))));
    BackStr(f.owner, typ + (temps + (labels + rest)));
    Back8(f.returnType, temps + (labels + rest));
    BackInt32(f.temps, labels + rest);
    BackInt32(f.labels, rest);
  }

  lemma BackBody(f: Function, rest: Bytes)
    ensures GetBody(Headed(f), PutBody(f) + rest) == if ShortCode(f) then Got(KeptFunction(f), rest) else Ran
  {
    var generator, parameters, code := PutBool(f.generator), PutShort(PutStr, f.parameters), PutLong(PutInstr, f.code);
    Tail3(generator, parameters, code, rest);
    BackBool(f.generator, parameters + (code + rest));
    StrsInvert();
    BackShort(PutStr, GetStr, Cut, f.parameters, code + rest);
    BackCode(f.code, rest);
  }

  lemma BackFunction(f: Function, rest: Bytes)
    ensures GetFunction(PutFunction(f) + rest) == if ShortCode(f) then Got(KeptFunction(f), rest) else Ran
  {
    var body := PutBody(f);
    Assoc(PutHead(f), body, rest);
    BackHead(f, body + rest);
    BackBody(f, rest);
  }

  lemma FunctionsInvert()
    ensures Inverse(PutFunction, GetFunction, ShortCode, KeptFunction)
  {
    forall v, rest ensures BackOne(PutFunction, GetFunction, ShortCode, KeptFunction, v, rest) {
      BackFunction(v, rest);
    }
  }

  lemma BackSymbol(v: Symbols.Symbol, rest: Bytes)
    ensures GetSymbol(PutSymbol(v) + rest) == Got(KeptSymbol(v), rest)
  {
    var scope := v.scope % 0x1_0000_0000;
    Tail3(PutStr(v.name), Put8(v.typ), Put32(scope), rest);
    BackStr(v.name, Put8(v.typ) + (Put32(scope) + rest));
    Back8(v.typ, Put32(scope) + rest);
    Back32(scope, rest);
  }

  lemma SymbolsInvert()
    ensures Inverse(PutSymbol, GetSymbol, Any, KeptSymbol)
  {
    forall v, rest ensures BackOne(PutSymbol, GetSymbol, Any, KeptSymbol, v, rest) {
      BackSymbol(v, rest);
    }
  }

  lemma BackSymbols(symbols: seq<Symbols.Symbol>, rest: Bytes)
    requires |symbols| < 0x1_0000_0000
    ensures GetLong(GetSymbol, MAX_SYMBOLS, PutLong(PutSymbol, symbols) + rest) ==
      if |symbols| <= MAX_SYMBOLS then Got(Each(KeptSymbol, symbols), rest) else Ran
  {
    SymbolsInvert();
    BackLong(PutSymbol, GetSymbol, Any, KeptSymbol, MAX_SYMBOLS, symbols, rest);
    assert All(Any, symbols);
  }

  lemma BackSettings(s: Settings, rest: Bytes)
    ensures GetSettings(PutSettings(s) + rest) == Got(s.(backend := Cut(s.backend)), rest)
  {
    var backend, high, explicit, infinite := PutStr(s.backend), PutBool(s.highLevel), PutBool(s.explicitMain),
      PutBool(s.infiniteMain);
    Tail4(backend, high, explicit, infinite, rest);
    BackStr(s.backend, high + (explicit + (infinite + rest)));
    BackBool(s.highLevel, explicit + (infinite + rest));
    BackBool(s.explicitMain, infinite + rest);
    BackBool(s.infiniteMain, rest);
  }

  // ---- Sections ----

  lemma Names()
    ensures Cut(DEFS) == DEFS && Cut(DATA) == DATA && Cut(MAIN) == MAIN && Cut(GLOBAL_INIT) == GLOBAL_INIT
    ensures DEFS != DATA && DEFS != MAIN && DEFS != GLOBAL_INIT && DATA != MAIN && DATA != GLOBAL_INIT &&
      MAIN != GLOBAL_INIT
  {
    assert DEFS[1] != DATA[1] && DEFS[0] != MAIN[0] && DEFS[0] != GLOBAL_INIT[0];
    assert DATA[0] != MAIN[0] && DATA[0] != GLOBAL_INIT[0] && MAIN[0] != GLOBAL_INIT[0];
  }

  lemma NameFirst(name: Text, s: Sections, body: Bytes)
    requires Cut(name) == name
    ensures GetNamed(s, PutStr(name) + body) == GetSection(name, s, body)
  {
    BackStr(name, body);
  }

  lemma DefsFound(fs: seq<Function>, rest: Bytes)
    requires |fs| < 0x1_0000_0000
    ensures GetLong(GetFunction, MAX_FUNCTIONS, PutLong(PutFunction, fs) + rest) ==
      if |fs| <= MAX_FUNCTIONS && All(ShortCode, fs) then Got(Each(KeptFunction, fs), rest) else Ran
  {
    FunctionsInvert();
    BackLong(PutFunction, GetFunction, ShortCode, KeptFunction, MAX_FUNCTIONS, fs, rest);
  }

  lemma DefsJoined(s: Sections, fs: seq<Function>)
    requires s.functions == []
    ensures s.(functions := s.functions + fs) == s.(functions := fs)
  {
    assert [] + fs == fs;
  }

  lemma DefsAdded(s: Sections, b: Bytes)
    requires s.functions == []
    ensures GetSection(DEFS, s, b) ==
      match GetLong(GetFunction, MAX_FUNCTIONS, b) case Ran => Ran case Got(fs, r) => Got(s.(functions := fs), r)
  {
    var r := GetLong(GetFunction, MAX_FUNCTIONS, b);
    if r.Got? {
      DefsJoined(s, r.value);
    }
  }

  lemma BackDefs(fs: seq<Function>, rest: Bytes)
    requires |fs| < 0x1_0000_0000
    ensures GetNamed(NO_SECTIONS, PutDefs(fs) + rest) ==
      if |fs| <= MAX_FUNCTIONS && All(ShortCode, fs) then Got(NO_SECTIONS.(functions := Each(KeptFunction, fs)), rest)
        else Ran
  {
    Names();
    var body := PutLong(PutFunction, fs);
    Assoc(PutStr(DEFS), body, rest);
    NameFirst(DEFS, NO_SECTIONS, body + rest);
    DefsAdded(NO_SECTIONS, body + rest);
    DefsFound(fs, rest);
  }

  // The section of that name is still empty.
  predicate Awaits(name: Text, s: Sections) {
    (name == DATA && s.data == []) || (name == MAIN && s.main == []) || (name == GLOBAL_INIT && s.globalInit == [])
  }

  lemma ExtendedFills(name: Text, s: Sections, code: seq<Instr>)
    requires Awaits(name, s)
    ensures Extended(name, s, code) == Filled(name, s, code)
  {
    Names();
    assert [] + code == code;
  }

  lemma CodeAdded(name: Text, s: Sections, b: Bytes)
    requires Awaits(name, s)
    ensures GetSection(name, s, b) ==
      match GetLong(GetInstr, MAX_CODE, b) case Ran => Ran case Got(code, r) => Got(Filled(name, s, code), r)
  {
    Names();
    var r := GetLong(GetInstr, MAX_CODE, b);
    if r.Got? {
      ExtendedFills(name, s, r.value);
    }
  }

  // The sections so far with this code in the named one.
  function Filled(name: Text, s: Sections, code: seq<Instr>): Sections {
    if name == DATA then s.(data := code) else if name == MAIN then s.(main := code) else s.(globalInit := code)
  }

  lemma BackSection(name: Text, s: Sections, code: seq<Instr>, rest: Bytes)
    requires Awaits(name, s) && |code| < 0x1_0000_0000
    ensures GetNamed(s, PutCode(name, code) + rest) ==
      if |code| <= MAX_CODE then Got(Filled(name, s, Each(KeptInstr, code)), rest) else Ran
  {
    Names();
    var body := PutLong(PutInstr, code);
    Assoc(PutStr(name), body, rest);
    NameFirst(name, s, body + rest);
    CodeAdded(name, s, body + rest);
    BackCode(code, rest);
  }

  predicate SectionLimits(s: Sections) {
    && |s.functions| <= 10_000 && All(ShortCode, s.functions)
    && |s.data| <= 1_000_000 && |s.main| <= 1_000_000 && |s.globalInit| <= 1_000_000
  }

  lemma SectionStep(n: nat, s: Sections, b: Bytes)
    ensures Repeat(GetNamed, n + 1, s, b) ==
      match GetNamed(s, b) case Ran => Ran case Got(s', r) => Repeat(GetNamed, n, s', r)
  {
  }

  lemma BackCodes(s0: Sections, s: Sections, rest: Bytes)
    requires s0.data == s0.main == s0.globalInit == []
    requires |s.data| < 0x1_0000_0000 && |s.main| < 0x1_0000_0000 && |s.globalInit| < 0x1_0000_0000
    ensures Repeat(GetNamed, 3, s0, PutCode(DATA, s.data) +
      (PutCode(MAIN, s.main) + (PutCode(GLOBAL_INIT, s.globalInit) + rest))) ==
      if |s.data| <= MAX_CODE && |s.main| <= MAX_CODE && |s.globalInit| <= MAX_CODE
      then Got(KeptSections(s).(functions := s0.functions), rest) else Ran
  {
    Names();
    var last := PutCode(GLOBAL_INIT, s.globalInit) + rest;
    var s1 := s0.(data := Each(KeptInstr, s.data));
    var s2 := s1.(main := Each(KeptInstr, s.main));
    var s3 := s2.(globalInit := Each(KeptInstr, s.globalInit));
    SectionStep(2, s0, PutCode(DATA, s.data) + (PutCode(MAIN, s.main) + last));
    BackSection(DATA, s0, s.data, PutCode(MAIN, s.main) + last);
    SectionStep(1, s1, PutCode(MAIN, s.main) + last);
    BackSection(MAIN, s1, s.main, last);
    SectionStep(0, s2, last);
    BackSection(GLOBAL_INIT, s2, s.globalInit, rest);
  }

  lemma BackSections(s: Sections, rest: Bytes)
    requires |s.functions| < 0x1_0000_0000 && |s.data| < 0x1_0000_0000 && |s.main| < 0x1_0000_0000 &&
      |s.globalInit| < 0x1_0000_0000
    ensures Repeat(GetNamed, 4, NO_SECTIONS, PutSections(s) + rest) ==
      if SectionLimits(s) then Got(KeptSections(s), rest) else Ran
  {
    var defs, data, main, init := PutDefs(s.functions), PutCode(DATA, s.data), PutCode(MAIN, s.main),
      PutCode(GLOBAL_INIT, s.globalInit);
    Tail4(defs, data, main, init, rest);
    var left := data + (main + (init + rest));
    SectionStep(3, NO_SECTIONS, defs + left);
    BackDefs(s.functions, left);
    BackCodes(NO_SECTIONS.(functions := Each(KeptFunction, s.functions)), s, rest);
  }

  lemma BackProgram(p: Program, rest: Bytes)
    requires Countable(p)
    ensures GetProgram(PutProgram(p) + rest) == if Limits(p) then Got(Kept(p), rest) else Ran
  {
    var settings, symbols, sections, temps, labels :=
      PutSettings(p.settings), PutLong(PutSymbol, p.table.symbols), PutSections(p.sections), PutInt32(p.temps),
        PutInt32(p.labels);
    Tail5(settings, symbols, sections, temps, labels, rest);
    BackSettings(p.settings, symbols + (sections + (temps + (labels + rest))));
    BackSymbols(p.table.symbols, sections + (temps + (labels + rest)));
    BackSections(p.sections, temps + (labels + rest));
    BackInt32(p.temps, labels + rest);
    BackInt32(p.labels, rest);
  }

  lemma BackWholeProgram(p: Program)
    requires Countable(p)
    ensures GetProgram(PutProgram(p)) == if Limits(p) then Got(Kept(p), []) else Ran
  {
    BackProgram(p, []);
    NoTail(PutProgram(p));
  }

  lemma HeaderFirst(hash: Word64, expected: Word64, body: Bytes)
    ensures Load(PutHeader(MAGIC, VERSION, hash) + body, expected) == if hash == expected then GetProgram(body) else Ran
  {
    BackHeader(MAGIC, VERSION, hash, expected, body);
  }

  /** Loading what was saved gives exactly the kept program, or nothing when the key is another or a count is over its
      limit. */
  lemma LoadSaved(hash: Word64, expected: Word64, p: Program)
    requires Countable(p)
    ensures Load(Save(hash, p), expected) == if hash == expected && Limits(p) then Got(Kept(p), []) else Ran
  {
    HeaderFirst(hash, expected, PutProgram(p));
    BackWholeProgram(p);
  }

  // ---- What is lost ----

  predicate WholeValue(v: Value) {
    match v
    case StringV(s) => ShortText(s)
    case Bare(tag) => tag == VOID
    case _ => true
  }

  predicate WholeRef(v: Ref) {
    WholeValue(v.value)
  }

  predicate WholeInstr(v: Instr) {
    && WholeRef(v.result) && v.notes == NO_NOTES
    && |v.operands| <= 255 && All(WholeRef, v.operands)
    && |v.attrs| <= 255 && All(ShortText, v.attrs)
  }

  predicate WholeFunction(f: Function) {
    ShortText(f.name) && ShortText(f.owner) && |f.parameters| <= 255 && All(ShortText, f.parameters) &&
      All(WholeInstr, f.code)
  }

  predicate WholeSymbol(v: Symbols.Symbol) {
    ShortText(v.name) && -0x8000_0000 <= v.scope < 0x8000_0000
  }

  predicate WholeSections(s: Sections) {
    All(WholeFunction, s.functions) && All(WholeInstr, s.data) && All(WholeInstr, s.main) &&
      All(WholeInstr, s.globalInit)
  }

  // What a caller can check before saving.
  predicate Whole(p: Program) {
    && ShortText(p.settings.backend) && p.target == p.settings.backend && p.options == DEFAULTS
    && All(WholeSymbol, p.table.symbols) && WholeSections(p.sections)
  }

  lemma KeptRefWhole(v: Ref)
    ensures KeptRef(v) == v <==> WholeRef(v)
  {
    if v.value.StringV? {
      CutWhole(v.value.s);
    }
  }

  lemma TextsWhole(vs: seq<Text>)
    ensures Each(Cut, First255(vs)) == vs <==> |vs| <= 255 && All(ShortText, vs)
  {
    if |vs| <= 255 {
      forall v | v in vs ensures Cut(v) == v <==> ShortText(v) {
        CutWhole(v);
      }
      EachSame(Cut, ShortText, vs);
    }
  }

  lemma RefsWhole(vs: seq<Ref>)
    ensures Each(KeptRef, First255(vs)) == vs <==> |vs| <= 255 && All(WholeRef, vs)
  {
    if |vs| <= 255 {
      forall v | v in vs ensures KeptRef(v) == v <==> WholeRef(v) {
        KeptRefWhole(v);
      }
      EachSame(KeptRef, WholeRef, vs);
    }
  }

  lemma KeptInstrWhole(v: Instr)
    ensures KeptInstr(v) == v <==> WholeInstr(v)
  {
    KeptRefWhole(v.result);
    RefsWhole(v.operands);
    TextsWhole(v.attrs);
  }

  lemma CodeWhole(code: seq<Instr>)
    ensures Each(KeptInstr, code) == code <==> All(WholeInstr, code)
  {
    forall v | v in code ensures KeptInstr(v) == v <==> WholeInstr(v) {
      KeptInstrWhole(v);
    }
    EachSame(KeptInstr, WholeInstr, code);
  }

  lemma KeptFunctionWhole(f: Function)
    ensures KeptFunction(f) == f <==> WholeFunction(f)
  {
    CutWhole(f.name);
    CutWhole(f.owner);
    TextsWhole(f.parameters);
    CodeWhole(f.code);
  }

  lemma FunctionsWhole(fs: seq<Function>)
    ensures Each(KeptFunction, fs) == fs <==> All(WholeFunction, fs)
  {
    forall f | f in fs ensures KeptFunction(f) == f <==> WholeFunction(f) {
      KeptFunctionWhole(f);
    }
    EachSame(KeptFunction, WholeFunction, fs);
  }

  lemma SymbolsWhole(vs: seq<Symbols.Symbol>)
    ensures Each(KeptSymbol, vs) == vs <==> All(WholeSymbol, vs)
  {
    forall v | v in vs ensures KeptSymbol(v) == v <==> WholeSymbol(v) {
      CutWhole(v.name);
    }
    EachSame(KeptSymbol, WholeSymbol, vs);
  }

  /** Every id keeps its symbol, and a name lists all the ids it ever had. */
  lemma {:induction false} RestoredIds(symbols: seq<Symbols.Symbol>, name: Text, id: nat)
    ensures RestoreAll(symbols).symbols == symbols && RestoreAll(symbols).currentScope == 0
    ensures id in Symbols.Ids(RestoreAll(symbols), name) <==> id < |symbols| && symbols[id].name == name
  {
    if symbols != [] {
      RestoredIds(symbols[..|symbols| - 1], name, id);
    }
  }

  lemma SectionsWhole(s: Sections)
    ensures KeptSections(s) == s <==> WholeSections(s)
  {
    FunctionsWhole(s.functions);
    CodeWhole(s.data);
    CodeWhole(s.main);
    CodeWhole(s.globalInit);
  }

  lemma TableWhole(symbols: seq<Symbols.Symbol>)
    ensures RestoreAll(Each(KeptSymbol, symbols)) == RestoreAll(symbols) <==> All(WholeSymbol, symbols)
  {
    RestoredIds(symbols, [], 0);
    RestoredIds(Each(KeptSymbol, symbols), [], 0);
    SymbolsWhole(symbols);
  }

  lemma KeptWhole(p: Program)
    ensures Kept(p) == p.(table := RestoreAll(p.table.symbols)) <==> Whole(p)
  {
    CutWhole(p.settings.backend);
    TableWhole(p.table.symbols);
    SectionsWhole(p.sections);
  }

  /** The loaded program is the saved one, its symbols restored in order, exactly when nothing of it was cut. */
  lemma LoadedWhole(hash: Word64, p: Program)
    requires Countable(p) && Limits(p)
    ensures Load(Save(hash, p), hash) == Got(p.(table := RestoreAll(p.table.symbols)), []) <==> Whole(p)
  {
    LoadSaved(hash, hash, p);
    KeptWhole(p);
  }

  // ---- A truncated file ----

  lemma SteadyValue(b: Bytes, x: Bytes)
    ensures SteadyAt(GetValue, b, x)
  {
    Steady8(b, x);
    assert SteadyAt(Get8, b, x);
    if GetValue(b).Got? {
      var r := Get8(b).rest;
      Steady8(r, x);
      Steady64(r, x);
      SteadyStr(r, x);
      assert SteadyAt(Get8, r, x) && SteadyAt(Get64, r, x) && SteadyAt(GetInt64, r, x) && SteadyAt(GetStr, r, x);
    }
  }

  lemma SteadyRef(b: Bytes, x: Bytes)
    ensures SteadyAt(GetRef, b, x)
  {
    if GetRef(b).Got? {
      var r1 := Get8(b).rest;
      var r2 := GetInt32(r1).rest;
      Steady8(b, x);
      Steady32(r1, x);
      SteadyValue(r2, x);
      assert SteadyAt(Get8, b, x) && SteadyAt(GetInt32, r1, x) && SteadyAt(GetValue, r2, x);
    }
  }

  lemma RefsSteady()
    ensures Steady(GetRef)
  {
    forall b, x ensures SteadyAt(GetRef, b, x) {
      SteadyRef(b, x);
    }
  }

  lemma SteadyInstr(b: Bytes, x: Bytes)
    ensures SteadyAt(GetInstr, b, x)
  {
    if GetInstr(b).Got? {
      var r1 := Get8(b).rest;
      var r2 := GetRef(r1).rest;
      var r3 := GetShort(GetRef, r2).rest;
      var r4 := GetShort(GetStr, r3).rest;
      Steady8(b, x);
      RefsSteady();
      StrsSteady();
      SteadyShort(GetRef, r2, x);
      SteadyShort(GetStr, r3, x);
      Steady8(r4, x);
      assert SteadyAt(Get8, b, x) && SteadyAt(GetRef, r1, x) && SteadyAt(Get8, r4, x);
    }
  }

  lemma InstrsSteady()
    ensures Steady(GetInstr)
  {
    forall b, x ensures SteadyAt(GetInstr, b, x) {
      SteadyInstr(b, x);
    }
  }

  lemma SteadyHead(b: Bytes, x: Bytes)
    ensures SteadyAt(GetHead, b, x)
  {
    if GetHead(b).Got? {
      var r1 := GetStr(b).rest;
      var r2 := GetStr(r1).rest;
      var r3 := Get8(r2).rest;
      var r4 := GetInt32(r3).rest;
      StrsSteady();
      Steady8(r2, x);
      Steady32(r3, x);
      Steady32(r4, x);
      assert SteadyAt(GetStr, b, x) && SteadyAt(GetStr, r1, x) && SteadyAt(Get8, r2, x) && SteadyAt(GetInt32, r3, x) &&
        SteadyAt(GetInt32, r4, x);
    }
  }

  lemma SteadyBody(f: Function, b: Bytes, x: Bytes)
    requires GetBody(f, b).Got?
    ensures GetBody(f, b + x) == Got(GetBody(f, b).value, GetBody(f, b).rest + x)
  {
    var r1 := GetBool(b).rest;
    var r2 := GetShort(GetStr, r1).rest;
    Steady8(b, x);
    assert SteadyAt(Get8, b, x);
    StrsSteady();
    SteadyShort(GetStr, r1, x);
    InstrsSteady();
    SteadyLong(GetInstr, MAX_CODE, r2, x);
  }

  lemma FunctionsSteady()
    ensures Steady(GetFunction)
  {
    forall b, x ensures SteadyAt(GetFunction, b, x) {
      if GetFunction(b).Got? {
        SteadyHead(b, x);
        assert SteadyAt(GetHead, b, x);
        SteadyBody(GetHead(b).value, GetHead(b).rest, x);
      }
    }
  }

  lemma SymbolsSteady()
    ensures Steady(GetSymbol)
  {
    forall b, x ensures SteadyAt(GetSymbol, b, x) {
      if GetSymbol(b).Got? {
        var r1 := GetStr(b).rest;
        var r2 := Get8(r1).rest;
        SteadyStr(b, x);
        Steady8(r1, x);
        Steady32(r2, x);
        assert SteadyAt(GetStr, b, x) && SteadyAt(Get8, r1, x) && SteadyAt(Get32, r2, x);
      }
    }
  }

  lemma SteadyNamed(s: Sections, b: Bytes, x: Bytes)
    requires GetNamed(s, b).Got?
    ensures GetNamed(s, b + x) == Got(GetNamed(s, b).value, GetNamed(s, b).rest + x)
  {
    SteadyStr(b, x);
    assert SteadyAt(GetStr, b, x);
    var r := GetStr(b).rest;
    if GetStr(b).value == DEFS {
      FunctionsSteady();
      SteadyLong(GetFunction, MAX_FUNCTIONS, r, x);
    } else {
      InstrsSteady();
      SteadyLong(GetInstr, MAX_CODE, r, x);
    }
  }

  lemma SteadySections(n: nat, s: Sections, b: Bytes, x: Bytes)
    requires Repeat(GetNamed, n, s, b).Got?
    ensures Repeat(GetNamed, n, s, b + x) == Got(Repeat(GetNamed, n, s, b).value, Repeat(GetNamed, n, s, b).rest + x)
  {
    forall s, b, x ensures SteadyFrom(GetNamed, s, b, x) {
      if GetNamed(s, b).Got? {
        SteadyNamed(s, b, x);
      }
    }
    SteadyRepeat(GetNamed, n, s, b, x);
  }

  lemma SteadySettings(b: Bytes, x: Bytes)
    ensures SteadyAt(GetSettings, b, x)
  {
    if GetSettings(b).Got? {
      var r1 := GetStr(b).rest;
      var r2 := GetBool(r1).rest;
      var r3 := GetBool(r2).rest;
      SteadyStr(b, x);
      Steady8(r1, x);
      Steady8(r2, x);
      Steady8(r3, x);
      assert SteadyAt(GetStr, b, x) && SteadyAt(Get8, r1, x) && SteadyAt(Get8, r2, x) && SteadyAt(Get8, r3, x);
    }
  }

  lemma SteadyProgram(b: Bytes, x: Bytes)
    ensures SteadyAt(GetProgram, b, x)
  {
    if GetProgram(b).Got? {
      var r1 := GetSettings(b).rest;
      var r2 := GetLong(GetSymbol, MAX_SYMBOLS, r1).rest;
      var r3 := Repeat(GetNamed, 4, NO_SECTIONS, r2).rest;
      var r4 := GetInt32(r3).rest;
      SteadySettings(b, x);
      SymbolsSteady();
      SteadyLong(GetSymbol, MAX_SYMBOLS, r1, x);
      SteadySections(4, NO_SECTIONS, r2, x);
      Steady32(r3, x);
      Steady32(r4, x);
      assert SteadyAt(GetSettings, b, x) && SteadyAt(GetInt32, r3, x) && SteadyAt(GetInt32, r4, x);
    }
  }

  lemma SteadyLoad(b: Bytes, x: Bytes, expected: Word64)
    requires Load(b, expected).Got?
    ensures Load(b + x, expected) == Got(Load(b, expected).value, Load(b, expected).rest + x)
  {
    SteadyHeader(MAGIC, VERSION, expected, b, x);
    SteadyProgram(GetHeader(MAGIC, VERSION, expected, b).rest, x);
    assert SteadyAt(GetProgram, GetHeader(MAGIC, VERSION, expected, b).rest, x);
  }

  lemma NothingBehind(data: Bytes, length: nat, expected: Word64)
    requires length < |data| && (Load(data, expected).Got? ==> Load(data, expected).rest == [])
    ensures Load(data[..length], expected) == Ran
  {
    assert data[..length] + data[length..] == data;
    if Load(data[..length], expected).Got? {
      SteadyLoad(data[..length], data[length..], expected);
    }
  }

  /** A cache file cut short anywhere loads as nothing. */
  lemma TruncatedRefused(hash: Word64, p: Program, length: nat)
    requires Countable(p) && length < |Save(hash, p)|
    ensures Load(Save(hash, p)[..length], hash) == Ran
  {
    LoadSaved(hash, hash, p);
    NothingBehind(Save(hash, p), length, hash);
  }

  // ---- The restored table ----

  // No global symbol is ever dropped from its name's list.
  ghost predicate GlobalsListed(t: Symbols.Table) {
    forall id: nat :: id < |t.symbols| && t.symbols[id].scope == 0 ==> Symbols.Live(t, t.symbols[id].name, id, 0)
  }

  lemma DoKeepsGlobals(t: Symbols.Table, op: Symbols.Op)
    requires GlobalsListed(t) && Symbols.Listed(t)
    ensures GlobalsListed(Symbols.Do(t, op))
  {
    var t' := Symbols.Do(t, op);
    forall id: nat | id < |t'.symbols| && t'.symbols[id].scope == 0
      ensures Symbols.Live(t', t'.symbols[id].name, id, 0)
    {
      if id < |t.symbols| {
        assert Symbols.Live(t, t.symbols[id].name, id, 0);
        if op.OpExit? && t.currentScope > 0 {
          Symbols.ExitLive(t, t.symbols[id].name, id, 0);
        }
      }
    }
  }

  lemma {:induction false} RunKeepsGlobals(ops: seq<Symbols.Op>)
    ensures GlobalsListed(Symbols.Run(Symbols.EMPTY, ops))
  {
    if ops != [] {
      var before := ops[..|ops| - 1];
      RunKeepsGlobals(before);
      Symbols.RunRefines(Symbols.EMPTY, [map[]], before);
      DoKeepsGlobals(Symbols.Run(Symbols.EMPTY, before), ops[|ops| - 1]);
    }
  }

  /** A global name looked up in the restored table gives the id it had in the saved one, after any run of scopes and
      names. */
  lemma RestoredLookup(ops: seq<Symbols.Op>, name: Text)
    ensures var t := Symbols.Run(Symbols.EMPTY, ops);
      Symbols.Lookup(RestoreAll(t.symbols), name) == Symbols.LookupFrom(t, name, 0)
  {
    var t := Symbols.Run(Symbols.EMPTY, ops);
    var r := RestoreAll(t.symbols);
    RunKeepsGlobals(ops);
    Symbols.RunRefines(Symbols.EMPTY, [map[]], ops);
    RestoredIds(t.symbols, name, 0);
    forall id: nat ensures Symbols.Live(r, name, id, 0) <==> Symbols.Live(t, name, id, 0) {
      RestoredIds(t.symbols, name, id);
      assert Symbols.ListedId(t, name, id);
    }
    var a, b := Symbols.FirstIn(r.symbols, Symbols.Ids(r, name), 0),
      Symbols.FirstIn(t.symbols, Symbols.Ids(t, name), 0);
    assert a.Some? ==> Symbols.Live(r, name, a.value, 0);
    assert b.Some? ==> Symbols.Live(t, name, b.value, 0);
    if a.Some? && b.Some? {
      Symbols.OneLiveId(t, Symbols.RunStack(Symbols.EMPTY, [map[]], ops), name, 0, a.value, b.value);
    }
  }
}
