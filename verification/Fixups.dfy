/** The fixup pass: every branch word in the code buffer gets its label's distance, and decodes to its label. */
module Fixups {

  import opened CText
  import opened Options

  datatype Kind = B | BL | CBZ | CBNZ | BCOND | ADR

  // A branch word at byte offset `at` of the buffer: 0 <= reg <= 31, 0 <= cond <= 15.
  datatype Fix = Fix(at: nat, lab: int, kind: Kind, cond: nat, reg: nat)

  datatype Error = Unresolved(lab: int) | Unaligned(lab: int) | OutOfRange | CondOutOfRange

  // ---- Words: fields of two's complement numbers beside an opcode (section C6.2 of DDI 0487) ----

  // The low bits of x, n = 2^bits.
  function Field(x: int, n: nat): (f: nat)
    requires n > 0
    ensures f < n
  {
    x % n
  }

  function SignExtend(f: nat, n: nat): int {
    if 2 * f < n then f else f - n
  }

  const P19: nat := 0x80000
  const P26: nat := 0x4000000
  const P32: nat := 0x1_0000_0000

  function Wrap32(x: int): int {
    SignExtend(Field(x, P32), P32)
  }

  // The patched word; the fields do not overlap, so joining them is adding them.
  function Encode(fx: Fix, delta: int): nat {
    var words := Wrap32(delta / 4);
    match fx.kind
    case B => 0x14000000 + Field(words, P26)
    case BL => 0x94000000 + Field(words, P26)
    case CBZ => 0xB4000000 + Field(words, P19) * 32 + fx.reg
    case CBNZ => 0xB5000000 + Field(words, P19) * 32 + fx.reg
    case BCOND => 0x54000000 + Field(words, P19) * 32 + fx.cond
    case ADR => 0x10000000 + Field(delta, 4) * 0x20000000 + Field(Wrap32(delta) / 4, P19) * 32 + fx.reg
  }

  datatype Meaning =
    | Jump(target: int)
    | Call(target: int)
    | IfZero(reg: nat, target: int)
    | IfNonzero(reg: nat, target: int)
    | IfCond(cond: nat, target: int)
    | Address(reg: nat, target: int)
    | Other

  // What the processor does with the word at address pc.
  function Decode(w: nat, pc: int): Meaning {
    var imm19 := (w / 32) % P19;
    if w / P26 == 0x05 then Jump(pc + 4 * SignExtend(w % P26, P26))
    else if w / P26 == 0x25 then Call(pc + 4 * SignExtend(w % P26, P26))
    else if w / 0x1000000 == 0xB4 then IfZero(w % 32, pc + 4 * SignExtend(imm19, P19))
    else if w / 0x1000000 == 0xB5 then IfNonzero(w % 32, pc + 4 * SignExtend(imm19, P19))
    else if w / 0x1000000 == 0x54 && (w / 16) % 2 == 0 then IfCond(w % 16, pc + 4 * SignExtend(imm19, P19))
    else if w < 0x80000000 && (w / 0x1000000) % 0x20 == 0x10 then
      Address(w % 32, pc + SignExtend(imm19 * 4 + (w / 0x20000000) % 4, 0x200000))
    else Other
  }

  function Wanted(fx: Fix, target: int): Meaning {
    match fx.kind
    case B => Jump(target)
    case BL => Call(target)
    case CBZ => IfZero(fx.reg, target)
    case CBNZ => IfNonzero(fx.reg, target)
    case BCOND => IfCond(fx.cond, target)
    case ADR => Address(fx.reg, target)
  }

  // ---- The pass ----

  predicate GoodFix(fx: Fix) {
    fx.reg < 32 && fx.cond < 16
  }

  function Check(fx: Fix, labels: map<int, nat>): Option<Error> {
    if fx.lab !in labels then Some(Unresolved(fx.lab))
    else
      var delta := labels[fx.lab] - fx.at;
      var words := Wrap32(delta / 4);
      if delta % 4 != 0 then Some(Unaligned(fx.lab))
      else if (fx.kind == B || fx.kind == BL) && !(-0x2000000 <= words < 0x2000000) then Some(OutOfRange)
      else if (fx.kind == CBZ || fx.kind == CBNZ || fx.kind == BCOND) &&
        !(-0x40000 <= words < 0x40000) then Some(CondOutOfRange)
      else None
  }

  lemma FieldOf(x: int, n: nat)
    requires n > 0 && 0 - n <= 2 * x < n
    ensures SignExtend(Field(x, n), n) == x
  {
    if x < 0 {
      assert x % n == x + n;
    }
  }

  lemma Wrap32Of(x: int)
    requires -0x80000000 <= x < 0x80000000
    ensures Wrap32(x) == x
  {
    FieldOf(x, P32);
  }

  // The buffer is under 8 GB, so word distances fit 32 bits.
  predicate Near(delta: int) {
    -0x2_0000_0000 < delta < 0x2_0000_0000
  }

  predicate IsLong(kind: Kind) {
    kind == B || kind == BL
  }

  // 128 MB either way for B and BL, 1 MB for the other branches, in whole instructions.
  predicate WithinReach(kind: Kind, delta: int) {
    delta % 4 == 0 && if IsLong(kind) then -0x800_0000 <= delta < 0x800_0000 else -0x10_0000 <= delta < 0x10_0000
  }

  lemma LongBranchDecodes(fx: Fix, delta: int)
    requires IsLong(fx.kind) && WithinReach(fx.kind, delta)
    ensures Decode(Encode(fx, delta), fx.at) == Wanted(fx, fx.at + delta)
  {
    Wrap32Of(delta / 4);
    FieldOf(delta / 4, P26);
  }

  // The fields of a word with a 19-bit distance.
  lemma ShortWord(w: nat, op: nat, f: nat, low: nat)
    requires w == op * 0x1000000 + f * 32 + low && f < P19 && low < 32
    ensures w / 0x1000000 == op && w / P26 == op / 4 && (w / 32) % P19 == f && w % 32 == low
  {
    assert w / 32 == op * P19 + f;
    assert (w / 32) / P19 == op;
  }

  lemma CompareDecodes(fx: Fix, delta: int)
    requires (fx.kind == CBZ || fx.kind == CBNZ) && GoodFix(fx) && delta % 4 == 0 && -0x40000 <= delta / 4 < 0x40000
    ensures Decode(Encode(fx, delta), fx.at) == Wanted(fx, fx.at + delta)
  {
    Wrap32Of(delta / 4);
    FieldOf(delta / 4, P19);
    ShortWord(Encode(fx, delta), if fx.kind == CBZ then 0xB4 else 0xB5, Field(delta / 4, P19), fx.reg);
  }

  lemma ConditionDecodes(fx: Fix, delta: int)
    requires fx.kind == BCOND && GoodFix(fx) && delta % 4 == 0 && -0x40000 <= delta / 4 < 0x40000
    ensures Decode(Encode(fx, delta), fx.at) == Wanted(fx, fx.at + delta)
  {
    Wrap32Of(delta / 4);
    FieldOf(delta / 4, P19);
    var w := Encode(fx, delta);
    ShortWord(w, 0x54, Field(delta / 4, P19), fx.cond);
    LowBits(w, fx.cond);
  }

  lemma LowBits(w: nat, low: nat)
    requires w % 32 == low && low < 16
    ensures (w / 16) % 2 == 0 && w % 16 == low
  {
    assert w == (w / 32) * 32 + low;
    assert w / 16 == (w / 32) * 2;
  }

  lemma ShortBranchDecodes(fx: Fix, delta: int)
    requires (fx.kind == CBZ || fx.kind == CBNZ || fx.kind == BCOND) && GoodFix(fx) && WithinReach(fx.kind, delta)
    ensures Decode(Encode(fx, delta), fx.at) == Wanted(fx, fx.at + delta)
  {
    if fx.kind == BCOND {
      ConditionDecodes(fx, delta);
    } else {
      CompareDecodes(fx, delta);
    }
  }

  /** A few words as an assembler for the architecture writes them. */
  lemma KnownWords()
    ensures Encode(Fix(0, 0, B, 0, 0), 8) == 0x14000002          // b .+8
    ensures Encode(Fix(0, 0, BL, 0, 0), -4) == 0x97FFFFFF        // bl .-4
    ensures Encode(Fix(0, 0, CBZ, 0, 9), 8) == 0xB4000049        // cbz x9, .+8
    ensures Encode(Fix(0, 0, CBNZ, 0, 10), -8) == 0xB5FFFFCA     // cbnz x10, .-8
    ensures Encode(Fix(0, 0, BCOND, 10, 0), 12) == 0x5400006A    // b.ge .+12
    ensures Encode(Fix(0, 0, ADR, 0, 1), 12) == 0x10000061       // adr x1, .+12
    ensures Encode(Fix(0, 0, ADR, 0, 0), 1) == 0x30000000        // adr x0, .+1
  {
  }

  // ---- When a branch can be encoded at all ----

  // Some 32-bit word at fx's place means what fx wants of the label at `target`.
  ghost predicate Encodable(fx: Fix, target: int) {
    exists w: nat :: w < P32 && Decode(w, fx.at) == Wanted(fx, target)
  }

  lemma EncodeIsWord(fx: Fix, delta: int)
    requires GoodFix(fx)
    ensures Encode(fx, delta) < P32
  {
  }

  lemma FieldRange(f: nat, n: nat)
    requires f < n && n % 2 == 0
    ensures 0 - n <= 2 * SignExtend(f, n) < n
  {
  }

  lemma DecodedNear(fx: Fix, w: nat, target: int)
    requires fx.kind != ADR && w < P32 && Decode(w, fx.at) == Wanted(fx, target)
    ensures WithinReach(fx.kind, target - fx.at)
  {
    FieldRange(w % P26, P26);
    FieldRange((w / 32) % P19, P19);
  }

  /** A branch, ADR apart, can be encoded exactly when its label is within reach. */
  lemma ReachExactly(fx: Fix, delta: int)
    requires GoodFix(fx) && fx.kind != ADR
    ensures Encodable(fx, fx.at + delta) <==> WithinReach(fx.kind, delta)
  {
    if WithinReach(fx.kind, delta) {
      if IsLong(fx.kind) {
        LongBranchDecodes(fx, delta);
      } else {
        ShortBranchDecodes(fx, delta);
      }
      EncodeIsWord(fx, delta);
    }
    if w: nat :| w < P32 && Decode(w, fx.at) == Wanted(fx, fx.at + delta) {
      DecodedNear(fx, w, fx.at + delta);
    }
  }

  // What the pass promises to accept: the label is there, a whole number of instructions away, and, ADR apart, in reach
  // of some word.
  ghost predicate Acceptable(fx: Fix, labels: map<int, nat>) {
    && fx.lab in labels && (labels[fx.lab] - fx.at) % 4 == 0
    && (fx.kind != ADR ==> Encodable(fx, labels[fx.lab]))
  }

  // The error a fixup that is not acceptable has to give.
  function ErrorOf(fx: Fix, labels: map<int, nat>): Error {
    if fx.lab !in labels then Unresolved(fx.lab)
    else if (labels[fx.lab] - fx.at) % 4 != 0 then Unaligned(fx.lab)
    else if IsLong(fx.kind) then OutOfRange else CondOutOfRange
  }

  /** The check refuses exactly what cannot be encoded, and says why. */
  lemma CheckExact(fx: Fix, labels: map<int, nat>)
    requires GoodFix(fx) && (fx.lab in labels ==> Near(labels[fx.lab] - fx.at))
    ensures Check(fx, labels) == if Acceptable(fx, labels) then None else Some(ErrorOf(fx, labels))
  {
    if fx.lab in labels && (labels[fx.lab] - fx.at) % 4 == 0 {
      var delta := labels[fx.lab] - fx.at;
      Wrap32Of(delta / 4);
      if fx.kind != ADR {
        ReachExactly(fx, delta);
      }
    }
  }

  lemma AdrWord(w: nat, f: nat, low: nat)
    requires w == 0x10000000 + f * 32 + low && f < P19 && low < 32
    ensures w / 0x1000000 == 0x10 && w / P26 == 4 && (w / 32) % P19 == f && w % 32 == low &&
      (w / 0x20000000) % 4 == 0 && w < 0x80000000
  {
    ShortWord(w, 0x10, f, low);
  }

  /** An ADR word has no range check: it decodes to its label exactly when the label is within one megabyte. */
  lemma AdrDecodes(fx: Fix, delta: int)
    requires fx.kind == ADR && GoodFix(fx) && delta % 4 == 0 && -0x80000000 <= delta < 0x80000000
    ensures Decode(Encode(fx, delta), fx.at) == Wanted(fx, fx.at + delta) <==> -0x100000 <= delta < 0x100000
  {
    Wrap32Of(delta);
    AdrWord(Encode(fx, delta), Field(delta / 4, P19), fx.reg);
    if -0x100000 <= delta < 0x100000 {
      FieldOf(delta / 4, P19);
    }
    FourTimes(Field(delta / 4, P19));
  }

  lemma FourTimes(f: nat)
    requires f < P19
    ensures SignExtend(f * 4, 0x200000) == 4 * SignExtend(f, P19)
    ensures -0x100000 <= SignExtend(f * 4, 0x200000) < 0x100000
  {
  }

  // ---- The buffer ----

  // The little-endian word at offset i.
  function WordAt(buf: seq<Byte>, i: nat): nat
    requires i + 4 <= |buf|
  {
    buf[i] as int + 0x100 * buf[i + 1] as int + 0x10000 * buf[i + 2] as int + 0x1000000 * buf[i + 3] as int
  }

  method Patch32(buf: array<Byte>, i: nat, w: nat)
    requires i + 4 <= buf.Length && w < P32
    modifies buf
    ensures WordAt(buf[..], i) == w
    ensures forall k :: 0 <= k < buf.Length && !(i <= k < i + 4) ==> buf[k] == old(buf[k])
  {
    buf[i] := w % 0x100;
    buf[i + 1] := w / 0x100 % 0x100;
    buf[i + 2] := w / 0x10000 % 0x100;
    buf[i + 3] := w / 0x1000000;
  }

  // The branch words lie in the buffer and do not overlap.
  predicate Placed(fixups: seq<Fix>, length: nat) {
    && (forall i :: 0 <= i < |fixups| ==> GoodFix(fixups[i]) && fixups[i].at + 4 <= length)
    && (forall i, j :: 0 <= i < j < |fixups| ==> fixups[i].at + 4 <= fixups[j].at || fixups[j].at + 4 <= fixups[i].at)
  }

  predicate InFix(fixups: seq<Fix>, k: int) {
    exists i :: 0 <= i < |fixups| && fixups[i].at <= k < fixups[i].at + 4
  }

  // The word of fx in the buffer does what fx asks for; an ADR only when its label is near enough.
  predicate Reaches(buf: seq<Byte>, fx: Fix, labels: map<int, nat>) {
    && fx.lab in labels && fx.at + 4 <= |buf|
    && (fx.kind != ADR || -0x100000 <= labels[fx.lab] - fx.at < 0x100000 ==>
          Decode(WordAt(buf, fx.at), fx.at) == Wanted(fx, labels[fx.lab]))
  }

  lemma PatchReaches(buf: seq<Byte>, fx: Fix, labels: map<int, nat>)
    requires GoodFix(fx) && Acceptable(fx, labels) && fx.at + 4 <= |buf|
    requires WordAt(buf, fx.at) == Encode(fx, labels[fx.lab] - fx.at)
    ensures Reaches(buf, fx, labels)
  {
    var delta := labels[fx.lab] - fx.at;
    if fx.kind == ADR {
      if -0x100000 <= delta < 0x100000 {
        AdrDecodes(fx, delta);
      }
    } else {
      ReachExactly(fx, delta);
      if IsLong(fx.kind) {
        LongBranchDecodes(fx, delta);
      } else {
        ShortBranchDecodes(fx, delta);
      }
    }
  }

  lemma ReachesStill(buf: seq<Byte>, buf': seq<Byte>, fx: Fix, labels: map<int, nat>, at: nat)
    requires Reaches(buf, fx, labels) && |buf'| == |buf| && (fx.at + 4 <= at || at + 4 <= fx.at)
    requires forall k :: 0 <= k < |buf| && !(at <= k < at + 4) ==> buf'[k] == buf[k]
    ensures Reaches(buf', fx, labels)
  {
    assert WordAt(buf', fx.at) == WordAt(buf, fx.at);
  }

  // Fixup i is the first one that cannot be encoded, and error is its error.
  ghost predicate FirstBad(fixups: seq<Fix>, labels: map<int, nat>, i: nat, error: Error)
    requires i < |fixups|
  {
    && !Acceptable(fixups[i], labels) && error == ErrorOf(fixups[i], labels)
    && forall j :: 0 <= j < i ==> Acceptable(fixups[j], labels)
  }

  /** The pass over the fixups: stops at the first one that no word can encode and says why; otherwise every branch word
      decodes to its label with its register or condition, and no other byte has changed. */
  method ResolveFixups(buf: array<Byte>, fixups: seq<Fix>, labels: map<int, nat>) returns (error: Option<Error>)
    requires Placed(fixups, buf.Length) && buf.Length < 0x2_0000_0000
    requires forall l :: l in labels ==> labels[l] <= buf.Length
    modifies buf
    ensures error.None? <==> forall i :: 0 <= i < |fixups| ==> Acceptable(fixups[i], labels)
    ensures error.Some? ==> exists i :: 0 <= i < |fixups| && FirstBad(fixups, labels, i, error.value)
    ensures error.None? ==> forall i :: 0 <= i < |fixups| ==> Reaches(buf[..], fixups[i], labels)
    ensures forall k :: 0 <= k < buf.Length && !InFix(fixups, k) ==> buf[k] == old(buf[k])
  {
    for n := 0 to |fixups|
      invariant forall i :: 0 <= i < n ==> Acceptable(fixups[i], labels) && Reaches(buf[..], fixups[i], labels)
      invariant forall k :: 0 <= k < buf.Length && !InFix(fixups, k) ==> buf[k] == old(buf[k])
    {
      var fx := fixups[n];
      error := Check(fx, labels);
      CheckExact(fx, labels);
      if error.Some? {
        assert FirstBad(fixups, labels, n, error.value);
        return;
      }
      ghost var before := buf[..];
      EncodeIsWord(fx, labels[fx.lab] - fx.at);
      Patch32(buf, fx.at, Encode(fx, labels[fx.lab] - fx.at));
      PatchReaches(buf[..], fx, labels);
      forall i | 0 <= i < n ensures Reaches(buf[..], fixups[i], labels) {
        ReachesStill(before, buf[..], fixups[i], labels, fx.at);
      }
    }
    error := None;
  }
}
