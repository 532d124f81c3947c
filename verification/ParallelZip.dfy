/** The archive: a pool of workers against one loop, and the framing against its reader. */
module ParallelZip {

  import opened CText
  import opened Options
  import opened Sequences
  import opened Wire

  datatype Entry = Entry(path: Text, data: Bytes)

  // zlib, which is not part of this model: any compressor, and a decompressor that may refuse.
  datatype Codec = Codec(zip: Bytes -> Bytes, unzip: Bytes -> Option<Bytes>)

  ghost predicate Inverts(c: Codec) {
    forall d :: c.unzip(c.zip(d)) == Some(d)
  }

  // ---- The pool ----

  // A worker asks for an index, compresses that file, and asks again until there is none.
  datatype Worker = Ready | Holding(index: nat) | Finished

  // next is the shared counter; comp has one slot for each file.
  datatype Pool = Pool(next: nat, workers: seq<Worker>, comp: seq<Bytes>)

  predicate Shaped(files: seq<Entry>, p: Pool) {
    |p.comp| == |files| && forall t :: 0 <= t < |p.workers| && p.workers[t].Holding? ==> p.workers[t].index < |files|
  }

  // One atomic action of worker t: fetch_add on the counter, or the store into its own slot.
  function Step(c: Codec, files: seq<Entry>, p: Pool, t: nat): (p': Pool)
    requires Shaped(files, p) && t < |p.workers|
    ensures Shaped(files, p') && |p'.workers| == |p.workers|
  {
    match p.workers[t]
    case Ready => Pool(p.next + 1, p.workers[t := if p.next < |files| then Holding(p.next) else Finished], p.comp)
    case Holding(i) => Pool(p.next, p.workers[t := Ready], p.comp[i := c.zip(files[i].data)])
    case Finished => p
  }

  // An interleaving: the worker that acts at each moment, the first moment first.
  predicate Schedule(workers: nat, schedule: seq<nat>) {
    forall k :: 0 <= k < |schedule| ==> schedule[k] < workers
  }

  function Run(c: Codec, files: seq<Entry>, p: Pool, schedule: seq<nat>): (p': Pool)
    requires Shaped(files, p) && Schedule(|p.workers|, schedule)
    ensures Shaped(files, p') && |p'.workers| == |p.workers|
    decreases |schedule|
  {
    if schedule == [] then p else Run(c, files, Step(c, files, p, schedule[0]), schedule[1..])
  }

  function Start(files: seq<Entry>, workers: nat): Pool {
    Pool(0, seq(workers, _ => Ready), seq(|files|, _ => []))
  }

  predicate AllFinished(p: Pool) {
    forall t :: 0 <= t < |p.workers| ==> p.workers[t].Finished?
  }

  // What the loop without workers stores.
  function Sequential(c: Codec, files: seq<Entry>): (comp: seq<Bytes>)
    ensures |comp| == |files| && forall i :: 0 <= i < |files| ==> comp[i] == c.zip(files[i].data)
  {
    if files == [] then [] else [c.zip(files[0].data)] + Sequential(c, files[1..])
  }

  predicate Held(p: Pool, i: nat) {
    exists t :: 0 <= t < |p.workers| && p.workers[t] == Holding(i)
  }

  predicate Written(c: Codec, files: seq<Entry>, p: Pool, i: nat)
    requires Shaped(files, p)
  {
    i < |files| && p.comp[i] == c.zip(files[i].data)
  }

  // Every index given out is held by exactly one worker, or its file is in its slot.
  ghost predicate Safe(c: Codec, files: seq<Entry>, p: Pool) {
    && Shaped(files, p)
    && (forall t :: 0 <= t < |p.workers| && p.workers[t].Holding? ==> p.workers[t].index < p.next)
    && (forall t :: 0 <= t < |p.workers| && p.workers[t].Finished? ==> p.next > |files|)
    && (forall t, u :: 0 <= t < u < |p.workers| && p.workers[t].Holding? && p.workers[u].Holding? ==>
      p.workers[t].index != p.workers[u].index)
    && forall i: nat :: i < |files| && i < p.next ==> Held(p, i) || Written(c, files, p, i)
  }

  lemma StartSafe(c: Codec, files: seq<Entry>, workers: nat)
    ensures Safe(c, files, Start(files, workers))
  {
  }

  lemma FetchSafe(c: Codec, files: seq<Entry>, p: Pool, t: nat)
    requires Safe(c, files, p) && t < |p.workers| && p.workers[t].Ready?
    ensures Safe(c, files, Step(c, files, p, t))
  {
    var p' := Step(c, files, p, t);
    forall i: nat | i < |files| && i < p'.next ensures Held(p', i) || Written(c, files, p', i) {
      if i == p.next {
        assert p'.workers[t] == Holding(i);
      } else if Held(p, i) {
        var u :| 0 <= u < |p.workers| && p.workers[u] == Holding(i);
        assert p'.workers[u] == Holding(i);
      }
    }
  }

  lemma StoreSafe(c: Codec, files: seq<Entry>, p: Pool, t: nat)
    requires Safe(c, files, p) && t < |p.workers| && p.workers[t].Holding?
    ensures Safe(c, files, Step(c, files, p, t))
  {
    var p' := Step(c, files, p, t);
    forall i: nat | i < |files| && i < p'.next ensures Held(p', i) || Written(c, files, p', i) {
      if i != p.workers[t].index && Held(p, i) {
        var u :| 0 <= u < |p.workers| && p.workers[u] == Holding(i);
        assert p'.workers[u] == Holding(i);
      }
    }
  }

  lemma StepSafe(c: Codec, files: seq<Entry>, p: Pool, t: nat)
    requires Safe(c, files, p) && t < |p.workers|
    ensures Safe(c, files, Step(c, files, p, t))
  {
    match p.workers[t]
    case Ready => FetchSafe(c, files, p, t);
    case Holding(_) => StoreSafe(c, files, p, t);
    case Finished =>
  }

  /** In every interleaving no index is held twice, and one that was given out is held or stored. */
  lemma {:induction false} RunSafe(c: Codec, files: seq<Entry>, p: Pool, schedule: seq<nat>)
    requires Safe(c, files, p) && Schedule(|p.workers|, schedule)
    ensures Safe(c, files, Run(c, files, p, schedule))
    decreases |schedule|
  {
    if schedule != [] {
      StepSafe(c, files, p, schedule[0]);
      RunSafe(c, files, Step(c, files, p, schedule[0]), schedule[1..]);
    }
  }

  // The indices given out, in the order of the fetches.
  function Claims(c: Codec, files: seq<Entry>, p: Pool, schedule: seq<nat>): seq<nat>
    requires Shaped(files, p) && Schedule(|p.workers|, schedule)
    decreases |schedule|
  {
    if schedule == [] then []
    else
      (if p.workers[schedule[0]].Ready? then [p.next] else []) +
        Claims(c, files, Step(c, files, p, schedule[0]), schedule[1..])
  }

  /** The counter gives out each number once, in order, whoever asks. */
  lemma {:induction false} ClaimedOnce(c: Codec, files: seq<Entry>, p: Pool, schedule: seq<nat>)
    requires Shaped(files, p) && Schedule(|p.workers|, schedule)
    ensures |Claims(c, files, p, schedule)| == Run(c, files, p, schedule).next - p.next
    ensures forall k :: 0 <= k < |Claims(c, files, p, schedule)| ==> Claims(c, files, p, schedule)[k] == p.next + k
    decreases |schedule|
  {
    if schedule != [] {
      ClaimedOnce(c, files, Step(c, files, p, schedule[0]), schedule[1..]);
    }
  }

  lemma FinishedIsSequential(c: Codec, files: seq<Entry>, p: Pool)
    requires Safe(c, files, p) && AllFinished(p) && p.workers != []
    ensures p.comp == Sequential(c, files)
  {
    assert p.workers[0].Finished?;
    forall i | 0 <= i < |files| ensures p.comp[i] == c.zip(files[i].data) {
      assert Held(p, i) || Written(c, files, p, i);
    }
  }

  /** However the workers interleave, when all have finished the slots are those of the plain loop. */
  lemma ParallelIsSequential(c: Codec, files: seq<Entry>, workers: nat, schedule: seq<nat>)
    requires workers > 0 && Schedule(workers, schedule)
    requires AllFinished(Run(c, files, Start(files, workers), schedule))
    ensures Run(c, files, Start(files, workers), schedule).comp == Sequential(c, files)
  {
    StartSafe(c, files, workers);
    RunSafe(c, files, Start(files, workers), schedule);
    FinishedIsSequential(c, files, Run(c, files, Start(files, workers), schedule));
  }

  // ---- Every worker finishes ----

  function Left(w: Worker): nat {
    match w
    case Ready => 1
    case Holding(_) => 2
    case Finished => 0
  }

  function LeftOf(ws: seq<Worker>): nat {
    if ws == [] then 0 else Left(ws[0]) + LeftOf(ws[1..])
  }

  lemma {:induction false} LeftUpdated(ws: seq<Worker>, t: nat, w: Worker)
    requires t < |ws|
    ensures LeftOf(ws[t := w]) == LeftOf(ws) - Left(ws[t]) + Left(w)
  {
    if t > 0 {
      LeftUpdated(ws[1..], t - 1, w);
      assert ws[t := w][1..] == ws[1..][t - 1 := w];
    } else {
      assert ws[0 := w][1..] == ws[1..];
    }
  }

  // The actions still to come.
  function Work(files: seq<Entry>, p: Pool): nat {
    2 * (if p.next < |files| then |files| - p.next else 0) + LeftOf(p.workers)
  }

  /** Each action of a worker that has not finished is one of a number fixed at the start. */
  lemma StepProgress(c: Codec, files: seq<Entry>, p: Pool, t: nat)
    requires Shaped(files, p) && t < |p.workers| && !p.workers[t].Finished?
    ensures Work(files, Step(c, files, p, t)) == Work(files, p) - 1
  {
    LeftUpdated(p.workers, t, Step(c, files, p, t).workers[t]);
  }

  lemma {:induction false} StartWork(files: seq<Entry>, workers: nat)
    ensures Work(files, Start(files, workers)) == 2 * |files| + workers
  {
    AllReady(workers);
  }

  lemma {:induction false} AllReady(workers: nat)
    ensures LeftOf(seq(workers, _ => Ready)) == workers
  {
    if workers > 0 {
      AllReady(workers - 1);
      assert seq(workers, _ => Ready)[1..] == seq(workers - 1, _ => Ready);
    }
  }

  class Archiver {
    const codec: Codec
    const files: seq<Entry>
    var next: nat
    var workers: seq<Worker>
    var comp: seq<Bytes>

    ghost function View(): Pool
      reads this
    {
      Pool(next, workers, comp)
    }

    constructor (codec: Codec, files: seq<Entry>)
      ensures this.codec == codec && this.files == files && |comp| == |files|
    {
      this.codec, this.files := codec, files;
      next, workers, comp := 0, [], seq(|files|, _ => []);
    }

    method FetchAdd() returns (i: nat)
      modifies this`next
      ensures i == old(next) && next == old(next) + 1
    {
      i := next;
      next := next + 1;
    }

    // What worker t does between two moments at which another may act.
    method Act(t: nat)
      requires Shaped(files, View()) && t < |workers|
      modifies this
      ensures View() == Step(codec, files, old(View()), t)
    {
      match workers[t] {
        case Ready =>
          var i := FetchAdd();
          workers := workers[t := if i < |files| then Holding(i) else Finished];
        case Holding(i) =>
          comp := comp[i := codec.zip(files[i].data)];
          workers := workers[t := Ready];
        case Finished =>
      }
    }

    // The pool, with any unfinished worker acting next, until all are joined.
    method Parallel(hw: nat)
      requires |files| > 1 && |comp| == |files|
      modifies this
      ensures comp == Sequential(codec, files)
    {
      var nt := if hw > 0 then (if hw < |files| then hw else |files|) else 1;
      next, workers, comp := 0, seq(nt, _ => Ready), seq(|files|, _ => []);
      assert View() == Start(files, nt);
      StartSafe(codec, files, nt);
      while !forall t :: 0 <= t < |workers| ==> workers[t].Finished?
        invariant Safe(codec, files, View()) && |workers| == nt
        decreases Work(files, View())
      {
        var t :| 0 <= t < |workers| && !workers[t].Finished?;
        StepSafe(codec, files, View(), t);
        StepProgress(codec, files, View(), t);
        Act(t);
      }
      FinishedIsSequential(codec, files, View());
    }

    method OneByOne()
      requires |comp| == |files|
      modifies this`comp
      ensures comp == Sequential(codec, files)
    {
      for i := 0 to |files|
        invariant |comp| == |files| && forall k :: 0 <= k < i ==> comp[k] == codec.zip(files[k].data)
      {
        comp := comp[i := codec.zip(files[i].data)];
      }
    }
  }

  // ---- The archive ----

  const MAGIC: Bytes := [65, 67, 90, 50]

  // One file: its path, the two sizes, the compressed bytes.
  function PutRecord(path: Text, size: nat, z: Bytes): Bytes {
    Put32(Low32(|path|)) + (path + (Put32(Low32(size)) + (Put32(Low32(|z|)) + z)))
  }

  function PutRecords(files: seq<Entry>, comp: seq<Bytes>): Bytes
    requires |comp| == |files|
  {
    if files == [] then []
    else PutRecord(files[0].path, |files[0].data|, comp[0]) + PutRecords(files[1..], comp[1..])
  }

  function Archive(files: seq<Entry>, comp: seq<Bytes>): Bytes
    requires |comp| == |files|
  {
    MAGIC + (Put32(Low32(|files|)) + PutRecords(files, comp))
  }

  datatype Error = NotAnArchive | Truncated | Undecodable | SizeMismatch(path: Text)

  // The files taken out, and what stopped the reader, if anything.
  datatype Outcome = Outcome(files: seq<Entry>, error: Option<Error>)

  datatype Record = Record(path: Text, size: Word32, z: Bytes)

  function GetRecord(b: Bytes): Got<Record> {
    var (n, r1) :- Get32(b);
    var (path, r2) :- Take(n, r1);
    var (size, r3) :- Get32(r2);
    var (m, r4) :- Get32(r3);
    var (z, r5) :- Take(m, r4);
    Got(Record(path, size, z), r5)
  }

  datatype Unpacked = File(entry: Entry) | Bad(error: Error)

  // A stored size of 0 is not compared with anything.
  function Unpack(c: Codec, r: Record): Unpacked {
    match c.unzip(r.z)
    case None => Bad(Undecodable)
    case Some(d) => if r.size != 0 && |d| != r.size then Bad(SizeMismatch(r.path)) else File(Entry(r.path, d))
  }

  datatype Fetched = Fetched(file: Unpacked, rest: Bytes)

  function GetFile(c: Codec, b: Bytes): Fetched {
    match GetRecord(b)
    case Ran => Fetched(Bad(Truncated), [])
    case Got(r, rest) => Fetched(Unpack(c, r), rest)
  }

  function FilesOf(c: Codec): Bytes -> Fetched {
    b => GetFile(c, b)
  }

  // n files, after those already out, up to the first that cannot be had.
  function Collect(fetch: Bytes -> Fetched, n: nat, out: seq<Entry>, b: Bytes): Outcome {
    if n == 0 then Outcome(out, None)
    else
      match fetch(b).file
      case Bad(e) => Outcome(out, Some(e))
      case File(f) => Collect(fetch, n - 1, out + [f], fetch(b).rest)
  }

  function Decompressed(c: Codec, data: Bytes): Outcome {
    if |data| < 8 || data[..4] != MAGIC then Outcome([], Some(NotAnArchive))
    else
      match Get32(data[4..])
      case Ran => Outcome([], Some(Truncated))
      case Got(n, rest) => Collect(FilesOf(c), n, [], rest)
  }

  // The fields of the record can say these lengths.
  predicate Framed(c: Codec, e: Entry) {
    |e.path| < 0x1_0000_0000 && |c.zip(e.data)| < 0x1_0000_0000
  }

  // The stored size is the file's own, or 0.
  predicate SizeKept(e: Entry) {
    Low32(|e.data|) == |e.data| || Low32(|e.data|) == 0
  }

  function FirstLost(files: seq<Entry>): (k: nat)
    ensures k <= |files| && (forall i :: 0 <= i < k ==> SizeKept(files[i])) && (k < |files| ==> !SizeKept(files[k]))
  {
    if files == [] || !SizeKept(files[0]) then 0 else 1 + FirstLost(files[1..])
  }

  lemma BackRecord(path: Text, size: nat, z: Bytes, rest: Bytes)
    requires |path| < 0x1_0000_0000 && |z| < 0x1_0000_0000
    ensures GetRecord(PutRecord(path, size, z) + rest) == Got(Record(path, Low32(size), z), rest)
  {
    var n, s, m := Put32(Low32(|path|)), Put32(Low32(size)), Put32(Low32(|z|));
    Tail5(n, path, s, m, z, rest);
    Back32(Low32(|path|), path + (s + (m + (z + rest))));
    TakeFront(path, s + (m + (z + rest)));
    Back32(Low32(size), m + (z + rest));
    Back32(Low32(|z|), z + rest);
    TakeFront(z, rest);
  }

  /** A record in the bytes of an archive, whatever stands in its size field: the reader takes its file out and goes on
      with the next record when the field is 0 or the file's length, and otherwise stops there, naming the file. */
  lemma SizeChecked(c: Codec, e: Entry, size: nat, n: nat, out: seq<Entry>, rest: Bytes)
    requires Inverts(c) && Framed(c, e)
    ensures Collect(FilesOf(c), n + 1, out, PutRecord(e.path, size, c.zip(e.data)) + rest) ==
      if Low32(size) == 0 || Low32(size) == |e.data| then Collect(FilesOf(c), n, out + [e], rest)
      else Outcome(out, Some(SizeMismatch(e.path)))
  {
    BackRecord(e.path, size, c.zip(e.data), rest);
    assert c.unzip(c.zip(e.data)) == Some(e.data);
  }

  // Records with anything in their fields, as bytes.
  function RecordBytes(rs: seq<Record>): Bytes {
    if rs == [] then [] else PutRecord(rs[0].path, rs[0].size, rs[0].z) + RecordBytes(rs[1..])
  }

  // The record's data decompresses, to the stored size unless that is 0.
  predicate Sound(c: Codec, r: Record) {
    c.unzip(r.z).Some? && (r.size == 0 || |c.unzip(r.z).value| == r.size)
  }

  function EntryOf(c: Codec, r: Record): Entry
    requires Sound(c, r)
  {
    Entry(r.path, c.unzip(r.z).value)
  }

  predicate Fits(r: Record) {
    |r.path| < 0x1_0000_0000 && |r.z| < 0x1_0000_0000
  }

  // What is wrong with a record that is not sound.
  function Fault(c: Codec, r: Record): Error {
    if c.unzip(r.z).None? then Undecodable else SizeMismatch(r.path)
  }

  // The reader took out the first k records, and o says what stopped it: record k, or bytes that end too early.
  predicate StoppedAt(c: Codec, rs: seq<Record>, n: nat, out: seq<Entry>, o: Outcome, k: nat) {
    && k <= |rs| && (forall i :: 0 <= i < k ==> Sound(c, rs[i]))
    && o.files == out + seq(k, i requires 0 <= i < k => EntryOf(c, rs[i]))
    && if k < |rs| then !Sound(c, rs[k]) && o.error == Some(Fault(c, rs[k]))
       else o.error == if |rs| < n then Some(Truncated) else None
  }

  lemma StoppedLater(c: Codec, r: Record, others: seq<Record>, n: nat, out: seq<Entry>, o: Outcome, k: nat)
    requires Sound(c, r) && StoppedAt(c, others, n, out + [EntryOf(c, r)], o, k)
    ensures StoppedAt(c, [r] + others, n + 1, out, o, k + 1)
  {
    var rs := [r] + others;
    var files := seq(k + 1, i requires 0 <= i < k + 1 => if i == 0 then EntryOf(c, r) else EntryOf(c, others[i - 1]));
    assert o.files == out + files;
    forall i | 0 <= i < k + 1 ensures Sound(c, rs[i]) && files[i] == EntryOf(c, rs[i]) {
      assert rs[i] == if i == 0 then r else others[i - 1];
    }
    assert files == seq(k + 1, i requires 0 <= i < k + 1 => EntryOf(c, rs[i]));
  }

  lemma StoppedFirst(c: Codec, r: Record, others: seq<Record>, n: nat, out: seq<Entry>, o: Outcome)
    requires !Sound(c, r) && o == Outcome(out, Some(Fault(c, r)))
    ensures StoppedAt(c, [r] + others, n, out, o, 0)
  {
    assert out + [] == out;
  }

  // No more records in the bytes.
  lemma NoRecord(c: Codec, fetch: Bytes -> Fetched, n: nat, tail: Bytes, out: seq<Entry>)
    requires Fetches(c, fetch) && (n > 0 ==> GetRecord(tail).Ran?)
    ensures StoppedAt(c, [], n, out, Collect(fetch, n, out, tail), 0)
  {
    assert FetchesAt(c, fetch, tail);
    assert out + [] == out;
  }

  lemma FirstRecord(c: Codec, fetch: Bytes -> Fetched, r: Record, n: nat, rest: Bytes, out: seq<Entry>)
    requires Fetches(c, fetch) && Fits(r) && n > 0
    ensures Collect(fetch, n, out, PutRecord(r.path, r.size, r.z) + rest) ==
      if Sound(c, r) then Collect(fetch, n - 1, out + [EntryOf(c, r)], rest) else Outcome(out, Some(Fault(c, r)))
  {
    assert FetchesAt(c, fetch, PutRecord(r.path, r.size, r.z) + rest);
    BackRecord(r.path, r.size, r.z, rest);
  }

  lemma RecordsSplit(r: Record, others: seq<Record>, tail: Bytes)
    ensures RecordBytes([r] + others) + tail == PutRecord(r.path, r.size, r.z) + (RecordBytes(others) + tail)
  {
    assert ([r] + others)[1..] == others;
    Assoc(PutRecord(r.path, r.size, r.z), RecordBytes(others), tail);
  }

  // b holds these records, and what comes to o is reading it.
  ghost predicate Reading(fetch: Bytes -> Fetched, rs: seq<Record>, n: nat, tail: Bytes, out: seq<Entry>, o: Outcome) {
    Collect(fetch, n, out, RecordBytes(rs) + tail) == o
  }

  lemma ReadingOn(c: Codec, fetch: Bytes -> Fetched, r: Record, others: seq<Record>, n: nat, tail: Bytes,
                  out: seq<Entry>, o: Outcome)
    requires Fetches(c, fetch) && Fits(r) && n > 0 && Reading(fetch, [r] + others, n, tail, out, o)
    ensures if Sound(c, r) then Reading(fetch, others, n - 1, tail, out + [EntryOf(c, r)], o)
            else o == Outcome(out, Some(Fault(c, r)))
  {
    RecordsSplit(r, others, tail);
    FirstRecord(c, fetch, r, n, RecordBytes(others) + tail, out);
  }

  /** Reading any records with any codec, one that does not invert included, when n are announced: the reader takes out
      the files in front of the first record that does not decompress, or not to its size, and says what is wrong with
      that one; past them it misses the records that the bytes do not hold. */
  lemma {:induction false} ReadsRecords(c: Codec, fetch: Bytes -> Fetched, rs: seq<Record>, n: nat, tail: Bytes,
                                        out: seq<Entry>, o: Outcome) returns (k: nat)
    requires Fetches(c, fetch) && |rs| <= n && (|rs| < n ==> GetRecord(tail).Ran?) && forall r :: r in rs ==> Fits(r)
    requires Reading(fetch, rs, n, tail, out, o)
    ensures StoppedAt(c, rs, n, out, o, k)
    decreases |rs|
  {
    k := 0;
    if rs == [] {
      assert RecordBytes(rs) + tail == tail;
      NoRecord(c, fetch, n, tail, out);
    } else {
      var r, others := rs[0], rs[1..];
      assert rs == [r] + others;
      ReadingOn(c, fetch, r, others, n, tail, out, o);
      if Sound(c, r) {
        k := ReadsRecords(c, fetch, others, n - 1, tail, out + [EntryOf(c, r)], o);
        StoppedLater(c, r, others, n - 1, out, o, k);
        k := k + 1;
      } else {
        StoppedFirst(c, r, others, n, out, o);
      }
    }
  }

  ghost predicate FetchesAt(c: Codec, fetch: Bytes -> Fetched, b: Bytes) {
    fetch(b) == GetFile(c, b)
  }

  ghost predicate Fetches(c: Codec, fetch: Bytes -> Fetched) {
    forall b :: FetchesAt(c, fetch, b)
  }

  /** An archive with anything in its records, read with any codec. */
  lemma DamagedArchive(c: Codec, rs: seq<Record>, n: Word32, tail: Bytes) returns (k: nat)
    requires |rs| <= n && (|rs| < n ==> GetRecord(tail).Ran?) && forall r :: r in rs ==> Fits(r)
    ensures StoppedAt(c, rs, n, [], Decompressed(c, MAGIC + (Put32(n) + (RecordBytes(rs) + tail))), k)
  {
    CountFirst(c, n, RecordBytes(rs) + tail);
    var fetch := FilesOf(c);
    assert Fetches(c, fetch);
    k := ReadsRecords(c, fetch, rs, n, tail, [], Collect(fetch, n, [], RecordBytes(rs) + tail));
  }

  // What reading these files back gives, after those already out.
  function Back(files: seq<Entry>, out: seq<Entry>): Outcome {
    var k := FirstLost(files);
    Outcome(out + files[..k], if k < |files| then Some(SizeMismatch(files[k].path)) else None)
  }

  lemma BackStep(e: Entry, others: seq<Entry>, out: seq<Entry>)
    ensures Back([], out) == Outcome(out, None)
    ensures Back([e] + others, out) == if SizeKept(e) then Back(others, out + [e])
      else Outcome(out, Some(SizeMismatch(e.path)))
  {
    var files, k := [e] + others, FirstLost(others);
    assert files[1..] == others && out + [] == out;
    assert FirstLost(files) == if SizeKept(e) then k + 1 else 0;
    assert out + [e] + others[..k] == out + files[..k + 1];
    assert out + files[..0] == out;
  }

  lemma RecordsStep(c: Codec, e: Entry, others: seq<Entry>)
    ensures PutRecords([e] + others, Sequential(c, [e] + others)) ==
      PutRecord(e.path, |e.data|, c.zip(e.data)) + PutRecords(others, Sequential(c, others))
  {
    var files := [e] + others;
    assert files[1..] == others;
    assert Sequential(c, files)[1..] == Sequential(c, others);
  }

  lemma {:induction false} BackFiles(c: Codec, files: seq<Entry>, out: seq<Entry>)
    requires Inverts(c) && forall e :: e in files ==> Framed(c, e)
    ensures Collect(FilesOf(c), |files|, out, PutRecords(files, Sequential(c, files))) == Back(files, out)
    decreases |files|
  {
    if files == [] {
      BackStep(Entry([], []), [], out);
    } else {
      var e, others := files[0], files[1..];
      assert files == [e] + others;
      var rest := PutRecords(others, Sequential(c, others));
      RecordsStep(c, e, others);
      SizeChecked(c, e, |e.data|, |others|, out, rest);
      BackStep(e, others, out);
      BackFiles(c, others, out + [e]);
    }
  }

  lemma CountFirst(c: Codec, n: Word32, body: Bytes)
    ensures Decompressed(c, MAGIC + (Put32(n) + body)) == Collect(FilesOf(c), n, [], body)
  {
    var data := MAGIC + (Put32(n) + body);
    TakeFront(MAGIC, Put32(n) + body);
    assert data[..4] == MAGIC && data[4..] == Put32(n) + body;
    Back32(n, body);
  }

  /** What was archived by any pool of workers is read back, up to the first file whose stored size is neither its own
      nor 0. */
  lemma ReadsBack(c: Codec, files: seq<Entry>, workers: nat, schedule: seq<nat>)
    requires Inverts(c) && |files| < 0x1_0000_0000 && forall e :: e in files ==> Framed(c, e)
    requires workers > 0 && Schedule(workers, schedule) && AllFinished(Run(c, files, Start(files, workers), schedule))
    ensures var k := FirstLost(files);
      Decompressed(c, Archive(files, Run(c, files, Start(files, workers), schedule).comp)) ==
      Outcome(files[..k], if k < |files| then Some(SizeMismatch(files[k].path)) else None)
  {
    ParallelIsSequential(c, files, workers, schedule);
    CountFirst(c, Low32(|files|), PutRecords(files, Sequential(c, files)));
    BackFiles(c, files, []);
    assert [] + files[..FirstLost(files)] == files[..FirstLost(files)];
  }

  // ---- Framing and reading as loops ----

  lemma RecordsFrom(files: seq<Entry>, comp: seq<Bytes>, i: nat, out: Bytes)
    requires |comp| == |files| && i < |files|
    ensures out + PutRecords(files[i..], comp[i..]) ==
      (out + PutRecord(files[i].path, |files[i].data|, comp[i])) + PutRecords(files[i + 1..], comp[i + 1..])
  {
    assert files[i..][1..] == files[i + 1..] && comp[i..][1..] == comp[i + 1..];
    Assoc(out, PutRecord(files[i].path, |files[i].data|, comp[i]), PutRecords(files[i + 1..], comp[i + 1..]));
  }

  method WriteRecord(w: Writer, e: Entry, z: Bytes)
    modifies w
    ensures w.out == old(w.out) + PutRecord(e.path, |e.data|, z)
  {
    w.Write(Put32(Low32(|e.path|)));
    w.Write(e.path);
    w.Write(Put32(Low32(|e.data|)));
    w.Write(Put32(Low32(|z|)));
    w.Write(z);
    InOrder5(old(w.out), Put32(Low32(|e.path|)), e.path, Put32(Low32(|e.data|)), Put32(Low32(|z|)), z);
  }

  method WriteRecords(w: Writer, files: seq<Entry>, comp: seq<Bytes>)
    requires |comp| == |files|
    modifies w
    ensures w.out == old(w.out) + PutRecords(files, comp)
  {
    assert files[0..] == files && comp[0..] == comp;
    for i := 0 to |files|
      invariant w.out + PutRecords(files[i..], comp[i..]) == old(w.out) + PutRecords(files, comp)
    {
      RecordsFrom(files, comp, i, w.out);
      WriteRecord(w, files[i], comp[i]);
    }
    NoTail(w.out);
  }

  method CompressAll(c: Codec, files: seq<Entry>, parallel: bool, hw: nat) returns (comp: seq<Bytes>)
    ensures comp == Sequential(c, files)
  {
    var a := new Archiver(c, files);
    if parallel && |files| > 1 {
      a.Parallel(hw);
    } else {
      a.OneByOne();
    }
    comp := a.comp;
  }

  // Compresses in parallel when asked to and there is more than one file; the bytes are the same either way.
  method Compress(c: Codec, files: seq<Entry>, parallel: bool, hw: nat) returns (data: Bytes)
    ensures data == Archive(files, Sequential(c, files))
  {
    var comp := CompressAll(c, files, parallel, hw);
    var w := new Writer();
    w.Write(MAGIC);
    w.Write(Put32(Low32(|files|)));
    WriteRecords(w, files, comp);
    data := w.out;
    Assoc(MAGIC, Put32(Low32(|files|)), PutRecords(files, comp));
  }

  // n bytes at pos, or not enough of them.
  method Need(data: Bytes, pos: nat, n: nat) returns (ok: bool, b: Bytes, after: nat)
    requires pos <= |data|
    ensures after <= |data|
    ensures match Take(n, data[pos..]) case Ran => !ok case Got(x, rest) => ok && b == x && rest == data[after..]
  {
    ok := pos + n <= |data|;
    b, after := [], pos;
    if ok {
      b, after := data[pos..pos + n], pos + n;
      assert data[pos..][..n] == b && data[pos..][n..] == data[after..];
    }
  }

  method Rd32(data: Bytes, pos: nat) returns (ok: bool, v: Word32, after: nat)
    requires pos <= |data|
    ensures after <= |data|
    ensures match Get32(data[pos..]) case Ran => !ok case Got(x, rest) => ok && v == x && rest == data[after..]
  {
    var b;
    ok, b, after := Need(data, pos, 4);
    v := 0;
    if ok {
      Spans();
      v := UnLe(b);
    }
  }

  method ReadRecord(data: Bytes, pos: nat) returns (ok: bool, r: Record, after: nat)
    requires pos <= |data|
    ensures after <= |data|
    ensures match GetRecord(data[pos..]) case Ran => !ok case Got(x, rest) => ok && r == x && rest == data[after..]
  {
    r := Record([], 0, []);
    var n, path, size, m, z;
    ok, n, after := Rd32(data, pos);
    if !ok { return; }
    ok, path, after := Need(data, after, n);
    if !ok { return; }
    ok, size, after := Rd32(data, after);
    if !ok { return; }
    ok, m, after := Rd32(data, after);
    if !ok { return; }
    ok, z, after := Need(data, after, m);
    r := Record(path, size, z);
  }

  method ReadFile(c: Codec, ghost fetch: Bytes -> Fetched, data: Bytes, pos: nat) returns (file: Unpacked, after: nat)
    requires pos <= |data| && Fetches(c, fetch)
    ensures after <= |data| && file == fetch(data[pos..]).file
    ensures file.File? ==> data[after..] == fetch(data[pos..]).rest
  {
    assert FetchesAt(c, fetch, data[pos..]);
    var ok, r;
    ok, r, after := ReadRecord(data, pos);
    file := if ok then Unpack(c, r) else Bad(Truncated);
  }

  method ReadFiles(c: Codec, ghost fetch: Bytes -> Fetched, count: nat, data: Bytes, start: nat)
    returns (outcome: Outcome)
    requires start <= |data| && Fetches(c, fetch)
    ensures outcome == Collect(fetch, count, [], data[start..])
  {
    var pos: nat := start;
    var out: seq<Entry> := [];
    for i := 0 to count
      invariant pos <= |data|
      invariant Collect(fetch, count - i, out, data[pos..]) == Collect(fetch, count, [], data[start..])
    {
      var file, after := ReadFile(c, fetch, data, pos);
      if file.Bad? {
        return Outcome(out, Some(file.error));
      }
      out := out + [file.entry];
      pos := after;
    }
    outcome := Outcome(out, None);
  }

  method Decompress(c: Codec, data: Bytes) returns (outcome: Outcome)
    ensures outcome == Decompressed(c, data)
  {
    if |data| < 8 || data[..4] != MAGIC {
      return Outcome([], Some(NotAnArchive));
    }
    var ok, count, pos := Rd32(data, 4);
    if !ok {
      return Outcome([], Some(Truncated));
    }
    assert forall b :: FetchesAt(c, FilesOf(c), b);
    outcome := ReadFiles(c, FilesOf(c), count, data, pos);
  }
}
