/** Chunked file transfer in packages/sync/src/engine.ts, receiver and sender, with a reload
    of the receiver possible between any two database writes. */
module FileTransfer {
  import opened Wrappers

  const FILE_CHUNK_SIZE_B64: nat := 200_000

  type FileId = nat
  /** The metadata that travels with chunk 0, as one value. */
  type Meta = nat

  datatype File = File(dataB64: string, meta: Meta)
  datatype Payload = Payload(fileId: FileId, index: nat, total: nat, data: string, meta: Option<Meta>)

  // ------------------------------------------------------------ cutting a file

  function TotalChunks(size: nat): nat { (size + FILE_CHUNK_SIZE_B64 - 1) / FILE_CHUNK_SIZE_B64 }

  function ChunkEnd(size: nat, i: nat): nat {
    if (i + 1) * FILE_CHUNK_SIZE_B64 <= size then (i + 1) * FILE_CHUNK_SIZE_B64 else size
  }

  function Chunk(data: string, i: nat): string
    requires i < TotalChunks(|data|)
  {
    data[i * FILE_CHUNK_SIZE_B64..ChunkEnd(|data|, i)]
  }

  function ChunkPayload(fileId: FileId, f: File, i: nat): Payload
    requires i < TotalChunks(|f.dataB64|)
  {
    Payload(fileId, i, TotalChunks(|f.dataB64|), Chunk(f.dataB64, i), if i == 0 then Some(f.meta) else None)
  }

  /** The concatenation of the first n chunks. */
  function Joined(data: string, n: nat): string
    requires n <= TotalChunks(|data|)
  {
    if n == 0 then "" else Joined(data, n - 1) + Chunk(data, n - 1)
  }

  lemma {:induction false} JoinedIsPrefix(data: string, n: nat)
    requires n <= TotalChunks(|data|)
    ensures Joined(data, n) == data[..if n * FILE_CHUNK_SIZE_B64 <= |data| then n * FILE_CHUNK_SIZE_B64 else |data|]
  {
    if n > 0 { JoinedIsPrefix(data, n - 1); }
  }

  lemma JoinedAll(data: string)
    ensures Joined(data, TotalChunks(|data|)) == data
  {
    JoinedIsPrefix(data, TotalChunks(|data|));
  }

  // ------------------------------------------------------------ receiver state

  /** An in-memory reassembly buffer. */
  datatype Entry = Entry(total: nat, chunks: map<nat, string>, meta: Option<Meta>)
  /** A row of the durable fileChunks table. */
  datatype Row = Row(total: nat, data: string, meta: Option<Meta>)
  datatype FileObject = FileObject(dataB64: string, meta: Meta)

  type Table = map<(FileId, nat), Row>

  /** Where the receiver is between two writes. */
  datatype Pc =
    | Down
    | Idle
    | Buffered(p: Payload, isNew: bool)
    | Stored(p: Payload)
    | Acked(fileId: FileId)
    | Put(fileId: FileId)
    | Finishing(files: set<FileId>)
    | FinishPut(fileId: FileId, files: set<FileId>)

  /** `everPut` is history: the files ever materialised.  `acks` are the acks ever sent. */
  datatype Receiver = Receiver(mem: map<FileId, Entry>, table: Table, objects: map<FileId, FileObject>,
                               everPut: set<FileId>, acks: set<(FileId, nat)>, pc: Pc)

  predicate Complete(e: Entry) { |e.chunks| == e.total && e.meta.Some? }

  /** The assembly loop's result: chunk by chunk, "" for a missing one. */
  function Assembled(e: Entry, n: nat): string {
    if n == 0 then "" else Assembled(e, n - 1) + (if n - 1 in e.chunks then e.chunks[n - 1] else "")
  }

  predicate HasChunk(mem: map<FileId, Entry>, f: FileId, i: nat) { f in mem && i in mem[f].chunks }

  function WithChunk(mem: map<FileId, Entry>, p: Payload): map<FileId, Entry> {
    var e := if p.fileId in mem then mem[p.fileId] else Entry(p.total, map[], None);
    mem[p.fileId := Entry(e.total, e.chunks[p.index := p.data], if p.meta.Some? then p.meta else e.meta)]
  }

  /** The table without a file's rows. */
  function Without(table: Table, f: FileId): Table { map k | k in table.Keys && k.0 != f :: table[k] }

  /** Materialising: put only when the object is not there. */
  function PutObject(r: Receiver, f: FileId): Receiver {
    if f in r.objects || f !in r.mem || r.mem[f].meta.None? then r
    else
      var e := r.mem[f];
      r.(objects := r.objects[f := FileObject(Assembled(e, e.total), e.meta.value)], everPut := r.everPut + {f})
  }

  /** Both buffers of a file dropped. */
  function Forget(r: Receiver, f: FileId): Receiver {
    r.(mem := r.mem - {f}, table := Without(r.table, f))
  }

  // ------------------------------------------------------------ receiver steps

  datatype Event =
    | Receive(p: Payload)
    | Step
    | FinishNext(fileId: FileId)
    | Crash
    | Start(mem: map<FileId, Entry>)
    | Delete(fileId: FileId)

  /** The write that follows `pc`, when there is just one. */
  function Stepped(r: Receiver): Receiver {
    match r.pc
    case Buffered(p, isNew) =>
      r.(table := if isNew then r.table[(p.fileId, p.index) := Row(p.total, p.data, p.meta)] else r.table,
         pc := Stored(p))
    case Stored(p) => r.(acks := r.acks + {(p.fileId, p.index)}, pc := Acked(p.fileId))
    case Acked(f) =>
      if f in r.mem && Complete(r.mem[f]) then PutObject(r, f).(pc := Put(f)) else r.(pc := Idle)
    case Put(f) => Forget(r, f).(pc := Idle)
    case Finishing(files) => if files == {} then r.(pc := Idle) else r
    case FinishPut(f, files) => Forget(r, f).(pc := Finishing(files))
    case _ => r
  }

  function Buffering(r: Receiver, p: Payload): Receiver {
    r.(mem := WithChunk(r.mem, p), pc := Buffered(p, !HasChunk(r.mem, p.fileId, p.index)))
  }

  function FinishFile(r: Receiver, f: FileId): Receiver
    requires r.pc.Finishing?
  {
    var files := r.pc.files - {f};
    if f in r.mem && Complete(r.mem[f]) then PutObject(r, f).(pc := FinishPut(f, files)) else r.(pc := Finishing(files))
  }

  /** One file's buffer as rehydrateIncomingChunks builds it: total from some row, metadata
      from some row that has it. */
  ghost predicate Rehydrates(table: Table, f: FileId, e: Entry) {
    && (forall i :: i in e.chunks <==> (f, i) in table)
    && (forall i :: i in e.chunks ==> e.chunks[i] == table[(f, i)].data)
    && (exists i :: i in e.chunks && e.total == table[(f, i)].total)
    && (e.meta.Some? ==> exists i :: i in e.chunks && e.meta == table[(f, i)].meta)
    && (e.meta.None? ==> forall i :: i in e.chunks ==> table[(f, i)].meta.None?)
  }

  ghost predicate RehydratedFrom(table: Table, mem: map<FileId, Entry>) {
    && (forall f :: f in mem ==> Rehydrates(table, f, mem[f]))
    && (forall k :: k in table ==> k.0 in mem)
  }

  ghost predicate Next(r: Receiver, ev: Event, r': Receiver) {
    match ev
    case Receive(p) => r.pc.Idle? && r' == Buffering(r, p)
    case Step => r' == Stepped(r)
    case FinishNext(f) => r.pc.Finishing? && f in r.pc.files && r' == FinishFile(r, f)
    case Crash => r' == r.(mem := map[], pc := Down)
    case Start(mem) => r.pc.Down? && RehydratedFrom(r.table, mem) && r' == r.(mem := mem, pc := Finishing(mem.Keys))
    case Delete(f) => r' == r.(objects := r.objects - {f})
  }

  // ------------------------------------------------------------ the invariant

  type Files = map<FileId, File>

  predicate Honest(files: Files, p: Payload) {
    p.fileId in files && p.index < TotalChunks(|files[p.fileId].dataB64|) &&
      p == ChunkPayload(p.fileId, files[p.fileId], p.index)
  }

  predicate RowHonest(files: Files, f: FileId, i: nat, row: Row) {
    && f in files && i < TotalChunks(|files[f].dataB64|)
    && row == Row(TotalChunks(|files[f].dataB64|), Chunk(files[f].dataB64, i),
                  if i == 0 then Some(files[f].meta) else None)
  }

  predicate ChunkHonest(file: File, e: Entry, i: nat)
    requires i in e.chunks
  {
    i < TotalChunks(|file.dataB64|) && e.chunks[i] == Chunk(file.dataB64, i)
  }

  ghost predicate EntryHonest(files: Files, f: FileId, e: Entry) {
    && f in files && e.total == TotalChunks(|files[f].dataB64|)
    && e.chunks != map[]
    && (forall i :: i in e.chunks ==> ChunkHonest(files[f], e, i))
    && e.meta == (if 0 in e.chunks then Some(files[f].meta) else None)
  }

  ghost predicate TableHonest(files: Files, table: Table) {
    forall f: nat, i: nat :: (f, i) in table ==> RowHonest(files, f, i, table[(f, i)])
  }

  ghost predicate MemHonest(files: Files, mem: map<FileId, Entry>) {
    forall f :: f in mem ==> EntryHonest(files, f, mem[f])
  }

  /** The one chunk that is in memory but not yet in the table. */
  predicate Pending(pc: Pc, f: FileId, i: nat) { pc.Buffered? && pc.p.fileId == f && pc.p.index == i }

  /** Memory is the durable table, plus the chunk being written. */
  ghost predicate MemIsTable(r: Receiver) {
    if r.pc.Down? then r.mem == map[]
    else forall f: nat, i: nat :: HasChunk(r.mem, f, i) <==> (f, i) in r.table || Pending(r.pc, f, i)
  }

  /** Which file may be complete in memory without having been dealt with. */
  predicate MayBeComplete(pc: Pc, f: FileId) {
    match pc
    case Buffered(p, _) => f == p.fileId
    case Stored(p) => f == p.fileId
    case Acked(g) => f == g
    case Put(g) => f == g
    case Finishing(files) => f in files
    case FinishPut(g, files) => f == g || f in files
    case _ => false
  }

  ghost predicate PcSound(files: Files, r: Receiver) {
    match r.pc
    case Buffered(p, isNew) => Honest(files, p) && (isNew <==> (p.fileId, p.index) !in r.table)
    case Stored(p) => Honest(files, p) && (p.fileId, p.index) in r.table
    case Acked(f) => f in r.mem
    case Put(f) => f in r.everPut
    case FinishPut(f, _) => f in r.everPut
    case _ => true
  }

  predicate AckSound(files: Files, r: Receiver, f: FileId, i: nat) {
    f in files && i < TotalChunks(|files[f].dataB64|) && ((f, i) in r.table || f in r.everPut)
  }

  ghost predicate ObjectsOriginal(files: Files, r: Receiver) {
    && (forall f :: f in r.objects ==>
        f in r.everPut && f in files && r.objects[f] == FileObject(files[f].dataB64, files[f].meta))
    && (forall f :: f in r.everPut ==> f in files)
  }

  ghost predicate Inv(files: Files, r: Receiver) {
    && TableHonest(files, r.table)
    && MemHonest(files, r.mem)
    && MemIsTable(r)
    && ObjectsOriginal(files, r)
    && (forall f: nat, i: nat :: (f, i) in r.acks ==> AckSound(files, r, f, i))
    && PcSound(files, r)
    && (forall f :: f in r.mem && Complete(r.mem[f]) ==> MayBeComplete(r.pc, f))
  }

  /** What the channel may hand over, and what a user may do, at each step. */
  ghost predicate Allowed(files: Files, ev: Event) { ev.Receive? ==> Honest(files, ev.p) }

  function Fresh(): Receiver { Receiver(map[], map[], map[], {}, {}, Down) }

  // ------------------------------------------------------------ a complete buffer is the file

  /** A set of numbers below n has n elements exactly when it has them all. */
  lemma {:induction false} FullSet(s: set<nat>, n: nat)
    requires forall i :: i in s ==> i < n
    ensures |s| <= n
    ensures |s| == n <==> forall i: nat :: i < n ==> i in s
  {
    if n > 0 {
      var t := s - {n - 1};
      FullSet(t, n - 1);
      if n - 1 in s { assert s == t + {n - 1}; } else { assert s == t; }
      assert forall i: nat :: i < n - 1 ==> (i in s <==> i in t);
    } else {
      assert s == {};
    }
  }

  lemma CompleteHasAll(files: Files, f: FileId, e: Entry)
    requires EntryHonest(files, f, e)
    ensures Complete(e) <==> forall i: nat :: i < e.total ==> i in e.chunks
  {
    forall i | i in e.chunks.Keys ensures i < e.total { assert ChunkHonest(files[f], e, i); }
    FullSet(e.chunks.Keys, e.total);
    assert |e.chunks| == |e.chunks.Keys|;
    assert 0 < e.total by { var i :| i in e.chunks; assert ChunkHonest(files[f], e, i); }
  }

  lemma {:induction false} AssembledIsJoined(files: Files, f: FileId, e: Entry, n: nat)
    requires EntryHonest(files, f, e) && n <= e.total && forall i: nat :: i < e.total ==> i in e.chunks
    ensures Assembled(e, n) == Joined(files[f].dataB64, n)
  {
    if n > 0 {
      AssembledIsJoined(files, f, e, n - 1);
      assert ChunkHonest(files[f], e, n - 1);
    }
  }

  /** What a complete buffer materialises is the original file. */
  lemma CompleteIsOriginal(files: Files, f: FileId, e: Entry)
    requires EntryHonest(files, f, e) && Complete(e)
    ensures FileObject(Assembled(e, e.total), e.meta.value) == FileObject(files[f].dataB64, files[f].meta)
  {
    CompleteHasAll(files, f, e);
    AssembledIsJoined(files, f, e, e.total);
    JoinedAll(files[f].dataB64);
  }

  // ------------------------------------------------------------ every step keeps the invariant

  lemma BufferedEntry(files: Files, r: Receiver, p: Payload)
    requires MemHonest(files, r.mem) && Honest(files, p)
    ensures EntryHonest(files, p.fileId, WithChunk(r.mem, p)[p.fileId])
  {
    var e := WithChunk(r.mem, p)[p.fileId];
    forall i | i in e.chunks ensures ChunkHonest(files[p.fileId], e, i) {
      if i != p.index { assert HasChunk(r.mem, p.fileId, i) && ChunkHonest(files[p.fileId], r.mem[p.fileId], i); }
    }
    assert p.index in e.chunks;
  }

  lemma ReceiveKeepsInv(files: Files, r: Receiver, p: Payload)
    requires Inv(files, r) && r.pc.Idle? && Honest(files, p)
    ensures Inv(files, Buffering(r, p))
  {
    var b := Buffering(r, p);
    BufferedEntry(files, r, p);
    assert MemHonest(files, b.mem);
    assert MemIsTable(b) by {
      forall f: nat, i: nat ensures HasChunk(b.mem, f, i) <==> (f, i) in b.table || Pending(b.pc, f, i) {
        assert HasChunk(r.mem, f, i) <==> (f, i) in r.table || Pending(r.pc, f, i);
      }
    }
    assert HasChunk(r.mem, p.fileId, p.index) <==> (p.fileId, p.index) in r.table || Pending(r.pc, p.fileId, p.index);
  }

  lemma StepKeepsInv(files: Files, r: Receiver)
    requires Inv(files, r)
    ensures Inv(files, Stepped(r))
  {
    match r.pc
    case Buffered(p, isNew) => BufferedKeepsInv(files, r);
    case Stored(p) => StoredKeepsInv(files, r);
    case Acked(f) => if Complete(r.mem[f]) { PutKeepsInv(files, r, f, Put(f)); }
    case Put(f) => ForgetKeepsInv(files, r, f, Idle);
    case Finishing(fs) =>
    case FinishPut(f, fs) => ForgetKeepsInv(files, r, f, Finishing(fs));
    case _ =>
  }

  lemma StoredKeepsInv(files: Files, r: Receiver)
    requires Inv(files, r) && r.pc.Stored?
    ensures Inv(files, Stepped(r))
  {
    var b := Stepped(r);
    forall f: nat, i: nat | (f, i) in b.acks ensures AckSound(files, b, f, i) {
      if (f, i) in r.acks { assert AckSound(files, r, f, i); }
    }
    assert HasChunk(r.mem, r.pc.p.fileId, r.pc.p.index);
  }

  lemma BufferedKeepsInv(files: Files, r: Receiver)
    requires Inv(files, r) && r.pc.Buffered?
    ensures Inv(files, Stepped(r))
  {
    var p, b := r.pc.p, Stepped(r);
    forall f: nat, i: nat ensures HasChunk(b.mem, f, i) <==> (f, i) in b.table {
      assert HasChunk(r.mem, f, i) <==> (f, i) in r.table || Pending(r.pc, f, i);
    }
  }

  lemma PutKeepsInv(files: Files, r: Receiver, f: FileId, pc: Pc)
    requires Inv(files, r) && f in r.mem && Complete(r.mem[f]) && PutPc(r.pc, pc, f)
    ensures Inv(files, PutObject(r, f).(pc := pc))
  {
    PutsOriginal(files, r, f);
    PutRest(files, r, PutObject(r, f).(pc := pc), f);
  }

  lemma PutsOriginal(files: Files, r: Receiver, f: FileId)
    requires ObjectsOriginal(files, r) && MemHonest(files, r.mem) && f in r.mem && Complete(r.mem[f])
    ensures ObjectsOriginal(files, PutObject(r, f)) && PutObject(r, f).everPut == r.everPut + {f}
  {
    CompleteIsOriginal(files, f, r.mem[f]);
  }

  predicate PutPc(was: Pc, pc: Pc, f: FileId) {
    || (pc == Put(f) && was == Acked(f))
    || (pc.FinishPut? && pc.fileId == f && was.Finishing? && pc.files == was.files - {f})
  }

  lemma PutRest(files: Files, r: Receiver, b: Receiver, f: FileId)
    requires Inv(files, r) && PutPc(r.pc, b.pc, f) && ObjectsOriginal(files, b)
    requires b == r.(objects := b.objects, everPut := r.everPut + {f}, pc := b.pc)
    ensures Inv(files, b)
  {
    AcksStaySound(files, r, b);
    PutMem(r, b, f);
  }

  lemma PutMem(r: Receiver, b: Receiver, f: FileId)
    requires MemIsTable(r) && PutPc(r.pc, b.pc, f) && b.mem == r.mem && b.table == r.table
    requires forall g :: g in r.mem && Complete(r.mem[g]) ==> MayBeComplete(r.pc, g)
    ensures MemIsTable(b) && forall g :: g in b.mem && Complete(b.mem[g]) ==> MayBeComplete(b.pc, g)
  {
  }

  lemma AcksStaySound(files: Files, r: Receiver, b: Receiver)
    requires forall g: nat, i: nat :: (g, i) in r.acks ==> AckSound(files, r, g, i)
    requires b.acks == r.acks && b.table == r.table && r.everPut <= b.everPut
    ensures forall g: nat, i: nat :: (g, i) in b.acks ==> AckSound(files, b, g, i)
  {
    forall g: nat, i: nat | (g, i) in b.acks ensures AckSound(files, b, g, i) { assert AckSound(files, r, g, i); }
  }

  /** Dropping both buffers of a file keeps the rest of both. */
  lemma ForgetBuffers(files: Files, r: Receiver, f: FileId, pc: Pc)
    requires TableHonest(files, r.table) && MemHonest(files, r.mem) && MemIsTable(r)
    requires !r.pc.Buffered? && !r.pc.Down? && !pc.Buffered? && !pc.Down?
    ensures var b := Forget(r, f).(pc := pc); TableHonest(files, b.table) && MemHonest(files, b.mem) && MemIsTable(b)
  {
    var b := Forget(r, f).(pc := pc);
    forall g: nat, i: nat ensures HasChunk(b.mem, g, i) <==> (g, i) in b.table {
      assert HasChunk(r.mem, g, i) <==> (g, i) in r.table;
    }
  }

  lemma ForgetKeepsInv(files: Files, r: Receiver, f: FileId, pc: Pc)
    requires Inv(files, r)
    requires (r.pc == Put(f) && pc == Idle) || (exists fs :: r.pc == FinishPut(f, fs) && pc == Finishing(fs))
    ensures Inv(files, Forget(r, f).(pc := pc))
  {
    var b := Forget(r, f).(pc := pc);
    ForgetBuffers(files, r, f, pc);
    forall g: nat, i: nat | (g, i) in b.acks ensures AckSound(files, b, g, i) { assert AckSound(files, r, g, i); }
  }

  lemma FinishKeepsInv(files: Files, r: Receiver, f: FileId)
    requires Inv(files, r) && r.pc.Finishing? && f in r.pc.files
    ensures Inv(files, FinishFile(r, f))
  {
    if f in r.mem && Complete(r.mem[f]) {
      PutKeepsInv(files, r, f, FinishPut(f, r.pc.files - {f}));
    }
  }

  lemma RehydratedHonest(files: Files, table: Table, f: FileId, e: Entry)
    requires TableHonest(files, table) && Rehydrates(table, f, e)
    ensures EntryHonest(files, f, e)
  {
    forall i | i in e.chunks ensures RowHonest(files, f, i, table[(f, i)]) {}
    var j :| j in e.chunks && e.total == table[(f, j)].total;
    assert RowHonest(files, f, j, table[(f, j)]);
    forall i | i in e.chunks ensures ChunkHonest(files[f], e, i) { assert RowHonest(files, f, i, table[(f, i)]); }
  }

  lemma RehydratedIsTable(table: Table, mem: map<FileId, Entry>, f: FileId, i: nat)
    requires RehydratedFrom(table, mem)
    ensures HasChunk(mem, f, i) <==> (f, i) in table
  {
    if f in mem { assert Rehydrates(table, f, mem[f]); }
    if (f, i) in table { assert (f, i).0 in mem; }
  }

  /** After a reload, memory is exactly the durable table, and every file is looked at again. */
  lemma StartKeepsInv(files: Files, r: Receiver, mem: map<FileId, Entry>)
    requires Inv(files, r) && r.pc.Down? && RehydratedFrom(r.table, mem)
    ensures Inv(files, r.(mem := mem, pc := Finishing(mem.Keys)))
  {
    var s := r.(mem := mem, pc := Finishing(mem.Keys));
    forall f | f in mem ensures EntryHonest(files, f, mem[f]) { RehydratedHonest(files, r.table, f, mem[f]); }
    assert MemIsTable(s) by {
      forall f: nat, i: nat ensures HasChunk(mem, f, i) <==> (f, i) in r.table || Pending(s.pc, f, i) {
        RehydratedIsTable(r.table, mem, f, i);
      }
    }
    StartRest(files, r, s);
  }

  lemma StartRest(files: Files, r: Receiver, s: Receiver)
    requires Inv(files, r) && s == r.(mem := s.mem, pc := Finishing(s.mem.Keys))
    requires MemHonest(files, s.mem) && MemIsTable(s)
    ensures Inv(files, s)
  {
  }

  lemma NextKeepsInv(files: Files, r: Receiver, ev: Event, r': Receiver)
    requires Inv(files, r) && Allowed(files, ev) && Next(r, ev, r')
    ensures Inv(files, r')
  {
    match ev
    case Receive(p) => ReceiveKeepsInv(files, r, p);
    case Step => StepKeepsInv(files, r);
    case FinishNext(f) => FinishKeepsInv(files, r, f);
    case Crash =>
    case Start(mem) => StartKeepsInv(files, r, mem);
    case Delete(f) =>
  }

  // ------------------------------------------------------------ whole runs, with the sender

  /** `acked` is what the sender has recorded in chunkProgress, file by file. */
  datatype World = World(rx: Receiver, acked: map<FileId, seq<nat>>)

  datatype WorldEvent =
    | Rx(ev: Event)
    | AckArrives(fileId: FileId, index: nat)
    | ResetProgress(fileId: FileId)

  /** FILE_CHUNK_ACK on the sender: an index is recorded once. */
  function Recorded(acked: seq<nat>, index: nat): seq<nat> {
    if index in acked then acked else acked + [index]
  }

  ghost predicate WorldNext(w: World, ev: WorldEvent, w': World) {
    match ev
    case Rx(e) => w'.acked == w.acked && Next(w.rx, e, w'.rx)
    case AckArrives(f, i) =>
      (f, i) in w.rx.acks && w' == if f in w.acked then w.(acked := w.acked[f := Recorded(w.acked[f], i)]) else w
    case ResetProgress(f) => w' == w.(acked := w.acked[f := []])
  }

  /** Every message that ever arrives was sent by an honest sender; arrivals may repeat, be
      reordered or never happen, and the receiver may reload between any two writes. */
  ghost predicate IsRun(files: Files, states: seq<World>, evs: seq<WorldEvent>) {
    && |states| == |evs| + 1
    && states[0] == World(Fresh(), map[])
    && (forall k :: 0 <= k < |evs| ==> WorldNext(states[k], evs[k], states[k + 1]))
    && (forall k :: 0 <= k < |evs| && evs[k].Rx? ==> Allowed(files, evs[k].ev))
  }

  predicate NoRepeats(s: seq<nat>) { forall i, j :: 0 <= i < j < |s| ==> s[i] != s[j] }

  ghost predicate WorldInv(files: Files, w: World) {
    && Inv(files, w.rx)
    && (forall f :: f in w.acked ==> NoRepeats(w.acked[f]) && forall i :: i in w.acked[f] ==> (f, i) in w.rx.acks)
  }

  lemma AcksOnlyGrow(r: Receiver, ev: Event, r': Receiver)
    requires Next(r, ev, r')
    ensures r.acks <= r'.acks && r.everPut <= r'.everPut
  {
  }

  lemma WorldNextKeepsInv(files: Files, w: World, ev: WorldEvent, w': World)
    requires WorldInv(files, w) && WorldNext(w, ev, w') && (ev.Rx? ==> Allowed(files, ev.ev))
    ensures WorldInv(files, w')
  {
    match ev
    case Rx(e) =>
      NextKeepsInv(files, w.rx, e, w'.rx);
      AcksOnlyGrow(w.rx, e, w'.rx);
    case AckArrives(f, i) =>
    case ResetProgress(f) =>
  }

  lemma {:induction false} RunKeepsInv(files: Files, states: seq<World>, evs: seq<WorldEvent>, k: nat)
    requires IsRun(files, states, evs) && k < |states|
    ensures WorldInv(files, states[k])
  {
    if k > 0 {
      RunKeepsInv(files, states, evs, k - 1);
      WorldNextKeepsInv(files, states[k - 1], evs[k - 1], states[k]);
    }
  }

  /** Chunked file correctness: in every state of every run, an object materialised for a file
      is the original file, and a step never replaces an object that is there. */
  lemma OnlyOriginalsMaterialise(files: Files, states: seq<World>, evs: seq<WorldEvent>, k: nat, f: FileId)
    requires IsRun(files, states, evs) && k < |states| && f in states[k].rx.objects
    ensures f in files && states[k].rx.objects[f] == FileObject(files[f].dataB64, files[f].meta)
    ensures k + 1 < |states| && f in states[k + 1].rx.objects ==> states[k + 1].rx.objects[f] == states[k].rx.objects[f]
  {
    RunKeepsInv(files, states, evs, k);
    if k + 1 < |states| { RunKeepsInv(files, states, evs, k + 1); }
  }

  /** After any reload the in-memory buffers are exactly the durable table. */
  lemma ReloadRestoresTable(files: Files, states: seq<World>, evs: seq<WorldEvent>, k: nat, f: FileId, i: nat)
    requires IsRun(files, states, evs) && k < |evs| && evs[k] == Rx(Start(states[k + 1].rx.mem))
    ensures var r := states[k + 1].rx;
            && r.table == states[k].rx.table
            && (HasChunk(r.mem, f, i) <==> (f, i) in r.table)
            && (HasChunk(r.mem, f, i) ==> r.mem[f].chunks[i] == r.table[(f, i)].data)
  {
    assert WorldNext(states[k], evs[k], states[k + 1]);
    var r := states[k + 1].rx;
    RehydratedIsTable(r.table, r.mem, f, i);
    if f in r.mem { assert Rehydrates(r.table, f, r.mem[f]); }
  }

  /** Ack soundness: whatever the sender has recorded as acked is durably held, or the file was
      materialised; recorded indices are distinct and in range, so a full count means every chunk. */
  lemma AckedIsDurable(files: Files, states: seq<World>, evs: seq<WorldEvent>, k: nat, f: FileId)
    requires IsRun(files, states, evs) && k < |states| && f in states[k].acked && f in files
    ensures var acked, total := states[k].acked[f], TotalChunks(|files[f].dataB64|);
            && NoRepeats(acked)
            && (forall i :: i in acked ==> i < total && ((f, i) in states[k].rx.table || f in states[k].rx.everPut))
            && (|acked| >= total <==> forall i: nat :: i < total ==> i in acked)
  {
    RunKeepsInv(files, states, evs, k);
    var acked, total := states[k].acked[f], TotalChunks(|files[f].dataB64|);
    forall i | i in acked ensures i < total && ((f, i) in states[k].rx.table || f in states[k].rx.everPut) {
      assert AckSound(files, states[k].rx, f, i);
    }
    AllRecorded(acked, total);
  }

  /** Distinct indices below n number n exactly when every index is there. */
  lemma AllRecorded(acked: seq<nat>, n: nat)
    requires NoRepeats(acked) && forall i :: i in acked ==> i < n
    ensures |acked| >= n <==> forall i: nat :: i < n ==> i in acked
  {
    DistinctCount(acked);
    var s := Elements(acked);
    FullSet(s, n);
    assert (forall i: nat :: i < n ==> i in s) <==> (forall i: nat :: i < n ==> i in acked);
  }

  function Elements(s: seq<nat>): (r: set<nat>)
    ensures forall i :: i in r <==> i in s
  {
    set i | i in s
  }

  lemma {:induction false} DistinctCount(s: seq<nat>)
    requires NoRepeats(s)
    ensures |Elements(s)| == |s|
  {
    if s != [] {
      var n := |s| - 1;
      DistinctCount(s[..n]);
      assert s[n] !in s[..n];
      assert Elements(s) == Elements(s[..n]) + {s[n]};
    } else {
      assert Elements(s) == {};
    }
  }

  // ------------------------------------------------------------ recovery

  /** The next n writes, stopping when there is none left. */
  function Settle(r: Receiver, n: nat): Receiver
    decreases n, r
  {
    if n == 0 || r.pc.Idle? then r else Settle(Stepped(r), n - 1)
  }

  /** A FILE_CHUNK handled to the end, without a reload. */
  function Handle(r: Receiver, p: Payload): Receiver { Settle(Buffering(r, p), 4) }

  function HandleAll(r: Receiver, ps: seq<Payload>): Receiver {
    if ps == [] then r else Handle(HandleAll(r, ps[..|ps| - 1]), ps[|ps| - 1])
  }

  /** How many writes are left before the receiver is idle again. */
  function WritesLeft(pc: Pc): nat {
    match pc
    case Buffered(_, _) => 4
    case Stored(_) => 3
    case Acked(_) => 2
    case Put(_) => 1
    case _ => 0
  }

  lemma {:induction false} SettleKeepsInv(files: Files, r: Receiver, n: nat)
    requires Inv(files, r) && WritesLeft(r.pc) <= n && (WritesLeft(r.pc) > 0 || r.pc.Idle?)
    ensures Inv(files, Settle(r, n))
    decreases n
  {
    if n > 0 && !r.pc.Idle? {
      StepKeepsInv(files, r);
      StepEffect(r);
      SettleKeepsInv(files, Stepped(r), n - 1);
    }
  }

  lemma StepEffect(r: Receiver)
    requires WritesLeft(r.pc) > 0
    ensures WritesLeft(Stepped(r).pc) < WritesLeft(r.pc) && (WritesLeft(Stepped(r).pc) > 0 || Stepped(r).pc.Idle?)
  {
  }

  lemma HandleKeepsInv(files: Files, r: Receiver, p: Payload)
    requires Inv(files, r) && r.pc.Idle? && Honest(files, p)
    ensures Inv(files, Handle(r, p))
  {
    ReceiveKeepsInv(files, r, p);
    SettleKeepsInv(files, Buffering(r, p), 4);
  }

  /** A chunk buffered, persisted when new, and acknowledged. */
  function Taken(r: Receiver, p: Payload): Receiver {
    r.(mem := WithChunk(r.mem, p),
       table := if HasChunk(r.mem, p.fileId, p.index) then r.table
                else r.table[(p.fileId, p.index) := Row(p.total, p.data, p.meta)],
       acks := r.acks + {(p.fileId, p.index)})
  }

  lemma SettleFromBuffered(r: Receiver)
    requires r.pc.Buffered?
    ensures Settle(r, 4) == Settle(Stepped(Stepped(r)), 2)
  {
    var a := Stepped(r);
    assert Settle(r, 4) == Settle(a, 3);
    assert Settle(a, 3) == Settle(Stepped(a), 2);
  }

  lemma SettleFromAcked(r: Receiver)
    requires r.pc.Acked?
    ensures Settle(r, 2) == if Stepped(r).pc.Put? then Stepped(Stepped(r)) else Stepped(r)
  {
    var c := Stepped(r);
    assert Settle(r, 2) == Settle(c, 1);
    if c.pc.Put? { assert Settle(c, 1) == Settle(Stepped(c), 0); }
  }

  lemma BufferedTwice(r: Receiver, p: Payload)
    ensures Stepped(Stepped(Buffering(r, p))) == Taken(r, p).(pc := Acked(p.fileId))
  {
  }

  lemma AckedSteps(t: Receiver, f: FileId)
    requires t.pc.Idle? && f in t.mem
    ensures Settle(t.(pc := Acked(f)), 2) == if Complete(t.mem[f]) then Forget(PutObject(t, f), f) else t
  {
    var a := t.(pc := Acked(f));
    SettleFromAcked(a);
    if Complete(t.mem[f]) { assert PutObject(a, f) == PutObject(t, f).(pc := Acked(f)); }
  }

  lemma HandleIs(r: Receiver, p: Payload)
    requires r.pc.Idle?
    ensures var t := Taken(r, p);
            && p.fileId in t.mem
            && Handle(r, p) == if Complete(t.mem[p.fileId]) then Forget(PutObject(t, p.fileId), p.fileId) else t
  {
    SettleFromBuffered(Buffering(r, p));
    BufferedTwice(r, p);
    AckedSteps(Taken(r, p), p.fileId);
  }

  lemma HandleAcks(r: Receiver, p: Payload)
    requires r.pc.Idle?
    ensures Handle(r, p).pc.Idle? && Handle(r, p).acks == r.acks + {(p.fileId, p.index)}
  {
    HandleIs(r, p);
  }

  lemma {:induction false} HandleAllAcks(r: Receiver, ps: seq<Payload>)
    requires r.pc.Idle?
    ensures HandleAll(r, ps).pc.Idle? && r.acks <= HandleAll(r, ps).acks
    ensures forall p :: p in ps ==> (p.fileId, p.index) in HandleAll(r, ps).acks
  {
    if ps != [] {
      var before, last := ps[..|ps| - 1], ps[|ps| - 1];
      HandleAllAcks(r, before);
      HandleAcks(HandleAll(r, before), last);
      assert ps == before + [last];
    }
  }

  lemma {:induction false} HandleAllKeepsInv(files: Files, r: Receiver, ps: seq<Payload>)
    requires Inv(files, r) && r.pc.Idle? && forall p :: p in ps ==> Honest(files, p)
    ensures Inv(files, HandleAll(r, ps))
  {
    if ps != [] {
      var before := ps[..|ps| - 1];
      HandleAllKeepsInv(files, r, before);
      HandleAllAcks(r, before);
      HandleKeepsInv(files, HandleAll(r, before), ps[|ps| - 1]);
    }
  }

  /** With every index acked and no write outstanding, the file has been materialised. */
  lemma AllAckedMeansDone(files: Files, r: Receiver, f: FileId)
    requires Inv(files, r) && r.pc.Idle? && f in files && |files[f].dataB64| > 0
    requires forall i: nat :: i < TotalChunks(|files[f].dataB64|) ==> (f, i) in r.acks
    ensures f in r.everPut
  {
    if f !in r.everPut {
      forall i: nat | i < TotalChunks(|files[f].dataB64|) ensures HasChunk(r.mem, f, i) {
        assert AckSound(files, r, f, i);
      }
      assert HasChunk(r.mem, f, 0);
      var e := r.mem[f];
      assert EntryHonest(files, f, e);
      forall i: nat | i < e.total ensures i in e.chunks { assert HasChunk(r.mem, f, i); }
      CompleteHasAll(files, f, e);
    }
  }

  /** The receiver's own steps: starting up, looking at the next file, and the writes still to be made. */
  predicate OwnStep(r: Receiver, ev: Event) { ev.Start? || ev.FinishNext? || (ev.Step? && Stepped(r) != r) }

  /** A run of the receiver's own steps. */
  ghost predicate OwnRun(rs: seq<Receiver>, evs: seq<Event>) {
    |rs| == |evs| + 1 && forall j :: 0 <= j < |evs| ==> OwnStep(rs[j], evs[j]) && Next(rs[j], evs[j], rs[j + 1])
  }

  function FilesIn(table: Table): set<FileId> { set k | k in table.Keys :: k.0 }

  /** A bound on the steps left before the receiver is idle. */
  function Work(r: Receiver): nat {
    match r.pc
    case Down => 3 + 2 * |FilesIn(r.table)|
    case Finishing(files) => 1 + 2 * |files|
    case FinishPut(_, files) => 2 + 2 * |files|
    case _ => WritesLeft(r.pc)
  }

  lemma SmallerSet(a: set<FileId>, b: set<FileId>)
    requires a <= b
    ensures |a| <= |b|
    decreases |a|
  {
    if a != {} {
      var x :| x in a;
      SmallerSet(a - {x}, b - {x});
    }
  }

  lemma StartHolds(table: Table, mem: map<FileId, Entry>)
    requires RehydratedFrom(table, mem)
    ensures |mem.Keys| <= |FilesIn(table)|
  {
    forall f | f in mem ensures f in FilesIn(table) {
      assert Rehydrates(table, f, mem[f]);
      var i :| i in mem[f].chunks && mem[f].total == table[(f, i)].total;
      assert (f, i) in table.Keys && (f, i).0 == f;
    }
    SmallerSet(mem.Keys, FilesIn(table));
  }

  lemma OneFewer(files: set<FileId>, f: FileId)
    requires f in files
    ensures |files - {f}| == |files| - 1
  {
  }

  lemma WriteWorks(r: Receiver)
    requires Stepped(r) != r
    ensures Work(Stepped(r)) < Work(r)
  {
  }

  /** Every own step brings the receiver closer to being idle. */
  lemma OwnStepWorks(r: Receiver, ev: Event, r': Receiver)
    requires OwnStep(r, ev) && Next(r, ev, r')
    ensures Work(r') < Work(r)
  {
    match ev
    case Start(mem) => StartHolds(r.table, mem);
    case FinishNext(f) => OneFewer(r.pc.files, f);
    case Step => WriteWorks(r);
  }

  lemma OwnStepAt(rs: seq<Receiver>, evs: seq<Event>, j: nat)
    requires OwnRun(rs, evs) && j < |evs|
    ensures OwnStep(rs[j], evs[j]) && Next(rs[j], evs[j], rs[j + 1])
  {
  }

  lemma {:induction false} OwnRunBounded(rs: seq<Receiver>, evs: seq<Event>, n: nat)
    requires OwnRun(rs, evs) && n <= |evs|
    ensures n + Work(rs[n]) <= Work(rs[0])
  {
    if n > 0 {
      OwnRunBounded(rs, evs, n - 1);
      OwnStepAt(rs, evs, n - 1);
      OwnStepWorks(rs[n - 1], evs[n - 1], rs[n]);
    }
  }

  /** There is always a way to start: the rows, taken one by one. */
  lemma {:induction false} Startable(table: Table) returns (mem: map<FileId, Entry>)
    ensures RehydratedFrom(table, mem)
    decreases table.Keys
  {
    mem := map[];
    if k :| k in table {
      var fewer := table - {k};
      assert k !in fewer && fewer.Keys < table.Keys && fewer[k := table[k]] == table;
      var rest := Startable(fewer);
      RowAdded(fewer, rest, k, table[k]);
      mem := Grouped(rest, k, table[k]);
    }
  }

  /** A receiver that is not idle has an own step to take. */
  lemma NotStuck(r: Receiver) returns (ev: Event, r': Receiver)
    requires !r.pc.Idle?
    ensures OwnStep(r, ev) && Next(r, ev, r')
  {
    if r.pc.Down? {
      var mem := Startable(r.table);
      ev, r' := Start(mem), r.(mem := mem, pc := Finishing(mem.Keys));
    } else if r.pc.Finishing? && r.pc.files != {} {
      var f :| f in r.pc.files;
      ev, r' := FinishNext(f), FinishFile(r, f);
    } else {
      ev, r' := Step, Stepped(r);
    }
  }

  /** Whatever state the receiver is in, its own steps lead to idle. */
  lemma {:induction false} OwnRunToIdle(r: Receiver) returns (rs: seq<Receiver>, evs: seq<Event>)
    ensures SettledRun(r, rs, evs)
    decreases Work(r)
  {
    rs, evs := [r], [];
    if !r.pc.Idle? {
      var ev, r' := NotStuck(r);
      OwnStepWorks(r, ev, r');
      var rest, more := OwnRunToIdle(r');
      rs, evs := [r] + rest, [ev] + more;
    }
  }

  /** A run of own steps from r to an idle receiver. */
  ghost predicate SettledRun(r: Receiver, rs: seq<Receiver>, evs: seq<Event>) {
    OwnRun(rs, evs) && rs[0] == r && rs[|evs|].pc.Idle?
  }

  lemma {:induction false} OwnRunKeepsInv(files: Files, rs: seq<Receiver>, evs: seq<Event>, n: nat)
    requires OwnRun(rs, evs) && Inv(files, rs[0]) && n <= |evs|
    ensures Inv(files, rs[n]) && rs[0].acks <= rs[n].acks
  {
    if n > 0 {
      OwnRunKeepsInv(files, rs, evs, n - 1);
      NextKeepsInv(files, rs[n - 1], evs[n - 1], rs[n]);
      AcksOnlyGrow(rs[n - 1], evs[n - 1], rs[n]);
    }
  }

  /** The messages include every chunk of the file that is not recorded as acked. */
  predicate Covers(ps: seq<Payload>, files: Files, f: FileId, acked: seq<nat>)
    requires f in files
  {
    forall i: nat :: i < TotalChunks(|files[f].dataB64|) && i !in acked ==> ChunkPayload(f, files[f], i) in ps
  }

  lemma IdleRoundCompletes(files: Files, r: Receiver, f: FileId, acked: seq<nat>, ps: seq<Payload>)
    requires Inv(files, r) && r.pc.Idle? && f in files && |files[f].dataB64| > 0
    requires (forall i :: i in acked ==> (f, i) in r.acks) && (forall p :: p in ps ==> Honest(files, p))
    requires Covers(ps, files, f, acked)
    ensures f in HandleAll(r, ps).everPut
    ensures forall i: nat :: i < TotalChunks(|files[f].dataB64|) ==> (f, i) in HandleAll(r, ps).acks
  {
    HandleAllKeepsInv(files, r, ps);
    HandleAllAcks(r, ps);
    forall i: nat | i < TotalChunks(|files[f].dataB64|) ensures (f, i) in HandleAll(r, ps).acks {
      if i !in acked {
        var p := ChunkPayload(f, files[f], i);
        assert p in ps && (p.fileId, p.index) in HandleAll(r, ps).acks;
      }
    }
    AllAckedMeansDone(files, HandleAll(r, ps), f);
  }

  /** Recovery: from any reachable state, down, starting up or between two writes, the receiver's own steps come to
      an end with it idle; and however they get there, handling one loss-free retry of what the sender still misses
      then materialises the file and acks every chunk. */
  lemma RetryRoundCompletes(files: Files, states: seq<World>, evs: seq<WorldEvent>, k: nat, f: FileId, ps: seq<Payload>)
    requires IsRun(files, states, evs) && k < |states| && f in states[k].acked
    requires f in files && |files[f].dataB64| > 0 && Covers(ps, files, f, states[k].acked[f])
    requires forall p :: p in ps ==> Honest(files, p)
    ensures exists rs, own :: SettledRun(states[k].rx, rs, own)
    ensures forall rs, own :: SettledRun(states[k].rx, rs, own) ==>
              var r := HandleAll(rs[|own|], ps);
              && |own| <= Work(states[k].rx) && f in r.everPut
              && forall i: nat :: i < TotalChunks(|files[f].dataB64|) ==> (f, i) in r.acks
  {
    RunKeepsInv(files, states, evs, k);
    var rs0, own0 := OwnRunToIdle(states[k].rx);
    forall rs, own | SettledRun(states[k].rx, rs, own)
      ensures var r := HandleAll(rs[|own|], ps);
              && |own| <= Work(states[k].rx) && f in r.everPut
              && forall i: nat :: i < TotalChunks(|files[f].dataB64|) ==> (f, i) in r.acks
    {
      OwnRunBounded(rs, own, |own|);
      OwnRunKeepsInv(files, rs, own, |own|);
      IdleRoundCompletes(files, rs[|own|], f, states[k].acked[f], ps);
    }
  }

  lemma FinishThenForget(files: Files, r: Receiver, f: FileId)
    requires Inv(files, r) && r.pc.Finishing? && f in r.pc.files
    ensures var left := Finishing(r.pc.files - {f});
            Inv(files, if f in r.mem && Complete(r.mem[f]) then Forget(PutObject(r, f), f).(pc := left)
                       else r.(pc := left))
  {
    var left := Finishing(r.pc.files - {f});
    FinishKeepsInv(files, r, f);
    if f in r.mem && Complete(r.mem[f]) {
      var put := FinishFile(r, f);
      ForgetKeepsInv(files, put, f, left);
      assert Forget(put, f).(pc := left) == Forget(PutObject(r, f), f).(pc := left);
    }
  }

  // ------------------------------------------------------------ the receiving methods

  /** The part of MeshEngine that reassembles incoming files. */
  class FileReceiver {
    var incomingChunks: map<FileId, Entry>
    var fileChunks: Table
    var objects: map<FileId, FileObject>
    var sentAcks: set<(FileId, nat)>
    ghost var everPut: set<FileId>

    ghost function State(pc: Pc): Receiver
      reads this
    {
      Receiver(incomingChunks, fileChunks, objects, everPut, sentAcks, pc)
    }

    /** The loop that concatenates a complete buffer. */
    static method Assemble(e: Entry) returns (dataB64: string)
      ensures dataB64 == Assembled(e, e.total)
    {
      dataB64 := "";
      for i := 0 to e.total
        invariant dataB64 == Assembled(e, i)
      {
        dataB64 := dataB64 + (if i in e.chunks then e.chunks[i] else "");
      }
    }

    /** Materialise a complete file unless the object exists, then drop both buffers. */
    method Materialise(fileId: FileId)
      requires fileId in incomingChunks && incomingChunks[fileId].meta.Some?
      modifies this
      ensures State(Idle) == Forget(PutObject(old(State(Idle)), fileId), fileId)
    {
      var e := incomingChunks[fileId];
      var dataB64 := Assemble(e);
      if fileId !in objects {
        objects := objects[fileId := FileObject(dataB64, e.meta.value)];
        everPut := everPut + {fileId};
      }
      incomingChunks := incomingChunks - {fileId};
      fileChunks := map k | k in fileChunks.Keys && k.0 != fileId :: fileChunks[k];
    }

    /** applyOp's FILE_CHUNK case, when no reload interrupts it. */
    method OnFileChunk(p: Payload)
      modifies this
      ensures State(Idle) == Handle(old(State(Idle)), p)
    {
      HandleIs(State(Idle), p);
      TakeChunk(p);
      var e := incomingChunks[p.fileId];
      if |e.chunks| == e.total && e.meta.Some? { Materialise(p.fileId); }
    }

    /** Its first half: buffer the chunk, persist a new one, acknowledge. */
    method TakeChunk(p: Payload)
      modifies this
      ensures State(Idle) == Taken(old(State(Idle)), p)
    {
      var e := if p.fileId in incomingChunks then incomingChunks[p.fileId] else Entry(p.total, map[], None);
      var isNewChunk := p.index !in e.chunks;
      e := Entry(e.total, e.chunks[p.index := p.data], if p.meta.Some? then p.meta else e.meta);
      incomingChunks := incomingChunks[p.fileId := e];
      if isNewChunk { fileChunks := fileChunks[(p.fileId, p.index) := Row(p.total, p.data, p.meta)]; }
      sentAcks := sentAcks + {(p.fileId, p.index)};
    }

    /** rehydrateIncomingChunks: group the rows by file, then finish the files that are whole. */
    method Rehydrate(ghost files: Files)
      requires Inv(files, State(Down))
      modifies this
      ensures Inv(files, State(Idle))
      ensures KeepsObjects(old(objects), objects)
      ensures sentAcks == old(sentAcks)
    {
      ghost var down := State(Down);
      GroupRows();
      StartKeepsInv(files, down, incomingChunks);
      FinishAll(files);
    }

    method FinishAll(ghost files: Files)
      requires Inv(files, State(Finishing(incomingChunks.Keys)))
      modifies this
      ensures Inv(files, State(Idle))
      ensures KeepsObjects(old(objects), objects)
      ensures sentAcks == old(sentAcks)
    {
      var todo := incomingChunks.Keys;
      while todo != {}
        invariant Inv(files, State(Finishing(todo)))
        invariant KeepsObjects(old(objects), objects)
        invariant sentAcks == old(sentAcks)
        decreases todo
      {
        var f :| f in todo;
        FinishIncomingFileIfComplete(files, f, todo);
        todo := todo - {f};
      }
      StepKeepsInv(files, State(Finishing({})));
    }

    /** finishIncomingFileIfComplete, for one of the files still to be looked at. */
    method FinishIncomingFileIfComplete(ghost files: Files, f: FileId, ghost todo: set<FileId>)
      requires Inv(files, State(Finishing(todo))) && f in todo
      modifies this
      ensures Inv(files, State(Finishing(todo - {f})))
      ensures f in old(incomingChunks) && Complete(old(incomingChunks)[f]) ==> f in objects && f !in incomingChunks
      ensures KeepsObjects(old(objects), objects)
      ensures sentAcks == old(sentAcks)
    {
      FinishThenForget(files, State(Finishing(todo)), f);
      if f in incomingChunks && |incomingChunks[f].chunks| == incomingChunks[f].total && incomingChunks[f].meta.Some? {
        ghost var r := State(Finishing(todo));
        Materialise(f);
        assert State(Finishing(todo - {f})) == Forget(PutObject(r, f), f).(pc := Finishing(todo - {f}));
      }
    }

    /** The grouping loop. */
    method GroupRows()
      requires incomingChunks == map[]
      modifies this`incomingChunks
      ensures RehydratedFrom(fileChunks, incomingChunks)
    {
      var todo := fileChunks.Keys;
      var mem: map<FileId, Entry> := map[];
      while todo != {}
        invariant todo <= fileChunks.Keys
        invariant RehydratedFrom(Restricted(fileChunks, fileChunks.Keys - todo), mem)
        decreases todo
      {
        var k :| k in todo;
        var row := fileChunks[k];
        var e := if k.0 in mem then mem[k.0] else Entry(row.total, map[], None);
        ghost var before := Restricted(fileChunks, fileChunks.Keys - todo);
        ghost var was := mem;
        mem := mem[k.0 := Entry(e.total, e.chunks[k.1 := row.data], if e.meta.Some? then e.meta else row.meta)];
        todo := todo - {k};
        assert Restricted(fileChunks, fileChunks.Keys - todo) == before[k := row];
        RowAdded(before, was, k, row);
      }
      assert Restricted(fileChunks, fileChunks.Keys - todo) == fileChunks;
      incomingChunks := mem;
    }
  }

  predicate KeepsObjects(before: map<FileId, FileObject>, after: map<FileId, FileObject>) {
    forall f :: f in before ==> f in after && after[f] == before[f]
  }

  function Restricted(table: Table, keys: set<(FileId, nat)>): Table {
    map k | k in table.Keys && k in keys :: table[k]
  }

  /** Taking one more row into the grouped buffers. */
  function Grouped(mem: map<FileId, Entry>, k: (FileId, nat), row: Row): map<FileId, Entry> {
    var e := if k.0 in mem then mem[k.0] else Entry(row.total, map[], None);
    mem[k.0 := Entry(e.total, e.chunks[k.1 := row.data], if e.meta.Some? then e.meta else row.meta)]
  }

  lemma RowAdded(table: Table, mem: map<FileId, Entry>, k: (FileId, nat), row: Row)
    requires RehydratedFrom(table, mem) && k !in table
    ensures RehydratedFrom(table[k := row], Grouped(mem, k, row))
  {
    var grown := Grouped(mem, k, row);
    forall f | f in grown ensures Rehydrates(table[k := row], f, grown[f]) {
      if f in mem { assert Rehydrates(table, f, mem[f]); }
      if f == k.0 { RowInFile(table, mem, k, row); }
    }
  }

  lemma RowInFile(table: Table, mem: map<FileId, Entry>, k: (FileId, nat), row: Row)
    requires k !in table
    requires if k.0 in mem then Rehydrates(table, k.0, mem[k.0]) else forall j :: j in table ==> j.0 != k.0
    ensures Rehydrates(table[k := row], k.0, Grouped(mem, k, row)[k.0])
  {
    var e := Grouped(mem, k, row)[k.0];
    assert k.1 in e.chunks && k == (k.0, k.1);
  }

  // ------------------------------------------------------------ the sending methods

  /** The chunk messages of a file, or of the chosen indices only, in index order. */
  function ChunkMessages(fileId: FileId, f: File, only: Option<set<nat>>, n: nat): seq<Payload>
    requires n <= TotalChunks(|f.dataB64|)
  {
    if n == 0 then []
    else
      var rest := ChunkMessages(fileId, f, only, n - 1);
      if only.Some? && n - 1 !in only.value then rest else rest + [ChunkPayload(fileId, f, n - 1)]
  }

  lemma {:induction false} ChunkMessagesExact(files: Files, fileId: FileId, only: Option<set<nat>>, n: nat)
    requires fileId in files && n <= TotalChunks(|files[fileId].dataB64|)
    ensures var ps := ChunkMessages(fileId, files[fileId], only, n);
            && (forall p :: p in ps ==> Honest(files, p) && p.fileId == fileId)
            && (forall i: nat :: i < n ==>
                (ChunkPayload(fileId, files[fileId], i) in ps <==> only.None? || i in only.value))
  {
    if n > 0 {
      ChunkMessagesExact(files, fileId, only, n - 1);
      var f := files[fileId];
      forall i: nat | i < n - 1 ensures ChunkPayload(fileId, f, i) != ChunkPayload(fileId, f, n - 1) {}
      forall p | p in ChunkMessages(fileId, f, only, n - 1) ensures p.index < n - 1 {
        MessagesBelow(fileId, f, only, n - 1, p);
      }
    }
  }

  lemma {:induction false} MessagesBelow(fileId: FileId, f: File, only: Option<set<nat>>, n: nat, p: Payload)
    requires n <= TotalChunks(|f.dataB64|) && p in ChunkMessages(fileId, f, only, n)
    ensures p.index < n
  {
    if p in ChunkMessages(fileId, f, only, n - 1) { MessagesBelow(fileId, f, only, n - 1, p); }
  }

  /** These messages are the chunks of those indices, in this order: 200000 characters each, fewer only in the last, the
      metadata with the first. */
  predicate ChunksAt(ps: seq<Payload>, fileId: FileId, f: File, at: seq<nat>) {
    && |ps| == |at| && (forall i, j :: 0 <= i < j < |at| ==> at[i] < at[j])
    && forall j :: 0 <= j < |at| ==> IsChunk(ps[j], fileId, f, at[j])
  }

  predicate IsChunk(p: Payload, fileId: FileId, f: File, i: nat) {
    && i * 200_000 < |f.dataB64| && p.fileId == fileId && p.index == i && p.total == (|f.dataB64| + 199_999) / 200_000
    && p.data == f.dataB64[i * 200_000..if i * 200_000 + 200_000 < |f.dataB64| then i * 200_000 + 200_000
                                        else |f.dataB64|]
    && p.meta == if i == 0 then Some(f.meta) else None
  }

  /** The indices sent are the chosen ones, or all. */
  ghost predicate Chosen(f: File, only: Option<set<nat>>, at: seq<nat>) {
    forall i: nat :: i in at <==> i * 200_000 < |f.dataB64| && (only.None? || i in only.value)
  }

  function ChosenAt(only: Option<set<nat>>, n: nat): seq<nat> {
    if n == 0 then [] else ChosenAt(only, n - 1) + (if only.Some? && n - 1 !in only.value then [] else [n - 1])
  }

  lemma ChunkBounds(size: nat, i: nat)
    ensures i < TotalChunks(size) <==> i * 200_000 < size
  {
  }

  lemma PayloadIsChunk(fileId: FileId, f: File, i: nat)
    requires i < TotalChunks(|f.dataB64|)
    ensures IsChunk(ChunkPayload(fileId, f, i), fileId, f, i)
  {
    ChunkBounds(|f.dataB64|, i);
  }

  lemma {:induction false} ChosenIff(only: Option<set<nat>>, n: nat, i: nat)
    ensures i in ChosenAt(only, n) <==> i < n && (only.None? || i in only.value)
  {
    if n > 0 { ChosenIff(only, n - 1, i); }
  }

  lemma {:induction false} ChunkMessagesAt(fileId: FileId, f: File, only: Option<set<nat>>, n: nat)
    requires n <= TotalChunks(|f.dataB64|)
    ensures var at := ChosenAt(only, n);
            ChunksAt(ChunkMessages(fileId, f, only, n), fileId, f, at) && forall j :: 0 <= j < |at| ==> at[j] < n
  {
    if n > 0 {
      ChunkMessagesAt(fileId, f, only, n - 1);
      PayloadIsChunk(fileId, f, n - 1);
      OneMoreChunk(ChunkMessages(fileId, f, only, n - 1), fileId, f, ChosenAt(only, n - 1), n - 1);
    }
  }

  lemma OneMoreChunk(ps: seq<Payload>, fileId: FileId, f: File, at: seq<nat>, i: nat)
    requires ChunksAt(ps, fileId, f, at) && (forall j :: 0 <= j < |at| ==> at[j] < i)
    requires i < TotalChunks(|f.dataB64|) && IsChunk(ChunkPayload(fileId, f, i), fileId, f, i)
    ensures ChunksAt(ps + [ChunkPayload(fileId, f, i)], fileId, f, at + [i])
  {
  }

  /** What a send emits: exactly the chosen chunks, once each, in order. */
  lemma EmittedChunks(fileId: FileId, f: File, only: Option<set<nat>>) returns (at: seq<nat>)
    ensures ChunksAt(ChunkMessages(fileId, f, only, TotalChunks(|f.dataB64|)), fileId, f, at) && Chosen(f, only, at)
  {
    at := ChosenAt(only, TotalChunks(|f.dataB64|));
    ChunkMessagesAt(fileId, f, only, TotalChunks(|f.dataB64|));
    forall i: nat ensures i in at <==> i * 200_000 < |f.dataB64| && (only.None? || i in only.value) {
      ChosenIff(only, TotalChunks(|f.dataB64|), i);
      ChunkBounds(|f.dataB64|, i);
    }
  }

  function DataOf(ps: seq<Payload>): string {
    if ps == [] then "" else DataOf(ps[..|ps| - 1]) + ps[|ps| - 1].data
  }

  /** A full send's chunk data, concatenated, is the file. */
  lemma {:induction false} ChunksJoinToFile(fileId: FileId, f: File, n: nat)
    requires n <= TotalChunks(|f.dataB64|)
    ensures DataOf(ChunkMessages(fileId, f, None, n)) == Joined(f.dataB64, n)
    ensures n == TotalChunks(|f.dataB64|) ==> DataOf(ChunkMessages(fileId, f, None, n)) == f.dataB64
  {
    JoinedAll(f.dataB64);
    if n > 0 {
      ChunksJoinToFile(fileId, f, n - 1);
      var ps := ChunkMessages(fileId, f, None, n);
      assert ps[..|ps| - 1] == ChunkMessages(fileId, f, None, n - 1);
    }
  }

  datatype ChunkProgress = ChunkProgress(totalChunks: nat, ackedChunks: seq<nat>)

  class FileSender {
    /** The chunk messages handed to sendOps so far. */
    var sent: seq<Payload>
    var progress: map<FileId, ChunkProgress>

    /** sendFileChunks. */
    method SendFileChunks(fileId: FileId, f: File, only: Option<set<nat>>) returns (ghost at: seq<nat>)
      modifies this`sent
      ensures sent == old(sent) + ChunkMessages(fileId, f, only, TotalChunks(|f.dataB64|))
      ensures ChunksAt(sent[|old(sent)|..], fileId, f, at) && Chosen(f, only, at)
    {
      var totalChunks := TotalChunks(|f.dataB64|);
      for i := 0 to totalChunks
        invariant sent == old(sent) + ChunkMessages(fileId, f, only, i)
      {
        if only.Some? && i !in only.value { continue; }
        var dataB64 := f.dataB64[i * FILE_CHUNK_SIZE_B64..ChunkEnd(|f.dataB64|, i)];
        sent := sent + [Payload(fileId, i, totalChunks, dataB64, if i == 0 then Some(f.meta) else None)];
      }
      at := EmittedChunks(fileId, f, only);
    }

    /** applyOp's FILE_CHUNK_ACK case. */
    method OnChunkAck(fileId: FileId, index: nat)
      modifies this`progress
      ensures progress.Keys == old(progress).Keys
      ensures forall g :: g in progress && g != fileId ==> progress[g] == old(progress)[g]
      ensures fileId in progress ==>
        progress[fileId] == ChunkProgress(old(progress)[fileId].totalChunks,
                                          Recorded(old(progress)[fileId].ackedChunks, index))
      ensures fileId in progress ==>
        var acked := old(progress)[fileId].ackedChunks;
        progress[fileId].ackedChunks == if index in acked then acked else acked + [index]
    {
      if fileId in progress && index !in progress[fileId].ackedChunks {
        var p := progress[fileId];
        progress := progress[fileId := ChunkProgress(p.totalChunks, p.ackedChunks + [index])];
      }
    }

    /** retryStalledFileTransfers for one stalled delivery: resend exactly what is not acked. */
    method RetryStalled(fileId: FileId, f: File) returns (missing: set<nat>)
      requires fileId in progress && progress[fileId].totalChunks == TotalChunks(|f.dataB64|)
      modifies this`sent
      ensures forall i: nat :: i in missing <==> i < progress[fileId].totalChunks && i !in progress[fileId].ackedChunks
      ensures |progress[fileId].ackedChunks| >= progress[fileId].totalChunks ==> sent == old(sent)
      ensures |progress[fileId].ackedChunks| < progress[fileId].totalChunks ==>
        sent == old(sent) + ChunkMessages(fileId, f, Some(missing), progress[fileId].totalChunks)
    {
      var p := progress[fileId];
      missing := {};
      for i := 0 to p.totalChunks
        invariant forall j: nat :: j in missing <==> j < i && j !in p.ackedChunks
      {
        if i !in p.ackedChunks { missing := missing + {i}; }
      }
      if |p.ackedChunks| >= p.totalChunks { return; }
      ghost var at := SendFileChunks(fileId, f, Some(missing));
    }
  }
}
