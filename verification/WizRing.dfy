/**
 * Socket buffers of the WIZnet chip (w5100.c): each socket has a power-of-two region in the
 * transmit memory and one in the receive memory, addressed by 16-bit pointers that are never
 * reduced, only masked, and copies are split where the region ends.
 */
module WizRing {
  import opened Bytes

  const SOCK_NUM := 4
  const MEM_SIZE := 0x8000
  const TXBUF := 0x4000
  const RXBUF := 0x6000
  const BUF_SIZE := 0x2000

  // ---------- Masking ----------

  /** Bitwise and. */
  function And(a: nat, b: nat): nat {
    if a == 0 || b == 0 then 0 else 2 * And(a / 2, b / 2) + (if a % 2 == 1 && b % 2 == 1 then 1 else 0)
  }

  function Pow2(k: nat): (p: nat)
    ensures p > 0
  {
    if k == 0 then 1 else 2 * Pow2(k - 1)
  }

  /** Where the i-th byte of a stream lies in a region of `size` bytes. */
  function Slot(i: nat, size: nat): (r: nat)
    requires size > 0
    ensures r < size
    decreases i
  {
    if i < size then i else Slot(i - size, size)
  }

  lemma {:induction false} SlotHalves(a: nat, p: nat)
    requires p > 0
    ensures Slot(a, 2 * p) == 2 * Slot(a / 2, p) + a % 2
    decreases a
  {
    if a >= 2 * p {
      SlotHalves(a - 2 * p, p);
      assert (a - 2 * p) / 2 == a / 2 - p;
    }
  }

  /** A mask of k ones keeps exactly the offset in a region of 2^k bytes. */
  lemma {:induction false} MaskIsSlot(a: nat, k: nat)
    ensures And(a, Pow2(k) - 1) == Slot(a, Pow2(k))
    decreases k
  {
    if k > 0 {
      MaskIsSlot(a / 2, k - 1);
      SlotHalves(a, Pow2(k - 1));
      assert (Pow2(k) - 1) / 2 == Pow2(k - 1) - 1;
    } else {
      SlotOne(a);
    }
  }

  lemma {:induction false} SlotOne(a: nat)
    ensures Slot(a, 1) == 0
    decreases a
  {
    if a > 0 {
      SlotOne(a - 1);
    }
  }

  /** Moving on by less than a region wraps at most once. */
  lemma {:induction false} SlotAdd(i: nat, j: nat, size: nat)
    requires j < size
    ensures Slot(i + j, size) == if Slot(i, size) + j < size then Slot(i, size) + j else Slot(i, size) + j - size
    decreases i
  {
    if i >= size {
      SlotAdd(i - size, j, size);
    }
  }

  function Doubled(size: nat, n: nat): nat {
    if n == 0 then size else 2 * Doubled(size, n - 1)
  }

  lemma {:induction false} SlotPeriod(i: nat, size: nat, n: nat)
    requires size > 0
    ensures Slot(i + Doubled(size, n), size) == Slot(i, size)
    decreases n
  {
    if n > 0 {
      SlotPeriod(i, size, n - 1);
      SlotPeriod(i + Doubled(size, n - 1), size, n - 1);
    }
  }

  /** A 16-bit pointer and the unbounded count it stands for have the same slot, when the
      region's size divides 2^16. */
  lemma {:induction false} SlotOfPointer(i: nat, size: nat, n: nat)
    requires size > 0 && Doubled(size, n) == 0x1_0000
    ensures Slot(Slot(i, 0x1_0000), size) == Slot(i, size)
    decreases i
  {
    if i >= 0x1_0000 {
      SlotOfPointer(i - 0x1_0000, size, n);
      SlotPeriod(i - 0x1_0000, size, n);
    }
  }

  // ---------- One ring ----------

  /** The size a memory-size register's two bits select. */
  function Size(k: nat): nat
    requires k <= 3
  {
    match k case 0 => 0x400 case 1 => 0x800 case 2 => 0x1000 case 3 => 0x2000
  }

  lemma SizeIsPow2(k: nat)
    requires k <= 3
    ensures Size(k) == Pow2(10 + k) && Doubled(Size(k), 6 - k) == 0x1_0000
  {
    match k
    case 0 => assert Pow2(10) == 0x400 && Doubled(0x400, 6) == 0x1_0000;
    case 1 => assert Pow2(11) == 0x800 && Doubled(0x800, 5) == 0x1_0000;
    case 2 => assert Pow2(12) == 0x1000 && Doubled(0x1000, 4) == 0x1_0000;
    case 3 => assert Pow2(13) == 0x2000 && Doubled(0x2000, 3) == 0x1_0000;
  }

  function Add16(p: u16, n: u16): u16 {
    if p + n < 0x1_0000 then p + n else p + n - 0x1_0000
  }

  /** What the chip holds of a socket's buffer: its region and the two 16-bit pointers. */
  datatype Ring = Ring(k: nat, buf: bytes, wr: u16, rd: u16) {
    predicate Ok() {
      k <= 3 && |buf| == Size(k)
    }

    /** The region after `data` has been copied in at offset `at`, split where it ends. */
    function Stored(at: nat, data: bytes): (b: bytes)
      requires Ok() && at < Size(k) && |data| <= Size(k)
      ensures |b| == |buf|
    {
      var room := Size(k) - at;
      if |data| <= room then buf[..at] + data + buf[at + |data|..]
      else data[room..] + buf[|data| - room..at] + data[..room]
    }

    /** n bytes copied out from offset `at`, split where the region ends. */
    function Fetched(at: nat, n: nat): (b: bytes)
      requires Ok() && at < Size(k) && n <= Size(k)
      ensures |b| == n
    {
      var room := Size(k) - at;
      if n <= room then buf[at..at + n] else buf[at..] + buf[..n - room]
    }

    function Write(data: bytes): (r: Ring)
      requires Ok() && |data| <= Size(k)
      ensures r.Ok()
    {
      Ring(k, Stored(Masked(wr, k), data), Add16(wr, |data|), rd)
    }

    function Skip(n: u16): (r: Ring)
      requires Ok()
      ensures r.Ok()
    {
      this.(rd := Add16(rd, n))
    }

    function Read(n: nat): (b: bytes)
      requires Ok() && n <= Size(k)
      ensures |b| == n
    {
      Fetched(Masked(rd, k), n)
    }
  }

  /** Masked offset of a pointer. */
  function Masked(p: u16, k: nat): (r: nat)
    requires k <= 3
    ensures r < Size(k)
  {
    SizeIsPow2(k);
    MaskIsSlot(p, 10 + k);
    And(p, Size(k) - 1)
  }

  // ---------- Refinement of an unbounded queue ----------

  /** The i-th byte of the stream is in its place. */
  predicate InPlace(r: Ring, stream: bytes, i: nat)
    requires r.Ok() && i < |stream|
  {
    r.buf[Slot(i, Size(r.k))] == stream[i]
  }

  /** The ring holds stream[done..], and its pointers are the unbounded counts modulo 2^16. */
  ghost predicate Refines(r: Ring, stream: bytes, done: nat) {
    && r.Ok() && done <= |stream| <= done + Size(r.k)
    && r.wr == Slot(|stream|, 0x1_0000) && r.rd == Slot(done, 0x1_0000)
    && (forall i :: done <= i < |stream| ==> InPlace(r, stream, i))
  }

  lemma MaskedIsSlot(k: nat, p: u16, i: nat)
    requires k <= 3 && p == Slot(i, 0x1_0000)
    ensures Masked(p, k) == Slot(i, Size(k))
  {
    SizeIsPow2(k);
    MaskIsSlot(p, 10 + k);
    SlotOfPointer(i, Size(k), 6 - k);
  }

  lemma Add16IsSlot(p: u16, i: nat, n: u16)
    requires p == Slot(i, 0x1_0000)
    ensures Add16(p, n) == Slot(i + n, 0x1_0000)
  {
    SlotAdd(i, n, 0x1_0000);
  }

  /** Byte j of what is stored lands in its slot, and nothing still waiting is overwritten. */
  lemma StoredAt(r: Ring, data: bytes, i: nat, j: nat)
    requires r.Ok() && |data| <= Size(r.k) && i <= j < i + Size(r.k)
    ensures var b, at := r.Stored(Slot(i, Size(r.k)), data), Slot(j, Size(r.k));
      b[at] == if j - i < |data| then data[j - i] else r.buf[at]
  {
    SlotAdd(i, j - i, Size(r.k));
    StoredByte(r, data, Slot(i, Size(r.k)), j - i, Slot(j, Size(r.k)));
  }

  lemma StoredByte(r: Ring, data: bytes, at: nat, o: nat, slot: nat)
    requires r.Ok() && |data| <= Size(r.k) && at < Size(r.k) && o < Size(r.k)
    requires slot == if at + o < Size(r.k) then at + o else at + o - Size(r.k)
    ensures r.Stored(at, data)[slot] == if o < |data| then data[o] else r.buf[slot]
  {
  }

  lemma StoreInPlace(r: Ring, stream: bytes, done: nat, data: bytes, j: nat)
    requires Refines(r, stream, done) && |data| <= Size(r.k) - (|stream| - done)
    requires done <= j < |stream| + |data|
    ensures InPlace(r.Write(data), stream + data, j)
  {
    var n, size := |stream|, Size(r.k);
    MaskedIsSlot(r.k, r.wr, n);
    if j < n {
      assert InPlace(r, stream, j);
      StoredAt(r, data, n, j + size);
      assert Slot(j + size, size) == Slot(j, size);
    } else {
      StoredAt(r, data, n, j);
    }
  }

  /** Writing within the free size appends to the queue. */
  lemma WriteRefines(r: Ring, stream: bytes, done: nat, data: bytes)
    requires Refines(r, stream, done) && |data| <= Size(r.k) - (|stream| - done)
    ensures Refines(r.Write(data), stream + data, done)
  {
    forall j | done <= j < |stream| + |data| ensures InPlace(r.Write(data), stream + data, j) {
      StoreInPlace(r, stream, done, data, j);
    }
    Add16IsSlot(r.wr, |stream|, |data|);
  }

  lemma FetchedAt(r: Ring, i: nat, n: nat, j: nat)
    requires r.Ok() && j < n <= Size(r.k)
    ensures r.Fetched(Slot(i, Size(r.k)), n)[j] == r.buf[Slot(i + j, Size(r.k))]
  {
    SlotAdd(i, j, Size(r.k));
  }

  /** Reading within the received size takes the front of the queue. */
  lemma ReadRefines(r: Ring, stream: bytes, done: nat, n: nat)
    requires Refines(r, stream, done) && n <= |stream| - done
    ensures r.Read(n) == stream[done..done + n]
    ensures Refines(r.Skip(n), stream, done + n)
  {
    MaskedIsSlot(r.k, r.rd, done);
    var b := r.Read(n);
    forall j | 0 <= j < n ensures b[j] == stream[done..done + n][j] {
      FetchedAt(r, done, n, j);
      assert InPlace(r, stream, done + j);
    }
    Add16IsSlot(r.rd, done, n);
    forall i | done + n <= i < |stream| ensures InPlace(r.Skip(n), stream, i) {
      assert InPlace(r, stream, i);
    }
  }

  datatype Op = Put(data: bytes) | Get(n: nat)

  datatype Queue = Queue(stream: bytes, done: nat) {
    predicate Ok() {
      done <= |stream|
    }
  }

  /** Every operation stays within the free or the received size. */
  ghost predicate WithinSizes(ops: seq<Op>, q: Queue, size: nat)
    requires q.Ok()
  {
    ops == [] ||
    match ops[0]
    case Put(data) => |data| <= size - (|q.stream| - q.done)
      && WithinSizes(ops[1..], Queue(q.stream + data, q.done), size)
    case Get(n) => n <= |q.stream| - q.done && WithinSizes(ops[1..], Queue(q.stream, q.done + n), size)
  }

  /** What the queue gives to the reads. */
  ghost function QueueReads(ops: seq<Op>, q: Queue, size: nat): bytes
    requires q.Ok() && WithinSizes(ops, q, size)
  {
    if ops == [] then []
    else match ops[0]
    case Put(data) => QueueReads(ops[1..], Queue(q.stream + data, q.done), size)
    case Get(n) => q.stream[q.done..q.done + n] + QueueReads(ops[1..], Queue(q.stream, q.done + n), size)
  }

  /** What the ring gives to them. */
  ghost function RingReads(ops: seq<Op>, r: Ring): bytes
    requires r.Ok()
  {
    if ops == [] then []
    else match ops[0]
    case Put(data) => if |data| <= Size(r.k) then RingReads(ops[1..], r.Write(data)) else []
    case Get(n) => if n <= Size(r.k) then r.Read(n) + RingReads(ops[1..], r.Skip(n)) else []
  }

  /** Over any run within the sizes, however often the pointers overflow, the masked and split
      copies give the reads exactly what an unbounded queue would. */
  lemma {:induction false} RingIsQueue(ops: seq<Op>, r: Ring, q: Queue)
    requires q.Ok() && Refines(r, q.stream, q.done) && WithinSizes(ops, q, Size(r.k))
    ensures RingReads(ops, r) == QueueReads(ops, q, Size(r.k))
    decreases |ops|
  {
    if ops != [] {
      match ops[0]
      case Put(data) =>
        WriteRefines(r, q.stream, q.done, data);
        RingIsQueue(ops[1..], r.Write(data), Queue(q.stream + data, q.done));
      case Get(n) =>
        ReadRefines(r, q.stream, q.done, n);
        RingIsQueue(ops[1..], r.Skip(n), Queue(q.stream, q.done + n));
    }
  }

  // ---------- The regions of the sockets ----------

  /** The two memory-size registers: a size code for each socket. */
  datatype Sizes = Sizes(tx: seq<nat>, rx: seq<nat>) {
    function Codes(isTx: bool): seq<nat> {
      if isTx then tx else rx
    }

    predicate Coded() {
      |tx| == |rx| == SOCK_NUM && (forall s :: 0 <= s < SOCK_NUM ==> tx[s] <= 3)
        && (forall s :: 0 <= s < SOCK_NUM ==> rx[s] <= 3)
    }

    function Start(isTx: bool): nat {
      if isTx then TXBUF else RXBUF
    }

    /** The memory's start plus the sizes of the sockets before this one. */
    function Base(isTx: bool, sn: nat): nat
      requires Coded() && sn <= SOCK_NUM
      decreases sn
    {
      if sn == 0 then Start(isTx) else Base(isTx, sn - 1) + Size(Codes(isTx)[sn - 1])
    }

    /** The sizes of each memory sum to at most 8 KB. */
    predicate Ok() {
      && Coded()
      && (forall isTx: bool {:trigger Base(isTx, SOCK_NUM)} :: Base(isTx, SOCK_NUM) <= Start(isTx) + BUF_SIZE)
    }

    function Top(isTx: bool, sn: nat): nat
      requires Coded() && sn < SOCK_NUM
    {
      Base(isTx, sn) + Size(Codes(isTx)[sn])
    }
  }

  lemma {:induction false} BaseRises(z: Sizes, isTx: bool, s: nat, s': nat)
    requires z.Coded() && s <= s' <= SOCK_NUM
    ensures z.Start(isTx) <= z.Base(isTx, s) <= z.Base(isTx, s')
    decreases s'
  {
    if s < s' {
      BaseRises(z, isTx, s, s' - 1);
    } else if s > 0 {
      BaseRises(z, isTx, s - 1, s - 1);
    }
  }

  /** Regions lie inside their memory, and no two of them overlap. */
  lemma RegionsApart(z: Sizes, isTx: bool, s: nat, isTx': bool, s': nat)
    requires z.Ok() && s < SOCK_NUM && s' < SOCK_NUM
    ensures z.Start(isTx) <= z.Base(isTx, s) < z.Top(isTx, s) <= z.Start(isTx) + BUF_SIZE
    ensures (isTx, s) != (isTx', s') ==> z.Top(isTx, s) <= z.Base(isTx', s') || z.Top(isTx', s') <= z.Base(isTx, s)
  {
    InsideMemory(z, isTx, s);
    InsideMemory(z, isTx', s');
    if isTx == isTx' && s != s' {
      var low, high := if s < s' then s else s', if s < s' then s' else s;
      BaseRises(z, isTx, low + 1, high);
    }
  }

  lemma InsideMemory(z: Sizes, isTx: bool, s: nat)
    requires z.Ok() && s < SOCK_NUM
    ensures z.Start(isTx) <= z.Base(isTx, s) < z.Top(isTx, s) <= z.Start(isTx) + BUF_SIZE
  {
    BaseRises(z, isTx, s, s);
    BaseRises(z, isTx, s + 1, SOCK_NUM);
  }

  function Splice(m: bytes, at: nat, data: bytes): (m': bytes)
    requires at + |data| <= |m|
    ensures |m'| == |m|
  {
    m[..at] + data + m[at + |data|..]
  }

  /** Memory after a store at offset `at` of a region, split where the region ends. */
  function StoreMem(m: bytes, base: nat, size: nat, at: nat, data: bytes): (m': bytes)
    requires base + size <= |m| && at < size && |data| <= size
    ensures |m'| == |m|
  {
    var room := size - at;
    if |data| <= room then Splice(m, base + at, data)
    else Splice(Splice(m, base + at, data[..room]), base, data[room..])
  }

  lemma SpliceStep(m: bytes, at: nat, data: bytes, i: nat)
    requires at + |data| <= |m| && i < |data|
    ensures Splice(m, at, data[..i])[at + i := data[i]] == Splice(m, at, data[..i + 1])
  {
  }

  lemma SpliceHere(m: bytes, at: nat, data: bytes, lo: nat, hi: nat)
    requires lo <= at && at + |data| <= hi <= |m|
    ensures Splice(m, at, data)[lo..hi] == m[lo..at] + data + m[at + |data|..hi]
  {
  }

  lemma SpliceElsewhere(m: bytes, at: nat, data: bytes, lo: nat, hi: nat)
    requires at + |data| <= |m| && lo <= hi <= |m| && (hi <= at || at + |data| <= lo)
    ensures Splice(m, at, data)[lo..hi] == m[lo..hi]
  {
  }

  lemma SubSlice(m: bytes, base: nat, top: nat, i: nat, j: nat, lo: nat, hi: nat)
    requires base <= top <= |m| && i <= j <= top - base && lo == base + i && hi == base + j
    ensures m[base..top][i..j] == m[lo..hi]
  {
    var region := m[base..top];
    forall k | 0 <= k < j - i ensures region[i..j][k] == m[lo..hi][k] {
      assert region[i + k] == m[lo + k];
    }
  }

  /** In memory as in the region on its own, before the region's end ... */
  lemma StoreMemFits(m: bytes, base: nat, r: Ring, at: nat, data: bytes, top: nat)
    requires r.Ok() && top == base + Size(r.k) <= |m| && r.buf == m[base..top] && at + |data| <= Size(r.k)
    ensures Splice(m, base + at, data)[base..top] == r.buf[..at] + data + r.buf[at + |data|..]
  {
    SpliceHere(m, base + at, data, base, top);
    SubSlice(m, base, top, 0, at, base, base + at);
    SubSlice(m, base, top, at + |data|, Size(r.k), base + at + |data|, top);
  }

  /** ... and across it. */
  lemma StoreMemWraps(m: bytes, base: nat, r: Ring, at: nat, d0: bytes, d1: bytes, top: nat)
    requires r.Ok() && top == base + Size(r.k) <= |m| && r.buf == m[base..top] && at + |d0| == Size(r.k) && |d1| <= at
    ensures Splice(Splice(m, base + at, d0), base, d1)[base..top] == d1 + r.buf[|d1|..at] + d0
  {
    var m' := Splice(m, base + at, d0);
    StoreMemFits(m, base, r, at, d0, top);
    assert m'[base..top] == r.buf[..at] + d0;
    SpliceHere(m', base, d1, base, top);
    SubSlice(m', base, top, |d1|, Size(r.k), base + |d1|, top);
    assert (r.buf[..at] + d0)[|d1|..] == r.buf[|d1|..at] + d0;
  }

  lemma StoreMemHere(m: bytes, base: nat, r: Ring, at: nat, data: bytes, top: nat)
    requires r.Ok() && top == base + Size(r.k) <= |m| && r.buf == m[base..top] && at < Size(r.k) && |data| <= Size(r.k)
    ensures StoreMem(m, base, Size(r.k), at, data)[base..top] == r.Stored(at, data)
  {
    var room := Size(r.k) - at;
    if |data| <= room {
      StoreMemFits(m, base, r, at, data, top);
    } else {
      StoreMemWraps(m, base, r, at, data[..room], data[room..], top);
    }
  }

  lemma StoreMemElsewhere(m: bytes, base: nat, size: nat, at: nat, data: bytes, lo: nat, hi: nat)
    requires base + size <= |m| && at < size && |data| <= size && lo <= hi <= |m|
    requires hi <= base || base + size <= lo
    ensures StoreMem(m, base, size, at, data)[lo..hi] == m[lo..hi]
  {
    var room := size - at;
    if |data| <= room {
      SpliceElsewhere(m, base + at, data, lo, hi);
    } else {
      var d0, d1 := data[..room], data[room..];
      var m' := Splice(m, base + at, d0);
      assert m'[lo..hi] == m[lo..hi] by { SpliceElsewhere(m, base + at, d0, lo, hi); }
      SpliceElsewhere(m', base, d1, lo, hi);
    }
  }

  /** What wiz_recv_data copies out of memory, split where the region ends. */
  function FetchMem(m: bytes, base: nat, size: nat, at: nat, n: nat): bytes
    requires base + size <= |m| && at < size && n <= size
  {
    var room := size - at;
    if n <= room then m[base + at..base + at + n] else m[base + at..base + size] + m[base..base + (n - room)]
  }

  lemma FetchMemHere(m: bytes, base: nat, r: Ring, at: nat, n: nat, top: nat)
    requires r.Ok() && top == base + Size(r.k) <= |m| && r.buf == m[base..top] && at < Size(r.k) && n <= Size(r.k)
    ensures FetchMem(m, base, Size(r.k), at, n) == r.Fetched(at, n)
  {
    var room := Size(r.k) - at;
    if n <= room {
      SubSlice(m, base, top, at, at + n, base + at, base + at + n);
    } else {
      SubSlice(m, base, top, at, Size(r.k), base + at, top);
      SubSlice(m, base, top, 0, n - room, base, base + (n - room));
    }
  }

  /** A socket's ring as it lies in memory and in the pointer registers. */
  datatype Pointers = Pointers(txWr: seq<u16>, txRd: seq<u16>, rxWr: seq<u16>, rxRd: seq<u16>) {
    predicate Ok() {
      |txWr| == |txRd| == |rxWr| == |rxRd| == SOCK_NUM
    }
  }

  function RingIn(z: Sizes, m: bytes, p: Pointers, isTx: bool, sn: nat): (r: Ring)
    requires z.Ok() && |m| == MEM_SIZE && p.Ok() && sn < SOCK_NUM
    ensures r.Ok()
  {
    InsideMemory(z, isTx, sn);
    Ring(z.Codes(isTx)[sn], m[z.Base(isTx, sn)..z.Top(isTx, sn)],
         if isTx then p.txWr[sn] else p.rxWr[sn], if isTx then p.txRd[sn] else p.rxRd[sn])
  }

  /** What a store of data for a socket makes of memory and registers. */
  predicate Stores(z: Sizes, m: bytes, p: Pointers, isTx: bool, sn: nat, data: bytes, m': bytes, p': Pointers)
    requires z.Ok() && |m| == MEM_SIZE && p.Ok() && sn < SOCK_NUM && |data| <= Size(z.Codes(isTx)[sn])
    requires z.Top(isTx, sn) <= |m|
  {
    var wr, k := if isTx then p.txWr[sn] else p.rxWr[sn], z.Codes(isTx)[sn];
    && m' == StoreMem(m, z.Base(isTx, sn), Size(k), Masked(wr, k), data)
    && p' == if isTx then p.(txWr := p.txWr[sn := Add16(wr, |data|)]) else p.(rxWr := p.rxWr[sn := Add16(wr, |data|)])
  }

  /** A store into a socket's region, transmit or receive, is a write to its ring ... */
  lemma StoreHere(z: Sizes, m: bytes, p: Pointers, isTx: bool, sn: nat, data: bytes, m': bytes, p': Pointers)
    requires z.Ok() && |m| == MEM_SIZE && p.Ok() && sn < SOCK_NUM && |data| <= Size(z.Codes(isTx)[sn])
    requires z.Top(isTx, sn) <= |m| && Stores(z, m, p, isTx, sn, data, m', p')
    ensures |m'| == |m| && p'.Ok() && RingIn(z, m', p', isTx, sn) == RingIn(z, m, p, isTx, sn).Write(data)
  {
    InsideMemory(z, isTx, sn);
    var r := RingIn(z, m, p, isTx, sn);
    StoreMemHere(m, z.Base(isTx, sn), r, Masked(r.wr, r.k), data, z.Top(isTx, sn));
  }

  /** ... and to no other. */
  lemma StoreElsewhere(z: Sizes, m: bytes, p: Pointers, isTx: bool, sn: nat, data: bytes, m': bytes, p': Pointers,
                       isTx': bool, s: nat)
    requires z.Ok() && |m| == MEM_SIZE && p.Ok() && sn < SOCK_NUM && |data| <= Size(z.Codes(isTx)[sn])
    requires z.Top(isTx, sn) <= |m| && Stores(z, m, p, isTx, sn, data, m', p')
    requires s < SOCK_NUM && (isTx', s) != (isTx, sn)
    ensures |m'| == |m| && p'.Ok() && RingIn(z, m', p', isTx', s) == RingIn(z, m, p, isTx', s)
  {
    RegionsApart(z, isTx, sn, isTx', s);
    InsideMemory(z, isTx', s);
    var r := RingIn(z, m, p, isTx, sn);
    StoreMemElsewhere(m, z.Base(isTx, sn), Size(r.k), Masked(r.wr, r.k), data, z.Base(isTx', s), z.Top(isTx', s));
  }

  lemma ReceiveHere(z: Sizes, m: bytes, p: Pointers, sn: nat, n: nat)
    requires z.Ok() && |m| == MEM_SIZE && p.Ok() && sn < SOCK_NUM && n <= Size(z.rx[sn])
    ensures z.Top(false, sn) <= |m|
    ensures FetchMem(m, z.Base(false, sn), Size(z.rx[sn]), Masked(p.rxRd[sn], z.rx[sn]), n) ==
      RingIn(z, m, p, false, sn).Read(n)
  {
    InsideMemory(z, false, sn);
    FetchMemHere(m, z.Base(false, sn), RingIn(z, m, p, false, sn), Masked(p.rxRd[sn], z.rx[sn]), n, z.Top(false, sn));
  }

  // ---------- The code ----------

  /** The chip's memory and the registers the driver reads and writes. */
  class Chip {
    const mem: array<byte>
    var sizes: Sizes
    var txWr: seq<u16>
    var txRd: seq<u16>
    var rxWr: seq<u16>
    var rxRd: seq<u16>

    ghost predicate Valid()
      reads this
    {
      mem.Length == MEM_SIZE && sizes.Ok() && |txWr| == |txRd| == |rxWr| == |rxRd| == SOCK_NUM
    }

    ghost function Registers(): Pointers
      reads this
    {
      Pointers(txWr, txRd, rxWr, rxRd)
    }

    /** A socket's transmit or receive ring. */
    ghost function RingOf(isTx: bool, sn: nat): Ring
      requires Valid() && sn < SOCK_NUM
      reads this, mem
    {
      RingIn(sizes, mem[..], Registers(), isTx, sn)
    }

    /** getSn_TxBASE and getSn_RxBASE. */
    method GetBase(isTx: bool, sn: nat) returns (base: nat)
      requires Valid() && sn < SOCK_NUM
      ensures base == sizes.Base(isTx, sn)
    {
      base := if isTx then TXBUF else RXBUF;
      for i := 0 to sn
        invariant base == sizes.Base(isTx, i)
      {
        base := base + Size(sizes.Codes(isTx)[i]);
      }
    }

    method WriteBuf(addr: nat, buf: bytes)
      requires addr + |buf| <= mem.Length
      modifies mem
      ensures mem[..] == Splice(old(mem[..]), addr, buf)
    {
      for i := 0 to |buf|
        invariant mem[..] == Splice(old(mem[..]), addr, buf[..i])
      {
        SpliceStep(old(mem[..]), addr, buf, i);
        mem[addr + i] := buf[i];
      }
      assert buf[..|buf|] == buf;
    }

    method ReadBuf(addr: nat, len: nat) returns (buf: bytes)
      requires addr + len <= mem.Length
      ensures buf == mem[..][addr..addr + len]
    {
      buf := [];
      for i := 0 to len
        invariant buf == mem[..][addr..addr + i]
      {
        buf := buf + [mem[addr + i]];
      }
    }

    /** The copy of wiz_send_data. */
    method CopyIn(base: nat, size: nat, mask: nat, data: bytes)
      requires base + size <= mem.Length && mask < size && |data| <= size
      modifies mem
      ensures mem[..] == StoreMem(old(mem[..]), base, size, mask, data)
    {
      ghost var m := mem[..];
      if mask + |data| > size {
        var n := size - mask;
        WriteBuf(base + mask, data[..n]);
        ghost var m' := mem[..];
        assert m' == Splice(m, base + mask, data[..n]);
        WriteBuf(base, data[n..]);
        assert mem[..] == Splice(m', base, data[n..]);
      } else {
        WriteBuf(base + mask, data);
      }
    }

    /** Only this socket's transmit ring changes: every other region, transmit or receive, and
        every other pointer is left as it was. */
    method WizSendData(sn: nat, data: bytes)
      requires Valid() && sn < SOCK_NUM && |data| <= Size(sizes.tx[sn])
      modifies this`txWr, mem
      ensures Valid() && RingOf(true, sn) == old(RingOf(true, sn)).Write(data)
      ensures forall isTx: bool, s: nat :: s < SOCK_NUM && (isTx, s) != (true, sn) ==>
        RingOf(isTx, s) == old(RingOf(isTx, s))
    {
      InsideMemory(sizes, true, sn);
      ghost var m, p := mem[..], Registers();
      var ptr := txWr[sn];
      var base := GetBase(true, sn);
      CopyIn(base, Size(sizes.tx[sn]), Masked(ptr, sizes.tx[sn]), data);
      txWr := txWr[sn := Add16(ptr, |data|)];
      StoreHere(sizes, m, p, true, sn, data, mem[..], Registers());
      forall isTx: bool, s: nat | s < SOCK_NUM && (isTx, s) != (true, sn)
        ensures RingOf(isTx, s) == old(RingOf(isTx, s))
      {
        StoreElsewhere(sizes, m, p, true, sn, data, mem[..], Registers(), isTx, s);
      }
    }

    /** What the chip itself does with received data: it goes into the socket's receive ring and
        nowhere else. */
    method HardwareReceives(sn: nat, data: bytes)
      requires Valid() && sn < SOCK_NUM && |data| <= Size(sizes.rx[sn])
      modifies this`rxWr, mem
      ensures Valid() && RingOf(false, sn) == old(RingOf(false, sn)).Write(data)
      ensures forall isTx: bool, s: nat :: s < SOCK_NUM && (isTx, s) != (false, sn) ==>
        RingOf(isTx, s) == old(RingOf(isTx, s))
    {
      InsideMemory(sizes, false, sn);
      ghost var m, p := mem[..], Registers();
      var ptr := rxWr[sn];
      var base := GetBase(false, sn);
      CopyIn(base, Size(sizes.rx[sn]), Masked(ptr, sizes.rx[sn]), data);
      rxWr := rxWr[sn := Add16(ptr, |data|)];
      StoreHere(sizes, m, p, false, sn, data, mem[..], Registers());
      forall isTx: bool, s: nat | s < SOCK_NUM && (isTx, s) != (false, sn)
        ensures RingOf(isTx, s) == old(RingOf(isTx, s))
      {
        StoreElsewhere(sizes, m, p, false, sn, data, mem[..], Registers(), isTx, s);
      }
    }

    /** The copy of wiz_recv_data. */
    method CopyOut(base: nat, size: nat, mask: nat, len: nat) returns (data: bytes)
      requires base + size <= mem.Length && mask < size && len <= size
      ensures data == FetchMem(mem[..], base, size, mask, len)
    {
      if mask + len > size {
        var n := size - mask;
        data := ReadBuf(base + mask, n);
        var rest := ReadBuf(base, len - n);
        data := data + rest;
      } else {
        data := ReadBuf(base + mask, len);
      }
    }

    method WizRecvData(sn: nat, len: nat) returns (data: bytes)
      requires Valid() && sn < SOCK_NUM && len <= Size(sizes.rx[sn])
      modifies this`rxRd
      ensures Valid() && data == old(RingOf(false, sn)).Read(len)
        && RingOf(false, sn) == old(RingOf(false, sn)).Skip(len)
      ensures rxRd == old(rxRd)[sn := rxRd[sn]]
    {
      ReceiveHere(sizes, mem[..], Registers(), sn, len);
      var ptr := rxRd[sn];
      var base := GetBase(false, sn);
      data := CopyOut(base, Size(sizes.rx[sn]), Masked(ptr, sizes.rx[sn]), len);
      rxRd := rxRd[sn := Add16(ptr, len)];
    }

    method WizRecvIgnore(sn: nat, len: u16)
      requires Valid() && sn < SOCK_NUM
      modifies this`rxRd
      ensures Valid() && RingOf(false, sn) == old(RingOf(false, sn)).Skip(len)
      ensures rxRd == old(rxRd)[sn := rxRd[sn]]
    {
      rxRd := rxRd[sn := Add16(rxRd[sn], len)];
    }
  }
}
