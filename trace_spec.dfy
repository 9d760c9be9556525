/**
 * What the trace generators write, as functions of their parameters and of
 * the values the random module hands out.  Every generator is described at
 * element granularity (one unit per element); the byte-addressed variants
 * multiply each address by their element size (see TraceRecord.Scaled).
 *
 * A call `random.randint(lo, hi)` is modelled by an arbitrary integer draw
 * reduced into [lo, hi] (RandInt), and `random.choice(xs)` by an arbitrary
 * draw reduced to an index of xs (Choice); RandIntReaches and ChoiceReaches
 * show that every value Python could return is produced by some draw.
 */
module TraceSpec {
  import opened Wrappers
  import opened CInt
  import opened TraceRecord

  /** The Python exceptions a generator can raise before or while writing. */
  datatype GenError =
    | EmptyRange    // random.randint(lo, hi) with hi < lo: ValueError
    | EmptyChoice   // random.choice([]): IndexError
    | ZeroDivision  // `//` or `%` by zero: ZeroDivisionError
    | ZeroStep      // range(start, stop, 0): ValueError

  /** Number of iterations of `range(k)`: none when k is negative. */
  function Count(k: int): nat
  {
    if k < 0 then 0 else k
  }

  function RandInt(lo: int, hi: int, x: int): (r: int)
    requires lo <= hi
    ensures lo <= r <= hi
  {
    lo + x % (hi - lo + 1)
  }

  lemma RandIntReaches(lo: int, hi: int, v: int)
    requires lo <= v <= hi
    ensures RandInt(lo, hi, v - lo) == v
  {
  }

  function Choice<T>(xs: seq<T>, x: int): (r: T)
    requires |xs| > 0
    ensures r in xs
  {
    xs[x % |xs|]
  }

  lemma ChoiceReaches<T>(xs: seq<T>, i: int)
    requires 0 <= i < |xs|
    ensures Choice(xs, i) == xs[i]
  {
  }

  /** `random.choice(["R", "W"])` */
  function ChooseOp(x: int): Op
  {
    Choice([R, W], x)
  }

  /** The records of processor p, in trace order. */
  function ProcView(t: seq<Record>, p: int): (v: seq<Record>)
    ensures |v| <= |t|
    ensures forall i :: 0 <= i < |v| ==> v[i].proc == p
  {
    if |t| == 0 then []
    else ProcView(t[..|t| - 1], p) + (if t[|t| - 1].proc == p then [t[|t| - 1]] else [])
  }

  lemma {:induction false} ProcViewAppend(a: seq<Record>, b: seq<Record>, p: int)
    ensures ProcView(a + b, p) == ProcView(a, p) + ProcView(b, p)
    decreases |b|
  {
    if |b| == 0 {
      assert a + b == a;
    } else {
      assert (a + b)[..|a + b| - 1] == a + b[..|b| - 1];
      ProcViewAppend(a, b[..|b| - 1], p);
    }
  }

  lemma {:induction false} ProcViewAllOf(t: seq<Record>, p: int)
    requires forall i :: 0 <= i < |t| ==> t[i].proc == p
    ensures ProcView(t, p) == t
    decreases |t|
  {
    if |t| > 0 {
      ProcViewAllOf(t[..|t| - 1], p);
      assert t[..|t| - 1] + [t[|t| - 1]] == t;
    }
  }

  lemma {:induction false} ProcViewNoneOf(t: seq<Record>, p: int)
    requires forall i :: 0 <= i < |t| ==> t[i].proc != p
    ensures ProcView(t, p) == []
    decreases |t|
  {
    if |t| > 0 {
      ProcViewNoneOf(t[..|t| - 1], p);
    }
  }

  // ---------------------------------------------------------------------
  // Random access
  // ---------------------------------------------------------------------

  /** Draws of one random access: processor, element, operation. */
  datatype AccessDraw = AccessDraw(proc: int, elem: int, op: int)

  predicate RandomAccessFails(n: int, memSize: int, accesses: int)
  {
    Count(accesses) > 0 && (n < 1 || memSize < 1)
  }

  function AccessRecord(d: AccessDraw, n: int, memSize: int): Record
    requires n >= 1 && memSize >= 1
  {
    Record(RandInt(0, n - 1, d.proc), ChooseOp(d.op), RandInt(0, memSize - 1, d.elem))
  }

  function RandomAccessTrace(draws: seq<AccessDraw>, n: int, memSize: int): seq<Record>
    requires |draws| == 0 || (n >= 1 && memSize >= 1)
  {
    if |draws| == 0 then []
    else RandomAccessTrace(draws[..|draws| - 1], n, memSize) + [AccessRecord(draws[|draws| - 1], n, memSize)]
  }

  /** One record per access, each by a processor in [0, n) at an element in [0, mem_size). */
  lemma {:induction false} RandomAccessShape(draws: seq<AccessDraw>, n: int, memSize: int)
    requires n >= 1 && memSize >= 1
    ensures |RandomAccessTrace(draws, n, memSize)| == |draws|
    ensures forall i :: 0 <= i < |draws| ==>
      var r := RandomAccessTrace(draws, n, memSize)[i];
      0 <= r.proc < n && 0 <= r.address < memSize
    decreases |draws|
  {
    if |draws| > 0 {
      RandomAccessShape(draws[..|draws| - 1], n, memSize);
    }
  }

  /** Conversely, every sequence of in-range accesses is a possible random trace. */
  lemma {:induction false} RandomAccessReaches(t: seq<Record>, n: int, memSize: int)
    requires n >= 1 && memSize >= 1
    requires forall i :: 0 <= i < |t| ==> 0 <= t[i].proc < n && 0 <= t[i].address < memSize
    ensures RandomAccessTrace(DrawsFor(t), n, memSize) == t
    decreases |t|
  {
    if |t| > 0 {
      var last := t[|t| - 1];
      RandomAccessReaches(t[..|t| - 1], n, memSize);
      assert DrawsFor(t)[..|t| - 1] == DrawsFor(t[..|t| - 1]);
      RandIntReaches(0, n - 1, last.proc);
      RandIntReaches(0, memSize - 1, last.address);
      assert ChooseOp(if last.op == R then 0 else 1) == last.op;
      assert t[..|t| - 1] + [last] == t;
    }
  }

  /** The draws that reproduce a given trace. */
  function DrawsFor(t: seq<Record>): (ds: seq<AccessDraw>)
    ensures |ds| == |t|
  {
    seq(|t|, i requires 0 <= i < |t| => AccessDraw(t[i].proc, t[i].address, if t[i].op == R then 0 else 1))
  }

  // ---------------------------------------------------------------------
  // Shared data
  // ---------------------------------------------------------------------

  /** Draws of one shared-data access: processor, index into the shared list, operation. */
  datatype SharedDraw = SharedDraw(proc: int, pick: int, op: int)

  /** randint comes first in each iteration, so an empty processor range wins. */
  function SharedDataError(n: int, accesses: int, shared: seq<int>): (e: Option<GenError>)
    ensures e.Some? <==> Count(accesses) > 0 && (n < 1 || |shared| == 0)
  {
    if Count(accesses) == 0 then None
    else if n < 1 then Some(EmptyRange)
    else if |shared| == 0 then Some(EmptyChoice)
    else None
  }

  function SharedDataTrace(draws: seq<SharedDraw>, n: int, shared: seq<int>): seq<Record>
    requires |draws| == 0 || (n >= 1 && |shared| > 0)
  {
    if |draws| == 0 then []
    else
      var d := draws[|draws| - 1];
      SharedDataTrace(draws[..|draws| - 1], n, shared)
        + [Record(RandInt(0, n - 1, d.proc), ChooseOp(d.op), Choice(shared, d.pick))]
  }

  /** One record per access, each by a processor in [0, n) at one of the shared addresses. */
  lemma {:induction false} SharedDataShape(draws: seq<SharedDraw>, n: int, shared: seq<int>)
    requires n >= 1 && |shared| > 0
    ensures |SharedDataTrace(draws, n, shared)| == |draws|
    ensures forall i :: 0 <= i < |draws| ==>
      var r := SharedDataTrace(draws, n, shared)[i];
      0 <= r.proc < n && r.address in shared
    decreases |draws|
  {
    if |draws| > 0 {
      SharedDataShape(draws[..|draws| - 1], n, shared);
    }
  }

  // ---------------------------------------------------------------------
  // Producer-consumer
  // ---------------------------------------------------------------------

  /** Draws of one producer-consumer access: processor, index into the buffer. */
  datatype PcDraw = PcDraw(proc: int, pick: int)

  /** `[i for i in range(buffer_size)]` */
  function BufferAddresses(bufferSize: int): (b: seq<int>)
    ensures |b| == Count(bufferSize)
    ensures forall i :: 0 <= i < |b| ==> b[i] == i
  {
    seq(Count(bufferSize), i => i)
  }

  function ProducerConsumerError(n: int, accesses: int, bufferSize: int): (e: Option<GenError>)
    ensures e.Some? <==> Count(accesses) > 0 && (n < 1 || bufferSize < 1)
  {
    if Count(accesses) == 0 then None
    else if n < 1 then Some(EmptyRange)
    else if bufferSize < 1 then Some(EmptyChoice)
    else None
  }

  /** Even-numbered processors produce (write), odd-numbered ones consume (read). */
  function RoleOf(proc: int): Op
  {
    if PyMod(proc, 2) == 0 then W else R
  }

  function ProducerConsumerTrace(draws: seq<PcDraw>, n: int, bufferSize: int): seq<Record>
    requires |draws| == 0 || (n >= 1 && bufferSize >= 1)
  {
    if |draws| == 0 then []
    else
      var d := draws[|draws| - 1];
      var proc := RandInt(0, n - 1, d.proc);
      ProducerConsumerTrace(draws[..|draws| - 1], n, bufferSize)
        + [Record(proc, RoleOf(proc), Choice(BufferAddresses(bufferSize), d.pick))]
  }

  /** Writes come exactly from even processors, and every address lies in the buffer. */
  lemma {:induction false} ProducerConsumerShape(draws: seq<PcDraw>, n: int, bufferSize: int)
    requires n >= 1 && bufferSize >= 1
    ensures |ProducerConsumerTrace(draws, n, bufferSize)| == |draws|
    ensures forall i :: 0 <= i < |draws| ==>
      var r := ProducerConsumerTrace(draws, n, bufferSize)[i];
      && 0 <= r.proc < n
      && (r.op == W <==> r.proc % 2 == 0)
      && 0 <= r.address < bufferSize
    decreases |draws|
  {
    if |draws| > 0 {
      ProducerConsumerShape(draws[..|draws| - 1], n, bufferSize);
    }
  }

  // ---------------------------------------------------------------------
  // False sharing
  // ---------------------------------------------------------------------

  /**
   * Same-line variant: line_start is drawn before the loop, so a line size
   * below 1 raises even when no access is asked for.
   */
  function FalseSharingError(n: int, accesses: int, lineSize: int): (e: Option<GenError>)
    ensures e.Some? <==> lineSize < 1 || (Count(accesses) > 0 && n < 1)
  {
    if lineSize < 1 then Some(EmptyRange)
    else if Count(accesses) > 0 && n < 1 then Some(EmptyRange)
    else None
  }

  function FalseSharingTrace(lineDraw: int, procs: seq<int>, n: int, lineSize: int): seq<Record>
    requires lineSize >= 1 && (|procs| == 0 || n >= 1)
  {
    if |procs| == 0 then []
    else
      var lineStart := RandInt(0, lineSize - 1, lineDraw);
      var proc := RandInt(0, n - 1, procs[|procs| - 1]);
      FalseSharingTrace(lineDraw, procs[..|procs| - 1], n, lineSize)
        + [Record(proc, W, lineStart + PyMod(proc * lineSize, lineSize))]
  }

  lemma MultipleModIsZero(p: int, c: int)
    requires c >= 1
    ensures (p * c) % c == 0
  {
    var q, r := (p * c) / c, (p * c) % c;
    assert r == c * (p - q);
    if p - q >= 1 {
      assert false;
    } else if p - q <= -1 {
      assert false;
    }
  }

  /**
   * Every access is a write, and all of them hit one and the same address,
   * the drawn line start in [0, cache_line_size): `(proc * size) % size` is
   * always 0.
   */
  lemma {:induction false} FalseSharingShape(lineDraw: int, procs: seq<int>, n: int, lineSize: int)
    requires lineSize >= 1 && n >= 1
    ensures |FalseSharingTrace(lineDraw, procs, n, lineSize)| == |procs|
    ensures forall i :: 0 <= i < |procs| ==>
      var r := FalseSharingTrace(lineDraw, procs, n, lineSize)[i];
      && 0 <= r.proc < n
      && r.op == W
      && r.address == RandInt(0, lineSize - 1, lineDraw)
      && 0 <= r.address < lineSize
    decreases |procs|
  {
    if |procs| > 0 {
      FalseSharingShape(lineDraw, procs[..|procs| - 1], n, lineSize);
      MultipleModIsZero(RandInt(0, n - 1, procs[|procs| - 1]), lineSize);
    }
  }

  /** Scaled variant: processor p writes element p * cache_line_size. */
  function StridedSharingTrace(procs: seq<int>, n: int, lineSize: int): seq<Record>
    requires |procs| == 0 || n >= 1
  {
    if |procs| == 0 then []
    else
      var proc := RandInt(0, n - 1, procs[|procs| - 1]);
      StridedSharingTrace(procs[..|procs| - 1], n, lineSize) + [Record(proc, W, proc * lineSize)]
  }

  /**
   * Every access is a write, and with a non-zero line size two records share
   * an address exactly when they come from the same processor.
   */
  lemma {:induction false} StridedSharingShape(procs: seq<int>, n: int, lineSize: int)
    requires n >= 1
    ensures |StridedSharingTrace(procs, n, lineSize)| == |procs|
    ensures forall i :: 0 <= i < |procs| ==>
      var r := StridedSharingTrace(procs, n, lineSize)[i];
      0 <= r.proc < n && r.op == W && r.address == r.proc * lineSize
    ensures lineSize != 0 ==> forall i, j :: 0 <= i < |procs| && 0 <= j < |procs| ==>
      var t := StridedSharingTrace(procs, n, lineSize);
      (t[i].address == t[j].address <==> t[i].proc == t[j].proc)
    decreases |procs|
  {
    var t := StridedSharingTrace(procs, n, lineSize);
    if |procs| > 0 {
      StridedSharingShape(procs[..|procs| - 1], n, lineSize);
    }
    if lineSize != 0 {
      forall i, j | 0 <= i < |procs| && 0 <= j < |procs| && t[i].address == t[j].address
        ensures t[i].proc == t[j].proc
      {
        MulCancel(t[i].proc, t[j].proc, lineSize);
      }
    }
  }

  lemma MulCancel(a: int, b: int, c: int)
    requires c != 0 && a * c == b * c
    ensures a == b
  {
  }

  // ---------------------------------------------------------------------
  // Helpers: arithmetic on row-major indices, slices of concatenations,
  // and the per-processor view of a trace built block by block
  // ---------------------------------------------------------------------

  lemma MulMono(a: int, b: int, m: int)
    requires a <= b && m >= 0
    ensures a * m <= b * m
  {
    assert b * m - a * m == (b - a) * m;
  }

  lemma MulSucc(a: int, m: int)
    ensures (a + 1) * m == a * m + m
  {
  }

  /** Row-major index of an element of an m-by-m matrix. */
  lemma CellInMatrix(row: int, col: int, m: int)
    requires 0 <= row < m && 0 <= col < m
    ensures 0 <= row * m + col < m * m
  {
    MulMono(0, row, m);
    MulMono(row, m - 1, m);
    MulSucc(m - 1, m);
  }

  lemma SliceLeft<T>(a: seq<T>, b: seq<T>, i: int, j: int)
    requires 0 <= i <= j <= |a|
    ensures (a + b)[i..j] == a[i..j]
  {
  }

  lemma SliceRight<T>(a: seq<T>, b: seq<T>, i: int, j: int)
    requires |a| <= i <= j <= |a| + |b|
    ensures (a + b)[i..j] == b[i - |a|..j - |a|]
  {
  }

  lemma InLeft<T>(x: T, a: seq<T>, b: seq<T>)
    requires x in a
    ensures x in a + b
  {
  }

  lemma InRight<T>(x: T, a: seq<T>, b: seq<T>)
    requires x in b
    ensures x in a + b
  {
  }

  /**
   * Appending the block of a new processor `last`, which no earlier record
   * belongs to, leaves every earlier processor's view alone and makes the
   * block the new processor's whole view.
   */
  lemma ProcViewNewBlock(t0: seq<Record>, blk: seq<Record>, last: int, p: int)
    requires forall i :: 0 <= i < |t0| ==> t0[i].proc < last
    requires forall i :: 0 <= i < |blk| ==> blk[i].proc == last
    ensures p == last ==> ProcView(t0 + blk, p) == blk
    ensures p != last ==> ProcView(t0 + blk, p) == ProcView(t0, p)
  {
    ProcViewAppend(t0, blk, p);
    if p == last {
      ProcViewNoneOf(t0, p);
      ProcViewAllOf(blk, p);
    } else {
      ProcViewNoneOf(blk, p);
    }
  }

  // ---------------------------------------------------------------------
  // Parallel matrix multiplication
  // ---------------------------------------------------------------------

  /** Draws of one computed element: its row and its column. */
  datatype CellDraw = CellDraw(row: int, col: int)

  /** `(m * m) // n` */
  function ElementsPerProcessor(m: int, n: int): int
    requires n != 0
  {
    PyDiv(m * m, n)
  }

  /**
   * The division comes first; the row draw raises only when some
   * processor has an element to compute and the matrix is empty.
   */
  function MatrixMultError(m: int, n: int): (e: Option<GenError>)
    ensures e == Some(ZeroDivision) <==> n == 0
    ensures e == Some(EmptyRange) <==> n > 0 && ElementsPerProcessor(m, n) > 0 && m < 1
  {
    if n == 0 then Some(ZeroDivision)
    else if n > 0 && ElementsPerProcessor(m, n) > 0 && m < 1 then Some(EmptyRange)
    else None
  }

  /** The reads of the first i inner iterations for element (row, col). */
  function CellReads(p: int, row: int, col: int, m: int, i: nat): seq<Record>
  {
    if i == 0 then []
    else CellReads(p, row, col, m, i - 1) + [Record(p, R, row * m + (i - 1)), Record(p, R, (i - 1) * m + col)]
  }

  /** All the accesses for one computed element: row and column reads, then the write. */
  function CellBlock(p: int, row: int, col: int, m: int): seq<Record>
  {
    CellReads(p, row, col, m, Count(m)) + [Record(p, W, row * m + col)]
  }

  function ProcessorCells(p: int, ds: seq<CellDraw>, m: int): seq<Record>
    requires |ds| == 0 || m >= 1
  {
    if |ds| == 0 then []
    else
      var d := ds[|ds| - 1];
      ProcessorCells(p, ds[..|ds| - 1], m) + CellBlock(p, RandInt(0, m - 1, d.row), RandInt(0, m - 1, d.col), m)
  }

  /** An empty matrix can only be handled when no element has to be drawn. */
  predicate CellsDrawable(cells: seq<seq<CellDraw>>, m: int)
  {
    m >= 1 || forall p :: 0 <= p < |cells| ==> |cells[p]| == 0
  }

  function MatrixMultTrace(cells: seq<seq<CellDraw>>, m: int): seq<Record>
    requires CellsDrawable(cells, m)
  {
    if |cells| == 0 then []
    else MatrixMultTrace(cells[..|cells| - 1], m) + ProcessorCells(|cells| - 1, cells[|cells| - 1], m)
  }

  lemma {:induction false} CellReadsShape(p: int, row: int, col: int, m: int, i: nat)
    ensures |CellReads(p, row, col, m, i)| == 2 * i
    ensures forall k :: 0 <= k < i ==>
      CellReads(p, row, col, m, i)[2 * k] == Record(p, R, row * m + k)
      && CellReads(p, row, col, m, i)[2 * k + 1] == Record(p, R, k * m + col)
    decreases i
  {
    if i > 0 {
      CellReadsShape(p, row, col, m, i - 1);
    }
  }

  lemma {:induction false} CellReadsInMatrix(p: int, row: int, col: int, m: int, i: nat)
    requires 0 <= row < m && 0 <= col < m && i <= m
    ensures forall j :: 0 <= j < |CellReads(p, row, col, m, i)| ==>
      CellReads(p, row, col, m, i)[j].proc == p && 0 <= CellReads(p, row, col, m, i)[j].address < m * m
    decreases i
  {
    if i > 0 {
      CellReadsInMatrix(p, row, col, m, i - 1);
      CellInMatrix(row, i - 1, m);
      CellInMatrix(i - 1, col, m);
    }
  }

  /**
   * For element (row, col) a processor reads row `row` left to right
   * interleaved with column `col` top to bottom, then writes the element;
   * every access lies inside the m-by-m matrix.
   */
  lemma CellBlockShape(p: int, row: int, col: int, m: int)
    requires 0 <= row < m && 0 <= col < m
    ensures var b := CellBlock(p, row, col, m);
      && |b| == 2 * m + 1
      && (forall k :: 0 <= k < m ==> b[2 * k] == Record(p, R, row * m + k) && b[2 * k + 1] == Record(p, R, k * m + col))
      && b[2 * m] == Record(p, W, row * m + col)
      && (forall i :: 0 <= i < |b| ==> b[i].proc == p && 0 <= b[i].address < m * m)
  {
    CellReadsShape(p, row, col, m, m);
    CellReadsInMatrix(p, row, col, m, m);
    CellInMatrix(row, col, m);
  }

  lemma {:induction false} ProcessorCellsLength(p: int, ds: seq<CellDraw>, m: int)
    requires m >= 1
    ensures |ProcessorCells(p, ds, m)| == |ds| * (2 * m + 1)
    decreases |ds|
  {
    if |ds| > 0 {
      var d := ds[|ds| - 1];
      ProcessorCellsLength(p, ds[..|ds| - 1], m);
      CellBlockShape(p, RandInt(0, m - 1, d.row), RandInt(0, m - 1, d.col), m);
      MulSucc(|ds| - 1, 2 * m + 1);
    }
  }

  lemma {:induction false} ProcessorCellsInMatrix(p: int, ds: seq<CellDraw>, m: int)
    requires m >= 1
    ensures forall i :: 0 <= i < |ProcessorCells(p, ds, m)| ==>
      ProcessorCells(p, ds, m)[i].proc == p && 0 <= ProcessorCells(p, ds, m)[i].address < m * m
    decreases |ds|
  {
    if |ds| > 0 {
      var d := ds[|ds| - 1];
      ProcessorCellsInMatrix(p, ds[..|ds| - 1], m);
      CellBlockShape(p, RandInt(0, m - 1, d.row), RandInt(0, m - 1, d.col), m);
    }
  }

  /** Each of the n processors does e elements of 2m+1 accesses. */
  lemma {:induction false} MatrixMultLength(cells: seq<seq<CellDraw>>, m: int, e: nat)
    requires m >= 1
    requires forall p :: 0 <= p < |cells| ==> |cells[p]| == e
    ensures |MatrixMultTrace(cells, m)| == |cells| * (e * (2 * m + 1))
    decreases |cells|
  {
    if |cells| > 0 {
      MatrixMultLength(cells[..|cells| - 1], m, e);
      ProcessorCellsLength(|cells| - 1, cells[|cells| - 1], m);
      MulSucc(|cells| - 1, e * (2 * m + 1));
    }
  }

  /** Every access is by one of the n processors and inside the m-by-m matrix. */
  lemma {:induction false} MatrixMultInMatrix(cells: seq<seq<CellDraw>>, m: int)
    requires m >= 1
    ensures forall i :: 0 <= i < |MatrixMultTrace(cells, m)| ==>
      var r := MatrixMultTrace(cells, m)[i];
      0 <= r.proc < |cells| && 0 <= r.address < m * m
    decreases |cells|
  {
    if |cells| > 0 {
      MatrixMultInMatrix(cells[..|cells| - 1], m);
      ProcessorCellsInMatrix(|cells| - 1, cells[|cells| - 1], m);
    }
  }

  /** The records of processor p are exactly its own element blocks, in order. */
  lemma {:induction false} MatrixMultProcView(cells: seq<seq<CellDraw>>, m: int)
    requires m >= 1
    ensures forall p :: 0 <= p < |cells| ==>
      ProcView(MatrixMultTrace(cells, m), p) == ProcessorCells(p, cells[p], m)
    decreases |cells|
  {
    if |cells| > 0 {
      var last := |cells| - 1;
      var front := cells[..last];
      MatrixMultProcView(front, m);
      MatrixMultInMatrix(front, m);
      ProcessorCellsInMatrix(last, cells[last], m);
      forall p | 0 <= p < |cells|
        ensures ProcView(MatrixMultTrace(cells, m), p) == ProcessorCells(p, cells[p], m)
      {
        ProcViewNewBlock(MatrixMultTrace(front, m), ProcessorCells(last, cells[last], m), last, p);
      }
    }
  }

  /**
   * The trace is processor 0's blocks, then processor 1's, and so on: the
   * processor ids never decrease along the trace.
   */
  lemma {:induction false} MatrixMultOrder(cells: seq<seq<CellDraw>>, m: int)
    requires CellsDrawable(cells, m)
    ensures forall i :: 0 <= i < |MatrixMultTrace(cells, m)| ==> 0 <= MatrixMultTrace(cells, m)[i].proc < |cells|
    ensures forall i, j :: 0 <= i < j < |MatrixMultTrace(cells, m)| ==>
      MatrixMultTrace(cells, m)[i].proc <= MatrixMultTrace(cells, m)[j].proc
    decreases |cells|
  {
    if |cells| > 0 {
      var last := |cells| - 1;
      var front := cells[..last];
      assert CellsDrawable(front, m);
      MatrixMultOrder(front, m);
      var t0 := MatrixMultTrace(front, m);
      var blk := ProcessorCells(last, cells[last], m);
      if m >= 1 {
        ProcessorCellsInMatrix(last, cells[last], m);
      } else {
        assert |cells[last]| == 0;
      }
      assert forall k :: 0 <= k < |blk| ==> blk[k].proc == last;
      var t := t0 + blk;
      forall i | 0 <= i < |t|
        ensures 0 <= t[i].proc < |cells|
      {
        if i < |t0| {
          assert t[i] == t0[i];
        } else {
          assert t[i] == blk[i - |t0|];
        }
      }
      forall i, j | 0 <= i < j < |t|
        ensures t[i].proc <= t[j].proc
      {
        if j >= |t0| {
          assert t[j] == blk[j - |t0|];
          if i >= |t0| {
            assert t[i] == blk[i - |t0|];
          } else {
            assert t[i] == t0[i];
          }
        } else {
          assert t[i] == t0[i] && t[j] == t0[j];
        }
      }
    }
  }

  // ---------------------------------------------------------------------
  // Sequential access
  // ---------------------------------------------------------------------

  /** Processor p walks its own block of `length` elements, starting at p * length. */
  function SequentialRun(p: int, length: int, ops: seq<int>): seq<Record>
  {
    if |ops| == 0 then []
    else SequentialRun(p, length, ops[..|ops| - 1]) + [Record(p, ChooseOp(ops[|ops| - 1]), p * length + (|ops| - 1))]
  }

  function SequentialTrace(ops: seq<seq<int>>, length: int): seq<Record>
  {
    if |ops| == 0 then []
    else SequentialTrace(ops[..|ops| - 1], length) + SequentialRun(|ops| - 1, length, ops[|ops| - 1])
  }

  lemma {:induction false} SequentialRunShape(p: int, length: int, ops: seq<int>)
    ensures |SequentialRun(p, length, ops)| == |ops|
    ensures forall a :: 0 <= a < |ops| ==>
      SequentialRun(p, length, ops)[a] == Record(p, ChooseOp(ops[a]), p * length + a)
    decreases |ops|
  {
    if |ops| > 0 {
      SequentialRunShape(p, length, ops[..|ops| - 1]);
    }
  }

  /** Every processor makes `length` accesses. */
  lemma {:induction false} SequentialLength(ops: seq<seq<int>>, length: int)
    requires forall p :: 0 <= p < |ops| ==> |ops[p]| == Count(length)
    ensures |SequentialTrace(ops, length)| == |ops| * Count(length)
    decreases |ops|
  {
    if |ops| > 0 {
      SequentialLength(ops[..|ops| - 1], length);
      SequentialRunShape(|ops| - 1, length, ops[|ops| - 1]);
      MulSucc(|ops| - 1, Count(length));
    }
  }

  /** The records of processor p lie in its own region [p * length, (p + 1) * length). */
  lemma {:induction false} SequentialRegions(ops: seq<seq<int>>, length: int)
    requires forall p :: 0 <= p < |ops| ==> |ops[p]| == Count(length)
    ensures forall i :: 0 <= i < |SequentialTrace(ops, length)| ==>
      var r := SequentialTrace(ops, length)[i];
      0 <= r.proc < |ops| && r.proc * length <= r.address < r.proc * length + length
    decreases |ops|
  {
    if |ops| > 0 {
      SequentialRegions(ops[..|ops| - 1], length);
      SequentialRunShape(|ops| - 1, length, ops[|ops| - 1]);
    }
  }

  /**
   * Processors come in order 0, 1, ..., and each processor's addresses
   * strictly increase.
   */
  lemma {:induction false} SequentialOrder(ops: seq<seq<int>>, length: int)
    requires forall p :: 0 <= p < |ops| ==> |ops[p]| == Count(length)
    ensures forall i, j :: 0 <= i < j < |SequentialTrace(ops, length)| ==>
      var t := SequentialTrace(ops, length);
      t[i].proc <= t[j].proc && (t[i].proc == t[j].proc ==> t[i].address < t[j].address)
    decreases |ops|
  {
    if |ops| > 0 {
      var last := |ops| - 1;
      SequentialOrder(ops[..last], length);
      SequentialRegions(ops[..last], length);
      SequentialRunShape(last, length, ops[last]);
      var t0 := SequentialTrace(ops[..last], length);
      var run := SequentialRun(last, length, ops[last]);
      var t := t0 + run;
      forall i, j | 0 <= i < j < |t|
        ensures t[i].proc <= t[j].proc && (t[i].proc == t[j].proc ==> t[i].address < t[j].address)
      {
        if j >= |t0| {
          assert t[j] == run[j - |t0|];
          if i >= |t0| {
            assert t[i] == run[i - |t0|];
          } else {
            assert t[i] == t0[i];
          }
        } else {
          assert t[i] == t0[i] && t[j] == t0[j];
        }
      }
    }
  }

  /** The records of processor p are exactly its own run, in order. */
  lemma {:induction false} SequentialProcView(ops: seq<seq<int>>, length: int)
    requires forall p :: 0 <= p < |ops| ==> |ops[p]| == Count(length)
    ensures forall p :: 0 <= p < |ops| ==>
      ProcView(SequentialTrace(ops, length), p) == SequentialRun(p, length, ops[p])
    decreases |ops|
  {
    if |ops| > 0 {
      var last := |ops| - 1;
      SequentialProcView(ops[..last], length);
      SequentialRegions(ops[..last], length);
      SequentialRunShape(last, length, ops[last]);
      forall p | 0 <= p < |ops|
        ensures ProcView(SequentialTrace(ops, length), p) == SequentialRun(p, length, ops[p])
      {
        ProcViewNewBlock(SequentialTrace(ops[..last], length), SequentialRun(last, length, ops[last]), last, p);
      }
    }
  }

  /** Different processors never touch the same address. */
  lemma SequentialDisjoint(ops: seq<seq<int>>, length: int)
    requires forall p :: 0 <= p < |ops| ==> |ops[p]| == Count(length)
    ensures forall i, j :: 0 <= i < |SequentialTrace(ops, length)| && 0 <= j < |SequentialTrace(ops, length)| ==>
      var t := SequentialTrace(ops, length);
      t[i].proc != t[j].proc ==> t[i].address != t[j].address
  {
    SequentialRegions(ops, length);
    var t := SequentialTrace(ops, length);
    forall i, j | 0 <= i < |t| && 0 <= j < |t| && t[i].proc < t[j].proc
      ensures t[i].address < t[j].address
    {
      MulMono(t[i].proc + 1, t[j].proc, length);
      MulSucc(t[i].proc, length);
    }
  }

  // ---------------------------------------------------------------------
  // Stride access
  // ---------------------------------------------------------------------

  /** `range(0, length * stride, stride)` raises for a zero step once any processor starts. */
  function StrideError(n: int, stride: int): (e: Option<GenError>)
    ensures e.Some? <==> Count(n) > 0 && stride == 0
  {
    if Count(n) > 0 && stride == 0 then Some(ZeroStep) else None
  }

  /**
   * Processor p visits 0, stride, 2 * stride, ...: for a non-zero step,
   * `range(0, length * stride, stride)` yields k * stride for k in
   * [0, length) whichever the sign of the step.
   */
  function StrideRun(p: int, stride: int, ops: seq<int>): seq<Record>
  {
    if |ops| == 0 then []
    else StrideRun(p, stride, ops[..|ops| - 1]) + [Record(p, ChooseOp(ops[|ops| - 1]), (|ops| - 1) * stride)]
  }

  function StrideTrace(ops: seq<seq<int>>, stride: int): seq<Record>
  {
    if |ops| == 0 then []
    else StrideTrace(ops[..|ops| - 1], stride) + StrideRun(|ops| - 1, stride, ops[|ops| - 1])
  }

  /** A processor's k-th access is to element k * stride. */
  lemma {:induction false} StrideRunShape(p: int, stride: int, ops: seq<int>)
    ensures |StrideRun(p, stride, ops)| == |ops|
    ensures forall k :: 0 <= k < |ops| ==>
      StrideRun(p, stride, ops)[k] == Record(p, ChooseOp(ops[k]), k * stride)
    decreases |ops|
  {
    if |ops| > 0 {
      StrideRunShape(p, stride, ops[..|ops| - 1]);
    }
  }

  /** Every processor makes `length` accesses; processors come in order 0, 1, .... */
  lemma {:induction false} StrideOrder(ops: seq<seq<int>>, stride: int, length: int)
    requires forall p :: 0 <= p < |ops| ==> |ops[p]| == Count(length)
    ensures |StrideTrace(ops, stride)| == |ops| * Count(length)
    ensures forall i :: 0 <= i < |StrideTrace(ops, stride)| ==>
      0 <= StrideTrace(ops, stride)[i].proc < |ops|
    ensures forall i, j :: 0 <= i < j < |StrideTrace(ops, stride)| ==>
      StrideTrace(ops, stride)[i].proc <= StrideTrace(ops, stride)[j].proc
    decreases |ops|
  {
    if |ops| > 0 {
      var last := |ops| - 1;
      StrideOrder(ops[..last], stride, length);
      StrideRunShape(last, stride, ops[last]);
      MulSucc(last, Count(length));
      var t0 := StrideTrace(ops[..last], stride);
      var run := StrideRun(last, stride, ops[last]);
      var t := t0 + run;
      forall i, j | 0 <= i < j < |t|
        ensures t[i].proc <= t[j].proc
      {
        if j >= |t0| {
          assert t[j] == run[j - |t0|];
          if i < |t0| {
            assert t[i] == t0[i];
          }
        }
      }
    }
  }

  /** The records of processor p are exactly its strided run, in order. */
  lemma {:induction false} StrideProcView(ops: seq<seq<int>>, stride: int)
    ensures forall p :: 0 <= p < |ops| ==>
      ProcView(StrideTrace(ops, stride), p) == StrideRun(p, stride, ops[p])
    decreases |ops|
  {
    if |ops| > 0 {
      var last := |ops| - 1;
      StrideProcView(ops[..last], stride);
      StrideProcs(ops[..last], stride);
      StrideRunShape(last, stride, ops[last]);
      forall p | 0 <= p < |ops|
        ensures ProcView(StrideTrace(ops, stride), p) == StrideRun(p, stride, ops[p])
      {
        ProcViewNewBlock(StrideTrace(ops[..last], stride), StrideRun(last, stride, ops[last]), last, p);
      }
    }
  }

  lemma {:induction false} StrideProcs(ops: seq<seq<int>>, stride: int)
    ensures forall i :: 0 <= i < |StrideTrace(ops, stride)| ==>
      0 <= StrideTrace(ops, stride)[i].proc < |ops|
    decreases |ops|
  {
    if |ops| > 0 {
      StrideProcs(ops[..|ops| - 1], stride);
      StrideRunShape(|ops| - 1, stride, ops[|ops| - 1]);
    }
  }

  // ---------------------------------------------------------------------
  // Matrix transpose
  // ---------------------------------------------------------------------

  /** The first `% n` raises when the matrix is not empty and there are no processors. */
  function TransposeError(m: int, n: int): (e: Option<GenError>)
    ensures e.Some? <==> m > 0 && n == 0
  {
    if m > 0 && n == 0 then Some(ZeroDivision) else None
  }

  /**
   * Element (row, col) is handled by processor (row * m + col) mod n, which
   * reads it and writes its transposed position (col, row).
   */
  function TransposeCell(m: int, n: int, row: int, col: int): seq<Record>
    requires n != 0
  {
    var k := row * m + col;
    [Record(PyMod(k, n), R, k), Record(PyMod(k, n), W, col * m + row)]
  }

  function TransposeRow(m: int, n: int, row: int, c: nat): seq<Record>
    requires n != 0
  {
    if c == 0 then [] else TransposeRow(m, n, row, c - 1) + TransposeCell(m, n, row, c - 1)
  }

  function TransposeRows(m: int, n: int, r: nat): seq<Record>
    requires n != 0
  {
    if r == 0 then [] else TransposeRows(m, n, r - 1) + TransposeRow(m, n, r - 1, Count(m))
  }

  function TransposeTrace(m: int, n: int): seq<Record>
    requires m <= 0 || n != 0
  {
    if m <= 0 then [] else TransposeRows(m, n, m)
  }

  lemma {:induction false} TransposeRowShape(m: int, n: int, row: int, c: nat)
    requires n != 0
    ensures |TransposeRow(m, n, row, c)| == 2 * c
    ensures forall col :: 0 <= col < c ==>
      TransposeRow(m, n, row, c)[2 * col..2 * col + 2] == TransposeCell(m, n, row, col)
    decreases c
  {
    if c > 0 {
      TransposeRowShape(m, n, row, c - 1);
      var a := TransposeRow(m, n, row, c - 1);
      var b := TransposeCell(m, n, row, c - 1);
      forall col | 0 <= col < c
        ensures (a + b)[2 * col..2 * col + 2] == TransposeCell(m, n, row, col)
      {
        if col < c - 1 {
          SliceLeft(a, b, 2 * col, 2 * col + 2);
        } else {
          SliceRight(a, b, 2 * col, 2 * col + 2);
        }
      }
    }
  }

  lemma {:induction false} TransposeRowsLength(m: int, n: int, r: nat)
    requires n != 0 && m >= 1
    ensures |TransposeRows(m, n, r)| == r * (2 * m)
    decreases r
  {
    if r > 0 {
      TransposeRowsLength(m, n, r - 1);
      TransposeRowShape(m, n, r - 1, m);
      MulSucc(r - 1, 2 * m);
    }
  }

  /** Element (row, col) of the first r rows sits at positions 2(row * m + col) and the one after. */
  lemma {:induction false} TransposeRowsAt(m: int, n: int, r: nat, row: int, col: int)
    requires n != 0 && m >= 1 && 0 <= row < r && 0 <= col < m
    ensures 2 * (row * m + col) + 2 <= |TransposeRows(m, n, r)|
    ensures TransposeRows(m, n, r)[2 * (row * m + col)..2 * (row * m + col) + 2] == TransposeCell(m, n, row, col)
    decreases r
  {
    TransposeRowsLength(m, n, r - 1);
    TransposeRowShape(m, n, r - 1, Count(m));
    var a := TransposeRows(m, n, r - 1);
    var b := TransposeRow(m, n, r - 1, Count(m));
    DoubleProduct(r - 1, m);
    RowMajorBound(row, col, m, r);
    var i := 2 * (row * m + col);
    if row < r - 1 {
      TransposeRowsAt(m, n, r - 1, row, col);
      SliceLeft(a, b, i, i + 2);
    } else {
      assert b[2 * col..2 * col + 2] == TransposeCell(m, n, row, col);
      SliceRight(a, b, i, i + 2);
    }
  }

  lemma DoubleProduct(a: int, m: int)
    ensures a * (2 * m) == 2 * (a * m)
  {
  }

  /** Where element (row, col) falls relative to the rows before row r - 1. */
  lemma RowMajorBound(row: int, col: int, m: int, r: int)
    ensures 0 <= row < r - 1 && 0 <= col < m ==> row * m + col + 1 <= (r - 1) * m
    ensures row == r - 1 ==> row * m + col == (r - 1) * m + col
    ensures 0 <= row && 0 <= col && 0 <= m ==> 0 <= row * m + col
  {
    if 0 <= row && 0 <= m {
      MulMono(0, row, m);
    }
    if 0 <= row < r - 1 && 0 <= col < m {
      MulMono(row + 1, r - 1, m);
      MulSucc(row, m);
    }
  }

  /** `rec` is the read or the write of one of the first c elements of row `row`. */
  ghost predicate FromRowCell(rec: Record, m: int, n: int, row: int, c: int)
    requires n != 0
  {
    exists col :: 0 <= col < c && rec in TransposeCell(m, n, row, col)
  }

  /** `rec` is the read or the write of one of the elements of the first r rows. */
  ghost predicate FromMatrixCell(rec: Record, m: int, n: int, r: int)
    requires n != 0
  {
    exists row, col :: 0 <= row < r && 0 <= col < m && rec in TransposeCell(m, n, row, col)
  }

  /** A row holds exactly the records of its cells. */
  lemma {:induction false} TransposeRowMembers(m: int, n: int, row: int, c: nat)
    requires n != 0
    ensures forall col :: 0 <= col < c ==>
      TransposeCell(m, n, row, col)[0] in TransposeRow(m, n, row, c)
      && TransposeCell(m, n, row, col)[1] in TransposeRow(m, n, row, c)
    ensures forall i :: 0 <= i < |TransposeRow(m, n, row, c)| ==> FromRowCell(TransposeRow(m, n, row, c)[i], m, n, row, c)
    decreases c
  {
    if c > 0 {
      TransposeRowMembers(m, n, row, c - 1);
      var a := TransposeRow(m, n, row, c - 1);
      var b := TransposeCell(m, n, row, c - 1);
      var t := a + b;
      assert TransposeRow(m, n, row, c) == t;
      forall col | 0 <= col < c
        ensures TransposeCell(m, n, row, col)[0] in t && TransposeCell(m, n, row, col)[1] in t
      {
        if col < c - 1 {
          InLeft(TransposeCell(m, n, row, col)[0], a, b);
          InLeft(TransposeCell(m, n, row, col)[1], a, b);
        } else {
          assert t[|a|] == b[0] && t[|a| + 1] == b[1];
        }
      }
      forall i | 0 <= i < |t|
        ensures FromRowCell(t[i], m, n, row, c)
      {
        if i < |a| {
          assert FromRowCell(a[i], m, n, row, c - 1);
          var col :| 0 <= col < c - 1 && a[i] in TransposeCell(m, n, row, col);
          assert t[i] == a[i];
        } else {
          assert t[i] in b;
        }
      }
    }
  }

  /** The first r rows hold the read and the write of each of their cells. */
  lemma {:induction false} TransposeRowsHasCells(m: int, n: int, r: nat)
    requires n != 0 && m >= 1
    ensures forall row, col :: 0 <= row < r && 0 <= col < m ==>
      TransposeCell(m, n, row, col)[0] in TransposeRows(m, n, r)
      && TransposeCell(m, n, row, col)[1] in TransposeRows(m, n, r)
    decreases r
  {
    if r > 0 {
      TransposeRowsHasCells(m, n, r - 1);
      TransposeRowMembers(m, n, r - 1, m);
      var a := TransposeRows(m, n, r - 1);
      var b := TransposeRow(m, n, r - 1, m);
      assert TransposeRows(m, n, r) == a + b;
      forall row, col | 0 <= row < r && 0 <= col < m
        ensures TransposeCell(m, n, row, col)[0] in a + b && TransposeCell(m, n, row, col)[1] in a + b
      {
        if row < r - 1 {
          InLeft(TransposeCell(m, n, row, col)[0], a, b);
          InLeft(TransposeCell(m, n, row, col)[1], a, b);
        } else {
          InRight(TransposeCell(m, n, row, col)[0], a, b);
          InRight(TransposeCell(m, n, row, col)[1], a, b);
        }
      }
    }
  }

  /** Every record of the first r rows is the read or the write of one of their cells. */
  lemma {:induction false} TransposeRowsFromCells(m: int, n: int, r: nat)
    requires n != 0 && m >= 1
    ensures forall i :: 0 <= i < |TransposeRows(m, n, r)| ==> FromMatrixCell(TransposeRows(m, n, r)[i], m, n, r)
    decreases r
  {
    if r > 0 {
      TransposeRowsFromCells(m, n, r - 1);
      TransposeRowMembers(m, n, r - 1, m);
      assert TransposeRows(m, n, r) == TransposeRows(m, n, r - 1) + TransposeRow(m, n, r - 1, m);
      RowsThenRowFromCells(m, n, r, TransposeRows(m, n, r - 1), TransposeRow(m, n, r - 1, m));
    }
  }

  lemma RowsThenRowFromCells(m: int, n: int, r: int, a: seq<Record>, b: seq<Record>)
    requires n != 0 && r >= 1
    requires forall i :: 0 <= i < |a| ==> FromMatrixCell(a[i], m, n, r - 1)
    requires forall i :: 0 <= i < |b| ==> FromRowCell(b[i], m, n, r - 1, m)
    ensures forall i :: 0 <= i < |a + b| ==> FromMatrixCell((a + b)[i], m, n, r)
  {
    forall i | 0 <= i < |a + b|
      ensures FromMatrixCell((a + b)[i], m, n, r)
    {
      if i < |a| {
        assert FromMatrixCell(a[i], m, n, r - 1);
        var row, col :| 0 <= row < r - 1 && 0 <= col < m && a[i] in TransposeCell(m, n, row, col);
        assert (a + b)[i] == a[i];
      } else {
        assert FromRowCell(b[i - |a|], m, n, r - 1, m);
        var col :| 0 <= col < m && b[i - |a|] in TransposeCell(m, n, r - 1, col);
        assert (a + b)[i] == b[i - |a|];
      }
    }
  }

  lemma TransposeCellShape(m: int, n: int, row: int, col: int)
    requires n != 0 && 0 <= row < m && 0 <= col < m
    ensures forall i :: 0 <= i < |TransposeCell(m, n, row, col)| ==>
      var rec := TransposeCell(m, n, row, col)[i];
      0 <= rec.address < m * m && (n > 0 ==> 0 <= rec.proc < n)
  {
    CellInMatrix(row, col, m);
    CellInMatrix(col, row, m);
  }

  lemma {:induction false} TransposeRowInMatrix(m: int, n: int, row: int, c: nat)
    requires n != 0 && 0 <= row < m && c <= m
    ensures forall i :: 0 <= i < |TransposeRow(m, n, row, c)| ==>
      var rec := TransposeRow(m, n, row, c)[i];
      0 <= rec.address < m * m && (n > 0 ==> 0 <= rec.proc < n)
    decreases c
  {
    if c > 0 {
      TransposeRowInMatrix(m, n, row, c - 1);
      TransposeCellShape(m, n, row, c - 1);
    }
  }

  lemma {:induction false} TransposeRowsInMatrix(m: int, n: int, r: nat)
    requires n != 0 && r <= m
    ensures forall i :: 0 <= i < |TransposeRows(m, n, r)| ==>
      var rec := TransposeRows(m, n, r)[i];
      0 <= rec.address < m * m && (n > 0 ==> 0 <= rec.proc < n)
    decreases r
  {
    if r > 0 {
      TransposeRowsInMatrix(m, n, r - 1);
      TransposeRowInMatrix(m, n, r - 1, Count(m));
    }
  }

  /** The transpose trace has 2m^2 records. */
  lemma TransposeLength(m: int, n: int)
    requires m >= 1 && n != 0
    ensures |TransposeTrace(m, n)| == m * (2 * m)
  {
    TransposeRowsLength(m, n, m);
  }

  /**
   * For each element (row, col) the trace holds the read of (row, col) and
   * the write of the transposed position (col, row), both by processor
   * (row * m + col) mod n, and it holds no other record; the order within a
   * row is TransposeRowShape.
   */
  lemma TransposeCells(m: int, n: int)
    requires m >= 1 && n != 0
    ensures forall row, col :: 0 <= row < m && 0 <= col < m ==>
      TransposeCell(m, n, row, col)[0] in TransposeTrace(m, n)
      && TransposeCell(m, n, row, col)[1] in TransposeTrace(m, n)
    ensures forall i :: 0 <= i < |TransposeTrace(m, n)| ==> FromMatrixCell(TransposeTrace(m, n)[i], m, n, m)
  {
    TransposeRowsHasCells(m, n, m);
    TransposeRowsFromCells(m, n, m);
  }

  /** Every address lies in the matrix and, for a positive n, every processor in [0, n). */
  lemma TransposeInMatrix(m: int, n: int)
    requires m >= 1 && n != 0
    ensures forall i :: 0 <= i < |TransposeTrace(m, n)| ==>
      0 <= TransposeTrace(m, n)[i].address < m * m
      && (n > 0 ==> 0 <= TransposeTrace(m, n)[i].proc < n)
  {
    TransposeRowsInMatrix(m, n, m);
  }

  /** Row-major index of element (row, col) of an m-by-m matrix. */
  function CellIndex(m: int, row: int, col: int): int
  {
    row * m + col
  }

  /**
   * The trace visits the elements in row-major order: element k =
   * CellIndex(m, row, col) is read at position 2k and its transposed
   * position (col, row) written at position 2k + 1, both by processor
   * k mod n.
   */
  lemma TransposePositions(m: int, n: int)
    requires m >= 1 && n != 0
    ensures |TransposeTrace(m, n)| == 2 * (m * m)
    ensures forall row, col :: 0 <= row < m && 0 <= col < m ==>
      var k := CellIndex(m, row, col);
      0 <= 2 * k && 2 * k + 1 < |TransposeTrace(m, n)| &&
      TransposeTrace(m, n)[2 * k] == Record(PyMod(k, n), R, k) &&
      TransposeTrace(m, n)[2 * k + 1] == Record(PyMod(k, n), W, CellIndex(m, col, row))
  {
    TransposeRowsLength(m, n, m);
    DoubleProduct(m, m);
    var t := TransposeTrace(m, n);
    forall row, col | 0 <= row < m && 0 <= col < m
      ensures var k := CellIndex(m, row, col);
        0 <= 2 * k && 2 * k + 1 < |t| &&
        t[2 * k] == Record(PyMod(k, n), R, k) && t[2 * k + 1] == Record(PyMod(k, n), W, CellIndex(m, col, row))
    {
      TransposeRowsAt(m, n, m, row, col);
      RowMajorBound(row, col, m, m);
      var i := 2 * (row * m + col);
      var cell := t[i..i + 2];
      assert cell == TransposeCell(m, n, row, col);
      assert t[i] == cell[0] && t[i + 1] == cell[1];
    }
  }

  /** For a 2x2 matrix on two processors the trace is exactly these eight records. */
  lemma TransposeTwoByTwo()
    ensures TransposeTrace(2, 2) == [
      Record(0, R, 0), Record(0, W, 0), Record(1, R, 1), Record(1, W, 2),
      Record(0, R, 2), Record(0, W, 1), Record(1, R, 3), Record(1, W, 3)]
  {
    assert TransposeCell(2, 2, 0, 0) == [Record(0, R, 0), Record(0, W, 0)];
    assert TransposeCell(2, 2, 0, 1) == [Record(1, R, 1), Record(1, W, 2)];
    assert TransposeCell(2, 2, 1, 0) == [Record(0, R, 2), Record(0, W, 1)];
    assert TransposeCell(2, 2, 1, 1) == [Record(1, R, 3), Record(1, W, 3)];
    assert TransposeRow(2, 2, 0, 2) == TransposeCell(2, 2, 0, 0) + TransposeCell(2, 2, 0, 1);
    assert TransposeRow(2, 2, 1, 2) == TransposeCell(2, 2, 1, 0) + TransposeCell(2, 2, 1, 1);
    assert TransposeRows(2, 2, 2) == TransposeRow(2, 2, 0, 2) + TransposeRow(2, 2, 1, 2);
  }
}
