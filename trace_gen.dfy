/**
 * The trace generators as loops that append one record per `file.write`,
 * in the order of the Python loops.  `unit` is the element size the
 * addresses are multiplied by: 1 for generate_traces_64.py, 8 for
 * generate_traces.py.  Each method is proved to write exactly the trace its
 * TraceSpec function describes, or to stop with the exception Python
 * raises.  Every generator raises, if it raises at all, before its first
 * record is written, so a failing call writes no record; the matrix
 * multiplication with no processors raises before its file is even
 * opened.
 */
module TraceGen {
  import opened Wrappers
  import opened CInt
  import opened TraceRecord
  import opened TraceSpec

  method RandomAccess(n: int, memSize: int, accesses: int, draws: seq<AccessDraw>, unit: int)
    returns (r: Result<seq<Record>, GenError>)
    requires |draws| == Count(accesses)
    ensures r.Failure? <==> RandomAccessFails(n, memSize, accesses)
    ensures r.Failure? ==> r.error == EmptyRange
    ensures r.Success? ==> r.value == Scaled(RandomAccessTrace(draws, n, memSize), unit)
  {
    var trace: seq<Record> := [];
    var k := 0;
    while k < accesses
      invariant 0 <= k <= Count(accesses)
      invariant k > 0 ==> n >= 1 && memSize >= 1
      invariant trace == Scaled(RandomAccessTrace(draws[..k], n, memSize), unit)
    {
      if n - 1 < 0 || memSize - 1 < 0 {
        return Failure(EmptyRange);
      }
      var d := draws[k];
      var proc := RandInt(0, n - 1, d.proc);
      var address := RandInt(0, memSize - 1, d.elem) * unit;
      var op := ChooseOp(d.op);
      ScaledSnoc(RandomAccessTrace(draws[..k], n, memSize), AccessRecord(d, n, memSize), unit);
      trace := trace + [Record(proc, op, address)];
      assert draws[..k + 1][..k] == draws[..k];
      k := k + 1;
    }
    assert draws[..k] == draws;
    return Success(trace);
  }

  method MatrixMultiplication(m: int, n: int, cells: seq<seq<CellDraw>>, unit: int)
    returns (r: Result<seq<Record>, GenError>)
    requires n != 0 ==> |cells| == Count(n)
    requires n != 0 ==> forall p :: 0 <= p < |cells| ==> |cells[p]| == Count(ElementsPerProcessor(m, n))
    ensures r.Failure? <==> MatrixMultError(m, n).Some?
    ensures r.Failure? ==> r.error == MatrixMultError(m, n).value
    ensures r.Success? ==> CellsDrawable(cells, m) && r.value == Scaled(MatrixMultTrace(cells, m), unit)
  {
    if n == 0 {
      return Failure(ZeroDivision);
    }
    var epp := PyDiv(m * m, n);
    var trace: seq<Record> := [];
    var proc := 0;
    while proc < n
      invariant 0 <= proc <= Count(n)
      invariant proc > 0 && epp > 0 ==> m >= 1
      invariant CellsDrawable(cells[..proc], m)
      invariant trace == Scaled(MatrixMultTrace(cells[..proc], m), unit)
    {
      var ds := cells[proc];
      var emitted := EmitProcessorCells(trace, proc, ds, epp, m, unit);
      if emitted.Failure? {
        return Failure(emitted.error);
      }
      trace := emitted.value;
      assert cells[..proc + 1][..proc] == cells[..proc];
      ScaledAppend(MatrixMultTrace(cells[..proc], m), ProcessorCells(proc, ds, m), unit);
      proc := proc + 1;
    }
    assert cells[..proc] == cells;
    return Success(trace);
  }

  /**
   * The elements of one processor, the `for _ in range(elements_per_processor)`
   * loop: a row draw on an empty matrix raises before anything is written.
   */
  method EmitProcessorCells(trace: seq<Record>, proc: int, ds: seq<CellDraw>, epp: int, m: int, unit: int)
    returns (r: Result<seq<Record>, GenError>)
    requires |ds| == Count(epp)
    ensures r.Failure? <==> epp > 0 && m < 1
    ensures r.Failure? ==> r.error == EmptyRange
    ensures r.Success? ==> (|ds| == 0 || m >= 1) && r.value == trace + Scaled(ProcessorCells(proc, ds, m), unit)
  {
    var trace' := trace;
    var e := 0;
    while e < epp
      invariant 0 <= e <= Count(epp)
      invariant e > 0 ==> m >= 1
      invariant trace' == trace + Scaled(ProcessorCells(proc, ds[..e], m), unit)
    {
      if m - 1 < 0 {
        return Failure(EmptyRange);
      }
      var row := RandInt(0, m - 1, ds[e].row);
      var col := RandInt(0, m - 1, ds[e].col);
      trace' := EmitCell(trace', proc, row, col, m, unit);
      assert ds[..e + 1][..e] == ds[..e];
      ScaledAppend(ProcessorCells(proc, ds[..e], m), CellBlock(proc, row, col, m), unit);
      e := e + 1;
    }
    assert ds[..e] == ds;
    return Success(trace');
  }

  /** The accesses for one computed element: the inner `for i in range(m)` loop and the write. */
  method EmitCell(trace: seq<Record>, proc: int, row: int, col: int, m: int, unit: int)
    returns (trace': seq<Record>)
    requires m >= 1
    ensures trace' == trace + Scaled(CellBlock(proc, row, col, m), unit)
  {
    trace' := trace;
    var i := 0;
    while i < m
      invariant 0 <= i <= m
      invariant trace' == trace + Scaled(CellReads(proc, row, col, m, i), unit)
    {
      ScaledAppend(CellReads(proc, row, col, m, i),
        [Record(proc, R, row * m + i), Record(proc, R, i * m + col)], unit);
      trace' := trace' + [Record(proc, R, (row * m + i) * unit)];
      trace' := trace' + [Record(proc, R, (i * m + col) * unit)];
      i := i + 1;
    }
    ScaledSnoc(CellReads(proc, row, col, m, m), Record(proc, W, row * m + col), unit);
    trace' := trace' + [Record(proc, W, (row * m + col) * unit)];
  }

  method Sequential(n: int, length: int, ops: seq<seq<int>>, unit: int) returns (trace: seq<Record>)
    requires |ops| == Count(n)
    requires forall p :: 0 <= p < |ops| ==> |ops[p]| == Count(length)
    ensures trace == Scaled(SequentialTrace(ops, length), unit)
  {
    trace := [];
    var proc := 0;
    while proc < n
      invariant 0 <= proc <= Count(n)
      invariant trace == Scaled(SequentialTrace(ops[..proc], length), unit)
    {
      var os := ops[proc];
      trace := EmitSequentialRun(trace, proc, length, os, unit);
      assert ops[..proc + 1][..proc] == ops[..proc];
      ScaledAppend(SequentialTrace(ops[..proc], length), SequentialRun(proc, length, os), unit);
      proc := proc + 1;
    }
    assert ops[..proc] == ops;
  }

  /** The `for addr in range(length)` loop of one processor. */
  method EmitSequentialRun(trace: seq<Record>, proc: int, length: int, os: seq<int>, unit: int)
    returns (trace': seq<Record>)
    requires |os| == Count(length)
    ensures trace' == trace + Scaled(SequentialRun(proc, length, os), unit)
  {
    trace' := trace;
    var addr := 0;
    while addr < length
      invariant 0 <= addr <= Count(length)
      invariant trace' == trace + Scaled(SequentialRun(proc, length, os[..addr]), unit)
    {
      var address := (proc * length + addr) * unit;
      var op := ChooseOp(os[addr]);
      ScaledSnoc(SequentialRun(proc, length, os[..addr]), Record(proc, op, proc * length + addr), unit);
      trace' := trace' + [Record(proc, op, address)];
      assert os[..addr + 1][..addr] == os[..addr];
      addr := addr + 1;
    }
    assert os[..addr] == os;
  }

  /**
   * `for i in range(0, length * stride, stride)`: with a non-zero step the
   * loop runs `length` times (none when length <= 0) with i = k * stride on
   * its k-th iteration.
   */
  method Stride(n: int, stride: int, length: int, ops: seq<seq<int>>, unit: int)
    returns (r: Result<seq<Record>, GenError>)
    requires |ops| == Count(n)
    requires forall p :: 0 <= p < |ops| ==> |ops[p]| == Count(length)
    ensures r.Failure? <==> StrideError(n, stride).Some?
    ensures r.Failure? ==> r.error == ZeroStep
    ensures r.Success? ==> r.value == Scaled(StrideTrace(ops, stride), unit)
  {
    var trace: seq<Record> := [];
    var proc := 0;
    while proc < n
      invariant 0 <= proc <= Count(n)
      invariant proc > 0 ==> stride != 0
      invariant trace == Scaled(StrideTrace(ops[..proc], stride), unit)
    {
      if stride == 0 {
        return Failure(ZeroStep);
      }
      var os := ops[proc];
      trace := EmitStrideRun(trace, proc, stride, length, os, unit);
      assert ops[..proc + 1][..proc] == ops[..proc];
      ScaledAppend(StrideTrace(ops[..proc], stride), StrideRun(proc, stride, os), unit);
      proc := proc + 1;
    }
    assert ops[..proc] == ops;
    return Success(trace);
  }

  /** The `range(0, length * stride, stride)` loop of one processor, for a non-zero stride. */
  method EmitStrideRun(trace: seq<Record>, proc: int, stride: int, length: int, os: seq<int>, unit: int)
    returns (trace': seq<Record>)
    requires |os| == Count(length)
    ensures trace' == trace + Scaled(StrideRun(proc, stride, os), unit)
  {
    trace' := trace;
    var i := 0;
    var k := 0;
    while k < length
      invariant 0 <= k <= Count(length)
      invariant i == k * stride
      invariant trace' == trace + Scaled(StrideRun(proc, stride, os[..k]), unit)
    {
      var op := ChooseOp(os[k]);
      ScaledSnoc(StrideRun(proc, stride, os[..k]), Record(proc, op, k * stride), unit);
      trace' := trace' + [Record(proc, op, i * unit)];
      assert os[..k + 1][..k] == os[..k];
      i := i + stride;
      k := k + 1;
    }
    assert os[..k] == os;
  }

  method SharedData(n: int, accesses: int, shared: seq<int>, draws: seq<SharedDraw>, unit: int)
    returns (r: Result<seq<Record>, GenError>)
    requires |draws| == Count(accesses)
    ensures r.Failure? <==> SharedDataError(n, accesses, shared).Some?
    ensures r.Failure? ==> r.error == SharedDataError(n, accesses, shared).value
    ensures r.Success? ==> r.value == Scaled(SharedDataTrace(draws, n, shared), unit)
  {
    var trace: seq<Record> := [];
    var k := 0;
    while k < accesses
      invariant 0 <= k <= Count(accesses)
      invariant k > 0 ==> n >= 1 && |shared| > 0
      invariant trace == Scaled(SharedDataTrace(draws[..k], n, shared), unit)
    {
      if n - 1 < 0 {
        return Failure(EmptyRange);
      }
      var proc := RandInt(0, n - 1, draws[k].proc);
      if |shared| == 0 {
        return Failure(EmptyChoice);
      }
      var element := Choice(shared, draws[k].pick);
      var op := ChooseOp(draws[k].op);
      ScaledSnoc(SharedDataTrace(draws[..k], n, shared), Record(proc, op, element), unit);
      trace := trace + [Record(proc, op, element * unit)];
      assert draws[..k + 1][..k] == draws[..k];
      k := k + 1;
    }
    assert draws[..k] == draws;
    return Success(trace);
  }

  method ProducerConsumer(n: int, accesses: int, bufferSize: int, draws: seq<PcDraw>, unit: int)
    returns (r: Result<seq<Record>, GenError>)
    requires |draws| == Count(accesses)
    ensures r.Failure? <==> ProducerConsumerError(n, accesses, bufferSize).Some?
    ensures r.Failure? ==> r.error == ProducerConsumerError(n, accesses, bufferSize).value
    ensures r.Success? ==> r.value == Scaled(ProducerConsumerTrace(draws, n, bufferSize), unit)
  {
    var buffer := BufferAddresses(bufferSize);
    var trace: seq<Record> := [];
    var k := 0;
    while k < accesses
      invariant 0 <= k <= Count(accesses)
      invariant k > 0 ==> n >= 1 && bufferSize >= 1
      invariant trace == Scaled(ProducerConsumerTrace(draws[..k], n, bufferSize), unit)
    {
      if n - 1 < 0 {
        return Failure(EmptyRange);
      }
      var proc := RandInt(0, n - 1, draws[k].proc);
      if |buffer| == 0 {
        return Failure(EmptyChoice);
      }
      var element := Choice(buffer, draws[k].pick);
      var op := if proc % 2 == 0 then W else R;
      ScaledSnoc(ProducerConsumerTrace(draws[..k], n, bufferSize), Record(proc, op, element), unit);
      trace := trace + [Record(proc, op, element * unit)];
      assert draws[..k + 1][..k] == draws[..k];
      k := k + 1;
    }
    assert draws[..k] == draws;
    return Success(trace);
  }

  /** generate_traces_64.py: every processor writes near one drawn line start. */
  method FalseSharingSameLine(n: int, accesses: int, lineSize: int, lineDraw: int, procs: seq<int>)
    returns (r: Result<seq<Record>, GenError>)
    requires |procs| == Count(accesses)
    ensures r.Failure? <==> FalseSharingError(n, accesses, lineSize).Some?
    ensures r.Failure? ==> r.error == EmptyRange
    ensures r.Success? ==> r.value == FalseSharingTrace(lineDraw, procs, n, lineSize)
  {
    if lineSize - 1 < 0 {
      return Failure(EmptyRange);
    }
    var lineStart := RandInt(0, lineSize - 1, lineDraw);
    var trace: seq<Record> := [];
    var k := 0;
    while k < accesses
      invariant 0 <= k <= Count(accesses)
      invariant k > 0 ==> n >= 1
      invariant trace == FalseSharingTrace(lineDraw, procs[..k], n, lineSize)
    {
      if n - 1 < 0 {
        return Failure(EmptyRange);
      }
      var proc := RandInt(0, n - 1, procs[k]);
      var address := lineStart + PyMod(proc * lineSize, lineSize);
      trace := trace + [Record(proc, W, address)];
      assert procs[..k + 1][..k] == procs[..k];
      k := k + 1;
    }
    assert procs[..k] == procs;
    return Success(trace);
  }

  /** generate_traces.py: processor p writes byte address p * cache_line_size * 8. */
  method FalseSharingStrided(n: int, accesses: int, lineSize: int, procs: seq<int>)
    returns (r: Result<seq<Record>, GenError>)
    requires |procs| == Count(accesses)
    ensures r.Failure? <==> Count(accesses) > 0 && n < 1
    ensures r.Failure? ==> r.error == EmptyRange
    ensures r.Success? ==> r.value == Scaled(StridedSharingTrace(procs, n, lineSize), 8)
  {
    var trace: seq<Record> := [];
    var k := 0;
    while k < accesses
      invariant 0 <= k <= Count(accesses)
      invariant k > 0 ==> n >= 1
      invariant trace == Scaled(StridedSharingTrace(procs[..k], n, lineSize), 8)
    {
      if n - 1 < 0 {
        return Failure(EmptyRange);
      }
      var proc := RandInt(0, n - 1, procs[k]);
      ScaledSnoc(StridedSharingTrace(procs[..k], n, lineSize), Record(proc, W, proc * lineSize), 8);
      trace := trace + [Record(proc, W, (proc * lineSize) * 8)];
      assert procs[..k + 1][..k] == procs[..k];
      k := k + 1;
    }
    assert procs[..k] == procs;
    return Success(trace);
  }

  method Transpose(m: int, n: int, unit: int) returns (r: Result<seq<Record>, GenError>)
    ensures r.Failure? <==> TransposeError(m, n).Some?
    ensures r.Failure? ==> r.error == ZeroDivision
    ensures r.Success? ==> r.value == Scaled(TransposeTrace(m, n), unit)
  {
    var trace: seq<Record> := [];
    var row := 0;
    while row < m
      invariant 0 <= row <= Count(m)
      invariant row > 0 ==> n != 0
      invariant trace == if row == 0 then [] else Scaled(TransposeRows(m, n, row), unit)
    {
      // the first `% n` of the row raises before anything of the row is written
      if n == 0 {
        return Failure(ZeroDivision);
      }
      var base := trace;
      trace := EmitTransposeRow(trace, m, n, row, unit);
      if row > 0 {
        ScaledAppend(TransposeRows(m, n, row), TransposeRow(m, n, row, m), unit);
      }
      row := row + 1;
    }
    return Success(if m <= 0 then [] else trace);
  }

  /** The inner `for col in range(m)` loop: element (row, col) read, then written transposed. */
  method EmitTransposeRow(trace: seq<Record>, m: int, n: int, row: int, unit: int)
    returns (trace': seq<Record>)
    requires n != 0 && 0 <= m
    ensures trace' == trace + Scaled(TransposeRow(m, n, row, m), unit)
  {
    trace' := trace;
    var col := 0;
    while col < m
      invariant 0 <= col <= m
      invariant trace' == trace + Scaled(TransposeRow(m, n, row, col), unit)
    {
      var proc := PyMod(row * m + col, n);
      var readAddress := (row * m + col) * unit;
      var writeAddress := (col * m + row) * unit;
      ScaledAppend(TransposeRow(m, n, row, col), TransposeCell(m, n, row, col), unit);
      trace' := trace' + [Record(proc, R, readAddress)];
      trace' := trace' + [Record(proc, W, writeAddress)];
      col := col + 1;
    }
  }
}
