/**
 * The distributed directory of distributed_directory.c: fetching a line
 * for a requester, placing a line in a cache set by least-recent use,
 * the two directory updates after a write, the messages it sends to the
 * interconnect, and the trace-line parser that routes a request to the
 * node owning the address.  The clock is a parameter.
 */
module DistributedDirectory {
  import opened CInt
  import opened Wrappers
  import opened Utils
  import SingleCache
  import TraceRecord
  import TraceScan

  // ---------------------------------------------------------------------
  // Messages to the interconnect.
  // ---------------------------------------------------------------------

  /** `sendReadData`: one `READ_ACKNOWLEDGE` from memory to the destination; the `exclusive` flag is not used. */
  method SendReadData(ic: Interconnect, destId: int, address: nat, exclusive: bool)
    requires address < TWO_64
    modifies ic`outgoingQueue
    ensures ic.outgoingQueue == old(ic.outgoingQueue) + [Message(ReadAcknowledge, MEMORY_ID, destId, address)]
  {
    ic.outgoingQueue := ic.outgoingQueue + [Message(ReadAcknowledge, MEMORY_ID, destId, address)];
  }

  /** `sendFetch`: one `FETCH` from memory to the destination. */
  method SendFetch(ic: Interconnect, destId: int, address: nat)
    requires address < TWO_64
    modifies ic`outgoingQueue
    ensures ic.outgoingQueue == old(ic.outgoingQueue) + [Message(Fetch, MEMORY_ID, destId, address)]
  {
    ic.outgoingQueue := ic.outgoingQueue + [Message(Fetch, MEMORY_ID, destId, address)];
  }

  // ---------------------------------------------------------------------
  // Fetching a line from the directory.
  // ---------------------------------------------------------------------

  predicate DataSentTo(r: seq<Message>, requester: int)
  {
    exists m :: m in r && m.destId == requester && (m.kind == Fetch || m.kind == ReadAcknowledge)
  }

  predicate InvalidateSent(r: seq<Message>)
  {
    exists m :: m in r && m.kind == Invalidate
  }

  /**
   * The messages of `fetchFromDirectory` for an entry: the requester gets
   * the data (by a fetch from the owner or a read acknowledgement from
   * memory) unless the line is exclusive without a recorded owner, and the
   * owner of an exclusive line, only it, is invalidated.
   */
  function FetchMessages(e: DirEntry, address: nat, requester: int): (r: seq<Message>)
    ensures |r| <= 2
    ensures forall m :: m in r ==> m.sourceId == MEMORY_ID && m.address == address
    ensures DataSentTo(r, requester) <==> !(e.state == DirExclusiveModified && e.owner == -1)
    ensures InvalidateSent(r) <==> e.state == DirExclusiveModified && e.owner != -1
    ensures forall m :: m in r && m.kind == Invalidate ==> m.destId == e.owner
    ensures e.state == DirExclusiveModified && e.owner != -1 ==>
      r == [Message(Invalidate, MEMORY_ID, e.owner, address), Message(Fetch, MEMORY_ID, requester, address)]
    ensures e.state == DirExclusiveModified && e.owner == -1 ==> r == []
    ensures e.state != DirExclusiveModified ==> r == [Message(ReadAcknowledge, MEMORY_ID, requester, address)]
  {
    if e.state == DirExclusiveModified then
      if e.owner != -1 then
        var r := [Message(Invalidate, MEMORY_ID, e.owner, address), Message(Fetch, MEMORY_ID, requester, address)];
        assert r[1] in r && r[0] in r;
        r
      else []
    else
      var r := [Message(ReadAcknowledge, MEMORY_ID, requester, address)];
      assert r[0] in r;
      r
  }

  /** The entry after `fetchFromDirectory`: `SHARED`, without owner, present only at the requester. */
  function FetchEntry(requester: int): (r: DirEntry)
    ensures WellFormed(r) && r.state == DirShared && r.owner == -1
    ensures forall j :: 0 <= j < NUM_PROCESSORS ==> (r.existsInCache[j] <==> j == requester)
  {
    DirEntry(DirShared, OnlySharer(requester), -1)
  }

  /** `fetchFromDirectory`: `FetchMessages` are sent and the entry becomes `FetchEntry`. */
  method FetchFromDirectory(ic: Interconnect, dir: Directory, address: int, requestingProcessorId: int)
    requires dir.Valid() && Indexes(dir, address) && IsProcessor(requestingProcessorId)
    modifies dir.lines, ic`outgoingQueue
    ensures dir.Valid()
    ensures var idx := DirectoryIndex(address);
      dir.lines[..] == old(dir.lines[..])[idx := FetchEntry(requestingProcessorId)] &&
      ic.outgoingQueue == old(ic.outgoingQueue) + FetchMessages(old(dir.lines[idx]), ToULong(address), requestingProcessorId)
  {
    var index := DirectoryIndex(address);
    var line := dir.lines[index];
    if line.state == DirExclusiveModified {
      var owner := line.owner;
      if owner != -1 {
        SendInvalidate(ic, owner, ToULong(address));
        SendFetch(ic, requestingProcessorId, ToULong(address));
      }
    } else if line.state == DirUncached || line.state == DirShared {
      SendReadData(ic, requestingProcessorId, ToULong(address), line.state == DirUncached);
    }
    var bits := line.existsInCache;
    var i := 0;
    while i < NUM_PROCESSORS
      invariant 0 <= i <= NUM_PROCESSORS == |bits|
      invariant forall k :: 0 <= k < i ==> !bits[k]
    {
      bits := bits[i := false];
      i := i + 1;
    }
    bits := bits[requestingProcessorId := true];
    assert bits == OnlySharer(requestingProcessorId);
    dir.lines[index] := DirEntry(DirShared, bits, -1);
  }

  /** The entry a fetch leaves is coherent. */
  lemma FetchEntryCoherent(requester: int)
    requires IsProcessor(requester)
    ensures Coherent(FetchEntry(requester))
  {
    assert FetchEntry(requester).existsInCache[requester];
  }

  // ---------------------------------------------------------------------
  // Placing a line in a cache set.
  // ---------------------------------------------------------------------

  /** Every last-use time fits the `unsigned long` it is stored in. */
  predicate TimesFit(lines: seq<CacheLine>)
  {
    forall j :: 0 <= j < |lines| ==> lines[j].lastUsed <= ULONG_MAX
  }

  /**
   * The replacement scan of `addLineToCacheSet` over a set: a line is
   * chosen when it is invalid or strictly older than the line chosen so
   * far (starting from the time `ULONG_MAX`); the result is the last choice
   * (-1 for none) and its time.  No choice is made exactly when every line
   * is valid and last used at `ULONG_MAX` or later; every line after the
   * choice is valid and not older; when every line is valid, the choice is
   * the first least recently used line.
   */
  function OldestScan(lines: seq<CacheLine>): (r: (int, nat))
    requires TimesFit(lines)
    ensures -1 <= r.0 < |lines|
    ensures r.0 == -1 ==> r.1 == ULONG_MAX
    ensures r.0 >= 0 ==> r.1 == lines[r.0].lastUsed
    ensures r.0 == -1 <==> forall j :: 0 <= j < |lines| ==> lines[j].valid && lines[j].lastUsed >= ULONG_MAX
    ensures forall j :: r.0 < j < |lines| ==> lines[j].valid && lines[j].lastUsed >= r.1
    ensures (forall j :: 0 <= j < |lines| ==> lines[j].valid) ==>
      (forall j :: 0 <= j < |lines| ==> lines[j].lastUsed >= r.1) &&
      (forall j :: 0 <= j < r.0 ==> lines[j].lastUsed > r.1)
  {
    if |lines| == 0 then (-1, ULONG_MAX)
    else
      var q := lines[..|lines| - 1];
      var p := OldestScan(q);
      var l := lines[|lines| - 1];
      assert forall j :: 0 <= j < |q| ==> q[j] == lines[j];
      if !l.valid || l.lastUsed < p.1 then (|lines| - 1, l.lastUsed) else p
  }

  /** A set where the scan passes over an invalid line and replaces a valid one. */
  lemma OldestScanEvictsValidLine()
    ensures var lines := [CacheLine(0, false, false, Invalid, 100), CacheLine(7, true, false, Shared, 50)];
      !lines[0].valid && lines[1].valid && OldestScan(lines).0 == 1
  {
    var lines := [CacheLine(0, false, false, Invalid, 100), CacheLine(7, true, false, Shared, 50)];
    assert lines[..1] == [lines[0]];
    assert [lines[0]][..0] == [];
    assert OldestScan(lines[..1]) == (0, 100);
  }

  /**
   * The choice the scan's comment describes, "an empty line or the least
   * recently used line": the first invalid line when there is one,
   * otherwise the first least recently used line.
   */
  function FreeOrOldest(lines: seq<CacheLine>): (v: int)
    requires TimesFit(lines)
    ensures -1 <= v < |lines|
    ensures FirstInvalid(lines) >= 0 ==>
      v >= 0 && !lines[v].valid && forall j :: 0 <= j < v ==> lines[j].valid
    ensures FirstInvalid(lines) == -1 ==>
      (v == -1 <==> forall j :: 0 <= j < |lines| ==> lines[j].lastUsed >= ULONG_MAX) &&
      (v >= 0 ==> (forall j :: 0 <= j < |lines| ==> lines[j].lastUsed >= lines[v].lastUsed) &&
                  (forall j :: 0 <= j < v ==> lines[j].lastUsed > lines[v].lastUsed))
  {
    var f := FirstInvalid(lines);
    if f >= 0 then f else OldestScan(lines).0
  }

  /** The replacement loop of `addLineToCacheSet`. */
  method FindOldest(lines: seq<CacheLine>, associativity: nat) returns (oldest: int)
    requires associativity == |lines| && TimesFit(lines)
    ensures oldest == OldestScan(lines).0
  {
    oldest := -1;
    var oldestTime: nat := ULONG_MAX;
    var i := 0;
    while i < associativity
      invariant 0 <= i <= associativity
      invariant (oldest, oldestTime) == OldestScan(lines[..i])
    {
      assert lines[..i + 1][..i] == lines[..i];
      if !lines[i].valid || lines[i].lastUsed < oldestTime {
        oldest := i;
        oldestTime := lines[i].lastUsed;
      }
      i := i + 1;
    }
    assert lines[..associativity] == lines;
  }

  /** The line `addLineToCacheSet` writes: the address's tag, valid, dirty exactly when `MODIFIED`, used now. */
  function FilledLine(address: nat, state: BlockState, now: nat): (l: CacheLine)
    requires address < TWO_64
    ensures LineMatches(l, CalculateTag(address, MAIN_S, MAIN_B))
    ensures l.isDirty <==> state == Modified
    ensures l.state == state && l.lastUsed == now
  {
    CacheLine(CalculateTag(address, MAIN_S, MAIN_B), true, state == Modified, state, now)
  }

  /**
   * `addLineToCacheSet`, with the set given by its index in the cache and
   * the current time as a parameter: when the scan chooses a line, that
   * line becomes `FilledLine`, and the eviction counters (wrapping
   * `unsigned long`s) count it if it was valid and dirty; otherwise nothing
   * changes.
   */
  method AddLineToCacheSet(cache: Cache, setIndex: nat, address: nat, state: BlockState, now: nat)
    requires cache.Valid() && setIndex < cache.setList.Length && address < TWO_64
    requires TimesFit(cache.setList[setIndex].lines)
    modifies cache.setList, cache`evictionCount, cache`dirtyEvictionCount
    ensures cache.Valid()
    ensures var st := old(cache.setList[setIndex]); var k := OldestScan(st.lines).0;
      (k == -1 ==>
        cache.setList[..] == old(cache.setList[..]) &&
        cache.evictionCount == old(cache.evictionCount) && cache.dirtyEvictionCount == old(cache.dirtyEvictionCount)) &&
      (k >= 0 ==>
        cache.setList[..] == old(cache.setList[..])[setIndex := st.(lines := st.lines[k := FilledLine(address, state, now)])] &&
        cache.evictionCount == SingleCache.Bump(old(cache.evictionCount), st.lines[k].valid && st.lines[k].isDirty) &&
        cache.dirtyEvictionCount == SingleCache.Bump(old(cache.dirtyEvictionCount), st.lines[k].valid && st.lines[k].isDirty))
  {
    var st := cache.setList[setIndex];
    var oldest := FindOldest(st.lines, st.associativity);
    if oldest == -1 {
      return;
    }
    var victim := st.lines[oldest];
    if victim.valid && victim.isDirty {
      cache.evictionCount := ToULong(cache.evictionCount + 1);
      if victim.isDirty {
        cache.dirtyEvictionCount := ToULong(cache.dirtyEvictionCount + 1);
      }
    }
    cache.setList[setIndex] := st.(lines := st.lines[oldest := FilledLine(address, state, now)]);
  }

  // ---------------------------------------------------------------------
  // Directory updates after a write.
  // ---------------------------------------------------------------------

  /** Every processor except `cacheId`. */
  function AllBut(cacheId: int): (want: seq<bool>)
    ensures |want| == NUM_PROCESSORS
    ensures forall j :: 0 <= j < NUM_PROCESSORS ==> (want[j] <==> j != cacheId)
  {
    seq(NUM_PROCESSORS, j => j != cacheId)
  }

  /**
   * The entry after `updateDirectory`: the new state, the writer as owner
   * exactly when it is `EXCLUSIVE_MODIFIED`, and then every presence bit
   * but the writer's cleared.
   */
  function UpdatedEntry(e: DirEntry, cacheId: int, newState: DirState): (r: DirEntry)
    requires WellFormed(e)
    ensures WellFormed(r) && r.state == newState
    ensures r.owner == if newState == DirExclusiveModified then cacheId else -1
    ensures forall j :: 0 <= j < NUM_PROCESSORS ==>
      (r.existsInCache[j] <==> e.existsInCache[j] && (newState != DirExclusiveModified || j == cacheId))
  {
    if newState == DirExclusiveModified then
      DirEntry(newState, seq(NUM_PROCESSORS, j requires 0 <= j < NUM_PROCESSORS => e.existsInCache[j] && j == cacheId), cacheId)
    else
      DirEntry(newState, e.existsInCache, -1)
  }

  /**
   * The messages of `updateDirectory`: for `EXCLUSIVE_MODIFIED`, one
   * `INVALIDATE` to every processor but the writer, present or not, in
   * increasing id order; otherwise none.
   */
  function UpdateMessages(address: nat, cacheId: int, newState: DirState): (r: seq<Message>)
    ensures forall m :: m in r <==>
      newState == DirExclusiveModified && m.kind == Invalidate && m.sourceId == MEMORY_ID &&
      m.address == address && IsProcessor(m.destId) && m.destId != cacheId
    ensures forall a, b :: 0 <= a < b < |r| ==> r[a].destId < r[b].destId
  {
    if newState == DirExclusiveModified then Invalidations(AllBut(cacheId), MEMORY_ID, address, NUM_PROCESSORS) else []
  }

  /** `updateDirectory`: the entry becomes `UpdatedEntry` and `UpdateMessages` are sent. */
  method UpdateDirectory(ic: Interconnect, dir: Directory, address: nat, cacheId: int, newState: DirState)
    requires dir.Valid() && address < TWO_64 && Indexes(dir, ToInt32(address))
    modifies dir.lines, ic`outgoingQueue
    ensures dir.Valid()
    ensures var idx := DirectoryIndex(ToInt32(address));
      dir.lines[..] == old(dir.lines[..])[idx := UpdatedEntry(old(dir.lines[idx]), cacheId, newState)] &&
      ic.outgoingQueue == old(ic.outgoingQueue) + UpdateMessages(address, cacheId, newState)
  {
    var index := DirectoryIndex(ToInt32(address));
    var line := dir.lines[index];
    ghost var want := UpdatedEntry(line, cacheId, newState);
    line := line.(state := newState, owner := if newState == DirExclusiveModified then cacheId else -1);
    if newState == DirExclusiveModified {
      var bits := InvalidateOthers(ic, line.existsInCache, address, cacheId);
      line := line.(existsInCache := bits);
    }
    assert line.existsInCache == want.existsInCache;
    dir.lines[index] := line;
  }

  /** The loop of `updateDirectory`: every presence bit but the writer's is cleared and its processor invalidated. */
  method InvalidateOthers(ic: Interconnect, bits: seq<bool>, address: nat, cacheId: int) returns (r: seq<bool>)
    requires |bits| == NUM_PROCESSORS && address < TWO_64
    modifies ic`outgoingQueue
    ensures |r| == NUM_PROCESSORS
    ensures forall k :: 0 <= k < NUM_PROCESSORS ==> (r[k] <==> bits[k] && k == cacheId)
    ensures ic.outgoingQueue == old(ic.outgoingQueue) + Invalidations(AllBut(cacheId), MEMORY_ID, address, NUM_PROCESSORS)
  {
    r := bits;
    var i := 0;
    while i < NUM_PROCESSORS
      invariant 0 <= i <= NUM_PROCESSORS == |r|
      invariant forall k :: 0 <= k < NUM_PROCESSORS ==> (r[k] <==> bits[k] && (k >= i || k == cacheId))
      invariant ic.outgoingQueue == old(ic.outgoingQueue) + Invalidations(AllBut(cacheId), MEMORY_ID, address, i)
    {
      if i != cacheId {
        r := r[i := false];
        SendInvalidate(ic, i, address);
      }
      i := i + 1;
    }
  }

  /**
   * On a coherent entry, a write update to `EXCLUSIVE_MODIFIED` by a
   * processor leaves it coherent exactly when the writer was present.
   */
  lemma {:induction false} UpdatedEntryCoherent(e: DirEntry, cacheId: int)
    requires Coherent(e) && IsProcessor(cacheId)
    ensures Coherent(UpdatedEntry(e, cacheId, DirExclusiveModified)) <==> e.existsInCache[cacheId]
  {
    var r := UpdatedEntry(e, cacheId, DirExclusiveModified);
    if e.existsInCache[cacheId] {
      assert r.existsInCache[cacheId];
    } else {
      assert NoSharers(r);
    }
  }

  /**
   * The entry after `updateDirectoryState`: the new state; for `UNCACHED`
   * the initial entry, otherwise presence bits and owner are kept.
   */
  function StateUpdatedEntry(e: DirEntry, newState: DirState): (r: DirEntry)
    ensures r.state == newState
    ensures newState == DirUncached ==> r == UNCACHED_ENTRY
    ensures newState != DirUncached ==> r.existsInCache == e.existsInCache && r.owner == e.owner
  {
    if newState == DirUncached then DirEntry(DirUncached, NO_SHARERS, -1) else e.(state := newState)
  }

  /** `updateDirectoryState`: nothing without a directory; otherwise the entry becomes `StateUpdatedEntry`. */
  method UpdateDirectoryState(dir: Directory?, address: nat, newState: DirState)
    requires dir != null ==> dir.Valid() && address < TWO_64 && Indexes(dir, ToInt32(address))
    modifies if dir == null then {} else {dir.lines}
    ensures dir != null ==> dir.Valid()
    ensures dir != null ==> var idx := DirectoryIndex(ToInt32(address));
      dir.lines[..] == old(dir.lines[..])[idx := StateUpdatedEntry(old(dir.lines[idx]), newState)]
  {
    if dir == null {
      return;
    }
    var index := DirectoryIndex(ToInt32(address));
    var line := dir.lines[index].(state := newState);
    if newState == DirUncached {
      line := line.(owner := -1);
      var bits := line.existsInCache;
      var i := 0;
      while i < NUM_PROCESSORS
        invariant 0 <= i <= NUM_PROCESSORS == |bits|
        invariant forall k :: 0 <= k < i ==> !bits[k]
      {
        bits := bits[i := false];
        i := i + 1;
      }
      assert bits == NO_SHARERS;
      line := line.(existsInCache := bits);
    }
    dir.lines[index] := line;
  }

  // ---------------------------------------------------------------------
  // The trace-line parser.
  // ---------------------------------------------------------------------

  /**
   * The request `processTraceLine` queues for the fields a line scanned to:
   * the address is stored in an `int`, the destination node is that `int`
   * divided by `NUM_LINES` (truncating), and the message carries the `int`
   * converted to `unsigned long`.  The processor id is not checked.
   */
  function TraceRequestOfScan(scanned: Option<(int, char, int)>): (r: Option<Message>)
  {
    match scanned
    case None => None
    case Some((processorId, operation, scannedAddress)) =>
      var address := ToInt32(Saturate(scannedAddress));
      var localNodeIndex := NodeOf(address);
      if operation == 'R' then Some(Message(ReadRequest, processorId, localNodeIndex, ToULong(address)))
      else if operation == 'W' then Some(Message(WriteRequest, processorId, localNodeIndex, ToULong(address)))
      else None
  }

  /**
   * The node `processTraceLine` sends an `int` address to: the address
   * divided by `NUM_LINES`, truncating, so that a negative address goes to
   * a negative node.
   */
  function NodeOf(address: int): (r: int)
    requires INT_MIN <= address <= INT_MAX
    ensures address >= 0 ==> r == address / NUM_LINES && 0 <= r
    ensures address < 0 ==> r <= 0
  {
    CDiv(address, NUM_LINES)
  }

  /**
   * The request for a line: one exactly when the line scans and its
   * operation is `R` or `W`; a read request for `R` and a write request
   * for `W`, from the scanned processor to the node of the address stored
   * in an `int`, carrying that `int` as an `unsigned long`.
   */
  function TraceLineMessage(line: string): (r: Option<Message>)
    ensures r.Some? <==> (match TraceScan.ScanInstruction(line)
      case None => false
      case Some((_, op, _)) => op == 'R' || op == 'W')
    ensures r.Some? ==>
      var scanned := TraceScan.ScanInstruction(line).value;
      var address := ToInt32(Saturate(scanned.2));
      r.value.kind == (if scanned.1 == 'R' then ReadRequest else WriteRequest) &&
      r.value.sourceId == scanned.0 && r.value.destId == NodeOf(address) &&
      r.value.address == ToULong(address) && r.value.address < TWO_64
  {
    TraceRequestOfScan(TraceScan.ScanInstruction(line))
  }

  /** `processTraceLine`: the request, if any, is put on the incoming queue. */
  method ProcessTraceLine(line: string, ic: Interconnect)
    modifies ic`incomingQueue
    ensures var m := TraceLineMessage(line);
      ic.incomingQueue == old(ic.incomingQueue) + (if m.Some? then [m.value] else [])
  {
    var m := TraceLineMessage(line);
    if m.Some? {
      ic.incomingQueue := ic.incomingQueue + [m.value];
    }
  }

  /**
   * A line as the 64-byte generators write it, with an address that fits
   * an `int`, becomes the request from its processor to the node
   * `address / NUM_LINES`, for the same address.
   */
  lemma {:induction false} ProcessGeneratedLine(rec: TraceRecord.Record)
    requires INT_MIN <= rec.proc <= INT_MAX && 0 <= rec.address <= INT_MAX
    ensures TraceLineMessage(TraceRecord.FormatLine(rec, TraceRecord.SPACE_SEP)) ==
      Some(Message(RequestOf(rec.op), rec.proc, rec.address / NUM_LINES, rec.address))
  {
    TraceScan.SpaceLineRoundTrip(rec);
    RequestOfScannedRecord(rec.proc, rec.op, rec.address);
  }

  /** A scanned `R`/`W` record with an address that fits an `int` keeps its address. */
  lemma RequestOfScannedRecord(proc: int, op: TraceRecord.Op, address: int)
    requires 0 <= address <= INT_MAX
    ensures TraceRequestOfScan(Some((proc, TraceRecord.OpChar(op), address))) ==
      Some(Message(RequestOf(op), proc, address / NUM_LINES, address))
  {
    assert ToInt32(Saturate(address)) == address;
    assert NodeOf(address) == address / NUM_LINES;
  }
}
