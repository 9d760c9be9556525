/**
 * The central directory of central_directory.c: one directory entry per
 * line index, updated in place by the directory operations and by the
 * request handlers, which also put their replies on the interconnect; the
 * cache-side handlers, which change at most one line of one set per
 * cache; and the trace-line parser that turns an instruction into a
 * request.  Locks are no-ops here, and the interconnect's single queue is
 * its outgoing queue.
 */
module CentralDirectory {
  import opened CInt
  import opened Wrappers
  import opened Utils
  import SingleCache
  import TraceRecord
  import TraceScan

  /** `DIRECTORY_ID` is used but never defined by the source; it is taken to be memory's id. */
  const DIRECTORY_ID: int := MEMORY_ID

  /** The entry index of a message's `unsigned long` address, converted to the `int` that `directoryIndex` takes. */
  function MessageIndex(address: nat): (r: int)
    ensures -NUM_LINES < r < NUM_LINES
    ensures address <= INT_MAX ==> r == address % NUM_LINES
  {
    DirectoryIndex(ToInt32(address))
  }

  /** A message's address selects an existing entry. */
  predicate MessageIndexes(dir: Directory, msg: Message)
    reads dir
  {
    msg.address < TWO_64 && 0 <= MessageIndex(msg.address) < dir.lines.Length
  }

  // ---------------------------------------------------------------------
  // Directory operations.
  // ---------------------------------------------------------------------

  /**
   * `updateDirectoryEntry`: the state is set, the owner becomes the
   * processor exactly when the new state is `EXCLUSIVE_MODIFIED` (else -1);
   * presence bits and every other entry are kept.
   */
  method UpdateDirectoryEntry(dir: Directory, address: int, processorId: int, newState: DirState)
    requires dir.Valid() && Indexes(dir, address)
    modifies dir.lines
    ensures dir.Valid()
    ensures var idx := DirectoryIndex(address);
      dir.lines[..] == old(dir.lines[..])[idx := old(dir.lines[idx]).(state := newState,
        owner := if newState == DirExclusiveModified then processorId else -1)]
  {
    var index := DirectoryIndex(address);
    dir.lines[index] := dir.lines[index].(state := newState,
      owner := if newState == DirExclusiveModified then processorId else -1);
  }

  /**
   * `invalidateDirectoryEntry`: the entry returns to its initial value
   * (`UNCACHED`, no sharer, owner -1); on an entry already in that state
   * it changes nothing.
   */
  method InvalidateDirectoryEntry(dir: Directory, address: int)
    requires dir.Valid() && Indexes(dir, address)
    modifies dir.lines
    ensures dir.Valid()
    ensures dir.lines[..] == old(dir.lines[..])[DirectoryIndex(address) := UNCACHED_ENTRY]
    ensures old(dir.lines[DirectoryIndex(address)]) == UNCACHED_ENTRY ==> dir.lines[..] == old(dir.lines[..])
  {
    var index := DirectoryIndex(address);
    var bits := dir.lines[index].existsInCache;
    var j := 0;
    while j < NUM_PROCESSORS
      invariant 0 <= j <= NUM_PROCESSORS == |bits|
      invariant forall k :: 0 <= k < j ==> !bits[k]
    {
      bits := bits[j := false];
      j := j + 1;
    }
    assert bits == NO_SHARERS;
    dir.lines[index] := DirEntry(DirUncached, bits, -1);
  }

  /** `addProcessorToEntry`: exactly one presence bit is set. */
  method AddProcessorToEntry(dir: Directory, address: int, processorId: int)
    requires dir.Valid() && Indexes(dir, address) && IsProcessor(processorId)
    modifies dir.lines
    ensures dir.Valid()
    ensures var idx := DirectoryIndex(address); var e := old(dir.lines[idx]);
      dir.lines[..] == old(dir.lines[..])[idx := e.(existsInCache := e.existsInCache[processorId := true])]
  {
    var index := DirectoryIndex(address);
    dir.lines[index] := dir.lines[index].(existsInCache := dir.lines[index].existsInCache[processorId := true]);
  }

  /** `removeProcessorFromEntry`: exactly one presence bit is cleared. */
  method RemoveProcessorFromEntry(dir: Directory, address: int, processorId: int)
    requires dir.Valid() && Indexes(dir, address) && IsProcessor(processorId)
    modifies dir.lines
    ensures dir.Valid()
    ensures var idx := DirectoryIndex(address); var e := old(dir.lines[idx]);
      dir.lines[..] == old(dir.lines[..])[idx := e.(existsInCache := e.existsInCache[processorId := false])]
  {
    var index := DirectoryIndex(address);
    dir.lines[index] := dir.lines[index].(existsInCache := dir.lines[index].existsInCache[processorId := false]);
  }

  // ---------------------------------------------------------------------
  // Request handlers on the directory side.
  // ---------------------------------------------------------------------

  /**
   * The entry after `handleReadRequest`: the requester becomes present;
   * from `UNCACHED` the entry turns `SHARED` owned by the requester,
   * otherwise state and owner are kept.
   */
  function ReadRequestEntry(e: DirEntry, requester: int): (r: DirEntry)
    requires WellFormed(e) && IsProcessor(requester)
    ensures WellFormed(r) && r.existsInCache[requester]
    ensures forall j :: 0 <= j < NUM_PROCESSORS && j != requester ==> r.existsInCache[j] == e.existsInCache[j]
    ensures e.state == DirUncached ==> r.state == DirShared && r.owner == requester
    ensures e.state != DirUncached ==> r.state == e.state && r.owner == e.owner
  {
    var bits := e.existsInCache[requester := true];
    if e.state == DirUncached then DirEntry(DirShared, bits, requester) else e.(existsInCache := bits)
  }

  /**
   * `handleReadRequest`: the entry becomes `ReadRequestEntry` and exactly
   * one `READ_ACKNOWLEDGE` goes to the requester, from memory when the
   * line was `UNCACHED` and from the owner otherwise.
   */
  method HandleReadRequest(msg: Message, ic: Interconnect, dir: Directory)
    requires dir.Valid() && MessageIndexes(dir, msg) && IsProcessor(msg.sourceId)
    modifies dir.lines, ic`outgoingQueue
    ensures dir.Valid()
    ensures var idx := MessageIndex(msg.address); var e := old(dir.lines[idx]);
      dir.lines[..] == old(dir.lines[..])[idx := ReadRequestEntry(e, msg.sourceId)] &&
      ic.outgoingQueue == old(ic.outgoingQueue) +
        [Message(ReadAcknowledge, if e.state == DirUncached then MEMORY_ID else e.owner, msg.sourceId, msg.address)]
  {
    var dirIndex := MessageIndex(msg.address);
    var dirEntry := dir.lines[dirIndex];
    if dirEntry.state == DirUncached {
      ic.outgoingQueue := ic.outgoingQueue + [Message(ReadAcknowledge, MEMORY_ID, msg.sourceId, msg.address)];
      dir.lines[dirIndex] := DirEntry(DirShared, dirEntry.existsInCache[msg.sourceId := true], msg.sourceId);
    } else if dirEntry.state == DirShared || dirEntry.state == DirExclusiveModified {
      ic.outgoingQueue := ic.outgoingQueue + [Message(ReadAcknowledge, dirEntry.owner, msg.sourceId, msg.address)];
      dir.lines[dirIndex] := dirEntry.(existsInCache := dirEntry.existsInCache[msg.sourceId := true]);
    }
  }

  /** The processors a write by `requester` must invalidate: the present ones other than the requester. */
  function OtherSharers(e: DirEntry, requester: int): (want: seq<bool>)
    requires WellFormed(e)
    ensures |want| == NUM_PROCESSORS
    ensures forall j :: 0 <= j < NUM_PROCESSORS ==> (want[j] <==> e.existsInCache[j] && j != requester)
  {
    seq(NUM_PROCESSORS, j requires 0 <= j < NUM_PROCESSORS => e.existsInCache[j] && j != requester)
  }

  /**
   * The messages of `handleWriteRequest`, in order: when the line was
   * cached, one `INVALIDATE` to each other present processor in increasing
   * id order; then, last, the `WRITE_ACKNOWLEDGE` to the requester.
   */
  function WriteRequestMessages(e: DirEntry, msg: Message): (r: seq<Message>)
    requires WellFormed(e)
    ensures |r| >= 1 && r[|r| - 1] == Message(WriteAcknowledge, DIRECTORY_ID, msg.sourceId, msg.address)
    ensures forall m :: m in r[..|r| - 1] <==>
      e.state != DirUncached && m.kind == Invalidate && m.sourceId == DIRECTORY_ID && m.address == msg.address &&
      IsProcessor(m.destId) && e.existsInCache[m.destId] && m.destId != msg.sourceId
    ensures forall a, b :: 0 <= a < b < |r| - 1 ==> r[a].destId < r[b].destId
  {
    var invalidations :=
      if e.state != DirUncached then Invalidations(OtherSharers(e, msg.sourceId), DIRECTORY_ID, msg.address, NUM_PROCESSORS)
      else [];
    var r := invalidations + [Message(WriteAcknowledge, DIRECTORY_ID, msg.sourceId, msg.address)];
    assert r[..|r| - 1] == invalidations;
    r
  }

  /** The entry after `handleWriteRequest`: `EXCLUSIVE_MODIFIED`, owned by the requester, present only there. */
  function WriteRequestEntry(requester: int): (r: DirEntry)
    ensures WellFormed(r) && r.state == DirExclusiveModified && r.owner == requester
    ensures forall j :: 0 <= j < NUM_PROCESSORS ==> (r.existsInCache[j] <==> j == requester)
  {
    DirEntry(DirExclusiveModified, OnlySharer(requester), requester)
  }

  /** `handleWriteRequest`: the entry becomes `WriteRequestEntry` and `WriteRequestMessages` are sent. */
  method HandleWriteRequest(msg: Message, ic: Interconnect, dir: Directory)
    requires dir.Valid() && MessageIndexes(dir, msg) && IsProcessor(msg.sourceId)
    modifies dir.lines, ic`outgoingQueue
    ensures dir.Valid()
    ensures var idx := MessageIndex(msg.address);
      dir.lines[..] == old(dir.lines[..])[idx := WriteRequestEntry(msg.sourceId)] &&
      ic.outgoingQueue == old(ic.outgoingQueue) + WriteRequestMessages(old(dir.lines[idx]), msg)
  {
    var dirIndex := MessageIndex(msg.address);
    var dirEntry := dir.lines[dirIndex];
    ghost var q0 := ic.outgoingQueue;
    if dirEntry.state != DirUncached {
      SendInvalidations(ic, dirEntry, msg);
    }
    var bits := OwnerOnly(dirEntry.existsInCache, msg.sourceId);
    dir.lines[dirIndex] := DirEntry(DirExclusiveModified, bits, msg.sourceId);
    ic.outgoingQueue := ic.outgoingQueue + [Message(WriteAcknowledge, DIRECTORY_ID, msg.sourceId, msg.address)];
    WriteRequestMessagesParts(dirEntry, msg);
  }

  /** The loop of `handleWriteRequest` that clears every presence bit, then the requester's bit set. */
  method OwnerOnly(bits: seq<bool>, owner: int) returns (r: seq<bool>)
    requires |bits| == NUM_PROCESSORS && IsProcessor(owner)
    ensures r == OnlySharer(owner)
  {
    r := bits;
    var i := 0;
    while i < NUM_PROCESSORS
      invariant 0 <= i <= NUM_PROCESSORS == |r|
      invariant forall k :: 0 <= k < i ==> !r[k]
    {
      r := r[i := false];
      i := i + 1;
    }
    r := r[owner := true];
  }

  lemma WriteRequestMessagesParts(e: DirEntry, msg: Message)
    requires WellFormed(e)
    ensures WriteRequestMessages(e, msg) ==
      (if e.state != DirUncached then Invalidations(OtherSharers(e, msg.sourceId), DIRECTORY_ID, msg.address, NUM_PROCESSORS)
       else []) + [Message(WriteAcknowledge, DIRECTORY_ID, msg.sourceId, msg.address)]
  {
  }

  /** The loop of `handleWriteRequest` that invalidates the other sharers of a cached line. */
  method SendInvalidations(ic: Interconnect, e: DirEntry, msg: Message)
    requires WellFormed(e)
    modifies ic`outgoingQueue
    ensures ic.outgoingQueue == old(ic.outgoingQueue) +
      Invalidations(OtherSharers(e, msg.sourceId), DIRECTORY_ID, msg.address, NUM_PROCESSORS)
  {
    ghost var want := OtherSharers(e, msg.sourceId);
    var i := 0;
    while i < NUM_PROCESSORS
      invariant 0 <= i <= NUM_PROCESSORS
      invariant ic.outgoingQueue == old(ic.outgoingQueue) + Invalidations(want, DIRECTORY_ID, msg.address, i)
    {
      assert want[i] == (e.existsInCache[i] && i != msg.sourceId);
      if e.existsInCache[i] && i != msg.sourceId {
        ic.outgoingQueue := ic.outgoingQueue + [Message(Invalidate, DIRECTORY_ID, i, msg.address)];
      }
      i := i + 1;
    }
  }

  /**
   * The entry after `handleInvalidateAcknowledge`: the sender's presence
   * bit is cleared; with no sharer left the entry is `UNCACHED` without
   * owner, otherwise state and owner are kept.
   */
  function InvalidateAckEntry(e: DirEntry, source: int): (r: DirEntry)
    requires WellFormed(e) && IsProcessor(source)
    ensures WellFormed(r) && r.existsInCache == e.existsInCache[source := false]
    ensures NoSharers(r) ==> r.state == DirUncached && r.owner == -1
    ensures !NoSharers(r) ==> r.state == e.state && r.owner == e.owner
  {
    var bits := e.existsInCache[source := false];
    if exists j :: 0 <= j < NUM_PROCESSORS && bits[j] then e.(existsInCache := bits)
    else DirEntry(DirUncached, bits, -1)
  }

  /** `handleInvalidateAcknowledge`: the entry becomes `InvalidateAckEntry`; nothing is sent. */
  method HandleInvalidateAcknowledge(msg: Message, dir: Directory)
    requires dir.Valid() && MessageIndexes(dir, msg) && IsProcessor(msg.sourceId)
    modifies dir.lines
    ensures dir.Valid()
    ensures var idx := MessageIndex(msg.address);
      dir.lines[..] == old(dir.lines[..])[idx := InvalidateAckEntry(old(dir.lines[idx]), msg.sourceId)]
  {
    var dirIndex := MessageIndex(msg.address);
    var dirEntry := dir.lines[dirIndex];
    var bits := dirEntry.existsInCache[msg.sourceId := false];
    dir.lines[dirIndex] := dirEntry.(existsInCache := bits);
    var stillCached := false;
    var i := 0;
    while i < NUM_PROCESSORS
      invariant 0 <= i <= NUM_PROCESSORS
      invariant !stillCached
      invariant forall k :: 0 <= k < i ==> !bits[k]
    {
      if bits[i] {
        stillCached := true;
        break;
      }
      i := i + 1;
    }
    if !stillCached {
      dir.lines[dirIndex] := dir.lines[dirIndex].(state := DirUncached, owner := -1);
    }
  }

  /** The three directory-side handlers keep every entry `Coherent`, starting from the initial entry. */
  lemma {:induction false} HandlersKeepCoherent(e: DirEntry, p: int)
    requires Coherent(e) && IsProcessor(p)
    ensures Coherent(UNCACHED_ENTRY)
    ensures Coherent(ReadRequestEntry(e, p))
    ensures Coherent(WriteRequestEntry(p))
    ensures Coherent(InvalidateAckEntry(e, p))
  {
    var r := ReadRequestEntry(e, p);
    assert !NoSharers(r) by {
      assert r.existsInCache[p];
    }
    var w := WriteRequestEntry(p);
    assert !NoSharers(w) by {
      assert w.existsInCache[p];
    }
  }

  /**
   * `Coherent` does not make the owner of an exclusive line one of its
   * holders: after a write by processor 0, a read by processor 1 and an
   * invalidate acknowledgement from processor 0, the entry is still
   * `EXCLUSIVE_MODIFIED` and owned by processor 0, yet only processor 1
   * holds the line.
   */
  lemma ExclusiveOwnerCanLeave()
    ensures var e := InvalidateAckEntry(ReadRequestEntry(WriteRequestEntry(0), 1), 0);
      Coherent(e) && e.state == DirExclusiveModified && e.owner == 0 &&
      !e.existsInCache[0] && e.existsInCache[1]
  {
    var w := WriteRequestEntry(0);
    HandlersKeepCoherent(UNCACHED_ENTRY, 0);
    var r := ReadRequestEntry(w, 1);
    HandlersKeepCoherent(w, 1);
    HandlersKeepCoherent(r, 0);
    var e := InvalidateAckEntry(r, 0);
    assert e.existsInCache[1];
  }

  /**
   * On a coherent entry, a write request invalidates every processor other
   * than the requester that held the line, and only those.
   */
  lemma {:induction false} WriteRequestInvalidatesOtherSharers(e: DirEntry, msg: Message, j: int)
    requires Coherent(e) && IsProcessor(msg.sourceId) && IsProcessor(j)
    ensures var r := WriteRequestMessages(e, msg);
      Message(Invalidate, DIRECTORY_ID, j, msg.address) in r[..|r| - 1] <==> e.existsInCache[j] && j != msg.sourceId
  {
    if e.existsInCache[j] {
      assert !NoSharers(e);
    }
  }

  // ---------------------------------------------------------------------
  // Handlers on the cache side.
  // ---------------------------------------------------------------------

  /** The set a message's address falls in, in a cache with the given geometry. */
  function SetOf(address: nat, s: nat, b: nat): (r: nat)
    ensures r < Pow2(s)
  {
    SingleCache.SetIndex(address, s, b)
  }

  /** The loop shared by the cache-side handlers: the first valid line with the tag, or -1. */
  method FindFirstMatch(lines: seq<CacheLine>, tag: nat, maxLines: nat) returns (found: int)
    requires maxLines == |lines|
    ensures found == FirstMatch(lines, tag)
  {
    var i := 0;
    while i < maxLines
      invariant 0 <= i <= maxLines
      invariant forall k :: 0 <= k < i ==> !LineMatches(lines[k], tag)
    {
      if lines[i].valid && lines[i].tag == tag {
        return i;
      }
      i := i + 1;
    }
    return -1;
  }

  /** The largest counter, 0 for none. */
  function MaxOf(s: seq<nat>): (r: nat)
    ensures forall j :: 0 <= j < |s| ==> s[j] <= r
  {
    if |s| == 0 then 0
    else
      var m := MaxOf(s[..|s| - 1]);
      if s[|s| - 1] > m then s[|s| - 1] else m
  }

  /** The first position of the largest counter. */
  function ArgMax(s: seq<nat>): (v: nat)
    requires |s| >= 1
    ensures v < |s| && s[v] == MaxOf(s)
    ensures forall j :: 0 <= j < v ==> s[j] < s[v]
  {
    if |s| == 1 then 0
    else
      var p := s[..|s| - 1];
      if s[|s| - 1] > MaxOf(p) then |s| - 1 else ArgMax(p)
  }

  /**
   * The line `handleReadAcknowledge` refills on a miss: the first invalid
   * line if there is one, otherwise the first line with the largest LRU
   * counter.
   */
  function Victim(lines: seq<CacheLine>, lruCounter: seq<nat>): (v: nat)
    requires |lruCounter| == |lines| >= 1
    ensures v < |lines|
    ensures FirstInvalid(lines) >= 0 ==> v == FirstInvalid(lines)
    ensures FirstInvalid(lines) == -1 ==>
      (forall j :: 0 <= j < |lines| ==> lruCounter[j] <= lruCounter[v]) &&
      (forall j :: 0 <= j < v ==> lruCounter[j] < lruCounter[v])
  {
    var f := FirstInvalid(lines);
    if f >= 0 then f else ArgMax(lruCounter)
  }

  /**
   * The set after `handleReadAcknowledge`: afterwards a valid, clean line
   * carries the tag; on a hit it is the line that matched, on a miss it is
   * the `Victim`; every other line is kept.
   */
  function ReadAckLines(lines: seq<CacheLine>, tag: nat, lruCounter: seq<nat>): (r: seq<CacheLine>)
    requires |lruCounter| == |lines| >= 1
    ensures |r| == |lines|
    ensures var k := FirstMatch(r, tag);
      k >= 0 && !r[k].isDirty &&
      (forall j :: 0 <= j < |lines| && j != k ==> r[j] == lines[j]) &&
      (FirstMatch(lines, tag) >= 0 ==> k == FirstMatch(lines, tag) && r[k] == lines[k].(isDirty := false)) &&
      (FirstMatch(lines, tag) == -1 ==>
        k == Victim(lines, lruCounter) && r[k] == lines[k].(tag := tag, valid := true, isDirty := false))
  {
    var h := FirstMatch(lines, tag);
    if h >= 0 then
      var r := lines[h := lines[h].(isDirty := false)];
      FirstMatchIs(r, tag, h);
      r
    else
      var v := Victim(lines, lruCounter);
      var r := lines[v := lines[v].(tag := tag, valid := true, isDirty := false)];
      FirstMatchIs(r, tag, v);
      r
  }

  /**
   * `handleReadAcknowledge`, with the set's LRU counters passed in: the
   * set modelled here (the `set_t` of include/utils.h) carries no counters,
   * and `updateLRUCounter` is not defined in the repository.  The
   * address's set becomes `ReadAckLines`.
   */
  method HandleReadAcknowledge(msg: Message, cache: Cache, lruCounter: seq<nat>)
    requires cache.Valid() && msg.address < TWO_64 && cache.E >= 1 && |lruCounter| == cache.E
    modifies cache.setList
    ensures cache.Valid()
    ensures var idx := SetOf(msg.address, cache.S, cache.B); var st := old(cache.setList[idx]);
      cache.setList[..] == old(cache.setList[..])[idx := st.(lines := ReadAckLines(st.lines, CalculateTag(msg.address, cache.S, cache.B), lruCounter))]
  {
    var setIndex := SetOf(msg.address, cache.S, cache.B);
    var tag := CalculateTag(msg.address, cache.S, cache.B);
    var st := cache.setList[setIndex];
    var lines := st.lines;
    var h := FindFirstMatch(lines, tag, st.associativity);
    if h >= 0 {
      cache.setList[setIndex] := st.(lines := lines[h := lines[h].(isDirty := false)]);
      return;
    }
    var replaceIndex := FindVictim(lines, lruCounter, st.associativity);
    cache.setList[setIndex] := st.(lines := lines[replaceIndex := lines[replaceIndex].(tag := tag, valid := true, isDirty := false)]);
  }

  /** The replacement loop of `handleReadAcknowledge`. */
  method FindVictim(lines: seq<CacheLine>, lruCounter: seq<nat>, maxLines: nat) returns (replaceIndex: nat)
    requires |lruCounter| == |lines| == maxLines >= 1
    ensures replaceIndex == Victim(lines, lruCounter)
  {
    replaceIndex := 0;
    var maxLRU := 0;
    var i := 0;
    while i < maxLines
      invariant 0 <= i <= maxLines
      invariant forall k :: 0 <= k < i ==> lines[k].valid
      invariant maxLRU == MaxOf(lruCounter[..i])
      invariant replaceIndex == if i == 0 then 0 else ArgMax(lruCounter[..i])
    {
      assert lruCounter[..i + 1][..i] == lruCounter[..i];
      if !lines[i].valid {
        replaceIndex := i;
        return;
      } else if lruCounter[i] > maxLRU {
        replaceIndex := i;
        maxLRU := lruCounter[i];
      }
      i := i + 1;
    }
    assert lruCounter[..|lruCounter|] == lruCounter;
  }

  /**
   * The set after one cache's part of `handleInvalidate`: the first valid
   * line with the tag becomes invalid and clean, keeping its tag, state and
   * time; every other line is kept.
   */
  function InvalidateFirst(lines: seq<CacheLine>, tag: nat): (r: seq<CacheLine>)
    ensures |r| == |lines|
    ensures var k := FirstMatch(lines, tag);
      (forall j :: 0 <= j < |lines| && j != k ==> r[j] == lines[j]) &&
      (k >= 0 ==>
        r[k] == lines[k].(valid := false, isDirty := false))
  {
    var k := FirstMatch(lines, tag);
    if k >= 0 then lines[k := lines[k].(valid := false, isDirty := false)] else lines
  }

  /** No two valid lines of the set carry the same tag. */
  predicate UniqueTags(lines: seq<CacheLine>)
  {
    forall a, b :: 0 <= a < b < |lines| && lines[a].valid && lines[b].valid ==> lines[a].tag != lines[b].tag
  }

  /** In a set without duplicate tags, `handleInvalidate` leaves no valid line with the tag. */
  lemma {:induction false} InvalidateFirstRemovesTag(lines: seq<CacheLine>, tag: nat)
    requires UniqueTags(lines)
    ensures FirstMatch(InvalidateFirst(lines, tag), tag) == -1
  {
    var r := InvalidateFirst(lines, tag);
    var k := FirstMatch(lines, tag);
    var i := FirstMatch(r, tag);
  }

  /** `c` is valid and its sets are `before` with `InvalidateFirst` applied to the address's set. */
  ghost predicate InvalidatedIn(c: Cache, address: nat, before: seq<LineSet>)
    reads c, c.setList
  {
    c.Valid() && address < TWO_64 && |before| == c.setList.Length &&
    var idx := SetOf(address, c.S, c.B);
    c.setList[..] == before[idx := before[idx].(lines := InvalidateFirst(before[idx].lines, CalculateTag(address, c.S, c.B)))]
  }

  /** One cache's part of `handleInvalidate`. */
  method InvalidateInCache(cache: Cache, address: nat)
    requires cache.Valid() && address < TWO_64
    modifies cache.setList
    ensures InvalidatedIn(cache, address, old(cache.setList[..]))
  {
    var setIndex := SetOf(address, cache.S, cache.B);
    var tag := CalculateTag(address, cache.S, cache.B);
    var st := cache.setList[setIndex];
    var j := FindFirstMatch(st.lines, tag, st.associativity);
    if j >= 0 {
      cache.setList[setIndex] := st.(lines := st.lines[j := st.lines[j].(valid := false, isDirty := false)]);
    }
  }

  /** The caches of the processors, each with its own set array. */
  predicate SeparateCaches(allCaches: seq<Cache>)
    reads allCaches
  {
    |allCaches| == NUM_PROCESSORS &&
    forall a, b :: 0 <= a < NUM_PROCESSORS && 0 <= b < NUM_PROCESSORS && a != b ==>
      allCaches[a].setList != allCaches[b].setList
  }

  /** The sets of each cache, as values. */
  ghost function SetContents(caches: seq<Cache>): (r: seq<seq<LineSet>>)
    reads caches, set c | c in caches :: c.setList
    ensures |r| == |caches| && forall k :: 0 <= k < |caches| ==> r[k] == caches[k].setList[..]
  {
    seq(|caches|, k requires 0 <= k < |caches| reads caches, set c | c in caches :: c.setList => caches[k].setList[..])
  }

  /** `handleInvalidate`: in every processor's cache, `InvalidateFirst` on the address's set. */
  method HandleInvalidate(msg: Message, allCaches: seq<Cache>)
    requires SeparateCaches(allCaches) && msg.address < TWO_64
    requires forall k :: 0 <= k < NUM_PROCESSORS ==> allCaches[k].Valid()
    modifies set k | 0 <= k < NUM_PROCESSORS :: allCaches[k].setList
    ensures forall k :: 0 <= k < NUM_PROCESSORS ==>
      InvalidatedIn(allCaches[k], msg.address, old(allCaches[k].setList[..]))
  {
    ghost var before := SetContents(allCaches);
    var i := 0;
    while i < NUM_PROCESSORS
      invariant 0 <= i <= NUM_PROCESSORS
      invariant forall k :: 0 <= k < i ==> InvalidatedIn(allCaches[k], msg.address, before[k])
      invariant forall k :: i <= k < NUM_PROCESSORS ==>
        allCaches[k].Valid() && allCaches[k].setList[..] == before[k]
    {
      InvalidateNext(allCaches, i, msg.address, before);
      i := i + 1;
    }
  }

  /** One iteration of the loop of `handleInvalidate`: cache i is done and no other cache changes. */
  method InvalidateNext(allCaches: seq<Cache>, i: int, address: nat, ghost before: seq<seq<LineSet>>)
    requires SeparateCaches(allCaches) && address < TWO_64 && 0 <= i < NUM_PROCESSORS == |before|
    requires forall k :: 0 <= k < i ==> InvalidatedIn(allCaches[k], address, before[k])
    requires forall k :: i <= k < NUM_PROCESSORS ==> allCaches[k].Valid() && allCaches[k].setList[..] == before[k]
    modifies allCaches[i].setList
    ensures forall k :: 0 <= k < i + 1 ==> InvalidatedIn(allCaches[k], address, before[k])
    ensures forall k :: i + 1 <= k < NUM_PROCESSORS ==> allCaches[k].Valid() && allCaches[k].setList[..] == before[k]
  {
    InvalidateInCache(allCaches[i], address);
  }

  /**
   * The set after `handleWriteUpdate` (`dirty` true) or
   * `handleWriteAcknowledge` (`dirty` false): the first valid line with
   * the tag gets that dirty bit; nothing else changes, and which line
   * matches first is unchanged.
   */
  function SetDirtyOfFirst(lines: seq<CacheLine>, tag: nat, dirty: bool): (r: seq<CacheLine>)
    ensures |r| == |lines| && FirstMatch(r, tag) == FirstMatch(lines, tag)
    ensures var k := FirstMatch(lines, tag);
      (forall j :: 0 <= j < |lines| && j != k ==> r[j] == lines[j]) &&
      (k >= 0 ==> r[k] == lines[k].(isDirty := dirty))
  {
    var k := FirstMatch(lines, tag);
    if k >= 0 then
      var r := lines[k := lines[k].(isDirty := dirty)];
      FirstMatchIs(r, tag, k);
      r
    else lines
  }

  /** A write acknowledgement after a write update leaves the line as the acknowledgement alone would. */
  lemma {:induction false} AcknowledgeAfterUpdate(lines: seq<CacheLine>, tag: nat)
    ensures SetDirtyOfFirst(SetDirtyOfFirst(lines, tag, true), tag, false) == SetDirtyOfFirst(lines, tag, false)
  {
    var u := SetDirtyOfFirst(lines, tag, true);
    var a := SetDirtyOfFirst(u, tag, false);
    var b := SetDirtyOfFirst(lines, tag, false);
    forall j | 0 <= j < |lines| ensures a[j] == b[j] {
    }
  }

  /** The loop shared by `handleWriteUpdate` and `handleWriteAcknowledge`. */
  method SetDirtyInCache(msg: Message, cache: Cache, dirty: bool)
    requires cache.Valid() && msg.address < TWO_64
    modifies cache.setList
    ensures cache.Valid()
    ensures var idx := SetOf(msg.address, cache.S, cache.B); var st := old(cache.setList[idx]);
      cache.setList[..] == old(cache.setList[..])[idx := st.(lines := SetDirtyOfFirst(st.lines, CalculateTag(msg.address, cache.S, cache.B), dirty))]
  {
    var setIndex := SetOf(msg.address, cache.S, cache.B);
    var tag := CalculateTag(msg.address, cache.S, cache.B);
    var st := cache.setList[setIndex];
    var i := FindFirstMatch(st.lines, tag, st.associativity);
    if i >= 0 {
      cache.setList[setIndex] := st.(lines := st.lines[i := st.lines[i].(isDirty := dirty)]);
    }
  }

  /** `handleWriteUpdate`: the matching line, if any, becomes dirty. */
  method HandleWriteUpdate(msg: Message, cache: Cache)
    requires cache.Valid() && msg.address < TWO_64
    modifies cache.setList
    ensures cache.Valid()
    ensures var idx := SetOf(msg.address, cache.S, cache.B); var st := old(cache.setList[idx]);
      cache.setList[..] == old(cache.setList[..])[idx := st.(lines := SetDirtyOfFirst(st.lines, CalculateTag(msg.address, cache.S, cache.B), true))]
  {
    SetDirtyInCache(msg, cache, true);
  }

  /** `handleWriteAcknowledge`: the matching line, if any, becomes clean. */
  method HandleWriteAcknowledge(msg: Message, cache: Cache)
    requires cache.Valid() && msg.address < TWO_64
    modifies cache.setList
    ensures cache.Valid()
    ensures var idx := SetOf(msg.address, cache.S, cache.B); var st := old(cache.setList[idx]);
      cache.setList[..] == old(cache.setList[..])[idx := st.(lines := SetDirtyOfFirst(st.lines, CalculateTag(msg.address, cache.S, cache.B), false))]
  {
    SetDirtyInCache(msg, cache, false);
  }

  // ---------------------------------------------------------------------
  // The trace-line parser.
  // ---------------------------------------------------------------------

  /**
   * The request `serviceInstruction` sends for a line: none for a line
   * that does not scan, a processor outside `[0, NUM_PROCESSORS)` or an
   * operation other than `R`/`W`; otherwise a `READ_REQUEST` for `R` and a
   * `WRITE_REQUEST` for `W`, from the processor to itself, carrying the
   * scanned address as an `unsigned long`.
   */
  function InstructionMessage(line: string): (r: Option<Message>)
    ensures r.Some? <==> (match TraceScan.ScanInstruction(line)
      case None => false
      case Some((p, op, _)) => IsProcessor(p) && (op == 'R' || op == 'W'))
    ensures r.Some? ==>
      var scanned := TraceScan.ScanInstruction(line).value;
      r.value.kind == (if scanned.1 == 'R' then ReadRequest else WriteRequest) &&
      r.value.sourceId == scanned.0 && r.value.destId == scanned.0 &&
      r.value.address == Saturate(scanned.2)
  {
    RequestOfScan(TraceScan.ScanInstruction(line))
  }

  /** The request for the fields a line scanned to, if any. */
  function RequestOfScan(scanned: Option<(int, char, int)>): (r: Option<Message>)
  {
    match scanned
    case None => None
    case Some((processorId, operation, address)) =>
      if processorId < 0 || processorId >= NUM_PROCESSORS then None
      else if operation == 'R' then Some(Message(ReadRequest, processorId, processorId, Saturate(address)))
      else if operation == 'W' then Some(Message(WriteRequest, processorId, processorId, Saturate(address)))
      else None
  }

  /** `serviceInstruction`: the request, if any, is put on the interconnect. */
  method ServiceInstruction(line: string, ic: Interconnect)
    modifies ic`outgoingQueue
    ensures var m := InstructionMessage(line);
      ic.outgoingQueue == old(ic.outgoingQueue) + (if m.Some? then [m.value] else [])
  {
    var m := InstructionMessage(line);
    if m.Some? {
      ic.outgoingQueue := ic.outgoingQueue + [m.value];
    }
  }

  /**
   * A line as the 64-byte generators write it, for a processor the
   * directory knows, becomes the request for the same processor, operation
   * and address.
   */
  lemma {:induction false} ServiceGeneratedLine(rec: TraceRecord.Record)
    requires IsProcessor(rec.proc) && 0 <= rec.address < TWO_64
    ensures InstructionMessage(TraceRecord.FormatLine(rec, TraceRecord.SPACE_SEP)) ==
      Some(Message(RequestOf(rec.op), rec.proc, rec.proc, rec.address))
  {
    TraceScan.SpaceLineRoundTrip(rec);
    RequestOfScannedRecord(rec.proc, rec.op, rec.address);
  }

  /** A scanned `R`/`W` record of a known processor keeps its processor and address. */
  lemma RequestOfScannedRecord(proc: int, op: TraceRecord.Op, address: int)
    requires IsProcessor(proc) && 0 <= address < TWO_64
    ensures RequestOfScan(Some((proc, TraceRecord.OpChar(op), address))) ==
      Some(Message(RequestOf(op), proc, proc, address))
  {
  }

  /** A line in the comma-separated format of the 8-byte generators sends nothing. */
  lemma {:induction false} ServiceDropsCommaLine(rec: TraceRecord.Record)
    ensures InstructionMessage(TraceRecord.FormatLine(rec, TraceRecord.COMMA_SEP)).None?
  {
    TraceScan.CommaLineRejected(rec);
  }
}
