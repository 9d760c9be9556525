/**
 * The shared types of include/utils.h and the helpers of utils.c that the
 * directory protocols use: cache lines with a MESI state and a last-use
 * time, directory entries with presence bits, the coherence messages, the
 * interconnect's two message queues, and the address arithmetic.
 */
module Utils {
  import opened CInt
  import SingleCache
  import TraceRecord

  const NUM_PROCESSORS: int := 4
  const NUM_LINES: int := 256
  const MAIN_S: nat := 1
  const MAIN_E: nat := 16
  const MAIN_B: nat := 16

  /** The id that memory (the directory) uses as a message endpoint. */
  const MEMORY_ID: int := -1

  datatype BlockState = Invalid | Shared | Exclusive | Modified

  datatype DirState = DirUncached | DirShared | DirExclusiveModified

  datatype MsgType =
    | ReadRequest | ReadAcknowledge | Invalidate | InvalidateAck
    | StateUpdate | WriteRequest | WriteAcknowledge | Fetch

  /** `message_t`; the address is an `unsigned long`. */
  datatype Message = Message(kind: MsgType, sourceId: int, destId: int, address: nat)

  /** `line_t`. */
  datatype CacheLine = CacheLine(tag: nat, valid: bool, isDirty: bool, state: BlockState, lastUsed: nat)

  /** `set_t`: the line array, as a sequence, and its declared size. */
  datatype LineSet = LineSet(lines: seq<CacheLine>, associativity: nat)

  /** `directory_entry_t`: state, one presence bit per processor, owner (-1 for none). */
  datatype DirEntry = DirEntry(state: DirState, existsInCache: seq<bool>, owner: int)

  const EMPTY_LINE: CacheLine := CacheLine(0, false, false, Invalid, 0)
  const NO_SHARERS: seq<bool> := [false, false, false, false]
  const UNCACHED_ENTRY: DirEntry := DirEntry(DirUncached, NO_SHARERS, -1)

  predicate IsProcessor(p: int)
  {
    0 <= p < NUM_PROCESSORS
  }

  predicate WellFormed(e: DirEntry)
  {
    |e.existsInCache| == NUM_PROCESSORS
  }

  predicate NoSharers(e: DirEntry)
    requires WellFormed(e)
  {
    forall j :: 0 <= j < NUM_PROCESSORS ==> !e.existsInCache[j]
  }

  predicate LineMatches(l: CacheLine, tag: nat)
  {
    l.valid && l.tag == tag
  }

  /**
   * `directoryIndex`: C's `%` on an `int`, so a negative address gives a
   * non-positive index.
   */
  function DirectoryIndex(address: int): (r: int)
    requires INT_MIN <= address <= INT_MAX
    ensures -NUM_LINES < r < NUM_LINES
    ensures address >= 0 ==> 0 <= r && r == address % NUM_LINES
    ensures address < 0 ==> r <= 0
  {
    CRem(address, NUM_LINES)
  }

  /** `calculateTag`: `address >> (S + B)` on an `unsigned long`. */
  function CalculateTag(address: nat, s: nat, b: nat): (r: nat)
    requires address < TWO_64
    ensures r <= address
  {
    SingleCache.DivBelow(address, Pow2(s + b));
    address / Pow2(s + b)
  }

  /** The tag is the address with its low S+B bits dropped: it brackets the address by multiples of 2^(S+B). */
  lemma CalculateTagBounds(address: nat, s: nat, b: nat)
    requires address < TWO_64
    ensures var r := CalculateTag(address, s, b);
      r * Pow2(s + b) <= address < r * Pow2(s + b) + Pow2(s + b)
  {
    DivBounds(address, Pow2(s + b));
  }

  lemma DivBounds(a: nat, p: nat)
    requires p >= 1
    ensures a / p <= a
    ensures (a / p) * p <= a < (a / p) * p + p
  {
    var q := a / p;
    var m := a % p;
    assert 0 <= m < p;
    assert a == q * p + m;
    SingleCache.DivBelow(a, p);
  }

  /** The first valid line of the set carrying the tag, or -1. */
  function FirstMatch(lines: seq<CacheLine>, tag: nat): (i: int)
    ensures -1 <= i < |lines|
    ensures i >= 0 ==> LineMatches(lines[i], tag)
    ensures forall j :: 0 <= j < |lines| && (i == -1 || j < i) ==> !LineMatches(lines[j], tag)
  {
    if |lines| == 0 then -1
    else if LineMatches(lines[0], tag) then 0
    else
      var k := FirstMatch(lines[1..], tag);
      if k == -1 then -1 else k + 1
  }

  /** A matching line with no match before it is the first match. */
  lemma FirstMatchIs(lines: seq<CacheLine>, tag: nat, k: int)
    requires 0 <= k < |lines| && LineMatches(lines[k], tag)
    requires forall j :: 0 <= j < k ==> !LineMatches(lines[j], tag)
    ensures FirstMatch(lines, tag) == k
  {
  }

  /** A line as `invalidateCacheLine` leaves it. */
  function InvalidatedLine(l: CacheLine, tag: nat): CacheLine
  {
    if l.tag == tag && l.valid then l.(valid := false, state := Invalid) else l
  }

  /**
   * The lines of a set after `invalidateCacheLine`: every valid line with
   * the tag is invalid and `INVALID`; dirty bits, tags, times and every
   * other line are kept, and no line carries the tag validly afterwards.
   */
  function InvalidateMatching(lines: seq<CacheLine>, tag: nat): (r: seq<CacheLine>)
    ensures |r| == |lines|
    ensures forall j :: 0 <= j < |lines| ==>
      r[j].tag == lines[j].tag && r[j].isDirty == lines[j].isDirty && r[j].lastUsed == lines[j].lastUsed
    ensures forall j :: 0 <= j < |lines| && !LineMatches(lines[j], tag) ==> r[j] == lines[j]
    ensures forall j :: 0 <= j < |lines| && LineMatches(lines[j], tag) ==> !r[j].valid && r[j].state == Invalid
    ensures FirstMatch(r, tag) == -1
  {
    if |lines| == 0 then [] else [InvalidatedLine(lines[0], tag)] + InvalidateMatching(lines[1..], tag)
  }

  /** Invalidating twice is invalidating once. */
  lemma {:induction false} InvalidateMatchingIdempotent(lines: seq<CacheLine>, tag: nat)
    ensures InvalidateMatching(InvalidateMatching(lines, tag), tag) == InvalidateMatching(lines, tag)
  {
    var r := InvalidateMatching(lines, tag);
    var r2 := InvalidateMatching(r, tag);
    forall j | 0 <= j < |r| ensures r2[j] == r[j] {
      assert !LineMatches(r[j], tag);
    }
  }

  lemma {:induction false} InvalidateMatchingAt(lines: seq<CacheLine>, tag: nat, k: nat)
    requires k < |lines|
    ensures InvalidateMatching(lines, tag)[k] == InvalidatedLine(lines[k], tag)
  {
    if k > 0 {
      InvalidateMatchingAt(lines[1..], tag, k - 1);
    }
  }

  /** Presence bits naming exactly one processor. */
  function OnlySharer(p: int): (bits: seq<bool>)
    ensures |bits| == NUM_PROCESSORS
    ensures forall j :: 0 <= j < NUM_PROCESSORS ==> (bits[j] <==> j == p)
  {
    [p == 0, p == 1, p == 2, p == 3]
  }

  /**
   * The invalidations a loop `for (i = 0; i < k; i++) if (want[i]) send
   * INVALIDATE to i` emits: one `INVALIDATE` from `source` to each wanted
   * processor below `k`, and no other message, in increasing processor order.
   */
  function Invalidations(want: seq<bool>, source: int, address: nat, k: nat): (r: seq<Message>)
    requires k <= |want|
    ensures forall m :: m in r <==>
      m.kind == Invalidate && m.sourceId == source && m.address == address &&
      0 <= m.destId < k && want[m.destId]
    ensures forall a, b :: 0 <= a < b < |r| ==> r[a].destId < r[b].destId
  {
    if k == 0 then []
    else
      var prev := Invalidations(want, source, address, k - 1);
      prev + (if want[k - 1] then [Message(Invalidate, source, k - 1, address)] else [])
  }

  /** `count` copies of the initial line of `initializeCache`. */
  function EmptyLines(count: nat): (r: seq<CacheLine>)
    ensures |r| == count
    ensures forall j :: 0 <= j < count ==> r[j] == EMPTY_LINE
  {
    if count == 0 then [] else EmptyLines(count - 1) + [EMPTY_LINE]
  }

  /** `cache_t` of include/utils.h, as the directory protocols use it. */
  class Cache {
    var processorId: int
    var S: nat
    var E: nat
    var B: nat
    var setList: array<LineSet>
    var hitCount: nat
    var missCount: nat
    var evictionCount: nat
    var dirtyEvictionCount: nat

    /** 2^S sets, each holding exactly E = associativity lines. */
    ghost predicate Valid()
      reads this, setList
    {
      setList.Length == Pow2(S) && E < TWO_32 &&
      forall i :: 0 <= i < setList.Length ==>
        |setList[i].lines| == E && setList[i].associativity == E
    }

    /**
     * `initializeCache`: 2^s sets of e lines, every line tag 0, invalid,
     * clean, `INVALID`, last used at 0; all counters zero.
     */
    constructor (s: nat, e: nat, b: nat, processorId: int)
      requires s < 32 && e < TWO_32
      ensures Valid() && fresh(setList)
      ensures this.processorId == processorId && S == s && E == e && B == b
      ensures hitCount == 0 && missCount == 0 && evictionCount == 0 && dirtyEvictionCount == 0
      ensures forall i :: 0 <= i < setList.Length ==> setList[i] == LineSet(EmptyLines(e), e)
    {
      this.processorId := processorId;
      S, E, B := s, e, b;
      hitCount, missCount, evictionCount, dirtyEvictionCount := 0, 0, 0, 0;
      var numSets := Pow2(s);
      var sets := new LineSet[numSets];
      var i := 0;
      while i < numSets
        invariant 0 <= i <= numSets
        invariant forall k :: 0 <= k < i ==> sets[k] == LineSet(EmptyLines(e), e)
      {
        var lines: seq<CacheLine> := [];
        var j := 0;
        while j < e
          invariant 0 <= j <= e
          invariant lines == EmptyLines(j)
        {
          lines := lines + [EMPTY_LINE];
          j := j + 1;
        }
        sets[i] := LineSet(lines, e);
        i := i + 1;
      }
      setList := sets;
    }
  }

  /**
   * `invalidateCacheLine`: in the address's set, every valid line with the
   * address's tag becomes invalid and `INVALID`; nothing else changes.
   */
  method InvalidateCacheLine(cache: Cache, address: nat)
    requires cache.Valid() && address < TWO_64
    modifies cache.setList
    ensures cache.Valid()
    ensures var idx := SingleCache.SetIndex(address, cache.S, cache.B);
      var old_set := old(cache.setList[idx]);
      cache.setList[..] == old(cache.setList[..])[idx := old_set.(lines := InvalidateMatching(old_set.lines, CalculateTag(address, cache.S, cache.B)))]
  {
    var setIndex := SingleCache.SetIndex(address, cache.S, cache.B);
    var tag := CalculateTag(address, cache.B, cache.S);
    assert tag == CalculateTag(address, cache.S, cache.B) by {
      assert cache.B + cache.S == cache.S + cache.B;
    }
    var lines := InvalidateLines(cache.setList[setIndex].lines, tag, cache.E);
    cache.setList[setIndex] := cache.setList[setIndex].(lines := lines);
  }

  /** The loop of `invalidateCacheLine` over the first `count` lines of a set. */
  method InvalidateLines(lines: seq<CacheLine>, tag: nat, count: nat) returns (r: seq<CacheLine>)
    requires count == |lines|
    ensures r == InvalidateMatching(lines, tag)
  {
    r := lines;
    var i := 0;
    while i < count
      invariant 0 <= i <= count == |r|
      invariant forall k :: 0 <= k < i ==> r[k] == InvalidatedLine(lines[k], tag)
      invariant forall k :: i <= k < count ==> r[k] == lines[k]
    {
      if r[i].tag == tag && r[i].valid {
        r := r[i := r[i].(valid := false, state := Invalid)];
      }
      i := i + 1;
    }
    forall k | 0 <= k < count ensures r[k] == InvalidateMatching(lines, tag)[k] {
      InvalidateMatchingAt(lines, tag, k);
    }
  }

  /** `interconnect_t`: the incoming and outgoing message queues, in FIFO order. */
  class Interconnect {
    var incomingQueue: seq<Message>
    var outgoingQueue: seq<Message>

    constructor ()
      ensures incomingQueue == [] && outgoingQueue == []
    {
      incomingQueue := [];
      outgoingQueue := [];
    }
  }

  /** `sendInvalidate`: one `INVALIDATE` from memory to `destId`, at the tail of the outgoing queue. */
  method SendInvalidate(ic: Interconnect, destId: int, address: nat)
    requires address < TWO_64
    modifies ic`outgoingQueue
    ensures ic.outgoingQueue == old(ic.outgoingQueue) + [Message(Invalidate, MEMORY_ID, destId, address)]
  {
    ic.outgoingQueue := ic.outgoingQueue + [Message(Invalidate, MEMORY_ID, destId, address)];
  }

  /** `directory_t`: the entries, in an array, and their number. */
  class Directory {
    var lines: array<DirEntry>
    var numLines: int

    ghost predicate Valid()
      reads this, lines
    {
      lines.Length == numLines && forall i :: 0 <= i < lines.Length ==> WellFormed(lines[i])
    }

    /**
     * `initializeDirectory`: `numLines` entries, each `UNCACHED`, owner -1,
     * every presence bit false.
     */
    constructor (numLines: nat)
      requires numLines <= INT_MAX
      ensures Valid() && fresh(lines) && this.numLines == numLines
      ensures forall i :: 0 <= i < lines.Length ==> lines[i] == UNCACHED_ENTRY
    {
      var entries := new DirEntry[numLines];
      var i := 0;
      while i < numLines
        invariant 0 <= i <= numLines
        invariant forall k :: 0 <= k < i ==> entries[k] == UNCACHED_ENTRY
      {
        entries[i] := DirEntry(DirUncached, NO_SHARERS, -1);
        i := i + 1;
      }
      lines := entries;
      this.numLines := numLines;
    }
  }

  /**
   * The invariant the directory protocols keep on an entry:
   * `UNCACHED` exactly when no presence bit is set, no owner while
   * `UNCACHED`, and the owner, when there is one, is a processor.
   */
  predicate Coherent(e: DirEntry)
  {
    WellFormed(e) &&
    (e.state == DirUncached <==> NoSharers(e)) &&
    (e.state == DirUncached ==> e.owner == -1) &&
    (e.owner == -1 || IsProcessor(e.owner))
  }

  /** The `int` address selects an existing entry (a negative index is out of bounds in C). */
  predicate Indexes(dir: Directory, address: int)
    reads dir
  {
    INT_MIN <= address <= INT_MAX && 0 <= DirectoryIndex(address) < dir.lines.Length
  }

  /** The request message type for a trace operation. */
  function RequestOf(op: TraceRecord.Op): MsgType
  {
    match op
    case R => ReadRequest
    case W => WriteRequest
  }

  /** The first line that is not valid, or -1. */
  function FirstInvalid(lines: seq<CacheLine>): (i: int)
    ensures -1 <= i < |lines|
    ensures i >= 0 ==> !lines[i].valid
    ensures forall j :: 0 <= j < |lines| && (i == -1 || j < i) ==> lines[j].valid
  {
    if |lines| == 0 then -1
    else if !lines[0].valid then 0
    else
      var k := FirstInvalid(lines[1..]);
      if k == -1 then -1 else k + 1
  }
}
