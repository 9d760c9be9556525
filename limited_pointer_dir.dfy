/**
 * The limited-pointer directory of limited_pointer_dir.c: instead of one
 * presence bit per processor, each entry records up to `NUM_POINTERS`
 * sharer ids in slots, of which the first `numSharedBy` are in use and an
 * emptied slot holds -1.  Entries live in an array and are updated in
 * place; the per-entry locks are no-ops here.
 */
module LimitedPointerDir {
  import opened CInt
  import opened Utils

  const NUM_POINTERS: int := 10

  /** The value of a slot that records no node. */
  const NO_NODE: int := -1

  /** `lp_directory_entry_t`, without its lock. */
  datatype LpEntry = LpEntry(state: DirState, nodes: seq<int>, owner: int, numSharedBy: int)

  /** Ten slots, and a slot count that stays within them. */
  predicate WellFormedLp(e: LpEntry)
  {
    |e.nodes| == NUM_POINTERS && 0 <= e.numSharedBy <= NUM_POINTERS
  }

  const EMPTY_NODES: seq<int> := [NO_NODE, NO_NODE, NO_NODE, NO_NODE, NO_NODE, NO_NODE, NO_NODE, NO_NODE, NO_NODE, NO_NODE]

  /** The entry `initializeDirectory` creates and `invalidateDirectoryEntry` restores. */
  const INITIAL_LP_ENTRY: LpEntry := LpEntry(DirUncached, EMPTY_NODES, -1, 0)

  /** The processors an entry records: the ids in its used slots that are not -1. */
  function Sharers(e: LpEntry): (s: set<int>)
    requires WellFormedLp(e)
    ensures forall p :: p in s <==> p != NO_NODE && exists i :: 0 <= i < e.numSharedBy && e.nodes[i] == p
  {
    set i | 0 <= i < e.numSharedBy && e.nodes[i] != NO_NODE :: e.nodes[i]
  }

  /** `lp_directory_t`: the entries, in an array, and their number. */
  class LpDirectory {
    var lines: array<LpEntry>
    var numLines: int

    ghost predicate Valid()
      reads this, lines
    {
      lines.Length == numLines &&
      forall i :: 0 <= i < lines.Length ==> WellFormedLp(lines[i])
    }

    /** `initializeDirectory`: `numLines` entries, each `UNCACHED`, owner -1, no slot used and every slot -1. */
    constructor (numLines: nat)
      requires numLines <= INT_MAX
      ensures Valid() && fresh(lines) && this.numLines == numLines
      ensures forall i :: 0 <= i < lines.Length ==> lines[i] == INITIAL_LP_ENTRY
    {
      var entries := new LpEntry[numLines];
      var i := 0;
      while i < numLines
        invariant 0 <= i <= numLines
        invariant forall k :: 0 <= k < i ==> entries[k] == INITIAL_LP_ENTRY
      {
        var nodes: seq<int> := [];
        var j := 0;
        while j < NUM_POINTERS
          invariant 0 <= j <= NUM_POINTERS && |nodes| == j
          invariant forall k :: 0 <= k < j ==> nodes[k] == NO_NODE
        {
          nodes := nodes + [NO_NODE];
          j := j + 1;
        }
        assert nodes == EMPTY_NODES;
        entries[i] := LpEntry(DirUncached, nodes, -1, 0);
        i := i + 1;
      }
      lines := entries;
      this.numLines := numLines;
    }
  }

  /** The `int` address selects an existing entry. */
  predicate LpIndexes(dir: LpDirectory, address: int)
    reads dir
  {
    INT_MIN <= address <= INT_MAX && 0 <= DirectoryIndex(address) < dir.lines.Length
  }

  /**
   * The entry after `addProcessorToEntry`: the processor is written to the
   * first unused slot and one more slot is in use; every other slot,
   * the state and the owner are kept.
   */
  function AddedEntry(e: LpEntry, processorId: int): (r: LpEntry)
    requires WellFormedLp(e) && e.numSharedBy < NUM_POINTERS
    ensures WellFormedLp(r) && r.numSharedBy == e.numSharedBy + 1
    ensures r.nodes[e.numSharedBy] == processorId
    ensures forall i :: 0 <= i < NUM_POINTERS && i != e.numSharedBy ==> r.nodes[i] == e.nodes[i]
    ensures r.state == e.state && r.owner == e.owner
  {
    e.(nodes := e.nodes[e.numSharedBy := processorId], numSharedBy := e.numSharedBy + 1)
  }

  /** Adding a processor other than -1 adds exactly it to the recorded sharers. */
  lemma {:induction false} AddedEntrySharers(e: LpEntry, processorId: int)
    requires WellFormedLp(e) && e.numSharedBy < NUM_POINTERS && processorId != NO_NODE
    ensures Sharers(AddedEntry(e, processorId)) == Sharers(e) + {processorId}
  {
    var r := AddedEntry(e, processorId);
    forall p | p in Sharers(r)
      ensures p in Sharers(e) + {processorId}
    {
      var i :| 0 <= i < r.numSharedBy && r.nodes[i] == p;
      if i != e.numSharedBy {
        assert e.nodes[i] == p;
      }
    }
    forall p | p in Sharers(e) + {processorId}
      ensures p in Sharers(r)
    {
      if p == processorId {
        assert r.nodes[e.numSharedBy] == p;
      } else {
        var i :| 0 <= i < e.numSharedBy && e.nodes[i] == p;
        assert r.nodes[i] == p;
      }
    }
  }

  /**
   * The entry after `updateDirectoryEntry`: the new state, the processor as
   * owner exactly when the state is `EXCLUSIVE_MODIFIED` (else -1), and the
   * processor added as by `addProcessorToEntry`.
   */
  function UpdatedLpEntry(e: LpEntry, processorId: int, newState: DirState): (r: LpEntry)
    requires WellFormedLp(e) && e.numSharedBy < NUM_POINTERS
    ensures WellFormedLp(r) && r.state == newState
    ensures r.owner == if newState == DirExclusiveModified then processorId else -1
    ensures r.nodes == AddedEntry(e, processorId).nodes && r.numSharedBy == e.numSharedBy + 1
  {
    AddedEntry(e, processorId).(state := newState, owner := if newState == DirExclusiveModified then processorId else -1)
  }

  /** After an update to `EXCLUSIVE_MODIFIED` by a processor, the owner is among the recorded sharers. */
  lemma {:induction false} UpdatedOwnerIsSharer(e: LpEntry, processorId: int)
    requires WellFormedLp(e) && e.numSharedBy < NUM_POINTERS && processorId != NO_NODE
    ensures var r := UpdatedLpEntry(e, processorId, DirExclusiveModified);
      r.owner in Sharers(r)
  {
    var r := UpdatedLpEntry(e, processorId, DirExclusiveModified);
    assert r.nodes[e.numSharedBy] == processorId;
  }

  /** `updateDirectoryEntry`: the entry becomes `UpdatedLpEntry`; the slots must not be full. */
  method UpdateDirectoryEntry(dir: LpDirectory, address: int, processorId: int, newState: DirState)
    requires dir.Valid() && LpIndexes(dir, address)
    requires dir.lines[DirectoryIndex(address)].numSharedBy < NUM_POINTERS
    modifies dir.lines
    ensures dir.Valid()
    ensures var idx := DirectoryIndex(address);
      dir.lines[..] == old(dir.lines[..])[idx := UpdatedLpEntry(old(dir.lines[idx]), processorId, newState)]
  {
    var index := DirectoryIndex(address);
    var entry := dir.lines[index];
    entry := entry.(state := newState);
    entry := entry.(owner := if newState == DirExclusiveModified then processorId else -1);
    entry := entry.(nodes := entry.nodes[entry.numSharedBy := processorId]);
    entry := entry.(numSharedBy := entry.numSharedBy + 1);
    dir.lines[index] := entry;
  }

  /** `addProcessorToEntry`: the entry becomes `AddedEntry`; the slots must not be full. */
  method AddProcessorToEntry(dir: LpDirectory, address: int, processorId: int)
    requires dir.Valid() && LpIndexes(dir, address)
    requires dir.lines[DirectoryIndex(address)].numSharedBy < NUM_POINTERS
    modifies dir.lines
    ensures dir.Valid()
    ensures var idx := DirectoryIndex(address);
      dir.lines[..] == old(dir.lines[..])[idx := AddedEntry(old(dir.lines[idx]), processorId)]
  {
    var index := DirectoryIndex(address);
    var entry := dir.lines[index];
    entry := entry.(nodes := entry.nodes[entry.numSharedBy := processorId]);
    entry := entry.(numSharedBy := entry.numSharedBy + 1);
    dir.lines[index] := entry;
  }

  /**
   * `invalidateDirectoryEntry`: the entry returns to its initial value; on
   * an entry already in that state it changes nothing.
   */
  method InvalidateDirectoryEntry(dir: LpDirectory, address: int)
    requires dir.Valid() && LpIndexes(dir, address)
    modifies dir.lines
    ensures dir.Valid()
    ensures dir.lines[..] == old(dir.lines[..])[DirectoryIndex(address) := INITIAL_LP_ENTRY]
    ensures old(dir.lines[DirectoryIndex(address)]) == INITIAL_LP_ENTRY ==> dir.lines[..] == old(dir.lines[..])
  {
    var index := DirectoryIndex(address);
    var entry := dir.lines[index];
    entry := entry.(numSharedBy := 0, state := DirUncached);
    var j := 0;
    while j < NUM_POINTERS
      invariant 0 <= j <= NUM_POINTERS == |entry.nodes|
      invariant entry.numSharedBy == 0 && entry.state == DirUncached
      invariant forall k :: 0 <= k < j ==> entry.nodes[k] == NO_NODE
    {
      entry := entry.(nodes := entry.nodes[j := NO_NODE]);
      j := j + 1;
    }
    assert entry.nodes == EMPTY_NODES;
    entry := entry.(owner := -1);
    dir.lines[index] := entry;
  }

  /**
   * The entry after `removeProcessorFromEntry`: every used slot holding the
   * processor becomes -1; unused slots, the slot count, the state and the
   * owner are kept.
   */
  function RemovedEntry(e: LpEntry, processorId: int): (r: LpEntry)
    requires WellFormedLp(e)
    ensures WellFormedLp(r) && r.numSharedBy == e.numSharedBy
    ensures r.state == e.state && r.owner == e.owner
    ensures forall i :: 0 <= i < NUM_POINTERS ==>
      r.nodes[i] == if i < e.numSharedBy && e.nodes[i] == processorId then NO_NODE else e.nodes[i]
  {
    e.(nodes := seq(NUM_POINTERS, i requires 0 <= i < NUM_POINTERS =>
      if i < e.numSharedBy && e.nodes[i] == processorId then NO_NODE else e.nodes[i]))
  }

  /** Removing a processor removes exactly it from the recorded sharers. */
  lemma {:induction false} RemovedEntrySharers(e: LpEntry, processorId: int)
    requires WellFormedLp(e)
    ensures Sharers(RemovedEntry(e, processorId)) == Sharers(e) - {processorId}
  {
    var r := RemovedEntry(e, processorId);
    forall p | p in Sharers(r)
      ensures p in Sharers(e) - {processorId}
    {
      var i :| 0 <= i < r.numSharedBy && r.nodes[i] == p;
      assert e.nodes[i] == p;
    }
    forall p | p in Sharers(e) - {processorId}
      ensures p in Sharers(r)
    {
      var i :| 0 <= i < e.numSharedBy && e.nodes[i] == p;
      assert r.nodes[i] == p;
    }
  }

  /** `removeProcessorFromEntry`: the entry becomes `RemovedEntry`. */
  method RemoveProcessorFromEntry(dir: LpDirectory, address: int, processorId: int)
    requires dir.Valid() && LpIndexes(dir, address)
    modifies dir.lines
    ensures dir.Valid()
    ensures var idx := DirectoryIndex(address);
      dir.lines[..] == old(dir.lines[..])[idx := RemovedEntry(old(dir.lines[idx]), processorId)]
  {
    var index := DirectoryIndex(address);
    var entry := dir.lines[index];
    ghost var before := entry;
    var i := 0;
    while i < entry.numSharedBy
      invariant 0 <= i <= entry.numSharedBy == before.numSharedBy
      invariant entry.state == before.state && entry.owner == before.owner && |entry.nodes| == NUM_POINTERS
      invariant forall k :: 0 <= k < NUM_POINTERS ==>
        entry.nodes[k] == if k < i && before.nodes[k] == processorId then NO_NODE else before.nodes[k]
    {
      if entry.nodes[i] == processorId {
        entry := entry.(nodes := entry.nodes[i := NO_NODE]);
      }
      i := i + 1;
    }
    assert entry.nodes == RemovedEntry(before, processorId).nodes;
    dir.lines[index] := entry;
  }
}
