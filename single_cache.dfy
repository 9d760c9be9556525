/**
 * The set-associative LRU cache of single_cache.c.  Each set keeps its
 * lines as a list from least recently used (head) to most recently used
 * (tail); the list becomes a sequence, the `nextLine` splicing becomes
 * sequence surgery, and the cache is a class whose fields the accesses
 * update in place.
 */
module SingleCache {
  import opened CInt

  /** A line of a set; `nextLine` is the position in the set's sequence. */
  datatype Line = Line(lineNum: int, valid: bool, tag: nat, isDirty: bool)

  /** A set: its lines, head (least recently used) first, and its occupancy counter. */
  datatype CacheSet = CacheSet(lines: seq<Line>, linesFilled: nat)

  /** How an access was classified; `NoFreeLineNumber` is the failed `assert` after getLineNum. */
  datatype Outcome = Hit | ColdMiss | Eviction(dirty: bool) | NoFreeLineNumber

  datatype Summary = Summary(hits: nat, misses: nat, evictions: nat, dirtyBytes: nat, dirtyEvictions: nat)

  const EMPTY_SET: CacheSet := CacheSet([], 0)

  predicate Matches(l: Line, tag: nat)
  {
    l.valid && l.tag == tag
  }

  predicate Used(lines: seq<Line>, n: int)
  {
    exists j :: 0 <= j < |lines| && lines[j].lineNum == n
  }

  predicate DistinctNums(lines: seq<Line>)
  {
    forall j, k :: 0 <= j < k < |lines| ==> lines[j].lineNum != lines[k].lineNum
  }

  /** What every set of a cache with associativity e satisfies. */
  ghost predicate SetValid(cs: CacheSet, e: nat)
  {
    |cs.lines| == cs.linesFilled <= e &&
    DistinctNums(cs.lines) &&
    forall j :: 0 <= j < |cs.lines| ==> 0 <= cs.lines[j].lineNum < e
  }

  /** Set selection: bits B .. S+B-1 of the address, which is what the mask of loadUpdate keeps. */
  function SetIndex(addr: nat, s: nat, b: nat): (r: nat)
    ensures r < Pow2(s)
  {
    (addr / Pow2(b)) % Pow2(s)
  }

  /** The tag: the address as a signed `long`, shifted right arithmetically by S+B, as `unsigned long`. */
  function Tag(addr: nat, s: nat, b: nat): (r: nat)
    ensures r < TWO_64
    ensures addr <= LONG_MAX ==> r == addr / Pow2(s + b)
  {
    var q := ToInt64(addr) / Pow2(s + b);
    assert addr <= LONG_MAX ==> 0 <= q <= addr by {
      if addr <= LONG_MAX {
        DivBelow(addr, Pow2(s + b));
      }
    }
    ToULong(q)
  }

  lemma DivBelow(a: nat, p: nat)
    requires p >= 1
    ensures 0 <= a / p <= a
  {
  }

  /** Position of the first valid line with the tag, or -1. */
  function FindHit(lines: seq<Line>, tag: nat): (i: int)
    ensures -1 <= i < |lines|
    ensures i >= 0 ==> Matches(lines[i], tag)
    ensures i >= 0 ==> forall j :: 0 <= j < i ==> !Matches(lines[j], tag)
    ensures i == -1 ==> forall j :: 0 <= j < |lines| ==> !Matches(lines[j], tag)
  {
    FindHitFrom(lines, tag, 0)
  }

  /** The search of FindHit from position k on. */
  function FindHitFrom(lines: seq<Line>, tag: nat, k: nat): (i: int)
    requires k <= |lines|
    ensures i == -1 || k <= i < |lines|
    ensures i >= 0 ==> Matches(lines[i], tag)
    ensures i >= 0 ==> forall j :: k <= j < i ==> !Matches(lines[j], tag)
    ensures i == -1 ==> forall j :: k <= j < |lines| ==> !Matches(lines[j], tag)
    decreases |lines| - k
  {
    if k == |lines| then -1
    else if Matches(lines[k], tag) then k
    else FindHitFrom(lines, tag, k + 1)
  }

  /** Position of the first line numbered n. */
  function NumIndex(lines: seq<Line>, n: int): (i: nat)
    requires Used(lines, n)
    ensures i < |lines| && lines[i].lineNum == n
    ensures forall j :: 0 <= j < i ==> lines[j].lineNum != n
  {
    NumIndexFrom(lines, n, 0)
  }

  /** The search of NumIndex from position k on, where the number still occurs. */
  function NumIndexFrom(lines: seq<Line>, n: int, k: nat): (i: nat)
    requires k <= |lines| && exists j :: k <= j < |lines| && lines[j].lineNum == n
    ensures k <= i < |lines| && lines[i].lineNum == n
    ensures forall j :: k <= j < i ==> lines[j].lineNum != n
    decreases |lines| - k
  {
    if lines[k].lineNum == n then k
    else NumIndexFrom(lines, n, k + 1)
  }

  /** The smallest line number in [i, bound) that no line of the set carries, or -1. */
  function FirstFreeFrom(lines: seq<Line>, i: nat, bound: int): (r: int)
    ensures r == -1 || i <= r < bound
    ensures r == -1 ==> forall n :: i <= n < bound ==> Used(lines, n)
    ensures r != -1 ==> !Used(lines, r) && forall n :: i <= n < r ==> Used(lines, n)
    decreases bound - i
  {
    if i >= bound then -1
    else if !Used(lines, i) then i
    else FirstFreeFrom(lines, i + 1, bound)
  }

  /** The line numbers a set carries. */
  function LineNums(lines: seq<Line>): (r: set<int>)
    ensures |r| <= |lines|
    ensures forall n :: n in r <==> Used(lines, n)
  {
    if |lines| == 0 then {}
    else
      var init := lines[..|lines| - 1];
      var r := LineNums(init) + {lines[|lines| - 1].lineNum};
      assert forall n :: Used(lines, n) ==> n in r by {
        forall n | Used(lines, n)
          ensures n in r
        {
          var j :| 0 <= j < |lines| && lines[j].lineNum == n;
          if j < |lines| - 1 {
            assert init[j].lineNum == n;
          }
        }
      }
      assert forall n :: n in r ==> Used(lines, n) by {
        forall n | n in r
          ensures Used(lines, n)
        {
          if n in LineNums(init) {
            var j :| 0 <= j < |init| && init[j].lineNum == n;
            assert lines[j].lineNum == n;
          } else {
            assert lines[|lines| - 1].lineNum == n;
          }
        }
      }
      r
  }

  /** The numbers 0 .. e-1. */
  function Below(e: nat): (r: set<int>)
    ensures |r| == e
    ensures forall n :: n in r <==> 0 <= n < e
  {
    if e == 0 then {} else Below(e - 1) + {e - 1}
  }

  lemma SubsetCard(a: set<int>, b: set<int>)
    requires a <= b
    ensures |a| <= |b|
  {
    var c := b - a;
    assert b == a + c;
    assert a * c == {};
  }

  /**
   * A set holding fewer than e lines leaves a line number below e unused:
   * the reason the `assert(newLineNum != -1)` of loadUpdate holds.
   */
  lemma {:induction false} FreeNumberExists(lines: seq<Line>, e: nat)
    requires |lines| < e
    ensures FirstFreeFrom(lines, 0, e) != -1
  {
    if FirstFreeFrom(lines, 0, e) == -1 {
      var below, nums := Below(e), LineNums(lines);
      assert below <= nums by {
        forall n | n in below
          ensures n in nums
        {
          assert Used(lines, n);
        }
      }
      SubsetCard(below, nums);
      assert false;
    }
  }

  /** The sequence with line i taken out and x appended at the tail. */
  function MoveToTail(a: seq<Line>, i: nat, x: Line): (b: seq<Line>)
    requires i < |a|
    ensures |b| == |a| && b[|b| - 1] == x
    ensures forall j :: 0 <= j < |b| - 1 ==> b[j] == a[if j < i then j else j + 1]
  {
    seq(|a|, j requires 0 <= j < |a| => if j == |a| - 1 then x else a[if j < i then j else j + 1])
  }

  /** The move as a splice: the lines before i, the lines after i, then x. */
  lemma MoveIsSplice(a: seq<Line>, i: nat, x: Line)
    requires i < |a|
    ensures MoveToTail(a, i, x) == a[..i] + a[i + 1..] + [x]
  {
    var b := a[..i] + a[i + 1..] + [x];
    assert |b| == |a|;
    forall j | 0 <= j < |a|
      ensures MoveToTail(a, i, x)[j] == b[j]
    {
      if j < i {
        assert b[j] == a[..i][j];
      } else if j < |a| - 1 {
        assert b[j] == a[i + 1..][j - i];
      }
    }
  }

  lemma {:induction false} MoveKeepsNumbers(a: seq<Line>, i: nat, x: Line)
    requires i < |a| && x.lineNum == a[i].lineNum
    ensures LineNums(MoveToTail(a, i, x)) == LineNums(a)
  {
    var b := MoveToTail(a, i, x);
    var nb, na := LineNums(b), LineNums(a);
    forall m | m in na
      ensures m in nb
    {
      assert Used(a, m);
      var j :| 0 <= j < |a| && a[j].lineNum == m;
      var k := if j == i then |b| - 1 else if j < i then j else j - 1;
      assert b[k].lineNum == m;
      assert Used(b, m);
    }
    forall m | m in nb
      ensures m in na
    {
      assert Used(b, m);
      var j :| 0 <= j < |b| && b[j].lineNum == m;
      var k := if j == |b| - 1 then i else if j < i then j else j + 1;
      assert a[k].lineNum == m;
      assert Used(a, m);
    }
  }

  lemma {:induction false} MoveKeepsValid(cs: CacheSet, e: nat, i: nat, x: Line)
    requires SetValid(cs, e) && i < |cs.lines| && x.lineNum == cs.lines[i].lineNum
    ensures SetValid(CacheSet(MoveToTail(cs.lines, i, x), cs.linesFilled), e)
  {
    var a := cs.lines;
    var b := MoveToTail(a, i, x);
    forall j, l | 0 <= j < l < |b|
      ensures b[j].lineNum != b[l].lineNum
    {
      var jj := if j < i then j else j + 1;
      var ll := if l == |b| - 1 then i else if l < i then l else l + 1;
      assert b[j].lineNum == a[jj].lineNum && b[l].lineNum == a[ll].lineNum;
      assert jj != ll;
    }
    forall j | 0 <= j < |b|
      ensures 0 <= b[j].lineNum < e
    {
      var jj := if j == |b| - 1 then i else if j < i then j else j + 1;
      assert b[j].lineNum == a[jj].lineNum;
    }
  }

  /** Replacing the appended line of a move by another. */
  lemma {:induction false} Retail(a: seq<Line>, i: nat, x: Line, y: Line)
    requires i < |a|
    ensures MoveToTail(a, i, x)[|a| - 1 := y] == MoveToTail(a, i, y)
  {
  }

  lemma UpdateTwice<T>(s: seq<T>, i: nat, x: T, y: T)
    requires i < |s|
    ensures s[i := x][i := y] == s[i := y]
  {
  }

  lemma RefillAppended(cs: CacheSet, n: int, tag: nat, store: bool)
    ensures Refill(CacheSet(cs.lines + [Line(n, false, 0, false)], cs.linesFilled + 1), tag, store)
      == CacheSet(cs.lines + [Line(n, true, tag, store)], cs.linesFilled + 1)
  {
    assert (cs.lines + [Line(n, false, 0, false)])[..|cs.lines|] == cs.lines;
  }

  lemma RefillRecycled(cs: CacheSet, tag: nat, store: bool)
    requires |cs.lines| > 0
    ensures Refill(CacheSet(MoveToTail(cs.lines, 0, cs.lines[0]), cs.linesFilled), tag, store)
      == CacheSet(MoveToTail(cs.lines, 0, Line(cs.lines[0].lineNum, true, tag, store)), cs.linesFilled)
  {
    Retail(cs.lines, 0, cs.lines[0], Line(cs.lines[0].lineNum, true, tag, store));
  }

  /** The tail line after an access: valid, with the new tag and the given dirty bit. */
  function Refill(cs: CacheSet, tag: nat, dirty: bool): (r: CacheSet)
    requires |cs.lines| > 0
  {
    var last := cs.lines[|cs.lines| - 1];
    cs.(lines := cs.lines[|cs.lines| - 1 := last.(valid := true, tag := tag, isDirty := dirty)])
  }

  /**
   * One load (store == false) or store (store == true) on a set:
   * a hit moves the line to the tail (a store also dirties it), a miss with
   * room appends a line under the smallest free number, a miss on a full set
   * recycles the head line as the tail.
   */
  function AccessSet(cs: CacheSet, tag: nat, e: nat, store: bool): (CacheSet, Outcome)
    requires SetValid(cs, e) && e >= 1
  {
    var i := FindHit(cs.lines, tag);
    if i >= 0 then
      var h := cs.lines[i];
      (CacheSet(MoveToTail(cs.lines, i, h.(isDirty := h.isDirty || store)), cs.linesFilled), Hit)
    else if cs.linesFilled < e then
      var n := FirstFreeFrom(cs.lines, 0, ToInt32(e));
      if n == -1 then (cs, NoFreeLineNumber)
      else (CacheSet(cs.lines + [Line(n, true, tag, store)], cs.linesFilled + 1), ColdMiss)
    else
      var h := cs.lines[0];
      (CacheSet(MoveToTail(cs.lines, 0, Line(h.lineNum, true, tag, store)), cs.linesFilled), Eviction(h.isDirty))
  }

  /** How the outcome is decided: hit, cold miss while there is room, eviction when full. */
  lemma {:induction false} AccessOutcome(cs: CacheSet, tag: nat, e: nat, store: bool)
    requires SetValid(cs, e) && e >= 1
    ensures var k := AccessSet(cs, tag, e, store).1;
      && (k == Hit <==> exists j :: 0 <= j < |cs.lines| && Matches(cs.lines[j], tag))
      && (k.Eviction? <==> FindHit(cs.lines, tag) == -1 && cs.linesFilled == e)
      && (k.Eviction? ==> k.dirty == cs.lines[0].isDirty)
      && (k == ColdMiss ==> cs.linesFilled < e)
  {
    var i := FindHit(cs.lines, tag);
    if i >= 0 {
      assert Matches(cs.lines[i], tag);
    }
  }

  /** With a 32-bit-representable associativity the cold-miss path always finds a line number. */
  lemma {:induction false} AccessNeverExhausted(cs: CacheSet, tag: nat, e: nat, store: bool)
    requires SetValid(cs, e) && 1 <= e <= INT_MAX
    ensures AccessSet(cs, tag, e, store).1 != NoFreeLineNumber
  {
    if FindHit(cs.lines, tag) < 0 && cs.linesFilled < e {
      FreeNumberExists(cs.lines, e);
    }
  }

  /**
   * After an access that completes, the accessed block is the most recently
   * used line of its set, valid and carrying the tag; a store leaves it
   * dirty, a load miss leaves it clean, a load hit keeps its dirty bit; so
   * the next access to the same block hits.
   */
  lemma {:induction false} AccessMakesMostRecent(cs: CacheSet, tag: nat, e: nat, store: bool)
    requires SetValid(cs, e) && e >= 1
    requires AccessSet(cs, tag, e, store).1 != NoFreeLineNumber
    ensures var r := AccessSet(cs, tag, e, store);
      && |r.0.lines| > 0
      && Matches(r.0.lines[|r.0.lines| - 1], tag)
      && (store ==> r.0.lines[|r.0.lines| - 1].isDirty)
      && (!store && r.1 != Hit ==> !r.0.lines[|r.0.lines| - 1].isDirty)
      && (!store && r.1 == Hit ==> r.0.lines[|r.0.lines| - 1].isDirty == cs.lines[FindHit(cs.lines, tag)].isDirty)
  {
    var r := AccessSet(cs, tag, e, store);
    var i := FindHit(cs.lines, tag);
    if i >= 0 {
      AccessSetOnHit(cs, tag, e, store);
    } else if cs.linesFilled < e {
      AccessSetOnColdMiss(cs, tag, e, store);
    } else {
      AccessSetOnEviction(cs, tag, e, store);
    }
  }

  /** Accessing the same block again right away is a hit. */
  lemma {:induction false} AccessThenHit(cs: CacheSet, tag: nat, e: nat, store: bool, store2: bool)
    requires SetValid(cs, e) && e >= 1
    requires AccessSet(cs, tag, e, store).1 != NoFreeLineNumber
    ensures SetValid(AccessSet(cs, tag, e, store).0, e)
    ensures AccessSet(AccessSet(cs, tag, e, store).0, tag, e, store2).1 == Hit
  {
    var cs' := AccessSet(cs, tag, e, store).0;
    AccessMakesMostRecent(cs, tag, e, store);
    AccessKeepsSetValid(cs, tag, e, store);
    assert Matches(cs'.lines[|cs'.lines| - 1], tag);
    AccessOutcome(cs', tag, e, store2);
  }

  /** Replacing one valid set by another valid set keeps every set valid. */
  lemma SetsStayValid(sets: seq<CacheSet>, k: nat, cs: CacheSet, e: nat, after: seq<CacheSet>)
    requires k < |sets| && SetValid(cs, e) && after == sets[k := cs]
    requires forall i :: 0 <= i < |sets| ==> SetValid(sets[i], e)
    ensures forall i :: 0 <= i < |after| ==> SetValid(after[i], e)
  {
  }

  lemma AccessSetOnHit(cs: CacheSet, tag: nat, e: nat, store: bool)
    requires SetValid(cs, e) && e >= 1 && FindHit(cs.lines, tag) >= 0
    ensures var i := FindHit(cs.lines, tag);
      var h := cs.lines[i];
      AccessSet(cs, tag, e, store) == (CacheSet(MoveToTail(cs.lines, i, h.(isDirty := h.isDirty || store)), cs.linesFilled), Hit)
  {
  }

  lemma AccessSetOnColdMiss(cs: CacheSet, tag: nat, e: nat, store: bool)
    requires SetValid(cs, e) && e >= 1 && FindHit(cs.lines, tag) < 0 && cs.linesFilled < e
    ensures var n := FirstFreeFrom(cs.lines, 0, ToInt32(e));
      AccessSet(cs, tag, e, store) ==
        if n == -1 then (cs, NoFreeLineNumber)
        else (CacheSet(cs.lines + [Line(n, true, tag, store)], cs.linesFilled + 1), ColdMiss)
  {
  }

  lemma AccessSetOnEviction(cs: CacheSet, tag: nat, e: nat, store: bool)
    requires SetValid(cs, e) && e >= 1 && FindHit(cs.lines, tag) < 0 && cs.linesFilled >= e
    ensures |cs.lines| > 0
    ensures var h := cs.lines[0];
      AccessSet(cs, tag, e, store) ==
        (CacheSet(MoveToTail(cs.lines, 0, Line(h.lineNum, true, tag, store)), cs.linesFilled), Eviction(h.isDirty))
  {
  }

  /**
   * Lines are recycled, never dropped: a hit or an eviction keeps the set's
   * line numbers and occupancy, a cold miss adds one line number the set
   * did not carry.
   */
  lemma {:induction false} AccessKeepsLineNumbers(cs: CacheSet, tag: nat, e: nat, store: bool)
    requires SetValid(cs, e) && e >= 1
    ensures var r := AccessSet(cs, tag, e, store);
      && (r.1 != ColdMiss ==> LineNums(r.0.lines) == LineNums(cs.lines) && r.0.linesFilled == cs.linesFilled)
      && (r.1 == ColdMiss ==>
            var n := r.0.lines[|r.0.lines| - 1].lineNum;
            LineNums(r.0.lines) == LineNums(cs.lines) + {n} && n !in LineNums(cs.lines)
            && r.0.linesFilled == cs.linesFilled + 1)
  {
    var i := FindHit(cs.lines, tag);
    if i >= 0 {
      var h := cs.lines[i];
      MoveKeepsNumbers(cs.lines, i, h.(isDirty := h.isDirty || store));
    } else if cs.linesFilled < e {
      var n := FirstFreeFrom(cs.lines, 0, ToInt32(e));
      if n != -1 {
        AppendNumbers(cs.lines, Line(n, true, tag, store));
      }
    } else {
      MoveKeepsNumbers(cs.lines, 0, Line(cs.lines[0].lineNum, true, tag, store));
    }
  }

  lemma {:induction false} AppendNumbers(a: seq<Line>, x: Line)
    ensures LineNums(a + [x]) == LineNums(a) + {x.lineNum}
  {
    assert (a + [x])[..|a|] == a;
  }

  /** Every access keeps the set well formed: occupancy, distinct line numbers below e. */
  lemma {:induction false} AccessKeepsSetValid(cs: CacheSet, tag: nat, e: nat, store: bool)
    requires SetValid(cs, e) && e >= 1
    ensures SetValid(AccessSet(cs, tag, e, store).0, e)
  {
    var i := FindHit(cs.lines, tag);
    if i >= 0 {
      var h := cs.lines[i];
      MoveKeepsValid(cs, e, i, h.(isDirty := h.isDirty || store));
    } else if cs.linesFilled < e {
      var n := FirstFreeFrom(cs.lines, 0, ToInt32(e));
      if n != -1 {
        var b := cs.lines + [Line(n, true, tag, store)];
        assert !Used(cs.lines, n);
        forall j, l | 0 <= j < l < |b|
          ensures b[j].lineNum != b[l].lineNum
        {
          if l == |b| - 1 {
            assert b[j] == cs.lines[j];
          } else {
            assert b[j] == cs.lines[j] && b[l] == cs.lines[l];
          }
        }
        forall j | 0 <= j < |b|
          ensures 0 <= b[j].lineNum < e
        {
          if j < |b| - 1 {
            assert b[j] == cs.lines[j];
          }
        }
      }
    } else {
      MoveKeepsValid(cs, e, 0, Line(cs.lines[0].lineNum, true, tag, store));
    }
  }

  function DirtyIn(lines: seq<Line>): (r: nat)
    ensures r <= |lines|
  {
    if |lines| == 0 then 0
    else DirtyIn(lines[..|lines| - 1]) + (if lines[|lines| - 1].isDirty then 1 else 0)
  }

  /** Dirty lines over all sets: the count makeSummary multiplies by the block size. */
  function DirtyLines(sets: seq<CacheSet>): (r: nat)
    ensures r <= TotalLines(sets)
  {
    if |sets| == 0 then 0
    else DirtyLines(sets[..|sets| - 1]) + DirtyIn(sets[|sets| - 1].lines)
  }

  function TotalLines(sets: seq<CacheSet>): nat
  {
    if |sets| == 0 then 0
    else TotalLines(sets[..|sets| - 1]) + |sets[|sets| - 1].lines|
  }

  function Bump(c: nat, yes: bool): nat
  {
    if yes then ToULong(c + 1) else c
  }

  class Cache {
    var S: nat
    var E: nat
    var B: nat
    var hitCount: nat
    var missCount: nat
    var evictionCount: nat
    var dirtyEvictionCount: nat
    var setList: array<CacheSet>

    ghost predicate Valid()
      reads this`S, this`E, this`setList, setList
    {
      setList.Length == Pow2(S) && 1 <= E < TWO_32 &&
      forall i :: 0 <= i < setList.Length ==> SetValid(setList[i], E)
    }

    /** newCache after its `e == 0` check: 2^s empty sets and zero counters. */
    constructor (s: nat, e: nat, b: nat)
      requires s < 32 && 1 <= e < TWO_32
      ensures Valid() && fresh(setList)
      ensures S == s && E == e && B == b
      ensures hitCount == 0 && missCount == 0 && evictionCount == 0 && dirtyEvictionCount == 0
      ensures forall i :: 0 <= i < setList.Length ==> setList[i] == EMPTY_SET
    {
      S, E, B := s, e, b;
      hitCount, missCount, evictionCount, dirtyEvictionCount := 0, 0, 0, 0;
      var sets := new CacheSet[Pow2(s)];
      var i := 0;
      while i < sets.Length
        invariant 0 <= i <= sets.Length
        invariant forall j :: 0 <= j < i ==> sets[j] == EMPTY_SET
      {
        sets[i] := EMPTY_SET;
        i := i + 1;
      }
      setList := sets;
    }

    /** Appends a fresh invalid, clean line numbered lineNo at the tail of a set. */
    method AddLine(setNo: nat, lineNo: int)
      requires setNo < setList.Length
      modifies setList
      ensures setList[..] == old(setList[..])[setNo :=
        CacheSet(old(setList[setNo]).lines + [Line(lineNo, false, 0, false)], old(setList[setNo]).linesFilled + 1)]
    {
      var cs := setList[setNo];
      setList[setNo] := CacheSet(cs.lines + [Line(lineNo, false, 0, false)], cs.linesFilled + 1);
    }

    /** Moves the line numbered lineNo to the tail of its set; the other lines keep their order. */
    method RemoveLine(setNo: nat, lineNo: int)
      requires Valid() && setNo < setList.Length
      requires Used(setList[setNo].lines, lineNo)
      modifies setList
      ensures var a := old(setList[setNo]).lines;
        var i := NumIndex(a, lineNo);
        setList[..] == old(setList[..])[setNo := CacheSet(MoveToTail(a, i, a[i]), old(setList[setNo]).linesFilled)]
    {
      var cs := setList[setNo];
      var a := cs.lines;
      ghost var i := NumIndex(a, lineNo);
      assert SetValid(cs, E);
      if cs.linesFilled == 1 {
        assert MoveToTail(a, i, a[i]) == a;
        return;
      }
      if a[0].lineNum == lineNo {
        assert i == 0;
        MoveIsSplice(a, 0, a[0]);
        assert a[..0] + a[1..] == a[1..];
        setList[setNo] := CacheSet(a[1..] + [a[0]], cs.linesFilled);
        return;
      }
      // walk the list, unlinking the line that carries lineNo
      var kept := [a[0]];
      var rem := a[0];
      var k := 1;
      while k < |a|
        invariant 1 <= k <= |a|
        invariant k <= i ==> kept == a[..k]
        invariant k > i ==> kept == a[..i] + a[i + 1..k] && rem == a[i]
      {
        if a[k].lineNum == lineNo {
          assert k == i;
          assert a[i + 1..k + 1] == [];
          rem := a[k];
        } else {
          assert k != i;
          assert k < i ==> a[..k] + [a[k]] == a[..k + 1];
          assert k > i ==> a[i + 1..k] + [a[k]] == a[i + 1..k + 1];
          kept := kept + [a[k]];
        }
        k := k + 1;
      }
      assert a[i + 1..k] == a[i + 1..];
      MoveIsSplice(a, i, a[i]);
      setList[setNo] := CacheSet(kept + [rem], cs.linesFilled);
    }

    /** The smallest line number below (int)E that the set does not use, or -1. */
    method GetLineNum(setNo: nat) returns (r: int)
      requires setNo < setList.Length
      ensures r == FirstFreeFrom(setList[setNo].lines, 0, ToInt32(E))
    {
      var lines := setList[setNo].lines;
      var bound := ToInt32(E);
      var i := 0;
      while i < bound
        invariant 0 <= i
        invariant |lines| == 0 ==> i == 0
        invariant FirstFreeFrom(lines, 0, bound) == FirstFreeFrom(lines, i, bound)
      {
        if |lines| == 0 {
          return 0;
        }
        var j := 0;
        while j < |lines| - 1 && lines[j].lineNum != i
          invariant 0 <= j < |lines|
          invariant forall t :: 0 <= t < j ==> lines[t].lineNum != i
        {
          j := j + 1;
        }
        if lines[j].lineNum != i {
          assert !Used(lines, i);
          return i;
        }
        i := i + 1;
      }
      return -1;
    }

    /** The body shared by loadUpdate and storeUpdate, which differ only in the dirty bit they leave. */
    method Access(addr: nat, store: bool) returns (kind: Outcome)
      requires Valid() && addr < TWO_64
      modifies setList, this`hitCount, this`missCount, this`evictionCount, this`dirtyEvictionCount
      ensures Valid()
      ensures var r := AccessSet(old(setList[SetIndex(addr, S, B)]), Tag(addr, S, B), E, store);
        kind == r.1 && setList[..] == old(setList[..])[SetIndex(addr, S, B) := r.0]
      ensures hitCount == Bump(old(hitCount), kind == Hit)
      ensures missCount == Bump(old(missCount), kind != Hit)
      ensures evictionCount == Bump(old(evictionCount), kind.Eviction?)
      ensures dirtyEvictionCount == Bump(old(dirtyEvictionCount), kind == Eviction(true))
    {
      kind := AccessInSet(SetIndex(addr, S, B), Tag(addr, S, B), store);
    }

    /** Access once the set number and the tag are split off the address. */
    method AccessInSet(setNumber: nat, tag: nat, store: bool) returns (kind: Outcome)
      requires Valid() && setNumber < setList.Length
      modifies setList, this`hitCount, this`missCount, this`evictionCount, this`dirtyEvictionCount
      ensures Valid()
      ensures var r := AccessSet(old(setList[setNumber]), tag, E, store);
        kind == r.1 && setList[..] == old(setList[..])[setNumber := r.0]
      ensures hitCount == Bump(old(hitCount), kind == Hit)
      ensures missCount == Bump(old(missCount), kind != Hit)
      ensures evictionCount == Bump(old(evictionCount), kind.Eviction?)
      ensures dirtyEvictionCount == Bump(old(dirtyEvictionCount), kind == Eviction(true))
    {
      var hit := SearchSet(setList[setNumber].lines, tag);
      if hit >= 0 {
        HitLine(setNumber, tag, hit, store);
        hitCount := ToULong(hitCount + 1);
        kind := Hit;
      } else {
        missCount := ToULong(missCount + 1);
        kind := MissLine(setNumber, tag, store);
      }
    }

    /** A hit: the set is updated as AccessSet says, and stays valid. */
    method HitLine(setNumber: nat, tag: nat, hit: nat, store: bool)
      requires Valid() && setNumber < setList.Length && hit == FindHit(setList[setNumber].lines, tag)
      modifies setList
      ensures Valid()
      ensures var r := AccessSet(old(setList[setNumber]), tag, E, store);
        r.1 == Hit && setList[..] == old(setList[..])[setNumber := r.0]
    {
      ghost var cs0 := setList[setNumber];
      assert SetValid(cs0, E);
      AccessKeepsSetValid(cs0, tag, E, store);
      ghost var before := setList[..];
      TouchLine(setNumber, hit, store);
      AccessSetOnHit(cs0, tag, E, store);
      SetsStayValid(before, setNumber, AccessSet(cs0, tag, E, store).0, E, setList[..]);
      assert forall i :: 0 <= i < setList.Length ==> setList[i] == setList[..][i];
    }

    /** A miss: the set is updated as AccessSet says, and stays valid. */
    method MissLine(setNumber: nat, tag: nat, store: bool) returns (kind: Outcome)
      requires Valid() && setNumber < setList.Length && FindHit(setList[setNumber].lines, tag) < 0
      modifies setList, this`evictionCount, this`dirtyEvictionCount
      ensures Valid()
      ensures var r := AccessSet(old(setList[setNumber]), tag, E, store);
        kind == r.1 && kind != Hit && setList[..] == old(setList[..])[setNumber := r.0]
      ensures evictionCount == Bump(old(evictionCount), kind.Eviction?)
      ensures dirtyEvictionCount == Bump(old(dirtyEvictionCount), kind == Eviction(true))
    {
      ghost var cs0 := setList[setNumber];
      assert SetValid(cs0, E);
      AccessKeepsSetValid(cs0, tag, E, store);
      ghost var before := setList[..];
      kind := FillLine(setNumber, tag, store);
      SetsStayValid(before, setNumber, AccessSet(cs0, tag, E, store).0, E, setList[..]);
      assert forall i :: 0 <= i < setList.Length ==> setList[i] == setList[..][i];
    }

    /** The walk of loadUpdate and storeUpdate over a set's list looking for a valid line with the tag. */
    static method SearchSet(lines: seq<Line>, tag: nat) returns (hit: int)
      ensures hit == FindHit(lines, tag)
    {
      hit := -1;
      var j := 0;
      while j < |lines|
        invariant 0 <= j <= |lines|
        invariant hit == -1 || hit == FindHit(lines, tag)
        invariant hit == -1 ==> forall t :: 0 <= t < j ==> !Matches(lines[t], tag)
      {
        if Matches(lines[j], tag) {
          hit := j;
          break;
        }
        j := j + 1;
      }
    }

    /** A hit on line `hit` of a set: it becomes the tail, and a store dirties it. */
    method TouchLine(setNumber: nat, hit: nat, store: bool)
      requires Valid() && setNumber < setList.Length && hit < |setList[setNumber].lines|
      modifies setList
      ensures var a := old(setList[setNumber]).lines;
        setList[..] == old(setList[..])[setNumber :=
          CacheSet(MoveToTail(a, hit, a[hit].(isDirty := a[hit].isDirty || store)), old(setList[setNumber]).linesFilled)]
    {
      var lines := setList[setNumber].lines;
      assert SetValid(setList[setNumber], E);
      assert Used(lines, lines[hit].lineNum);
      assert NumIndex(lines, lines[hit].lineNum) == hit;
      ghost var before := setList[..];
      RemoveLine(setNumber, lines[hit].lineNum);
      var cs := setList[setNumber];
      assert setList[..] == before[setNumber := cs];
      if store {
        var last := cs.lines[|cs.lines| - 1];
        Retail(lines, hit, lines[hit], last.(isDirty := true));
        var dirtied := cs.(lines := cs.lines[|cs.lines| - 1 := last.(isDirty := true)]);
        setList[setNumber] := dirtied;
        assert setList[..] == before[setNumber := cs][setNumber := dirtied];
        UpdateTwice(before, setNumber, cs, dirtied);
      }
    }

    /** A miss: a fresh line while the set has room, otherwise the recycled head line. */
    method FillLine(setNumber: nat, tag: nat, store: bool) returns (kind: Outcome)
      requires Valid() && setNumber < setList.Length
      requires FindHit(setList[setNumber].lines, tag) < 0
      modifies setList, this`evictionCount, this`dirtyEvictionCount
      ensures var r := AccessSet(old(setList[setNumber]), tag, E, store);
        kind == r.1 && setList[..] == old(setList[..])[setNumber := r.0]
      ensures evictionCount == Bump(old(evictionCount), kind.Eviction?)
      ensures dirtyEvictionCount == Bump(old(dirtyEvictionCount), kind == Eviction(true))
    {
      var cs := setList[setNumber];
      var lines := cs.lines;
      assert SetValid(cs, E);
      if cs.linesFilled < E {
        AccessSetOnColdMiss(cs, tag, E, store);
        var n := GetLineNum(setNumber);
        if n == -1 {
          return NoFreeLineNumber;
        }
        ghost var before := setList[..];
        var added := CacheSet(lines + [Line(n, false, 0, false)], cs.linesFilled + 1);
        AddLine(setNumber, n);
        assert setList[..] == before[setNumber := added];
        RefillAppended(cs, n, tag, store);
        var filled := Refill(added, tag, store);
        setList[setNumber] := filled;
        assert setList[..] == before[setNumber := added][setNumber := filled];
        UpdateTwice(before, setNumber, added, filled);
        kind := ColdMiss;
      } else {
        AccessSetOnEviction(cs, tag, E, store);
        assert Used(lines, lines[0].lineNum);
        ghost var before := setList[..];
        RemoveLine(setNumber, lines[0].lineNum);
        var freed := setList[setNumber];
        assert freed == CacheSet(MoveToTail(lines, 0, lines[0]), cs.linesFilled);
        assert setList[..] == before[setNumber := freed];
        evictionCount := ToULong(evictionCount + 1);
        var wasDirty := freed.lines[|freed.lines| - 1].isDirty;
        if wasDirty {
          dirtyEvictionCount := ToULong(dirtyEvictionCount + 1);
        }
        RefillRecycled(cs, tag, store);
        var filled := Refill(freed, tag, store);
        setList[setNumber] := filled;
        assert setList[..] == before[setNumber := freed][setNumber := filled];
        UpdateTwice(before, setNumber, freed, filled);
        kind := Eviction(wasDirty);
      }
    }

    method LoadUpdate(addr: nat) returns (kind: Outcome)
      requires Valid() && addr < TWO_64
      modifies setList, this`hitCount, this`missCount, this`evictionCount, this`dirtyEvictionCount
      ensures Valid()
      ensures setList == old(setList) && S == old(S) && E == old(E) && B == old(B)
      ensures var r := AccessSet(old(setList[SetIndex(addr, S, B)]), Tag(addr, S, B), E, false);
        kind == r.1 && setList[..] == old(setList[..])[SetIndex(addr, S, B) := r.0]
      ensures hitCount == Bump(old(hitCount), kind == Hit)
      ensures missCount == Bump(old(missCount), kind != Hit)
      ensures evictionCount == Bump(old(evictionCount), kind.Eviction?)
      ensures dirtyEvictionCount == Bump(old(dirtyEvictionCount), kind == Eviction(true))
    {
      kind := Access(addr, false);
    }

    method StoreUpdate(addr: nat) returns (kind: Outcome)
      requires Valid() && addr < TWO_64
      modifies setList, this`hitCount, this`missCount, this`evictionCount, this`dirtyEvictionCount
      ensures Valid()
      ensures setList == old(setList) && S == old(S) && E == old(E) && B == old(B)
      ensures var r := AccessSet(old(setList[SetIndex(addr, S, B)]), Tag(addr, S, B), E, true);
        kind == r.1 && setList[..] == old(setList[..])[SetIndex(addr, S, B) := r.0]
      ensures hitCount == Bump(old(hitCount), kind == Hit)
      ensures missCount == Bump(old(missCount), kind != Hit)
      ensures evictionCount == Bump(old(evictionCount), kind.Eviction?)
      ensures dirtyEvictionCount == Bump(old(dirtyEvictionCount), kind == Eviction(true))
    {
      kind := Access(addr, true);
    }

    /** The statistics: the counters, and dirty lines and dirty evictions in bytes (`1 << B` each). */
    method MakeSummary() returns (stats: Summary)
      requires Valid() && B <= 30
      ensures stats == Summary(hitCount, missCount, evictionCount,
        ToULong(DirtyLines(setList[..]) * Pow2(B)), ToULong(dirtyEvictionCount * Pow2(B)))
    {
      var dirtyByteCount := 0;
      var i := 0;
      while i < setList.Length
        invariant 0 <= i <= setList.Length
        invariant dirtyByteCount == DirtyLines(setList[..i])
      {
        var lines := setList[i].lines;
        var base := dirtyByteCount;
        var j := 0;
        while j < |lines|
          invariant 0 <= j <= |lines|
          invariant dirtyByteCount == base + DirtyIn(lines[..j])
        {
          if lines[j].isDirty {
            dirtyByteCount := dirtyByteCount + 1;
          }
          assert lines[..j + 1][..j] == lines[..j];
          j := j + 1;
        }
        assert lines[..j] == lines;
        assert setList[..i + 1][..i] == setList[..i];
        i := i + 1;
      }
      assert setList[..i] == setList[..];
      stats := Summary(hitCount, missCount, evictionCount,
        ToULong(dirtyByteCount * Pow2(B)), ToULong(dirtyEvictionCount * Pow2(B)));
    }
  }

  /** newCache: no cache for associativity 0, otherwise an empty one. */
  method NewCache(s: nat, e: nat, b: nat) returns (c: Cache?)
    requires s < 32 && e < TWO_32
    ensures c == null <==> e == 0
    ensures c != null ==> fresh(c) && fresh(c.setList) && c.Valid()
    ensures c != null ==> c.S == s && c.E == e && c.B == b && c.setList.Length == Pow2(s)
    ensures c != null ==> c.hitCount == 0 && c.missCount == 0 && c.evictionCount == 0 && c.dirtyEvictionCount == 0
    ensures c != null ==> forall i :: 0 <= i < c.setList.Length ==> c.setList[i] == EMPTY_SET
  {
    if e == 0 {
      return null;
    }
    c := new Cache(s, e, b);
  }
}
