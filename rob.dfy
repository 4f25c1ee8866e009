/**
 * The reorder buffer of the out-of-order pipeline simulator: a circular
 * buffer of R entries with head, tail and num_used, filled in program order
 * at dispatch, marked as instructions complete, and drained in order from
 * the head at most F entries per cycle.
 */
module Rob {

  /** rob_ent_t. completion is the cycle the instruction finished state update, 0 while it has not. */
  datatype RobEntry = RobEntry(line: nat, completion: nat, retire: bool)

  /** A calloc'ed or memset entry. */
  const Blank := RobEntry(0, 0, false)

  /** uint64 total_cycles - 1: wraps to the largest uint64 at cycle 0. */
  function PrevCycle(cycle: nat): nat
  {
    if cycle == 0 then 0xFFFF_FFFF_FFFF_FFFF else cycle - 1
  }

  /** An entry may retire in the cycle after it completed, and only if it completed at all. */
  predicate Eligible(e: RobEntry, cycle: nat)
  {
    e.completion != 0 && e.completion == PrevCycle(cycle)
  }

  /** mark_for_del on the buffer's contents: every entry of that line is stamped with the cycle. */
  function MarkCompleted(s: seq<RobEntry>, line: nat, cycle: nat): (r: seq<RobEntry>)
    ensures |r| == |s|
    ensures forall k :: 0 <= k < |s| ==> r[k].line == s[k].line && r[k].retire == s[k].retire
    ensures forall k :: 0 <= k < |s| ==> r[k].completion == (if s[k].line == line then cycle else s[k].completion)
  {
    seq(|s|, k requires 0 <= k < |s| => if s[k].line == line then s[k].(completion := cycle) else s[k])
  }

  /** The first pass of delete_from_rob: flag every entry that may retire this cycle. */
  function MarkRetire(s: seq<RobEntry>, cycle: nat): (r: seq<RobEntry>)
    ensures |r| == |s|
    ensures forall k :: 0 <= k < |s| ==> r[k].line == s[k].line && r[k].completion == s[k].completion
    ensures forall k :: 0 <= k < |s| ==> (r[k].retire <==> s[k].retire || Eligible(s[k], cycle))
  {
    seq(|s|, k requires 0 <= k < |s| => if Eligible(s[k], cycle) then s[k].(retire := true) else s[k])
  }

  /** How many entries the second pass retires: the flagged entries at the head, at most width of them. */
  function RetireCount(s: seq<RobEntry>, width: nat): (n: nat)
    ensures n <= width && n <= |s|
    ensures forall k :: 0 <= k < n ==> s[k].retire
    ensures n < width && n < |s| ==> !s[n].retire
    decreases |s|
  {
    if width == 0 || |s| == 0 || !s[0].retire then 0 else 1 + RetireCount(s[1..], width - 1)
  }

  /** Index arithmetic on the ring: with x < 2 * size, x % size is x or x - size. */
  lemma ModSmall(x: nat, size: nat)
    requires 0 < size && x < 2 * size
    ensures x % size == if x < size then x else x - size
  {
    if x < size {
      assert x == 0 * size + x;
    } else {
      assert x == 1 * size + (x - size);
    }
  }

  /** The slot after h, as the source computes it. */
  lemma StepMod(h: nat, size: nat)
    requires h < size
    ensures (h + 1) % size == Next(h, size)
  {
    ModSmall(h + 1, size);
  }

  /** Moving on one slot from the i-th entry of a window reaches its (i+1)-th. */
  lemma RingAdvance(h: nat, i: nat, size: nat)
    requires h < size && i < size
    ensures Next(RingSlot(h, i, size), size) == RingSlot(h, i + 1, size)
  {
  }

  /** The slot past an n-entry window at h, which the tail names. */
  function TailOf(h: nat, n: nat, size: nat): nat
  {
    if n == size then h else RingSlot(h, n, size)
  }

  /** Growing the window by one moves its tail one slot on. */
  lemma RingPush(h: nat, n: nat, size: nat)
    requires h < size && n < size
    ensures Next(TailOf(h, n, size), size) == TailOf(h, n + 1, size)
  {
  }

  /** Dropping the window's first entry keeps its tail. */
  lemma RingPop(h: nat, n: nat, size: nat)
    requires h < size && 0 < n <= size
    ensures TailOf(h, n, size) == TailOf(Next(h, size), n - 1, size)
  {
  }

  /** Where the k-th entry after slot h lives in a ring of the given size. */
  function RingSlot(h: nat, k: nat, size: nat): nat
  {
    if h + k < size then h + k else h + k - size
  }

  /** How far slot p lies after slot h, going round the ring. */
  function RingDist(h: nat, p: nat, size: nat): int
  {
    if p >= h then p - h else p + size - h
  }

  /** The slot after h. */
  function Next(h: nat, size: nat): nat
  {
    if h + 1 < size then h + 1 else 0
  }

  /** The n entries of ring a that start at slot h. */
  function Window(a: seq<RobEntry>, h: nat, n: nat): (w: seq<RobEntry>)
    requires h < |a| && n <= |a|
    ensures |w| == n && forall k :: 0 <= k < n ==> w[k] == a[RingSlot(h, k, |a|)]
  {
    seq(n, k requires 0 <= k < n => a[RingSlot(h, k, |a|)])
  }

  /** Every slot of ring a outside the n-entry window at h is blank. */
  predicate BlankOutside(a: seq<RobEntry>, h: nat, n: nat)
  {
    forall p :: 0 <= p < |a| && RingDist(h, p, |a|) >= n ==> a[p] == Blank
  }

  /** Rewriting the i-th entry of the window rewrites that entry of the window and nothing outside it. */
  lemma WindowUpdate(a: seq<RobEntry>, h: nat, n: nat, i: nat, x: RobEntry)
    requires h < |a| && i < n <= |a| && BlankOutside(a, h, n)
    ensures RingSlot(h, i, |a|) < |a|
    ensures Window(a[RingSlot(h, i, |a|) := x], h, n) == Window(a, h, n)[i := x]
    ensures BlankOutside(a[RingSlot(h, i, |a|) := x], h, n)
  {
    var a' := a[RingSlot(h, i, |a|) := x];
    forall p | 0 <= p < |a| && RingDist(h, p, |a|) >= n
      ensures a'[p] == Blank
    {
      assert p != RingSlot(h, i, |a|);
    }
  }

  /**
   * One step of a walk over the window that rewrites it from before into
   * marked: with the first i entries done, writing marked[i] into the i-th
   * slot completes the first i + 1.
   */
  lemma WindowStep(a: seq<RobEntry>, h: nat, n: nat, i: nat, marked: seq<RobEntry>, before: seq<RobEntry>)
    requires h < |a| && i < n <= |a| && BlankOutside(a, h, n)
    requires |marked| == |before| == n && Window(a, h, n) == marked[..i] + before[i..]
    ensures RingSlot(h, i, |a|) < |a| && a[RingSlot(h, i, |a|)] == before[i]
    ensures Window(a[RingSlot(h, i, |a|) := marked[i]], h, n) == marked[..i + 1] + before[i + 1..]
    ensures BlankOutside(a[RingSlot(h, i, |a|) := marked[i]], h, n)
  {
    assert Window(a, h, n)[i] == before[i];
    WindowUpdate(a, h, n, i, marked[i]);
    assert (marked[..i] + before[i..])[i := marked[i]] == marked[..i + 1] + before[i + 1..];
  }

  /** Writing a line into the blank slot just past the window grows the window by that entry. */
  lemma WindowPush(a: seq<RobEntry>, h: nat, n: nat, line: nat)
    requires h < |a| && n < |a| && BlankOutside(a, h, n)
    ensures RingSlot(h, n, |a|) < |a|
    ensures var t := RingSlot(h, n, |a|);
            && Window(a[t := a[t].(line := line)], h, n + 1) == Window(a, h, n) + [RobEntry(line, 0, false)]
            && BlankOutside(a[t := a[t].(line := line)], h, n + 1)
  {
    var t := RingSlot(h, n, |a|);
    assert RingDist(h, t, |a|) == n;
    var a' := a[t := a[t].(line := line)];
    assert Window(a', h, n + 1) == Window(a, h, n) + [RobEntry(line, 0, false)];
  }

  /** Blanking the head slot and moving the head on drops the window's first entry. */
  lemma WindowPop(a: seq<RobEntry>, h: nat, n: nat)
    requires h < |a| && 0 < n <= |a| && BlankOutside(a, h, n)
    ensures Window(a[h := Blank], Next(h, |a|), n - 1) == Window(a, h, n)[1..]
    ensures BlankOutside(a[h := Blank], Next(h, |a|), n - 1)
  {
    var a' := a[h := Blank];
    forall p | 0 <= p < |a| && RingDist(Next(h, |a|), p, |a|) >= n - 1
      ensures a'[p] == Blank
    {
      if p != h {
        assert RingDist(Next(h, |a|), p, |a|) == RingDist(h, p, |a|) - 1;
      }
    }
  }

  /** A walk that has reached the end has rewritten everything. */
  lemma SpliceDone(marked: seq<RobEntry>, before: seq<RobEntry>)
    requires |marked| == |before|
    ensures marked[..|marked|] + before[|before|..] == marked
  {
  }

  class ReorderBuffer {
    const size: nat
    const slots: array<RobEntry>
    var head: nat
    var tail: nat
    var used: nat

    /** The ring is in range, tail sits just past the window, and every slot outside the window is blank. */
    ghost predicate Valid()
      reads this, slots
    {
      && slots.Length == size && 0 < size && head < size && used <= size
      && tail == TailOf(head, used, size)
      && BlankOutside(slots[..], head, used)
    }

    /** The entries in use, oldest first. */
    ghost function Contents(): (s: seq<RobEntry>)
      reads this, slots
      requires Valid()
      ensures |s| == used
    {
      Window(slots[..], head, used)
    }

    /** setup_proc's calloc of R entries, with head, tail and num_used at 0. */
    constructor(r: nat)
      requires r > 0
      ensures size == r && head == 0 && tail == 0 && used == 0
      ensures Valid() && Contents() == [] && fresh(slots)
    {
      size := r;
      slots := new RobEntry[r](_ => Blank);
      head, tail, used := 0, 0, 0;
    }

    /** add_to_rob: the line goes in at the tail, which moves one slot round the ring. */
    method AddToRob(line: nat)
      requires Valid() && used < size
      modifies this, slots
      ensures Valid() && head == old(head) && used == old(used) + 1
      ensures Contents() == old(Contents()) + [RobEntry(line, 0, false)]
    {
      WindowPush(slots[..], head, used, line);
      slots[tail] := slots[tail].(line := line);
      RingPush(head, used, size);
      StepMod(tail, size);
      tail := (tail + 1) % size;
      used := used + 1;
    }

    /** One step of mark_for_del's walk: the i-th entry, at slot h, is stamped if it has the line. */
    method MarkStep(i: nat, h: nat, line: nat, cycle: nat, ghost marked: seq<RobEntry>, ghost before: seq<RobEntry>) returns (next: nat)
      requires Valid() && i < used && h == RingSlot(head, i, size)
      requires |before| == used && marked == MarkCompleted(before, line, cycle)
      requires Contents() == marked[..i] + before[i..]
      modifies slots
      ensures Valid() && Contents() == marked[..i + 1] + before[i + 1..]
      ensures next == RingSlot(head, i + 1, size)
    {
      ghost var a := slots[..];
      WindowStep(a, head, used, i, marked, before);
      var e := slots[h];
      if e.line == line {
        slots[h] := e.(completion := cycle);
      }
      assert slots[..] == a[h := marked[i]];
      RingAdvance(head, i, size);
      StepMod(h, size);
      next := (h + 1) % size;
    }

    /** One step of delete_from_rob's first pass: the i-th entry, at slot h, is flagged if it completed last cycle. */
    method FlagStep(i: nat, h: nat, prev: nat, cycle: nat, ghost marked: seq<RobEntry>, ghost before: seq<RobEntry>) returns (next: nat)
      requires Valid() && i < used && h == RingSlot(head, i, size) && prev == PrevCycle(cycle)
      requires |before| == used && marked == MarkRetire(before, cycle)
      requires Contents() == marked[..i] + before[i..]
      modifies slots
      ensures Valid() && Contents() == marked[..i + 1] + before[i + 1..]
      ensures next == RingSlot(head, i + 1, size)
    {
      ghost var a := slots[..];
      WindowStep(a, head, used, i, marked, before);
      var e := slots[h];
      if e.completion != 0 && e.completion == prev {
        slots[h] := e.(retire := true);
      }
      assert slots[..] == a[h := marked[i]];
      RingAdvance(head, i, size);
      StepMod(h, size);
      next := (h + 1) % size;
    }

    /** mark_for_del: walk the used window from the head and stamp the entries of that line. */
    method MarkForDel(line: nat, cycle: nat)
      requires Valid()
      modifies slots
      ensures Valid()
      ensures Contents() == MarkCompleted(old(Contents()), line, cycle)
    {
      ghost var before := Contents();
      ghost var marked := MarkCompleted(before, line, cycle);
      var h := head;
      var i := 0;
      while i < used
        invariant Valid() && i <= used && h == RingSlot(head, i, size)
        invariant |before| == used && marked == MarkCompleted(before, line, cycle)
        invariant Contents() == marked[..i] + before[i..]
        decreases used - i
      {
        h := MarkStep(i, h, line, cycle, marked, before);
        i := i + 1;
      }
      SpliceDone(marked, before);
    }

    /** The first pass of delete_from_rob: flag the window's entries that completed last cycle. */
    method FlagRetirements(cycle: nat)
      requires Valid()
      modifies slots
      ensures Valid()
      ensures Contents() == MarkRetire(old(Contents()), cycle)
    {
      ghost var before := Contents();
      ghost var marked := MarkRetire(before, cycle);
      var prev := PrevCycle(cycle);
      var h := head;
      var i := 0;
      while i < used
        invariant Valid() && i <= used && h == RingSlot(head, i, size)
        invariant |before| == used && marked == MarkRetire(before, cycle) && prev == PrevCycle(cycle)
        invariant Contents() == marked[..i] + before[i..]
        decreases used - i
      {
        h := FlagStep(i, h, prev, cycle, marked, before);
        i := i + 1;
      }
      SpliceDone(marked, before);
    }

    /** One retirement: the head entry is cleared, the head moves one slot round the ring, num_used drops. */
    method PopHead()
      requires Valid() && used > 0
      modifies this, slots
      ensures Valid() && tail == old(tail) && used == old(used) - 1
      ensures Contents() == old(Contents())[1..]
    {
      WindowPop(slots[..], head, used);
      slots[head] := Blank;
      RingPop(head, used, size);
      StepMod(head, size);
      head := (head + 1) % size;
      used := used - 1;
    }

    /**
     * The second pass of delete_from_rob: retire flagged entries at the head,
     * in order, at most width of them. The head of an empty window is blank, so
     * the walk never passes num_used.
     */
    method RetireFromHead(width: nat) returns (retired: nat)
      requires Valid()
      modifies this, slots
      ensures Valid() && tail == old(tail)
      ensures retired == RetireCount(old(Contents()), width)
      ensures Contents() == old(Contents())[retired..]
    {
      ghost var before := Contents();
      var fetchWidth := width;
      retired := 0;
      while fetchWidth > 0 && slots[head].retire
        invariant Valid() && tail == old(tail)
        invariant retired + fetchWidth == width && retired + used == |before|
        invariant Contents() == before[retired..]
        invariant RetireCount(before, width) == retired + RetireCount(before[retired..], fetchWidth)
        decreases used
      {
        assert RingDist(head, head, size) == 0;
        assert before[retired..][1..] == before[retired + 1..];
        PopHead();
        fetchWidth := fetchWidth - 1;
        retired := retired + 1;
      }
      if used > 0 {
        assert Contents()[0] == slots[head];
      }
    }
  }
}
