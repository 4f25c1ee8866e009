/**
 * The bookkeeping of the out-of-order pipeline simulator, on values: the
 * records of the dispatch queue, the scheduling queues and the register file,
 * and one pass function per pipeline stage half that the simulator's methods
 * are proved to perform.
 */
module Pipeline {
  import opened Queues

  /** nREGS architectural registers, nFU_TYPE function-unit types. */
  const RegCount: nat := 32
  const FuTypes: nat := 3
  /** The tag fields of a scheduling-queue entry are 32 bits wide. */
  const TagRange: nat := 0x1_0000_0000

  /** proc_inst_t as read_instruction hands it over; a negative register means none. */
  datatype Inst = Inst(opCode: int, src1: int, src2: int, dest: int)

  /** A trace instruction names a function-unit type and registers that exist. */
  predicate ValidInst(i: Inst)
  {
    i.opCode < FuTypes && i.src1 < RegCount && i.src2 < RegCount && i.dest < RegCount
  }

  /** dispq_entry_t. */
  datatype DispEntry = DispEntry(line: nat, fu: nat, dest: int, s1: int, s2: int,
                                 dispDone: bool, stall: bool, inRob: bool)

  /** A calloc'ed or memset dispatch-queue entry. */
  const BlankDisp := DispEntry(0, 0, 0, 0, 0, false, false, false)

  predicate ValidDisp(e: DispEntry)
  {
    e.fu < FuTypes && e.dest < RegCount && e.s1 < RegCount && e.s2 < RegCount
  }

  predicate AllValid(q: seq<DispEntry>)
  {
    forall k :: 0 <= k < |q| ==> ValidDisp(q[k])
  }

  /** The deletion test of dispatch_second_half's compaction. */
  predicate Done(e: DispEntry)
  {
    e.dispDone
  }

  // ---------------------------------------------------------------- fetch

  /** A negative op code runs on function unit 0. */
  function FuOf(op: int): (f: nat)
    ensures op >= 0 ==> f == op
    ensures op < 0 ==> f == 0
  {
    if op >= 0 then op else 0
  }

  /** The dispatch-queue entries fetch writes for insts, numbered on from gline. */
  function Decoded(insts: seq<Inst>, gline: nat): (q: seq<DispEntry>)
    ensures |q| == |insts|
    ensures forall k :: 0 <= k < |q| ==> q[k].line == gline + k + 1 && q[k].fu == FuOf(insts[k].opCode)
    ensures forall k :: 0 <= k < |q| ==> q[k].dest == insts[k].dest && q[k].s1 == insts[k].src1 && q[k].s2 == insts[k].src2
    ensures forall k :: 0 <= k < |q| ==> !q[k].dispDone && !q[k].stall && !q[k].inRob
  {
    seq(|insts|, k requires 0 <= k < |insts| =>
      DispEntry(gline + k + 1, FuOf(insts[k].opCode), insts[k].dest, insts[k].src1, insts[k].src2, false, false, false))
  }

  /** Decoding a well-formed trace gives entries that name existing units and registers. */
  lemma DecodedValid(insts: seq<Inst>, gline: nat)
    requires forall k :: 0 <= k < |insts| ==> ValidInst(insts[k])
    ensures AllValid(Decoded(insts, gline))
  {
    var q := Decoded(insts, gline);
    forall k | 0 <= k < |q|
      ensures ValidDisp(q[k])
    {
      assert q[k].fu == FuOf(insts[k].opCode);
    }
  }

  /** Decoding one more instruction appends its entry, numbered after the others. */
  lemma DecodedPush(insts: seq<Inst>, x: Inst, gline: nat)
    ensures Decoded(insts + [x], gline)
         == Decoded(insts, gline) + [DispEntry(gline + |insts| + 1, FuOf(x.opCode), x.dest, x.src1, x.src2, false, false, false)]
  {
    var l := Decoded(insts + [x], gline);
    var r := Decoded(insts, gline) + [DispEntry(gline + |insts| + 1, FuOf(x.opCode), x.dest, x.src1, x.src2, false, false, false)];
    forall k | 0 <= k < |l|
      ensures l[k] == r[k]
    {
      assert (insts + [x])[k] == if k < |insts| then insts[k] else x;
    }
  }

  /**
   * How many instructions one fetch takes: it stops after width of them,
   * when the dispatch queue has no room left, or when the trace runs out.
   */
  function FetchCount(avail: nat, width: nat, room: nat): (k: nat)
    ensures k <= avail && k <= width && k <= room
    ensures k == avail || k == width || k == room
  {
    if avail <= width && avail <= room then avail
    else if width <= room then width
    else room
  }

  /** The read that fails: the trace ran out before width or room did. */
  predicate FetchHitsEnd(avail: nat, width: nat, room: nat)
  {
    avail < width && avail < room
  }

  // ------------------------------------------------ dispatch, first half

  /** What dispatch_first_half leaves: the queue's flags, the lines added to the ROB, the reservations. */
  datatype Front = Front(q: seq<DispEntry>, robLines: seq<nat>, used: seq<nat>)

  predicate FuOk(q: seq<DispEntry>)
  {
    forall k :: 0 <= k < |q| ==> q[k].fu < FuTypes
  }

  /** Stall entry i and every entry after it. */
  function StallFrom(q: seq<DispEntry>, i: nat): (r: seq<DispEntry>)
    ensures |r| == |q|
    ensures forall k :: 0 <= k < |q| ==> r[k] == if k >= i then q[k].(stall := true) else q[k]
  {
    seq(|q|, k requires 0 <= k < |q| => if k >= i then q[k].(stall := true) else q[k])
  }

  /** Clear the stall of entry i, optionally entering it into the ROB. */
  function Go(q: seq<DispEntry>, i: nat): (r: seq<DispEntry>)
    requires i < |q|
    ensures |r| == |q| && r[i] == q[i].(stall := false)
    ensures forall k :: 0 <= k < |q| && k != i ==> r[k] == q[k]
  {
    q[i := q[i].(stall := false)]
  }

  /** Enter entry i into the ROB. */
  function Enter(q: seq<DispEntry>, i: nat): (r: seq<DispEntry>)
    requires i < |q|
    ensures |r| == |q| && r[i] == q[i].(inRob := true)
    ensures forall k :: 0 <= k < |q| && k != i ==> r[k] == q[k]
  {
    q[i := q[i].(inRob := true)]
  }

  /**
   * The pass over entries i.. when the ROB was full on entry: an entry goes
   * ahead only if it already holds a ROB slot and its scheduling queue has a
   * free slot to reserve; the first one that does not, and all after it, stall.
   */
  function FullFrom(q: seq<DispEntry>, i: nat, used: seq<nat>, sizes: seq<nat>): (d: Front)
    requires i <= |q| && FuOk(q) && |used| == FuTypes && |sizes| == FuTypes
    ensures |d.q| == |q| && |d.used| == FuTypes && d.robLines == []
    decreases |q| - i
  {
    if i == |q| then Front(q, [], used)
    else
      var f := q[i].fu;
      if q[i].inRob && used[f] < sizes[f] then
        FullFrom(Go(q, i), i + 1, used[f := used[f] + 1], sizes)
      else
        Front(StallFrom(q, i), [], used)
  }

  /**
   * The pass over entries i.. when the ROB had room on entry: while the ROB
   * has room, an entry not yet in it is added, and PlaceAt decides whether
   * it goes ahead; once the ROB is full the rest stall.
   */
  function OpenFrom(q: seq<DispEntry>, i: nat, robUsed: nat, r: nat, lines: seq<nat>,
                    used: seq<nat>, sizes: seq<nat>): (d: Front)
    requires i <= |q| && FuOk(q) && |used| == FuTypes && |sizes| == FuTypes
    ensures |d.q| == |q| && |d.used| == FuTypes
    decreases |q| - i, 1
  {
    if i == |q| then Front(q, lines, used)
    else if robUsed < r then
      if q[i].inRob then PlaceAt(q, i, robUsed, r, lines, used, sizes)
      else PlaceAt(Enter(q, i), i, robUsed + 1, r, lines + [q[i].line], used, sizes)
    else
      Front(StallFrom(q, i), lines, used)
  }

  /**
   * Entry i, now in the ROB, of the open-ROB pass: if its scheduling queue
   * is full, it and all after it stall; otherwise it reserves a slot there
   * and the pass goes on.
   */
  function PlaceAt(q: seq<DispEntry>, i: nat, robUsed: nat, r: nat, lines: seq<nat>,
                   used: seq<nat>, sizes: seq<nat>): (d: Front)
    requires i < |q| && FuOk(q) && |used| == FuTypes && |sizes| == FuTypes
    ensures |d.q| == |q| && |d.used| == FuTypes
    decreases |q| - i, 0
  {
    var f := q[i].fu;
    if used[f] == sizes[f] then
      Front(StallFrom(q, i), lines, used)
    else
      OpenFrom(Go(q, i), i + 1, robUsed, r, lines, used[f := used[f] + 1], sizes)
  }

  /** dispatch_first_half on the queue q, with robUsed of r ROB slots taken and the queues' reservations. */
  function DispatchFirst(q: seq<DispEntry>, robUsed: nat, r: nat, used: seq<nat>, sizes: seq<nat>): (d: Front)
    requires FuOk(q) && |used| == FuTypes && |sizes| == FuTypes
    ensures |d.q| == |q| && |d.used| == FuTypes
  {
    if robUsed == r then FullFrom(q, 0, used, sizes) else OpenFrom(q, 0, robUsed, r, [], used, sizes)
  }

  /** The lines of the entries of s that go ahead to function unit f this cycle, in queue order. */
  function IssuedLines(s: seq<DispEntry>, f: nat): (r: seq<nat>)
    ensures |r| <= |s|
    decreases |s|
  {
    if |s| == 0 then []
    else (if !s[0].stall && s[0].fu == f then [s[0].line] else []) + IssuedLines(s[1..], f)
  }

  /** The lines of the entries that were outside the ROB in q and inside it in q2, from i on, in queue order. */
  function NewLines(q: seq<DispEntry>, q2: seq<DispEntry>, i: nat): (r: seq<nat>)
    requires |q| == |q2| && i <= |q|
    ensures |r| <= |q| - i
    decreases |q| - i
  {
    if i == |q| then []
    else (if !q[i].inRob && q2[i].inRob then [q[i].line] else []) + NewLines(q, q2, i + 1)
  }

  /** The entry's instruction is untouched; only its flags may differ, and a ROB slot is never given up. */
  predicate SameInst(a: DispEntry, b: DispEntry)
  {
    a.line == b.line && a.fu == b.fu && a.dest == b.dest && a.s1 == b.s1 && a.s2 == b.s2
    && a.dispDone == b.dispDone && (a.inRob ==> b.inRob)
  }

  /**
   * The shape of a first-half result d from q over entries i..: the first i
   * entries are as they were, every entry keeps its instruction, the stalled
   * entries form a suffix, and every entry that goes ahead holds a ROB slot.
   */
  predicate Shaped(q: seq<DispEntry>, d: seq<DispEntry>, i: nat)
  {
    && |d| == |q| && i <= |q| && d[..i] == q[..i]
    && (forall k :: 0 <= k < |q| ==> SameInst(q[k], d[k]))
    && (forall j, k :: i <= j <= k < |q| && d[j].stall ==> d[k].stall)
    && (forall k :: i <= k < |q| && !d[k].stall ==> d[k].inRob)
  }

  /** Stalling entries i to k - 1 and then entry k stalls entries i to k. */
  lemma StallStep(q: seq<DispEntry>, i: nat, k: nat)
    requires i <= k < |q|
    ensures var r := StallFrom(q, i)[..k] + q[k..];
            r[k] == q[k] && r[k := q[k].(stall := true)] == StallFrom(q, i)[..k + 1] + q[k + 1..]
  {
    var r := StallFrom(q, i)[..k] + q[k..];
    var t := StallFrom(q, i)[..k + 1] + q[k + 1..];
    assert |r| == |t| == |q|;
    forall j | 0 <= j < |q|
      ensures r[k := q[k].(stall := true)][j] == t[j]
    {
      if j < k {
        assert r[j] == StallFrom(q, i)[j] == t[j];
      } else if j > k {
        assert r[j] == q[j] == t[j];
      }
    }
  }

  /** Before the loop nothing is stalled, and at its end everything from i is. */
  lemma StallEnds(q: seq<DispEntry>, i: nat)
    requires i <= |q|
    ensures StallFrom(q, i)[..i] + q[i..] == q
    ensures StallFrom(q, i)[..|q|] + q[|q|..] == StallFrom(q, i)
  {
    assert StallFrom(q, i)[..i] == q[..i];
    assert q[..i] + q[i..] == q;
  }

  lemma StallFromShaped(q: seq<DispEntry>, i: nat)
    requires i <= |q|
    ensures Shaped(q, StallFrom(q, i), i)
  {
    var d := StallFrom(q, i);
    assert d[..i] == q[..i];
  }

  /** Letting entry i go ahead, then shaping i+1.., shapes i.. . */
  lemma ShapedStep(q: seq<DispEntry>, q1: seq<DispEntry>, d: seq<DispEntry>, i: nat)
    requires i < |q| && |q1| == |q|
    requires forall k :: 0 <= k < |q| && k != i ==> q1[k] == q[k]
    requires SameInst(q[i], q1[i]) && !q1[i].stall && q1[i].inRob
    requires Shaped(q1, d, i + 1)
    ensures Shaped(q, d, i)
  {
    assert d[i] == d[..i + 1][i] == q1[..i + 1][i] == q1[i];
    assert d[..i] == d[..i + 1][..i] == q1[..i + 1][..i] == q[..i];
    forall k | 0 <= k < |q|
      ensures SameInst(q[k], d[k])
    {
      assert SameInst(q1[k], d[k]);
    }
  }

  /** The full-ROB pass keeps each instruction, stalls a suffix, and lets through only ROB holders. */
  lemma {:induction false} FullFromShape(q: seq<DispEntry>, i: nat, used: seq<nat>, sizes: seq<nat>)
    requires i <= |q| && FuOk(q) && |used| == FuTypes && |sizes| == FuTypes
    ensures Shaped(q, FullFrom(q, i, used, sizes).q, i)
    decreases |q| - i
  {
    if i == |q| {
      assert q[..i] == q;
    } else {
      var f := q[i].fu;
      if q[i].inRob && used[f] < sizes[f] {
        FullFromShape(Go(q, i), i + 1, used[f := used[f] + 1], sizes);
        ShapedStep(q, Go(q, i), FullFrom(q, i, used, sizes).q, i);
      } else {
        StallFromShaped(q, i);
      }
    }
  }

  /** The open-ROB pass keeps each instruction, stalls a suffix, and lets through only ROB holders. */
  lemma {:induction false} OpenFromShape(q: seq<DispEntry>, i: nat, robUsed: nat, r: nat, lines: seq<nat>,
                                         used: seq<nat>, sizes: seq<nat>)
    requires i <= |q| && FuOk(q) && |used| == FuTypes && |sizes| == FuTypes
    ensures Shaped(q, OpenFrom(q, i, robUsed, r, lines, used, sizes).q, i)
    decreases |q| - i, 1
  {
    if i == |q| {
      assert q[..i] == q;
    } else if robUsed < r {
      if q[i].inRob {
        PlaceAtShape(q, i, robUsed, r, lines, used, sizes);
      } else {
        var d := OpenFrom(q, i, robUsed, r, lines, used, sizes).q;
        PlaceAtShape(Enter(q, i), i, robUsed + 1, r, lines + [q[i].line], used, sizes);
        assert d[..i] == Enter(q, i)[..i] == q[..i];
        forall k | 0 <= k < |q|
          ensures SameInst(q[k], d[k])
        {
          assert SameInst(Enter(q, i)[k], d[k]);
        }
      }
    } else {
      StallFromShaped(q, i);
    }
  }

  /** The same from entry i, which holds a ROB slot. */
  lemma {:induction false} PlaceAtShape(q: seq<DispEntry>, i: nat, robUsed: nat, r: nat, lines: seq<nat>,
                                        used: seq<nat>, sizes: seq<nat>)
    requires i < |q| && FuOk(q) && |used| == FuTypes && |sizes| == FuTypes && q[i].inRob
    ensures Shaped(q, PlaceAt(q, i, robUsed, r, lines, used, sizes).q, i)
    decreases |q| - i, 0
  {
    var f := q[i].fu;
    if used[f] == sizes[f] {
      StallFromShaped(q, i);
    } else {
      OpenFromShape(Go(q, i), i + 1, robUsed, r, lines, used[f := used[f] + 1], sizes);
      ShapedStep(q, Go(q, i), PlaceAt(q, i, robUsed, r, lines, used, sizes).q, i);
    }
  }

  /** Entries that all stall send nothing to any function unit. */
  lemma {:induction false} StalledIssueNothing(s: seq<DispEntry>, f: nat)
    requires forall k :: 0 <= k < |s| ==> s[k].stall
    ensures IssuedLines(s, f) == []
    decreases |s|
  {
    if |s| > 0 {
      StalledIssueNothing(s[1..], f);
    }
  }

  /** Entry i going ahead to unit f adds its line in front of the later ones. */
  lemma IssuedUnfold(s: seq<DispEntry>, i: nat, f: nat)
    requires i < |s|
    ensures IssuedLines(s[i..], f) == (if !s[i].stall && s[i].fu == f then [s[i].line] else []) + IssuedLines(s[i + 1..], f)
  {
    assert s[i..][1..] == s[i + 1..];
  }

  /** An entry that does not go ahead to unit f adds nothing to f's lines. */
  lemma IssuedSkip(s: seq<DispEntry>, i: nat, f: nat)
    requires i < |s| && (s[i].stall || s[i].fu != f)
    ensures IssuedLines(s[i..], f) == IssuedLines(s[i + 1..], f)
  {
    IssuedUnfold(s, i, f);
  }

  /** The full-ROB pass enters nothing into the ROB. */
  lemma {:induction false} FullFromKeepsRob(q: seq<DispEntry>, i: nat, used: seq<nat>, sizes: seq<nat>)
    requires i <= |q| && FuOk(q) && |used| == FuTypes && |sizes| == FuTypes
    ensures var d := FullFrom(q, i, used, sizes);
            forall k :: 0 <= k < |q| ==> d.q[k].inRob == q[k].inRob
    decreases |q| - i
  {
    if i < |q| {
      var f := q[i].fu;
      if q[i].inRob && used[f] < sizes[f] {
        FullFromKeepsRob(Go(q, i), i + 1, used[f := used[f] + 1], sizes);
      }
    }
  }

  /**
   * The reservations the full-ROB pass makes: each unit's count grows by the
   * number of entries it lets through to that unit, and never past the queue's size.
   */
  lemma {:induction false} FullFromCounts(q: seq<DispEntry>, i: nat, used: seq<nat>, sizes: seq<nat>)
    requires i <= |q| && FuOk(q) && |used| == FuTypes && |sizes| == FuTypes
    ensures var d := FullFrom(q, i, used, sizes);
            forall f :: 0 <= f < FuTypes ==> d.used[f] == used[f] + |IssuedLines(d.q[i..], f)|
    ensures var d := FullFrom(q, i, used, sizes);
            forall f :: 0 <= f < FuTypes && used[f] <= sizes[f] ==> d.used[f] <= sizes[f]
    decreases |q| - i
  {
    var d := FullFrom(q, i, used, sizes);
    if i == |q| {
      forall f | 0 <= f < FuTypes
        ensures IssuedLines(d.q[i..], f) == []
      {
        assert d.q[i..] == [];
      }
    } else {
      var f := q[i].fu;
      if q[i].inRob && used[f] < sizes[f] {
        FullFromCounts(Go(q, i), i + 1, used[f := used[f] + 1], sizes);
        FullFromShape(Go(q, i), i + 1, used[f := used[f] + 1], sizes);
        assert d.q[i] == d.q[..i + 1][i] == Go(q, i)[..i + 1][i];
        forall g | 0 <= g < FuTypes
          ensures d.used[g] == used[g] + |IssuedLines(d.q[i..], g)|
        {
          IssuedUnfold(d.q, i, g);
        }
      } else {
        forall g | 0 <= g < FuTypes
          ensures IssuedLines(d.q[i..], g) == []
        {
          StalledIssueNothing(d.q[i..], g);
        }
      }
    }
  }

  /**
   * The same for the open-ROB pass; there the test is for a full queue, so a
   * queue that was within its size stays within it.
   */
  lemma {:induction false} OpenFromCounts(q: seq<DispEntry>, i: nat, robUsed: nat, r: nat, lines: seq<nat>,
                                          used: seq<nat>, sizes: seq<nat>)
    requires i <= |q| && FuOk(q) && |used| == FuTypes && |sizes| == FuTypes
    ensures var d := OpenFrom(q, i, robUsed, r, lines, used, sizes);
            forall f :: 0 <= f < FuTypes ==> d.used[f] == used[f] + |IssuedLines(d.q[i..], f)|
    ensures var d := OpenFrom(q, i, robUsed, r, lines, used, sizes);
            forall f :: 0 <= f < FuTypes && used[f] <= sizes[f] ==> d.used[f] <= sizes[f]
    decreases |q| - i, 1
  {
    var d := OpenFrom(q, i, robUsed, r, lines, used, sizes);
    if i == |q| {
      forall f | 0 <= f < FuTypes
        ensures IssuedLines(d.q[i..], f) == []
      {
        assert d.q[i..] == [];
      }
    } else if robUsed < r {
      if q[i].inRob {
        PlaceAtCounts(q, i, robUsed, r, lines, used, sizes);
      } else {
        PlaceAtCounts(Enter(q, i), i, robUsed + 1, r, lines + [q[i].line], used, sizes);
      }
    } else {
      forall g | 0 <= g < FuTypes
        ensures IssuedLines(d.q[i..], g) == []
      {
        StalledIssueNothing(d.q[i..], g);
      }
    }
  }

  /** The same from entry i. */
  lemma {:induction false} PlaceAtCounts(q: seq<DispEntry>, i: nat, robUsed: nat, r: nat, lines: seq<nat>,
                                         used: seq<nat>, sizes: seq<nat>)
    requires i < |q| && FuOk(q) && |used| == FuTypes && |sizes| == FuTypes
    ensures var d := PlaceAt(q, i, robUsed, r, lines, used, sizes);
            forall f :: 0 <= f < FuTypes ==> d.used[f] == used[f] + |IssuedLines(d.q[i..], f)|
    ensures var d := PlaceAt(q, i, robUsed, r, lines, used, sizes);
            forall f :: 0 <= f < FuTypes && used[f] <= sizes[f] ==> d.used[f] <= sizes[f]
    decreases |q| - i, 0
  {
    var d := PlaceAt(q, i, robUsed, r, lines, used, sizes);
    var f := q[i].fu;
    if used[f] == sizes[f] {
      forall g | 0 <= g < FuTypes
        ensures IssuedLines(d.q[i..], g) == []
      {
        StalledIssueNothing(d.q[i..], g);
      }
    } else {
      var used1 := used[f := used[f] + 1];
      OpenFromCounts(Go(q, i), i + 1, robUsed, r, lines, used1, sizes);
      OpenFromShape(Go(q, i), i + 1, robUsed, r, lines, used1, sizes);
      assert d.q[i] == d.q[..i + 1][i] == Go(q, i)[..i + 1][i];
      forall g | 0 <= g < FuTypes
        ensures d.used[g] == used[g] + |IssuedLines(d.q[i..], g)|
        ensures used[g] <= sizes[g] ==> d.used[g] <= sizes[g]
      {
        IssuedUnfold(d.q, i, g);
        assert used[g] <= sizes[g] ==> used1[g] <= sizes[g];
      }
    }
  }

  /** Where q and q2 agree on ROB membership from i on, no line is new. */
  lemma {:induction false} NoNewLines(q: seq<DispEntry>, q2: seq<DispEntry>, i: nat)
    requires |q| == |q2| && i <= |q|
    requires forall k :: i <= k < |q| ==> q2[k].inRob == q[k].inRob
    ensures NewLines(q, q2, i) == []
    decreases |q| - i
  {
    if i < |q| {
      NoNewLines(q, q2, i + 1);
    }
  }

  /** NewLines reads q only from i on. */
  lemma {:induction false} NewLinesAgree(q: seq<DispEntry>, q1: seq<DispEntry>, q2: seq<DispEntry>, i: nat)
    requires |q| == |q1| == |q2| && i <= |q|
    requires forall k :: i <= k < |q| ==> q1[k].inRob == q[k].inRob && q1[k].line == q[k].line
    ensures NewLines(q1, q2, i) == NewLines(q, q2, i)
    decreases |q| - i
  {
    if i < |q| {
      NewLinesAgree(q, q1, q2, i + 1);
    }
  }

  /**
   * The ROB side of the open-ROB pass: the ROB receives, in queue order,
   * exactly the lines of the entries that were outside it and are now inside
   * it, and never more than its free slots.
   */
  lemma {:induction false} OpenFromRob(q: seq<DispEntry>, i: nat, robUsed: nat, r: nat, lines: seq<nat>,
                                       used: seq<nat>, sizes: seq<nat>)
    requires i <= |q| && FuOk(q) && |used| == FuTypes && |sizes| == FuTypes && robUsed <= r
    ensures var d := OpenFrom(q, i, robUsed, r, lines, used, sizes);
            d.robLines == lines + NewLines(q, d.q, i) && robUsed + |NewLines(q, d.q, i)| <= r
    decreases |q| - i, 1
  {
    var d := OpenFrom(q, i, robUsed, r, lines, used, sizes);
    if i == |q| {
      assert lines + [] == lines;
    } else if robUsed < r {
      if q[i].inRob {
        PlaceAtRob(q, i, robUsed, r, lines, used, sizes);
      } else {
        var q1 := Enter(q, i);
        PlaceAtRob(q1, i, robUsed + 1, r, lines + [q[i].line], used, sizes);
        PlaceAtShape(q1, i, robUsed + 1, r, lines + [q[i].line], used, sizes);
        assert SameInst(q1[i], d.q[i]);
        NewLinesAgree(q, q1, d.q, i + 1);
        assert NewLines(q, d.q, i) == [q[i].line] + NewLines(q1, d.q, i + 1);
        assert NewLines(q1, d.q, i) == [] + NewLines(q1, d.q, i + 1);
      }
    } else {
      NoNewLines(q, d.q, i);
    }
  }

  /** The same from entry i, which holds a ROB slot and so is not new. */
  lemma {:induction false} PlaceAtRob(q: seq<DispEntry>, i: nat, robUsed: nat, r: nat, lines: seq<nat>,
                                      used: seq<nat>, sizes: seq<nat>)
    requires i < |q| && FuOk(q) && |used| == FuTypes && |sizes| == FuTypes && robUsed <= r && q[i].inRob
    ensures var d := PlaceAt(q, i, robUsed, r, lines, used, sizes);
            d.robLines == lines + NewLines(q, d.q, i) && robUsed + |NewLines(q, d.q, i)| <= r
    decreases |q| - i, 0
  {
    var d := PlaceAt(q, i, robUsed, r, lines, used, sizes);
    var f := q[i].fu;
    if used[f] == sizes[f] {
      NoNewLines(q, d.q, i);
      assert lines + [] == lines;
    } else {
      var used1 := used[f := used[f] + 1];
      OpenFromRob(Go(q, i), i + 1, robUsed, r, lines, used1, sizes);
      NewLinesAgree(q, Go(q, i), d.q, i + 1);
      assert NewLines(q, d.q, i) == [] + NewLines(q, d.q, i + 1);
    }
  }

  /**
   * dispatch_first_half as a whole: the stalled entries form a suffix, every
   * entry that goes ahead holds a ROB slot, each queue's reservations grow by
   * the entries going ahead to it and stay within its size, and the ROB
   * receives the newly entered lines in order, none at all when it was full.
   */
  lemma DispatchFirstSound(q: seq<DispEntry>, robUsed: nat, r: nat, used: seq<nat>, sizes: seq<nat>)
    requires FuOk(q) && |used| == FuTypes && |sizes| == FuTypes && robUsed <= r
    ensures var d := DispatchFirst(q, robUsed, r, used, sizes);
            && Shaped(q, d.q, 0)
            && (forall f :: 0 <= f < FuTypes ==> d.used[f] == used[f] + |IssuedLines(d.q, f)|)
            && (forall f :: 0 <= f < FuTypes && used[f] <= sizes[f] ==> d.used[f] <= sizes[f])
            && d.robLines == NewLines(q, d.q, 0) && robUsed + |d.robLines| <= r
            && (robUsed == r ==> d.robLines == [])
  {
    var d := DispatchFirst(q, robUsed, r, used, sizes);
    assert d.q[0..] == d.q;
    if robUsed == r {
      FullFromShape(q, 0, used, sizes);
      FullFromCounts(q, 0, used, sizes);
      FullFromKeepsRob(q, 0, used, sizes);
      NoNewLines(q, d.q, 0);
    } else {
      OpenFromShape(q, 0, robUsed, r, [], used, sizes);
      OpenFromCounts(q, 0, robUsed, r, [], used, sizes);
      OpenFromRob(q, 0, robUsed, r, [], used, sizes);
      assert [] + d.robLines == d.robLines;
    }
  }

  /**
   * At a cycle boundary each queue's tail equals its count; from there the
   * first half reserves exactly one slot past the tail for every entry the
   * second half will issue.
   */
  lemma DispatchFirstReserves(q: seq<DispEntry>, robUsed: nat, r: nat, used: seq<nat>, sizes: seq<nat>, tails: seq<nat>)
    requires FuOk(q) && |used| == FuTypes && |sizes| == FuTypes && robUsed <= r && tails == used
    ensures var d := DispatchFirst(q, robUsed, r, used, sizes);
            ReservedFrom(d.q, tails, d.used)
            && forall f :: 0 <= f < FuTypes ==> d.used[f] == tails[f] + |IssuedLines(d.q, f)|
  {
    DispatchFirstSound(q, robUsed, r, used, sizes);
  }

  // ----------------------------------------------- dispatch, second half

  /** reg_file_entry: busy while an instruction in flight will write the register; tag names it. */
  datatype RegEntry = RegEntry(tag: nat, busy: bool)

  const BlankReg := RegEntry(0, false)

  /** sch_entry_t. */
  datatype SchEntry = SchEntry(line: nat, destReg: int, destTag: nat, s1Tag: nat, s2Tag: nat,
                               s1Busy: bool, s2Busy: bool, rdy: bool, complete: bool, free: bool, busy: bool)

  /** A calloc'ed or memset scheduling-queue entry. */
  const BlankSch := SchEntry(0, 0, 0, 0, 0, false, false, false, false, false, false)

  /** The deletion test of stateupdate_second_half's compaction. */
  predicate Freed(e: SchEntry)
  {
    e.free
  }

  /** A 64-bit line or tag stored into a 32-bit tag field keeps its low 32 bits. */
  function Tag32(x: nat): (t: nat)
    ensures t < TagRange && (x < TagRange ==> t == x)
  {
    x % TagRange
  }

  /** A source register that names a register being written by an instruction in flight. */
  predicate Waits(regs: seq<RegEntry>, reg: int)
    requires |regs| == RegCount && reg < RegCount
  {
    reg >= 0 && regs[reg].busy
  }

  /** The first source operand: wait on the register's tag if it is busy, else take the value. */
  function Source1(e: SchEntry, regs: seq<RegEntry>, reg: int): (r: SchEntry)
    requires |regs| == RegCount && reg < RegCount
    ensures (r.s1Busy <==> Waits(regs, reg)) && (r.s1Busy ==> r.s1Tag == Tag32(regs[reg].tag))
    ensures r.line == e.line && r.destReg == e.destReg && r.destTag == e.destTag
    ensures r.s2Tag == e.s2Tag && r.s2Busy == e.s2Busy
    ensures r.rdy == e.rdy && r.complete == e.complete && r.free == e.free && r.busy == e.busy
  {
    if Waits(regs, reg) then e.(s1Tag := Tag32(regs[reg].tag), s1Busy := true) else e.(s1Busy := false)
  }

  /** The second source operand, likewise. */
  function Source2(e: SchEntry, regs: seq<RegEntry>, reg: int): (r: SchEntry)
    requires |regs| == RegCount && reg < RegCount
    ensures (r.s2Busy <==> Waits(regs, reg)) && (r.s2Busy ==> r.s2Tag == Tag32(regs[reg].tag))
    ensures r.line == e.line && r.destReg == e.destReg && r.destTag == e.destTag
    ensures r.s1Tag == e.s1Tag && r.s1Busy == e.s1Busy
    ensures r.rdy == e.rdy && r.complete == e.complete && r.free == e.free && r.busy == e.busy
  {
    if Waits(regs, reg) then e.(s2Tag := Tag32(regs[reg].tag), s2Busy := true) else e.(s2Busy := false)
  }

  /** The destination, when there is one, tagged with the instruction's own line. */
  function Destination(e: SchEntry, d: DispEntry): (r: SchEntry)
    ensures d.dest >= 0 ==> r.destReg == d.dest && r.destTag == Tag32(d.line)
    ensures d.dest < 0 ==> r.destReg == e.destReg && r.destTag == e.destTag
    ensures r.line == e.line && r.s1Tag == e.s1Tag && r.s1Busy == e.s1Busy && r.s2Tag == e.s2Tag && r.s2Busy == e.s2Busy
    ensures r.rdy == e.rdy && r.complete == e.complete && r.free == e.free && r.busy == e.busy
  {
    if d.dest >= 0 then e.(destReg := d.dest, destTag := Tag32(d.line)) else e
  }

  /**
   * The scheduling-queue entry dispatch_second_half writes for d over the
   * slot's old contents.
   */
  function Issue(slot: SchEntry, d: DispEntry, regs: seq<RegEntry>): SchEntry
    requires |regs| == RegCount && ValidDisp(d)
  {
    Destination(Source2(Source1(slot.(line := d.line), regs, d.s1), regs, d.s2), d)
  }

  /**
   * What a dispatched entry records about its sources: each waits exactly
   * when its register is busy, and then on that register's tag.
   */
  lemma IssueWaits(slot: SchEntry, d: DispEntry, regs: seq<RegEntry>)
    requires |regs| == RegCount && ValidDisp(d)
    ensures var e := Issue(slot, d, regs);
            && (e.s1Busy <==> d.s1 >= 0 && regs[d.s1].busy)
            && (e.s2Busy <==> d.s2 >= 0 && regs[d.s2].busy)
            && (e.s1Busy ==> e.s1Tag == Tag32(regs[d.s1].tag))
            && (e.s2Busy ==> e.s2Tag == Tag32(regs[d.s2].tag))
  {
  }

  /** A dispatched entry carries its line, and its own line as the tag of its destination when it has one. */
  lemma IssueDest(slot: SchEntry, d: DispEntry, regs: seq<RegEntry>)
    requires |regs| == RegCount && ValidDisp(d)
    ensures var e := Issue(slot, d, regs);
            && e.line == d.line
            && (d.dest >= 0 ==> e.destReg == d.dest && e.destTag == Tag32(d.line))
            && (d.dest < 0 ==> e.destReg == slot.destReg && e.destTag == slot.destTag)
  {
  }

  /** Dispatch leaves the slot's state flags as they were. */
  lemma IssueKeepsFlags(slot: SchEntry, d: DispEntry, regs: seq<RegEntry>)
    requires |regs| == RegCount && ValidDisp(d)
    ensures var e := Issue(slot, d, regs);
            e.rdy == slot.rdy && e.complete == slot.complete && e.free == slot.free && e.busy == slot.busy
  {
  }

  /** The register file after d is dispatched: its destination, if any, is busy and tagged with d's line. */
  function Rename(regs: seq<RegEntry>, d: DispEntry): (r: seq<RegEntry>)
    requires |regs| == RegCount && ValidDisp(d)
    ensures |r| == RegCount
  {
    if d.dest >= 0 then regs[d.dest := RegEntry(d.line, true)] else regs
  }

  /** What dispatch_second_half's issuing loop leaves. */
  datatype Back = Back(q: seq<DispEntry>, regs: seq<RegEntry>, sched: seq<seq<SchEntry>>, tails: seq<nat>)

  /** Each queue's count covers a slot past its tail for every entry of s that goes ahead to it. */
  predicate ReservedFrom(s: seq<DispEntry>, tails: seq<nat>, used: seq<nat>)
    requires |tails| == FuTypes && |used| == FuTypes
  {
    forall f :: 0 <= f < FuTypes ==> tails[f] + |IssuedLines(s, f)| <= used[f]
  }

  /** Entry i's reservation is used up by moving its queue's tail past it, or was never made when it stalls. */
  lemma ReservedStep(q: seq<DispEntry>, i: nat, tails: seq<nat>, used: seq<nat>)
    requires i < |q| && q[i].fu < FuTypes && |tails| == FuTypes && |used| == FuTypes
    requires ReservedFrom(q[i..], tails, used)
    ensures ReservedFrom(q[i + 1..], if q[i].stall then tails else tails[q[i].fu := tails[q[i].fu] + 1], used)
  {
    forall f | 0 <= f < FuTypes
      ensures |IssuedLines(q[i..], f)| == (if !q[i].stall && q[i].fu == f then 1 else 0) + |IssuedLines(q[i + 1..], f)|
    {
      IssuedUnfold(q, i, f);
    }
  }

  /** Reserved slots are slots the queues have. */
  lemma ReservedRoom(s: seq<DispEntry>, tails: seq<nat>, used: seq<nat>, sched: seq<seq<SchEntry>>)
    requires |tails| == FuTypes && |used| == FuTypes && |sched| == FuTypes
    requires ReservedFrom(s, tails, used) && forall f :: 0 <= f < FuTypes ==> used[f] <= |sched[f]|
    ensures Room(s, sched, tails)
  {
  }

  /** Each queue has a slot at its tail for every entry of s that goes ahead to it. */
  predicate Room(s: seq<DispEntry>, sched: seq<seq<SchEntry>>, tails: seq<nat>)
    requires |sched| == FuTypes && |tails| == FuTypes
  {
    forall f :: 0 <= f < FuTypes ==> tails[f] + |IssuedLines(s, f)| <= |sched[f]|
  }

  predicate BackOk(q: seq<DispEntry>, i: nat, regs: seq<RegEntry>, sched: seq<seq<SchEntry>>, tails: seq<nat>)
  {
    i <= |q| && AllValid(q) && |regs| == RegCount && |sched| == FuTypes && |tails| == FuTypes
    && Room(q[i..], sched, tails)
  }

  /** Skipping a stalled entry needs no room. */
  lemma RoomSkip(q: seq<DispEntry>, i: nat, sched: seq<seq<SchEntry>>, tails: seq<nat>)
    requires i < |q| && q[i].stall && |sched| == FuTypes && |tails| == FuTypes && Room(q[i..], sched, tails)
    ensures Room(q[i + 1..], sched, tails)
  {
    forall f | 0 <= f < FuTypes
      ensures IssuedLines(q[i..], f) == IssuedLines(q[i + 1..], f)
    {
      IssuedUnfold(q, i, f);
    }
  }

  /** Issuing entry i uses the slot at its queue's tail, and leaves room for the rest. */
  lemma RoomTake(q: seq<DispEntry>, i: nat, q1: seq<DispEntry>, sched: seq<seq<SchEntry>>, tails: seq<nat>,
                 sched1: seq<seq<SchEntry>>)
    requires i < |q| && !q[i].stall && q[i].fu < FuTypes && |sched| == FuTypes && |tails| == FuTypes
    requires Room(q[i..], sched, tails)
    requires |q1| == |q| && q1[i + 1..] == q[i + 1..]
    requires |sched1| == FuTypes && forall f :: 0 <= f < FuTypes ==> |sched1[f]| == |sched[f]|
    ensures tails[q[i].fu] < |sched[q[i].fu]|
    ensures Room(q1[i + 1..], sched1, tails[q[i].fu := tails[q[i].fu] + 1])
  {
    forall f | 0 <= f < FuTypes
      ensures |IssuedLines(q[i..], f)| == (if f == q[i].fu then 1 else 0) + |IssuedLines(q[i + 1..], f)|
    {
      IssuedUnfold(q, i, f);
    }
  }

  /**
   * One iteration of dispatch_second_half's issuing loop: an entry that does
   * not stall is written at its queue's tail, renames its destination, is
   * marked done, and the tail moves on.
   */
  function IssueStep(q: seq<DispEntry>, i: nat, regs: seq<RegEntry>, sched: seq<seq<SchEntry>>, tails: seq<nat>): (b: Back)
    requires BackOk(q, i, regs, sched, tails) && i < |q|
    ensures |b.q| == |q| && |b.regs| == RegCount && |b.sched| == FuTypes && |b.tails| == FuTypes
    ensures forall f :: 0 <= f < FuTypes ==> |b.sched[f]| == |sched[f]|
  {
    if q[i].stall then
      RoomSkip(q, i, sched, tails);
      Back(q, regs, sched, tails)
    else
      var f := q[i].fu;
      var t := tails[f];
      var q1 := q[i := q[i].(dispDone := true)];
      assert q1[i + 1..] == q[i + 1..];
      RoomTake(q, i, q1, sched, tails, sched);
      var sched1 := sched[f := sched[f][t := Issue(sched[f][t], q[i], regs)]];
      RoomTake(q, i, q1, sched, tails, sched1);
      Back(q1, Rename(regs, q[i]), sched1, tails[f := t + 1])
  }

  /** The step over an entry that goes ahead, spelled out. */
  lemma TakeStepIs(q: seq<DispEntry>, i: nat, regs: seq<RegEntry>, sched: seq<seq<SchEntry>>, tails: seq<nat>)
    requires BackOk(q, i, regs, sched, tails) && i < |q| && !q[i].stall
    ensures var f := q[i].fu;
            var t := tails[f];
            t < |sched[f]| &&
            IssueStep(q, i, regs, sched, tails)
              == Back(q[i := q[i].(dispDone := true)], Rename(regs, q[i]), sched[f := sched[f][t := Issue(sched[f][t], q[i], regs)]], tails[f := t + 1])
  {
  }

  /** The step over a stalled entry, spelled out. */
  lemma StallStepIs(q: seq<DispEntry>, i: nat, regs: seq<RegEntry>, sched: seq<seq<SchEntry>>, tails: seq<nat>)
    requires BackOk(q, i, regs, sched, tails) && i < |q| && q[i].stall
    ensures IssueStep(q, i, regs, sched, tails) == Back(q, regs, sched, tails)
  {
  }

  /**
   * One step of the loop keeps room for the entries after i. Kept apart from
   * IssueStep's contract so that unfolding the loop does not drag it along.
   */
  lemma StepKeepsOk(q: seq<DispEntry>, i: nat, regs: seq<RegEntry>, sched: seq<seq<SchEntry>>, tails: seq<nat>)
    requires BackOk(q, i, regs, sched, tails) && i < |q|
    ensures var b := IssueStep(q, i, regs, sched, tails);
            BackOk(b.q, i + 1, b.regs, b.sched, b.tails)
  {
    var b := IssueStep(q, i, regs, sched, tails);
    if q[i].stall {
      RoomSkip(q, i, sched, tails);
    } else {
      assert b.q[i + 1..] == q[i + 1..];
      RoomTake(q, i, b.q, sched, tails, b.sched);
    }
  }

  /** The issuing loop of dispatch_second_half from entry i on. */
  function IssueFrom(q: seq<DispEntry>, i: nat, regs: seq<RegEntry>, sched: seq<seq<SchEntry>>, tails: seq<nat>): (d: Back)
    requires BackOk(q, i, regs, sched, tails)
    ensures |d.q| == |q| && |d.regs| == RegCount && |d.sched| == FuTypes && |d.tails| == FuTypes
    ensures forall f :: 0 <= f < FuTypes ==> |d.sched[f]| == |sched[f]|
    decreases |q| - i
  {
    if i == |q| then Back(q, regs, sched, tails)
    else
      var b := IssueStep(q, i, regs, sched, tails);
      StepKeepsOk(q, i, regs, sched, tails);
      IssueFrom(b.q, i + 1, b.regs, b.sched, b.tails)
  }

  /** Writing entry i leaves the entries after it alone. */
  lemma SuffixAfterUpdate<T>(s: seq<T>, i: nat, x: T)
    requires i < |s|
    ensures s[i := x][i + 1..] == s[i + 1..]
  {
  }

  /** The loop from entry i is one step followed by the loop from entry i + 1. */
  lemma IssueFromUnfold(q: seq<DispEntry>, i: nat, regs: seq<RegEntry>, sched: seq<seq<SchEntry>>, tails: seq<nat>)
    requires BackOk(q, i, regs, sched, tails) && i < |q|
    ensures var b := IssueStep(q, i, regs, sched, tails);
            && BackOk(b.q, i + 1, b.regs, b.sched, b.tails)
            && IssueFrom(q, i, regs, sched, tails) == IssueFrom(b.q, i + 1, b.regs, b.sched, b.tails)
  {
    StepKeepsOk(q, i, regs, sched, tails);
  }

  /**
   * The issuing loop has reached entry i in state b, on its way from the
   * state (q0, r0, v0, t0) at entry 0: what is left of it ends where the whole loop ends.
   */
  ghost predicate IssuedUpTo(q0: seq<DispEntry>, r0: seq<RegEntry>, v0: seq<seq<SchEntry>>, t0: seq<nat>, b: Back, i: nat)
  {
    && BackOk(q0, 0, r0, v0, t0) && BackOk(b.q, i, b.regs, b.sched, b.tails)
    && IssueFrom(b.q, i, b.regs, b.sched, b.tails) == IssueFrom(q0, 0, r0, v0, t0)
  }

  /** At the end of the queue the loop's state is its result. */
  lemma IssuedDone(q0: seq<DispEntry>, r0: seq<RegEntry>, v0: seq<seq<SchEntry>>, t0: seq<nat>, b: Back)
    requires IssuedUpTo(q0, r0, v0, t0, b, |b.q|)
    ensures b == IssueFrom(q0, 0, r0, v0, t0)
  {
  }

  /** One more step of the loop keeps it on its way. */
  lemma IssuedNext(q0: seq<DispEntry>, r0: seq<RegEntry>, v0: seq<seq<SchEntry>>, t0: seq<nat>, b: Back, i: nat, b1: Back)
    requires IssuedUpTo(q0, r0, v0, t0, b, i) && i < |b.q|
    requires b1 == IssueStep(b.q, i, b.regs, b.sched, b.tails)
    ensures IssuedUpTo(q0, r0, v0, t0, b1, i + 1)
  {
    IssueFromUnfold(b.q, i, b.regs, b.sched, b.tails);
  }

  /** The entry index of the last entry of s that goes ahead writing register r, or -1. */
  function LastWriter(s: seq<DispEntry>, r: int): (w: int)
    ensures -1 <= w < |s|
    ensures w >= 0 ==> !s[w].stall && s[w].dest == r
    ensures w >= 0 ==> forall k :: w < k < |s| ==> s[k].stall || s[k].dest != r
    ensures w < 0 ==> forall k :: 0 <= k < |s| ==> s[k].stall || s[k].dest != r
    decreases |s|
  {
    if |s| == 0 then -1
    else
      var w := LastWriter(s[1..], r);
      if w >= 0 then w + 1
      else if !s[0].stall && s[0].dest == r then 0
      else -1
  }

  /** Each entry is marked done exactly when it goes ahead; nothing else about the queue changes. */
  lemma {:induction false} IssueFromQueue(q: seq<DispEntry>, i: nat, regs: seq<RegEntry>, sched: seq<seq<SchEntry>>, tails: seq<nat>)
    requires BackOk(q, i, regs, sched, tails)
    ensures var d := IssueFrom(q, i, regs, sched, tails);
            forall k :: 0 <= k < |q| ==> d.q[k] == if k >= i && !q[k].stall then q[k].(dispDone := true) else q[k]
    decreases |q| - i
  {
    if i < |q| {
      var b := IssueStep(q, i, regs, sched, tails);
      IssueFromQueue(b.q, i + 1, b.regs, b.sched, b.tails);
      assert b.q == if q[i].stall then q else q[i := q[i].(dispDone := true)];
    }
  }

  /**
   * The register file after the issuing loop: a register written by an
   * entry that went ahead is busy and tagged with the last such entry's line;
   * every other register is as it was.
   */
  lemma {:induction false} IssueFromRegs(q: seq<DispEntry>, i: nat, regs: seq<RegEntry>, sched: seq<seq<SchEntry>>, tails: seq<nat>)
    requires BackOk(q, i, regs, sched, tails)
    ensures RegsFollow(q, i, regs, IssueFrom(q, i, regs, sched, tails).regs)
    decreases |q| - i
  {
    var d := IssueFrom(q, i, regs, sched, tails);
    if i == |q| {
      forall r | 0 <= r < RegCount
        ensures LastWriter(q[i..], r) == -1
      {
        assert q[i..] == [];
      }
    } else {
      var b := StepOn(q, i, regs, sched, tails);
      IssueFromRegs(b.q, i + 1, b.regs, b.sched, b.tails);
      RegsAfterStep(q, i, regs, b.q, b.regs, IssueFrom(b.q, i + 1, b.regs, b.sched, b.tails).regs);
    }
  }

  /**
   * Every register of final names the last entry of q[i..] that goes ahead
   * and writes it, and keeps its value from regs when there is none.
   */
  ghost predicate RegsFollow(q: seq<DispEntry>, i: nat, regs: seq<RegEntry>, final: seq<RegEntry>)
  {
    i <= |q| && |regs| == RegCount && |final| == RegCount &&
    forall r :: 0 <= r < RegCount ==>
      final[r] == if LastWriter(q[i..], r) >= 0 then RegEntry(q[i + LastWriter(q[i..], r)].line, true) else regs[r]
  }

  /** The register file after the rest of the loop, seen from one step earlier. */
  lemma RegsAfterStep(q: seq<DispEntry>, i: nat, regs: seq<RegEntry>, q2: seq<DispEntry>, regs2: seq<RegEntry>, final: seq<RegEntry>)
    requires i < |q| && ValidDisp(q[i]) && |regs| == RegCount && |final| == RegCount
    requires |q2| == |q| && q2[i + 1..] == q[i + 1..]
    requires regs2 == if q[i].stall then regs else Rename(regs, q[i])
    requires RegsFollow(q2, i + 1, regs2, final)
    ensures RegsFollow(q, i, regs, final)
  {
    forall r | 0 <= r < RegCount
      ensures final[r] == if LastWriter(q[i..], r) >= 0 then RegEntry(q[i + LastWriter(q[i..], r)].line, true) else regs[r]
    {
      RegAfterStep(q, i, regs, q2, regs2, final[r], r);
    }
  }

  /** Register r after the rest of the loop, seen from one step earlier. */
  lemma RegAfterStep(q: seq<DispEntry>, i: nat, regs: seq<RegEntry>, q2: seq<DispEntry>, regs2: seq<RegEntry>, x: RegEntry, r: int)
    requires i < |q| && ValidDisp(q[i]) && |regs| == RegCount && 0 <= r < RegCount
    requires |q2| == |q| && q2[i + 1..] == q[i + 1..]
    requires regs2 == if q[i].stall then regs else Rename(regs, q[i])
    requires x == if LastWriter(q2[i + 1..], r) >= 0 then RegEntry(q2[i + 1 + LastWriter(q2[i + 1..], r)].line, true) else regs2[r]
    ensures x == if LastWriter(q[i..], r) >= 0 then RegEntry(q[i + LastWriter(q[i..], r)].line, true) else regs[r]
  {
    LastWriterStep(q, i, r);
    var w := LastWriter(q[i + 1..], r);
    if w >= 0 {
      assert q2[i + 1 + w] == q2[i + 1..][w] == q[i + 1..][w] == q[i + 1 + w];
    }
  }

  /** The last writer in q[i..] is the one in q[i + 1..], if any, else entry i itself when it writes r. */
  lemma LastWriterStep(q: seq<DispEntry>, i: nat, r: int)
    requires i < |q|
    ensures var w := LastWriter(q[i + 1..], r);
            LastWriter(q[i..], r) == if w >= 0 then w + 1 else if !q[i].stall && q[i].dest == r then 0 else -1
  {
    assert q[i..][1..] == q[i + 1..];
  }

  /** One step renames the destination of an entry that goes ahead. */
  lemma StepRegs(q: seq<DispEntry>, i: nat, regs: seq<RegEntry>, sched: seq<seq<SchEntry>>, tails: seq<nat>)
    requires BackOk(q, i, regs, sched, tails) && i < |q|
    ensures IssueStep(q, i, regs, sched, tails).regs == if q[i].stall then regs else Rename(regs, q[i])
  {
  }

  /** One step leaves the later entries alone and moves only the tail of the issued entry's queue. */
  lemma StepTails(q: seq<DispEntry>, i: nat, regs: seq<RegEntry>, sched: seq<seq<SchEntry>>, tails: seq<nat>)
    requires BackOk(q, i, regs, sched, tails) && i < |q|
    ensures var b := IssueStep(q, i, regs, sched, tails);
            && b.q[i + 1..] == q[i + 1..]
            && forall g :: 0 <= g < FuTypes ==> b.tails[g] == tails[g] + (if !q[i].stall && q[i].fu == g then 1 else 0)
  {
  }

  /** One step writes only the slot at the tail of the issued entry's queue, and that slot holds its line. */
  lemma StepSlots(q: seq<DispEntry>, i: nat, regs: seq<RegEntry>, sched: seq<seq<SchEntry>>, tails: seq<nat>)
    requires BackOk(q, i, regs, sched, tails) && i < |q|
    ensures var b := IssueStep(q, i, regs, sched, tails);
            && (forall g, p :: 0 <= g < FuTypes && 0 <= p < |sched[g]| && !(!q[i].stall && q[i].fu == g && p == tails[g]) ==> b.sched[g][p] == sched[g][p])
            && (!q[i].stall ==> b.sched[q[i].fu][tails[q[i].fu]].line == q[i].line)
  {
    if !q[i].stall {
      var f := q[i].fu;
      IssueDest(sched[f][tails[f]], q[i], regs);
    }
  }

  /**
   * The scheduling queues after the issuing loop: each tail has moved past
   * one slot per entry that went ahead to that queue, and every slot outside
   * the ones passed is as it was.
   */
  lemma {:induction false} IssueFromTails(q: seq<DispEntry>, i: nat, regs: seq<RegEntry>, sched: seq<seq<SchEntry>>, tails: seq<nat>)
    requires BackOk(q, i, regs, sched, tails)
    ensures var d := IssueFrom(q, i, regs, sched, tails);
            forall f :: 0 <= f < FuTypes ==> d.tails[f] == tails[f] + |IssuedLines(q[i..], f)|
    ensures var d := IssueFrom(q, i, regs, sched, tails);
            forall f, p :: 0 <= f < FuTypes && 0 <= p < |sched[f]| && !(tails[f] <= p < d.tails[f]) ==> d.sched[f][p] == sched[f][p]
    decreases |q| - i
  {
    var d := IssueFrom(q, i, regs, sched, tails);
    if i == |q| {
      forall f | 0 <= f < FuTypes
        ensures IssuedLines(q[i..], f) == []
      {
        assert q[i..] == [];
      }
    } else {
      var b := IssueStep(q, i, regs, sched, tails);
      IssueFromTails(b.q, i + 1, b.regs, b.sched, b.tails);
      StepTails(q, i, regs, sched, tails);
      StepSlots(q, i, regs, sched, tails);
      forall g | 0 <= g < FuTypes
        ensures d.tails[g] == tails[g] + |IssuedLines(q[i..], g)|
      {
        IssuedUnfold(q, i, g);
      }
    }
  }

  /** The issuing loop never writes below a queue's tail. */
  lemma {:induction false} IssueFromKeepsBelow(q: seq<DispEntry>, i: nat, regs: seq<RegEntry>, sched: seq<seq<SchEntry>>, tails: seq<nat>, f: nat, p: nat)
    requires BackOk(q, i, regs, sched, tails) && f < FuTypes && p < tails[f] && p < |sched[f]|
    ensures IssueFrom(q, i, regs, sched, tails).sched[f][p] == sched[f][p]
    decreases |q| - i
  {
    if i < |q| {
      var b := IssueStep(q, i, regs, sched, tails);
      StepTails(q, i, regs, sched, tails);
      StepSlots(q, i, regs, sched, tails);
      IssueFromKeepsBelow(b.q, i + 1, b.regs, b.sched, b.tails, f, p);
    }
  }

  /** The entry issued in this step keeps its slot, below every later tail, to the end of the loop. */
  lemma IssueFromFirstLine(q: seq<DispEntry>, i: nat, regs: seq<RegEntry>, sched: seq<seq<SchEntry>>, tails: seq<nat>)
    requires BackOk(q, i, regs, sched, tails) && i < |q| && !q[i].stall
    ensures tails[q[i].fu] < |sched[q[i].fu]|
    ensures SlotHolds(IssueFrom(q, i, regs, sched, tails).sched[q[i].fu], tails[q[i].fu], q[i].line)
  {
    var g := q[i].fu;
    var b := IssueStep(q, i, regs, sched, tails);
    StepTails(q, i, regs, sched, tails);
    StepSlots(q, i, regs, sched, tails);
    IssueFromKeepsBelow(b.q, i + 1, b.regs, b.sched, b.tails, g, tails[g]);
  }

  /** Slot k of a scheduling queue exists and holds the instruction with line x. */
  ghost predicate SlotHolds(slots: seq<SchEntry>, k: int, x: nat)
  {
    0 <= k < |slots| && slots[k].line == x
  }

  /** Slot tails[g] + j of queue g exists and ends up holding the line of the j-th entry that goes ahead to g. */
  ghost predicate LineAt(q: seq<DispEntry>, i: nat, regs: seq<RegEntry>, sched: seq<seq<SchEntry>>, tails: seq<nat>, g: nat, j: nat)
    requires BackOk(q, i, regs, sched, tails) && g < FuTypes
  {
    j < |IssuedLines(q[i..], g)| && tails[g] + j < |sched[g]|
    && SlotHolds(IssueFrom(q, i, regs, sched, tails).sched[g], tails[g] + j, IssuedLines(q[i..], g)[j])
  }

  /** The j-th entry that goes ahead to g ends up in slot tails[g] + j of queue g. */
  lemma {:induction false} IssueFromLine(q: seq<DispEntry>, i: nat, regs: seq<RegEntry>, sched: seq<seq<SchEntry>>, tails: seq<nat>,
                                         g: nat, j: nat)
    requires BackOk(q, i, regs, sched, tails) && g < FuTypes && j < |IssuedLines(q[i..], g)|
    ensures LineAt(q, i, regs, sched, tails, g, j)
    decreases |q| - i, 1
  {
    if !q[i].stall && q[i].fu == g {
      if j == 0 {
        FirstLineAt(q, i, regs, sched, tails, g);
      } else {
        IssueFromLineTaken(q, i, regs, sched, tails, g, j);
      }
    } else {
      IssueFromLineSkipped(q, i, regs, sched, tails, g, j);
    }
  }

  /** The entry issued in this step is the first line of its queue's new slots. */
  lemma FirstLineAt(q: seq<DispEntry>, i: nat, regs: seq<RegEntry>, sched: seq<seq<SchEntry>>, tails: seq<nat>, g: nat)
    requires BackOk(q, i, regs, sched, tails) && i < |q| && !q[i].stall && q[i].fu == g
    ensures LineAt(q, i, regs, sched, tails, g, 0)
  {
    IssueFromFirstLine(q, i, regs, sched, tails);
    IssuedUnfold(q, i, g);
  }

  /** When entry i goes ahead to g, the later entries for g fill the slots after it. */
  lemma {:induction false} IssueFromLineTaken(q: seq<DispEntry>, i: nat, regs: seq<RegEntry>, sched: seq<seq<SchEntry>>, tails: seq<nat>,
                                              g: nat, j: nat)
    requires BackOk(q, i, regs, sched, tails) && i < |q| && !q[i].stall && q[i].fu == g && 0 < j
    requires j < |IssuedLines(q[i..], g)|
    ensures LineAt(q, i, regs, sched, tails, g, j)
    decreases |q| - i, 0
  {
    var b := StepSlot(q, i, regs, sched, tails, g);
    IssuedUnfold(q, i, g);
    IssueFromLine(b.q, i + 1, b.regs, b.sched, b.tails, g, j - 1);
    TakenCarry(q, i, regs, sched, tails, g, j, b);
  }

  /** What slot tails[g] + 1 + (j - 1) holds after the step that issues entry i to g is line j of the lines issued from i. */
  lemma TakenCarry(q: seq<DispEntry>, i: nat, regs: seq<RegEntry>, sched: seq<seq<SchEntry>>, tails: seq<nat>, g: nat, j: nat, b: Back)
    requires BackOk(q, i, regs, sched, tails) && i < |q| && !q[i].stall && q[i].fu == g && 0 < j
    requires j < |IssuedLines(q[i..], g)|
    requires BackOk(b.q, i + 1, b.regs, b.sched, b.tails)
    requires IssueFrom(q, i, regs, sched, tails) == IssueFrom(b.q, i + 1, b.regs, b.sched, b.tails)
    requires IssuedLines(b.q[i + 1..], g) == IssuedLines(q[i + 1..], g)
    requires b.tails[g] == tails[g] + 1
    requires LineAt(b.q, i + 1, b.regs, b.sched, b.tails, g, j - 1)
    ensures LineAt(q, i, regs, sched, tails, g, j)
  {
    IssuedUnfold(q, i, g);
    var rest := IssuedLines(q[i + 1..], g);
    assert IssuedLines(q[i..], g) == [q[i].line] + rest;
    SameSlot(IssueFrom(q, i, regs, sched, tails), IssueFrom(b.q, i + 1, b.regs, b.sched, b.tails), g,
             tails[g] + 1 + (j - 1), b.tails[g] + (j - 1), rest[j - 1], IssuedLines(b.q[i + 1..], g)[j - 1]);
    ShiftedSlot(IssuedLines(q[i..], g), q[i].line, rest, tails[g], IssueFrom(q, i, regs, sched, tails).sched[g], j);
    LineRoom(q, i, regs, sched, tails, g, j);
  }

  /** The state after one step of the loop, with what the proofs about slots need to know of it. */
  lemma StepOn(q: seq<DispEntry>, i: nat, regs: seq<RegEntry>, sched: seq<seq<SchEntry>>, tails: seq<nat>) returns (b: Back)
    requires BackOk(q, i, regs, sched, tails) && i < |q|
    ensures BackOk(b.q, i + 1, b.regs, b.sched, b.tails) && |b.q| == |q|
    ensures IssueFrom(q, i, regs, sched, tails) == IssueFrom(b.q, i + 1, b.regs, b.sched, b.tails)
    ensures b.q[i + 1..] == q[i + 1..]
    ensures forall g :: 0 <= g < FuTypes ==> b.tails[g] == tails[g] + (if !q[i].stall && q[i].fu == g then 1 else 0)
    ensures b.regs == if q[i].stall then regs else Rename(regs, q[i])
  {
    b := IssueStep(q, i, regs, sched, tails);
    IssueFromUnfold(q, i, regs, sched, tails);
    StepTails(q, i, regs, sched, tails);
    StepRegs(q, i, regs, sched, tails);
  }

  /** The state after one step of the loop, as the proofs about the slots of queue g see it. */
  lemma StepSlot(q: seq<DispEntry>, i: nat, regs: seq<RegEntry>, sched: seq<seq<SchEntry>>, tails: seq<nat>, g: nat) returns (b: Back)
    requires BackOk(q, i, regs, sched, tails) && i < |q| && g < FuTypes
    ensures BackOk(b.q, i + 1, b.regs, b.sched, b.tails) && |b.q| == |q|
    ensures IssueFrom(q, i, regs, sched, tails) == IssueFrom(b.q, i + 1, b.regs, b.sched, b.tails)
    ensures IssuedLines(b.q[i + 1..], g) == IssuedLines(q[i + 1..], g)
    ensures b.tails[g] == tails[g] + (if !q[i].stall && q[i].fu == g then 1 else 0)
  {
    b := StepOn(q, i, regs, sched, tails);
  }

  /** Slot t + 1 + (j - 1) holding element j - 1 of rest is slot t + j holding element j of [x] + rest. */
  lemma ShiftedSlot(lines: seq<nat>, x: nat, rest: seq<nat>, t: nat, slots: seq<SchEntry>, j: nat)
    requires lines == [x] + rest && 0 < j < |lines|
    requires SlotHolds(slots, t + 1 + (j - 1), rest[j - 1])
    ensures SlotHolds(slots, t + j, lines[j])
  {
  }

  /** An entry that does not go ahead to g leaves g's tail, so the slots of g are filled by the later entries. */
  lemma {:induction false} IssueFromLineSkipped(q: seq<DispEntry>, i: nat, regs: seq<RegEntry>, sched: seq<seq<SchEntry>>, tails: seq<nat>,
                                                g: nat, j: nat)
    requires BackOk(q, i, regs, sched, tails) && i < |q| && g < FuTypes && (q[i].stall || q[i].fu != g)
    requires j < |IssuedLines(q[i..], g)|
    ensures LineAt(q, i, regs, sched, tails, g, j)
    decreases |q| - i, 0
  {
    var b := SkipStep(q, i, regs, sched, tails, g);
    IssueFromLine(b.q, i + 1, b.regs, b.sched, b.tails, g, j);
    SkipCarry(q, i, regs, sched, tails, g, j, b);
  }

  /** What the slots of g hold after the step over a skipped entry, they held before it. */
  lemma SkipCarry(q: seq<DispEntry>, i: nat, regs: seq<RegEntry>, sched: seq<seq<SchEntry>>, tails: seq<nat>, g: nat, j: nat, b: Back)
    requires BackOk(q, i, regs, sched, tails) && g < FuTypes && j < |IssuedLines(q[i..], g)|
    requires BackOk(b.q, i + 1, b.regs, b.sched, b.tails)
    requires IssueFrom(q, i, regs, sched, tails) == IssueFrom(b.q, i + 1, b.regs, b.sched, b.tails)
    requires IssuedLines(b.q[i + 1..], g) == IssuedLines(q[i..], g)
    requires b.tails[g] == tails[g]
    requires LineAt(b.q, i + 1, b.regs, b.sched, b.tails, g, j)
    ensures LineAt(q, i, regs, sched, tails, g, j)
  {
    SameSlot(IssueFrom(q, i, regs, sched, tails), IssueFrom(b.q, i + 1, b.regs, b.sched, b.tails), g,
             tails[g] + j, b.tails[g] + j, IssuedLines(q[i..], g)[j], IssuedLines(b.q[i + 1..], g)[j]);
    LineRoom(q, i, regs, sched, tails, g, j);
  }

  /** The j-th line issued to g has a slot of its own in queue g. */
  lemma LineRoom(q: seq<DispEntry>, i: nat, regs: seq<RegEntry>, sched: seq<seq<SchEntry>>, tails: seq<nat>, g: nat, j: nat)
    requires BackOk(q, i, regs, sched, tails) && g < FuTypes && j < |IssuedLines(q[i..], g)|
    ensures tails[g] + j < |sched[g]|
  {
  }

  /** One step of the loop over an entry that does not go ahead to g, as the proofs about g's slots see it. */
  lemma SkipStep(q: seq<DispEntry>, i: nat, regs: seq<RegEntry>, sched: seq<seq<SchEntry>>, tails: seq<nat>, g: nat) returns (b: Back)
    requires BackOk(q, i, regs, sched, tails) && i < |q| && g < FuTypes && (q[i].stall || q[i].fu != g)
    ensures BackOk(b.q, i + 1, b.regs, b.sched, b.tails) && |b.q| == |q|
    ensures IssueFrom(q, i, regs, sched, tails) == IssueFrom(b.q, i + 1, b.regs, b.sched, b.tails)
    ensures IssuedLines(b.q[i + 1..], g) == IssuedLines(q[i..], g)
    ensures b.tails[g] == tails[g]
  {
    b := StepSlot(q, i, regs, sched, tails, g);
    IssuedSkip(q, i, g);
  }

  /** A slot of one loop state holds the same line in an equal state. */
  lemma SameSlot(d: Back, e: Back, g: nat, k: int, k2: int, x: nat, x2: nat)
    requires d == e && g < |e.sched| && k == k2 && x == x2 && SlotHolds(e.sched[g], k2, x2)
    ensures SlotHolds(d.sched[g], k, x)
  {
  }

  /** When the counts reserve exactly the entries that go ahead, the issuing loop moves every tail up to its count. */
  lemma IssueFillsReservations(q: seq<DispEntry>, regs: seq<RegEntry>, sched: seq<seq<SchEntry>>, tails: seq<nat>, used: seq<nat>)
    requires BackOk(q, 0, regs, sched, tails) && |used| == FuTypes
    requires forall f :: 0 <= f < FuTypes ==> used[f] == tails[f] + |IssuedLines(q, f)|
    ensures IssueFrom(q, 0, regs, sched, tails).tails == used
  {
    IssueFromTails(q, 0, regs, sched, tails);
    assert q[0..] == q;
  }

  /** The slots the tails passed hold the lines of the entries that went ahead, in queue order. */
  lemma IssueFromLines(q: seq<DispEntry>, i: nat, regs: seq<RegEntry>, sched: seq<seq<SchEntry>>, tails: seq<nat>)
    requires BackOk(q, i, regs, sched, tails)
    ensures var d := IssueFrom(q, i, regs, sched, tails);
            forall f, j :: 0 <= f < FuTypes && 0 <= j < |IssuedLines(q[i..], f)| ==> d.sched[f][tails[f] + j].line == IssuedLines(q[i..], f)[j]
  {
    forall f, j | 0 <= f < FuTypes && 0 <= j < |IssuedLines(q[i..], f)|
      ensures IssueFrom(q, i, regs, sched, tails).sched[f][tails[f] + j].line == IssuedLines(q[i..], f)[j]
    {
      IssueFromLine(q, i, regs, sched, tails, f, j);
    }
  }

  /** Dropping the entries marked done keeps exactly the entries that neither went ahead nor were done before. */
  predicate Gone(e: DispEntry)
  {
    e.dispDone || !e.stall
  }

  lemma {:induction false} FilterMarked(q: seq<DispEntry>, d: seq<DispEntry>)
    requires |d| == |q|
    requires forall k :: 0 <= k < |q| ==> d[k] == if !q[k].stall then q[k].(dispDone := true) else q[k]
    ensures Filter(d, Done) == Filter(q, Gone)
    decreases |q|
  {
    if |q| > 0 {
      FilterMarked(q[1..], d[1..]);
    }
  }

  /**
   * dispatch_second_half as a whole: the queue keeps, in order, exactly the
   * stalled entries that were not already done; registers and scheduling
   * queues change as IssueFromRegs and IssueFromSlots say.
   */
  lemma DispatchSecondQueue(q: seq<DispEntry>, regs: seq<RegEntry>, sched: seq<seq<SchEntry>>, tails: seq<nat>)
    requires BackOk(q, 0, regs, sched, tails)
    ensures Filter(IssueFrom(q, 0, regs, sched, tails).q, Done) == Filter(q, Gone)
  {
    IssueFromQueue(q, 0, regs, sched, tails);
    FilterMarked(q, IssueFrom(q, 0, regs, sched, tails).q);
  }

  // ------------------------------------------------ schedule, second half

  /** An entry not yet fired whose sources are both available. */
  predicate Fireable(e: SchEntry)
  {
    !e.busy && !e.s1Busy && !e.s2Busy
  }

  /** What schedule_second_half leaves for one queue: the entries, the unit's count and the entries it picked. */
  datatype Ready = Ready(s: seq<SchEntry>, used: nat, picks: seq<nat>)

  /** Entries j.. of one queue: each fireable entry is marked ready while the unit has a free slot. */
  function ReadyFrom(s: seq<SchEntry>, j: nat, used: nat, size: nat, picks: seq<nat>): (d: Ready)
    requires j <= |s|
    ensures |d.s| == |s|
    decreases |s| - j
  {
    if j == |s| then Ready(s, used, picks)
    else if Fireable(s[j]) && used < size then
      ReadyFrom(s[j := s[j].(rdy := true)], j + 1, used + 1, size, picks + [j])
    else
      ReadyFrom(s, j + 1, used, size, picks)
  }

  /**
   * The picks of one pass: each picked entry was fireable, picks come in
   * queue order, the unit's count grows by one per pick and, if it was within
   * the unit's size, stays within it.
   */
  lemma {:induction false} ReadyFromPicks(s: seq<SchEntry>, j: nat, used: nat, size: nat, picks: seq<nat>)
    requires j <= |s| && forall n :: 0 <= n < |picks| ==> picks[n] < j
    ensures var d := ReadyFrom(s, j, used, size, picks);
            && |picks| <= |d.picks| && d.picks[..|picks|] == picks
            && d.used == used + |d.picks| - |picks|
            && (used <= size ==> d.used <= size)
            && (forall n :: |picks| <= n < |d.picks| ==> j <= d.picks[n] < |s| && Fireable(s[d.picks[n]]))
            && (forall n :: |picks| <= n < |d.picks| - 1 ==> d.picks[n] < d.picks[n + 1])
    decreases |s| - j
  {
    if j < |s| {
      if Fireable(s[j]) && used < size {
        ReadyFromPicks(s[j := s[j].(rdy := true)], j + 1, used + 1, size, picks + [j]);
        var d := ReadyFrom(s, j, used, size, picks);
        assert d.picks[..|picks| + 1][..|picks|] == d.picks[..|picks|];
      } else {
        ReadyFromPicks(s, j + 1, used, size, picks);
      }
    }
  }

  /** The pass marks ready exactly the entries it picks, and changes nothing else. */
  lemma {:induction false} ReadyFromMarks(s: seq<SchEntry>, j: nat, used: nat, size: nat, picks: seq<nat>)
    requires j <= |s| && forall n :: 0 <= n < |picks| ==> picks[n] < j
    ensures var d := ReadyFrom(s, j, used, size, picks);
            forall k :: 0 <= k < |s| ==> d.s[k] == if k >= j && k in d.picks then s[k].(rdy := true) else s[k]
    decreases |s| - j
  {
    var d := ReadyFrom(s, j, used, size, picks);
    if j < |s| {
      if Fireable(s[j]) && used < size {
        var s1 := s[j := s[j].(rdy := true)];
        assert d == ReadyFrom(s1, j + 1, used + 1, size, picks + [j]);
        ReadyFromMarks(s1, j + 1, used + 1, size, picks + [j]);
        ReadyFromPicks(s1, j + 1, used + 1, size, picks + [j]);
        assert d.picks[|picks|] == (picks + [j])[|picks|];
      } else {
        assert d == ReadyFrom(s, j + 1, used, size, picks);
        ReadyFromMarks(s, j + 1, used, size, picks);
        ReadyFromPicks(s, j + 1, used, size, picks);
        forall n | 0 <= n < |d.picks|
          ensures d.picks[n] != j
        {
          if n < |picks| {
            assert d.picks[n] == d.picks[..|picks|][n];
          }
        }
      }
    }
  }

  /** The pass is greedy: a fireable entry it leaves unpicked found its unit already full. */
  lemma {:induction false} ReadyFromGreedy(s: seq<SchEntry>, j: nat, used: nat, size: nat, picks: seq<nat>)
    requires j <= |s| && used <= size && forall n :: 0 <= n < |picks| ==> picks[n] < j
    ensures var d := ReadyFrom(s, j, used, size, picks);
            forall k :: j <= k < |s| && Fireable(s[k]) && k !in d.picks ==> d.used == size
    decreases |s| - j
  {
    var d := ReadyFrom(s, j, used, size, picks);
    if j < |s| {
      if Fireable(s[j]) && used < size {
        var s1 := s[j := s[j].(rdy := true)];
        ReadyFromGreedy(s1, j + 1, used + 1, size, picks + [j]);
        ReadyFromPicks(s1, j + 1, used + 1, size, picks + [j]);
        forall k | j <= k < |s| && Fireable(s[k]) && k !in d.picks
          ensures d.used == size
        {
          assert k != j by {
            assert d.picks[|picks|] == (picks + [j])[|picks|];
          }
          assert s1[k] == s[k];
        }
      } else {
        ReadyFromGreedy(s, j + 1, used, size, picks);
        if Fireable(s[j]) {
          ReadyFromFull(s, j + 1, used, size, picks);
        }
      }
    }
  }

  /** A full unit stays full and picks nothing more. */
  lemma {:induction false} ReadyFromFull(s: seq<SchEntry>, j: nat, used: nat, size: nat, picks: seq<nat>)
    requires j <= |s| && used == size
    ensures ReadyFrom(s, j, used, size, picks) == Ready(s, used, picks)
    decreases |s| - j
  {
    if j < |s| {
      ReadyFromFull(s, j + 1, used, size, picks);
    }
  }

  /**
   * One scheduling queue after schedule_second_half: its used entries are
   * passed over by ReadyFrom, the unused slots are left alone, and the unit's
   * count is the pass's.
   */
  function Scheduled(s: seq<SchEntry>, used: nat, fuUsed: nat, fuSize: nat): (r: (seq<SchEntry>, nat))
    requires used <= |s|
    ensures |r.0| == |s| && r.0[used..] == s[used..]
  {
    var d := ReadyFrom(s[..used], 0, fuUsed, fuSize, []);
    (d.s + s[used..], d.used)
  }

  // ----------------------------------------- state update, second half

  /**
   * One scheduling queue after stateupdate_second_half's compaction: the
   * used entries that are not freed close up in order, the slots they leave
   * are blank, and the unused slots are left alone.
   */
  function Compacted(s: seq<SchEntry>, used: nat): (r: seq<SchEntry>)
    requires used <= |s|
    ensures |r| == |s|
  {
    FilterLength(s[..used], Freed);
    Filter(s[..used], Freed) + seq(Count(s[..used], Freed), _ => BlankSch) + s[used..]
  }
}
