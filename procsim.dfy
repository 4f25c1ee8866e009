/**
 * The out-of-order pipeline simulator's state as the source keeps it: the
 * reorder buffer, the dispatch queue, the register file and the three
 * scheduling queues, all arrays updated in place, with their counters. Each
 * stage half is a method proved to leave the state the pass functions of
 * Pipeline and Rob describe, so the lemmas there are about these methods.
 */
module Procsim {
  import opened Queues
  import opened Pipeline
  import opened Rob

  /** The ROB entries add_to_rob writes for the given lines, in order. */
  function RobEntries(lines: seq<nat>): (s: seq<RobEntry>)
    ensures |s| == |lines|
    ensures forall k :: 0 <= k < |lines| ==> s[k] == RobEntry(lines[k], 0, false)
  {
    seq(|lines|, k requires 0 <= k < |lines| => RobEntry(lines[k], 0, false))
  }

  /** A slice of the trace that reaches one entry further ends with that entry. */
  lemma SliceGrows<T>(s: seq<T>, lo: nat, hi: nat)
    requires lo <= hi < |s|
    ensures s[lo..hi + 1] == s[lo..hi] + [s[hi]]
  {
  }

  /** The shift compaction of one scheduling queue's first n entries, deleting the freed ones. */
  method CompactSched(a: array<SchEntry>, n: nat) returns (m: nat)
    requires n <= a.Length
    modifies a
    ensures a[..] == Compacted(old(a[..]), n)
    ensures m + Count(old(a[..n]), Freed) == n
  {
    ghost var s := a[..];
    m := Compact(a, n, Freed, BlankSch);
    assert s[..n] == old(a[..n]);
    assert a[m..n] == seq(n - m, _ => BlankSch);
    assert a[..] == a[..m] + a[m..n] + a[n..];
  }

  /**
   * The compaction of every scheduling queue has reached queue f: the queues
   * before f are compacted, with their counts and tails lowered by the freed
   * entries, and the others are as they were.
   */
  ghost predicate CompactedUpTo(v0: seq<seq<SchEntry>>, u0: seq<nat>, t0: seq<nat>,
                                v: seq<seq<SchEntry>>, u: seq<nat>, t: seq<nat>, f: nat)
  {
    && |v0| == |u0| == |t0| == |v| == |u| == |t| == FuTypes && f <= FuTypes
    && (forall g :: 0 <= g < FuTypes ==> u0[g] <= |v0[g]|)
    && (forall g :: 0 <= g < f ==>
          var c := Count(v0[g][..u0[g]], Freed);
          && v[g] == Compacted(v0[g], u0[g]) && u[g] == u0[g] - c && t[g] == t0[g] - c)
    && (forall g :: f <= g < FuTypes ==> v[g] == v0[g] && u[g] == u0[g] && t[g] == t0[g])
  }

  /** Compacting queue f moves the compaction on to f + 1. */
  lemma CompactedNext(v0: seq<seq<SchEntry>>, u0: seq<nat>, t0: seq<nat>,
                      v: seq<seq<SchEntry>>, u: seq<nat>, t: seq<nat>, f: nat,
                      v1: seq<seq<SchEntry>>, u1: seq<nat>, t1: seq<nat>)
    requires CompactedUpTo(v0, u0, t0, v, u, t, f) && f < FuTypes && Count(v[f][..u[f]], Freed) <= t[f]
    requires var c := Count(v[f][..u[f]], Freed);
             && v1 == v[f := Compacted(v[f], u[f])] && u1 == u[f := u[f] - c] && t1 == t[f := t[f] - c]
    ensures CompactedUpTo(v0, u0, t0, v1, u1, t1, f + 1)
  {
  }

  /**
   * The pass of schedule_second_half over one scheduling queue's first n
   * entries: each entry that is not busy and has both sources available is
   * marked ready to fire while the unit count is below size, taking a unit.
   */
  method ReadyQueue(a: array<SchEntry>, n: nat, units0: nat, size: nat) returns (units: nat)
    requires n <= a.Length
    modifies a
    ensures var r := Scheduled(old(a[..]), n, units0, size);
            a[..] == r.0 && units == r.1
  {
    units := units0;
    ghost var final := ReadyFrom(a[..n], 0, units, size, []);
    ghost var picks: seq<nat> := [];
    var j := 0;
    while j < n
      invariant j <= n
      invariant ReadyFrom(a[..n], j, units, size, picks) == final
      invariant a[n..] == old(a[n..])
    {
      var e := a[j];
      ghost var pre := a[..n];
      if !e.busy && !e.s1Busy && !e.s2Busy && units < size {
        a[j] := e.(rdy := true);
        assert a[..n] == pre[j := pre[j].(rdy := true)];
        units := units + 1;
        picks := picks + [j];
      } else {
        assert ReadyFrom(pre, j, units, size, picks) == ReadyFrom(pre, j + 1, units, size, picks);
      }
      j := j + 1;
    }
    assert a[..] == a[..n] + a[n..];
  }

  class Processor {
    /** R, the ROB and dispatch-queue size, and F, the fetch and retire width. */
    const robSize: nat
    const width: nat
    /** K0, K1, K2: the units of each type; the scheduling queues hold M entries per unit. */
    const fuSize: seq<nat>
    const schedSize: seq<nat>
    /** The instructions read_instruction hands out, in order. */
    const trace: seq<Inst>

    const rob: ReorderBuffer
    const dispq: array<DispEntry>
    const regs: array<RegEntry>
    const s0: array<SchEntry>
    const s1: array<SchEntry>
    const s2: array<SchEntry>

    var dispUsed: nat
    var schedUsed: seq<nat>
    var schedTail: seq<nat>
    var fuUsed: seq<nat>
    /** gline: the number of instructions read so far, and the line of the last one. */
    var gline: nat
    var eof: bool
    var retired: nat

    /** sched_q[f].sched_ent. */
    function Sched(f: nat): array<SchEntry>
      requires f < FuTypes
    {
      if f == 0 then s0 else if f == 1 then s1 else s2
    }

    ghost function SchedView(): (v: seq<seq<SchEntry>>)
      reads s0, s1, s2
      ensures |v| == FuTypes
    {
      [s0[..], s1[..], s2[..]]
    }

    /** The dispatch queue's entries in use. */
    ghost function Queue(): seq<DispEntry>
      reads this, dispq
      requires dispUsed <= dispq.Length
    {
      dispq[..dispUsed]
    }

    /** The state dispatch_second_half's issuing loop works on. */
    ghost function BackView(): Back
      reads this, dispq, regs, s0, s1, s2
      requires dispUsed <= dispq.Length
    {
      Back(dispq[..dispUsed], regs[..], SchedView(), schedTail)
    }

    /** Each scheduling queue has a reserved slot past its tail for every entry from i on that goes ahead to it. */
    ghost predicate Reserved(i: nat)
      reads this, dispq
      requires dispUsed <= dispq.Length && i <= dispUsed && |schedTail| == FuTypes && |schedUsed| == FuTypes
    {
      ReservedFrom(dispq[..dispUsed][i..], schedTail, schedUsed)
    }

    /**
     * Each scheduling queue's count is its tail plus one slot for every
     * dispatch-queue entry that goes ahead to it: the state between the two
     * halves of dispatch.
     */
    ghost predicate ReservedExactly()
      reads this, dispq
      requires dispUsed <= dispq.Length && |schedTail| == FuTypes && |schedUsed| == FuTypes
    {
      forall f :: 0 <= f < FuTypes ==> schedUsed[f] == schedTail[f] + |IssuedLines(Queue(), f)|
    }

    /** The counters the dispatch stages leave alone. */
    ghost function Counters(): (seq<nat>, seq<nat>, nat, bool, nat)
      reads this
    {
      (schedUsed, fuUsed, gline, eof, retired)
    }

    /** The counters fetch leaves alone. */
    ghost function FetchRest(): (seq<nat>, seq<nat>, seq<nat>, nat)
      reads this
    {
      (schedUsed, schedTail, fuUsed, retired)
    }

    /** The counters dispatch_first_half leaves alone. */
    ghost function FrontRest(): (seq<nat>, seq<nat>, nat, bool, nat)
      reads this
    {
      (schedTail, fuUsed, gline, eof, retired)
    }

    /** The counters schedule_second_half leaves alone. */
    ghost function ScheduleRest(): (nat, seq<nat>, seq<nat>, nat, bool, nat)
      reads this
    {
      (dispUsed, schedUsed, schedTail, gline, eof, retired)
    }

    /** The counters stateupdate_second_half leaves alone. */
    ghost function UpdateRest(): (nat, seq<nat>, nat, bool)
      reads this
    {
      (dispUsed, fuUsed, gline, eof)
    }

    ghost predicate Valid()
      reads this, rob, rob.slots, dispq
    {
      && rob.Valid() && rob.size == robSize && 0 < robSize
      && dispq.Length == robSize && dispUsed <= robSize
      && (forall k :: dispUsed <= k < robSize ==> dispq[k] == BlankDisp)
      && AllValid(dispq[..dispUsed])
      && regs.Length == RegCount
      && s0 != s1 && s1 != s2 && s0 != s2
      && |fuSize| == FuTypes && |fuUsed| == FuTypes
      && |schedSize| == FuTypes && |schedUsed| == FuTypes && |schedTail| == FuTypes
      && s0.Length == schedSize[0] && s1.Length == schedSize[1] && s2.Length == schedSize[2]
      && (forall f :: 0 <= f < FuTypes ==> schedTail[f] <= schedUsed[f] <= schedSize[f])
      && gline <= |trace| && (forall k :: 0 <= k < |trace| ==> ValidInst(trace[k]))
    }

    /**
     * setup_proc: a ROB and a dispatch queue of r entries, K*M entries for
     * each scheduling queue, every counter at zero and every entry blank.
     */
    constructor(r: nat, k0: nat, k1: nat, k2: nat, f: nat, m: nat, insts: seq<Inst>)
      requires r > 0 && forall k :: 0 <= k < |insts| ==> ValidInst(insts[k])
      ensures Valid()
      ensures robSize == r && width == f && fuSize == [k0, k1, k2] && schedSize == [k0 * m, k1 * m, k2 * m]
      ensures trace == insts && gline == 0 && !eof && retired == 0
      ensures rob.Contents() == [] && Queue() == []
      ensures schedUsed == [0, 0, 0] && schedTail == [0, 0, 0] && fuUsed == [0, 0, 0]
      ensures regs[..] == seq(RegCount, _ => BlankReg)
      ensures SchedView() == [seq(k0 * m, _ => BlankSch), seq(k1 * m, _ => BlankSch), seq(k2 * m, _ => BlankSch)]
    {
      robSize, width, trace := r, f, insts;
      fuSize := [k0, k1, k2];
      schedSize := [k0 * m, k1 * m, k2 * m];
      rob := new ReorderBuffer(r);
      dispq := new DispEntry[r](_ => BlankDisp);
      regs := new RegEntry[RegCount](_ => BlankReg);
      s0 := new SchEntry[k0 * m](_ => BlankSch);
      s1 := new SchEntry[k1 * m](_ => BlankSch);
      s2 := new SchEntry[k2 * m](_ => BlankSch);
      dispUsed, gline, eof, retired := 0, 0, false, 0;
      schedUsed, schedTail, fuUsed := [0, 0, 0], [0, 0, 0], [0, 0, 0];
      new;
      assert s0[..] == seq(k0 * m, _ => BlankSch);
      assert s1[..] == seq(k1 * m, _ => BlankSch);
      assert s2[..] == seq(k2 * m, _ => BlankSch);
    }

    /** One successful read_instruction: its fields are written over the blank slot at num_used, with the next line. */
    method Append(instr: Inst)
      requires Valid() && dispUsed < robSize && gline < |trace| && instr == trace[gline]
      modifies this, dispq
      ensures Valid() && gline == old(gline) + 1 && dispUsed == old(dispUsed) + 1
      ensures Queue() == old(Queue()) + [DispEntry(gline, FuOf(instr.opCode), instr.dest, instr.src1, instr.src2, false, false, false)]
      ensures eof == old(eof) && FetchRest() == old(FetchRest())
    {
      var e := dispq[dispUsed];
      dispq[dispUsed] := e.(s1 := instr.src1, s2 := instr.src2, dest := instr.dest, fu := FuOf(instr.opCode), line := gline + 1);
      assert dispq[..dispUsed + 1] == old(dispq[..dispUsed]) + [dispq[dispUsed]];
      gline := gline + 1;
      dispUsed := dispUsed + 1;
    }

    /**
     * fetch: read up to F instructions while the dispatch queue has room,
     * appending each with the next line number; a failed read sets bEOF.
     */
    method Fetch()
      requires Valid()
      modifies this, dispq
      ensures Valid()
      ensures var k := FetchCount(|trace| - old(gline), width, robSize - old(dispUsed));
              && gline == old(gline) + k && dispUsed == old(dispUsed) + k
              && Queue() == old(Queue()) + Decoded(trace[old(gline)..gline], old(gline))
      ensures eof == (old(eof) || FetchHitsEnd(|trace| - old(gline), width, robSize - old(dispUsed)))
      ensures schedUsed == old(schedUsed) && schedTail == old(schedTail) && fuUsed == old(fuUsed) && retired == old(retired)
    {
      ghost var start := Queue();
      ghost var g0 := gline;
      var fetchWidth := width;
      while fetchWidth > 0 && dispUsed < robSize
        invariant Valid() && eof == old(eof)
        invariant g0 <= gline && (gline - g0) + fetchWidth == width && dispUsed == old(dispUsed) + (gline - g0)
        invariant Queue() == start + Decoded(trace[g0..gline], g0)
        invariant FetchRest() == old(FetchRest())
      {
        if gline < |trace| {
          FetchOne(g0, start);
          fetchWidth := fetchWidth - 1;
        } else {
          eof := true;
          break;
        }
      }
    }

    /** One pass of fetch's loop that reads an instruction: the queue grows by its decoded entry. */
    method FetchOne(ghost g0: nat, ghost start: seq<DispEntry>)
      requires Valid() && dispUsed < robSize && g0 <= gline < |trace|
      requires Queue() == start + Decoded(trace[g0..gline], g0)
      modifies this, dispq
      ensures Valid() && gline == old(gline) + 1 && dispUsed == old(dispUsed) + 1
      ensures Queue() == start + Decoded(trace[g0..gline], g0)
      ensures eof == old(eof) && FetchRest() == old(FetchRest())
    {
      var instr := trace[gline];
      DecodedPush(trace[g0..gline], instr, g0);
      SliceGrows(trace, g0, gline);
      Append(instr);
    }

    /** Overwrite entry k of the dispatch queue's used part with a well-formed entry. */
    method SetEntry(k: nat, e: DispEntry)
      requires Valid() && k < dispUsed && ValidDisp(e)
      modifies dispq
      ensures Valid() && Queue() == old(Queue())[k := e]
    {
      dispq[k] := e;
      assert Queue() == old(Queue())[k := e];
    }

    /** Stall entry i and every entry after it in the dispatch queue. */
    method StallRest(i: nat)
      requires Valid() && i <= dispUsed
      modifies dispq
      ensures Valid() && Queue() == StallFrom(old(Queue()), i)
    {
      ghost var q := Queue();
      StallEnds(q, i);
      var k := i;
      while k < dispUsed
        invariant Valid() && i <= k <= dispUsed && dispUsed == |q|
        invariant Queue() == StallFrom(q, i)[..k] + q[k..]
      {
        StallStep(q, i, k);
        SetEntry(k, dispq[k].(stall := true));
        k := k + 1;
      }
    }

    /** Entry i goes ahead this cycle and reserves a slot in its scheduling queue. */
    method GoAhead(i: nat)
      requires Valid() && i < dispUsed && schedUsed[dispq[i].fu] < schedSize[dispq[i].fu]
      modifies this, dispq
      ensures Valid() && dispUsed == old(dispUsed) && Queue() == Go(old(Queue()), i)
      ensures schedUsed == old(schedUsed)[old(dispq[i].fu) := old(schedUsed[dispq[i].fu]) + 1]
      ensures schedTail == old(schedTail) && fuUsed == old(fuUsed) && gline == old(gline) && eof == old(eof) && retired == old(retired)
    {
      var f := dispq[i].fu;
      SetEntry(i, dispq[i].(stall := false));
      schedUsed := schedUsed[f := schedUsed[f] + 1];
    }

    /**
     * dispatch_first_half with the ROB full: entries already in the ROB go
     * ahead while their scheduling queue has room, each reserving a slot.
     */
    method DispatchFull()
      requires Valid() && rob.used == robSize
      modifies this, dispq
      ensures Valid() && dispUsed == old(dispUsed)
      ensures var d := FullFrom(old(Queue()), 0, old(schedUsed), schedSize);
              Queue() == d.q && schedUsed == d.used
      ensures FrontRest() == old(FrontRest())
    {
      ghost var final := FullFrom(Queue(), 0, schedUsed, schedSize);
      var i := 0;
      while i < dispUsed
        invariant Valid() && i <= dispUsed && dispUsed == old(dispUsed)
        invariant FullFrom(Queue(), i, schedUsed, schedSize) == final
        invariant FrontRest() == old(FrontRest())
      {
        var stop := FullStep(i);
        if stop {
          break;
        }
        i := i + 1;
      }
    }

    /**
     * Entry i of the full-ROB pass: it goes ahead if it holds a ROB slot and
     * its scheduling queue has room; otherwise it and every later entry stall
     * and the pass stops.
     */
    method FullStep(i: nat) returns (stop: bool)
      requires Valid() && i < dispUsed
      modifies this, dispq
      ensures Valid() && dispUsed == old(dispUsed)
      ensures FullFrom(old(Queue()), i, old(schedUsed), schedSize) == FullFrom(Queue(), if stop then dispUsed else i + 1, schedUsed, schedSize)
      ensures FrontRest() == old(FrontRest())
    {
      ghost var q, u := Queue(), schedUsed;
      assert FuOk(q);
      var e := dispq[i];
      var f := e.fu;
      if e.inRob && schedUsed[f] < schedSize[f] {
        GoAhead(i);
        stop := false;
      } else {
        StallRest(i);
        stop := true;
      }
    }

    /** add_to_rob for entry i, which then records that it holds a ROB slot. */
    method EnterRob(i: nat)
      requires Valid() && i < dispUsed && !dispq[i].inRob && rob.used < robSize
      modifies dispq, rob, rob.slots
      ensures Valid() && Queue() == Enter(old(Queue()), i)
      ensures rob.used == old(rob.used) + 1
      ensures rob.Contents() == old(rob.Contents()) + [RobEntry(old(dispq[i].line), 0, false)]
    {
      rob.AddToRob(dispq[i].line);
      SetEntry(i, dispq[i].(inRob := true));
    }

    /**
     * Entry i, now in the ROB, of the open-ROB pass: if its scheduling queue
     * is full it and every later entry stall and the pass stops; otherwise it
     * goes ahead and the pass moves on.
     */
    method Place(i: nat, ghost lines: seq<nat>) returns (stop: bool)
      requires Valid() && i < dispUsed
      modifies this, dispq
      ensures Valid() && dispUsed == old(dispUsed)
      ensures PlaceAt(old(Queue()), i, rob.used, robSize, lines, old(schedUsed), schedSize)
           == if stop then Front(Queue(), lines, schedUsed) else OpenFrom(Queue(), i + 1, rob.used, robSize, lines, schedUsed, schedSize)
      ensures schedTail == old(schedTail) && fuUsed == old(fuUsed) && gline == old(gline) && eof == old(eof) && retired == old(retired)
    {
      ghost var q, u := Queue(), schedUsed;
      assert FuOk(q);
      var f := dispq[i].fu;
      if schedUsed[f] == schedSize[f] {
        StallRest(i);
        stop := true;
      } else {
        GoAhead(i);
        stop := false;
      }
    }

    /** With the ROB not full, entry i enters it unless it holds a slot already. */
    method Admit(i: nat, ghost lines: seq<nat>, ghost before: seq<RobEntry>) returns (ghost lines2: seq<nat>)
      requires Valid() && i < dispUsed && rob.used < robSize && rob.Contents() == before + RobEntries(lines)
      modifies dispq, rob, rob.slots
      ensures Valid() && rob.Contents() == before + RobEntries(lines2)
      ensures OpenFrom(old(Queue()), i, old(rob.used), robSize, lines, schedUsed, schedSize)
           == PlaceAt(Queue(), i, rob.used, robSize, lines2, schedUsed, schedSize)
    {
      ghost var q := Queue();
      assert FuOk(q);
      lines2 := lines;
      var e := dispq[i];
      if !e.inRob {
        EnterRob(i);
        lines2 := lines + [e.line];
        assert RobEntries(lines2) == RobEntries(lines) + [RobEntry(e.line, 0, false)];
      }
    }

    /**
     * dispatch_first_half with room in the ROB: while the ROB has room, each
     * entry enters it if it has not yet, then goes ahead unless its
     * scheduling queue is full.
     */
    method DispatchOpen()
      requires Valid() && rob.used < robSize
      modifies this, dispq, rob, rob.slots
      ensures Valid() && dispUsed == old(dispUsed)
      ensures var d := OpenFrom(old(Queue()), 0, old(rob.used), robSize, [], old(schedUsed), schedSize);
              && Queue() == d.q && schedUsed == d.used
              && rob.Contents() == old(rob.Contents()) + RobEntries(d.robLines)
      ensures FrontRest() == old(FrontRest())
    {
      ghost var final := OpenFrom(Queue(), 0, rob.used, robSize, [], schedUsed, schedSize);
      ghost var before := rob.Contents();
      ghost var lines: seq<nat> := [];
      var i := 0;
      while i < dispUsed
        invariant Valid() && i <= dispUsed && dispUsed == old(dispUsed)
        invariant OpenFrom(Queue(), i, rob.used, robSize, lines, schedUsed, schedSize) == final
        invariant rob.Contents() == before + RobEntries(lines)
        invariant FrontRest() == old(FrontRest())
      {
        var stop;
        stop, lines := OpenStep(i, lines, before);
        if stop {
          break;
        }
        i := i + 1;
      }
      assert OpenFrom(Queue(), dispUsed, rob.used, robSize, lines, schedUsed, schedSize) == final;
    }

    /**
     * Entry i of the open-ROB pass: while the ROB has room the entry is
     * admitted and placed; once the ROB is full it and every later entry
     * stall and the pass stops.
     */
    method OpenStep(i: nat, ghost lines: seq<nat>, ghost before: seq<RobEntry>) returns (stop: bool, ghost lines2: seq<nat>)
      requires Valid() && i < dispUsed && rob.Contents() == before + RobEntries(lines)
      modifies this, dispq, rob, rob.slots
      ensures Valid() && dispUsed == old(dispUsed) && rob.Contents() == before + RobEntries(lines2)
      ensures OpenFrom(old(Queue()), i, old(rob.used), robSize, lines, old(schedUsed), schedSize)
           == OpenFrom(Queue(), if stop then dispUsed else i + 1, rob.used, robSize, lines2, schedUsed, schedSize)
      ensures schedTail == old(schedTail) && fuUsed == old(fuUsed) && gline == old(gline) && eof == old(eof) && retired == old(retired)
    {
      ghost var q := Queue();
      assert FuOk(q);
      if rob.used < robSize {
        lines2 := Admit(i, lines, before);
        stop := Place(i, lines2);
      } else {
        StallRest(i);
        lines2 := lines;
        stop := true;
      }
    }

    /**
     * dispatch_first_half: with the ROB full on entry only entries already in
     * it may go ahead; otherwise entries enter the ROB while it has room.
     */
    method DispatchFirstHalf()
      requires Valid()
      modifies this, dispq, rob, rob.slots
      ensures Valid() && dispUsed == old(dispUsed)
      ensures var d := DispatchFirst(old(Queue()), old(rob.used), robSize, old(schedUsed), schedSize);
              && Queue() == d.q && schedUsed == d.used
              && rob.Contents() == old(rob.Contents()) + RobEntries(d.robLines)
      ensures schedTail == old(schedTail) && fuUsed == old(fuUsed) && gline == old(gline) && eof == old(eof) && retired == old(retired)
      ensures old(schedTail == schedUsed) ==> ReservedExactly() && Reserved(0)
    {
      ghost var q, ru, u := Queue(), rob.used, schedUsed;
      if rob.used == robSize {
        DispatchFull();
        assert RobEntries([]) == [];
      } else {
        DispatchOpen();
      }
      if schedTail == u {
        DispatchFirstReserves(q, ru, robSize, u, schedSize, schedTail);
        assert dispq[..dispUsed][0..] == Queue();
      }
    }

    /**
     * The scheduling-queue entry written for d over slot: the line, each
     * source's tag and busy flag from the register file, and the destination.
     */
    method BuildEntry(slot: SchEntry, d: DispEntry) returns (e: SchEntry)
      requires Valid() && ValidDisp(d)
      ensures e == Issue(slot, d, regs[..])
    {
      ghost var rs := regs[..];
      e := slot.(line := d.line);
      ghost var e0 := e;
      if d.s1 >= 0 && regs[d.s1].busy {
        e := e.(s1Tag := Tag32(regs[d.s1].tag), s1Busy := true);
      } else {
        e := e.(s1Busy := false);
      }
      assert e == Source1(e0, rs, d.s1);
      ghost var e1 := e;
      if d.s2 >= 0 && regs[d.s2].busy {
        e := e.(s2Tag := Tag32(regs[d.s2].tag), s2Busy := true);
      } else {
        e := e.(s2Busy := false);
      }
      assert e == Source2(e1, rs, d.s2);
      ghost var e2 := e;
      if d.dest >= 0 {
        e := e.(destReg := d.dest, destTag := Tag32(d.line));
      }
      assert e == Destination(e2, d);
    }

    /**
     * An entry that goes ahead: written at its scheduling queue's tail,
     * reading its sources' registers before its destination is renamed,
     * marked done, and the tail moves on.
     */
    method WriteEntry(i: nat)
      requires Valid() && i < dispUsed && !dispq[i].stall && schedTail[dispq[i].fu] < schedUsed[dispq[i].fu]
      modifies this, dispq, regs, s0, s1, s2
      ensures Valid() && dispUsed == old(dispUsed)
      ensures var d, f, t := old(dispq[i]), old(dispq[i].fu), old(schedTail[dispq[i].fu]);
              && Queue() == old(Queue())[i := d.(dispDone := true)]
              && regs[..] == Rename(old(regs[..]), d)
              && SchedView() == old(SchedView())[f := old(SchedView())[f][t := Issue(old(SchedView())[f][t], d, old(regs[..]))]]
              && schedTail == old(schedTail)[f := t + 1]
      ensures schedUsed == old(schedUsed) && fuUsed == old(fuUsed) && gline == old(gline) && eof == old(eof) && retired == old(retired)
    {
      ghost var q, r := Queue(), regs[..];
      var d := dispq[i];
      EnqueueSched(d);
      ghost var v := SchedView();
      assert Valid() && Queue() == q && regs[..] == r;
      RenameDest(d);
      assert Valid() && Queue() == q && SchedView() == v;
      SetEntry(i, d.(dispDone := true));
      assert regs[..] == Rename(r, d) && SchedView() == v;
    }

    /** d's entry is written at its scheduling queue's tail, from the register file as it stands, and the tail moves on. */
    method EnqueueSched(d: DispEntry)
      requires Valid() && ValidDisp(d) && schedTail[d.fu] < schedUsed[d.fu]
      modifies this, s0, s1, s2
      ensures Valid() && dispUsed == old(dispUsed) && Counters() == old(Counters())
      ensures var f, t := d.fu, old(schedTail[d.fu]);
              && SchedView() == old(SchedView())[f := old(SchedView())[f][t := Issue(old(SchedView())[f][t], d, regs[..])]]
              && schedTail == old(schedTail)[f := t + 1]
    {
      ghost var v0 := SchedView();
      var f := d.fu;
      var idx := schedTail[f];
      assert Sched(f)[idx] == v0[f][idx];
      var e := BuildEntry(Sched(f)[idx], d);
      PutSched(f, idx, e);
      schedTail := schedTail[f := idx + 1];
    }

    /** The destination register of d now waits on d's line. */
    method RenameDest(d: DispEntry)
      requires Valid() && ValidDisp(d)
      modifies regs
      ensures regs[..] == Rename(old(regs[..]), d)
    {
      if d.dest >= 0 {
        regs[d.dest] := RegEntry(d.line, true);
      }
    }

    /** Write entry e into slot idx of scheduling queue f. */
    method PutSched(f: nat, idx: nat, e: SchEntry)
      requires Valid() && f < FuTypes && idx < schedSize[f]
      modifies s0, s1, s2
      ensures SchedView() == old(SchedView())[f := old(SchedView())[f][idx := e]]
    {
      var a := Sched(f);
      a[idx] := e;
      assert SchedView()[f] == old(SchedView())[f][idx := e];
    }

    /** One iteration of dispatch_second_half's issuing loop. */
    method IssueOne(i: nat)
      requires Valid() && i < dispUsed && Reserved(i)
      modifies this, dispq, regs, s0, s1, s2
      ensures Valid() && dispUsed == old(dispUsed) && Reserved(i + 1)
      ensures BackOk(old(Queue()), i, old(regs[..]), old(SchedView()), old(schedTail))
      ensures BackView() == IssueStep(old(Queue()), i, old(regs[..]), old(SchedView()), old(schedTail))
      ensures schedUsed == old(schedUsed) && fuUsed == old(fuUsed) && gline == old(gline) && eof == old(eof) && retired == old(retired)
    {
      ghost var q, r, v, t := Queue(), regs[..], SchedView(), schedTail;
      ReservedStep(q, i, t, schedUsed);
      ReservedRoom(q[i..], t, schedUsed, v);
      if !dispq[i].stall {
        TakeStepIs(q, i, r, v, t);
        WriteEntry(i);
        SuffixAfterUpdate(q, i, q[i].(dispDone := true));
      } else {
        StallStepIs(q, i, r, v, t);
      }
    }

    /** The issuing loop of dispatch_second_half over the whole dispatch queue. */
    method IssueAll()
      requires Valid() && Reserved(0)
      modifies this, dispq, regs, s0, s1, s2
      ensures Valid() && dispUsed == old(dispUsed)
      ensures BackOk(old(Queue()), 0, old(regs[..]), old(SchedView()), old(schedTail))
      ensures BackView() == IssueFrom(old(Queue()), 0, old(regs[..]), old(SchedView()), old(schedTail))
      ensures Counters() == old(Counters())
    {
      ghost var q0, r0, v0, t0 := Queue(), regs[..], SchedView(), schedTail;
      assert BackOk(q0, 0, r0, v0, t0) by {
        assert q0[0..] == q0;
      }
      var i := 0;
      while i < dispUsed
        invariant Valid() && i <= dispUsed && dispUsed == old(dispUsed) && Reserved(i)
        invariant IssuedUpTo(q0, r0, v0, t0, BackView(), i)
        invariant Counters() == old(Counters())
      {
        IssueNext(i, q0, r0, v0, t0);
        i := i + 1;
      }
      IssuedDone(q0, r0, v0, t0, BackView());
    }

    /** One iteration of the issuing loop, seen as progress from the loop's starting state (q0, r0, v0, t0). */
    method IssueNext(i: nat, ghost q0: seq<DispEntry>, ghost r0: seq<RegEntry>, ghost v0: seq<seq<SchEntry>>, ghost t0: seq<nat>)
      requires Valid() && i < dispUsed && Reserved(i) && IssuedUpTo(q0, r0, v0, t0, BackView(), i)
      modifies this, dispq, regs, s0, s1, s2
      ensures Valid() && dispUsed == old(dispUsed) && Reserved(i + 1) && IssuedUpTo(q0, r0, v0, t0, BackView(), i + 1)
      ensures Counters() == old(Counters())
    {
      ghost var b := BackView();
      IssueOne(i);
      IssuedNext(q0, r0, v0, t0, b, i, BackView());
    }

    /**
     * dispatch_second_half: issue every entry that goes ahead, then delete
     * the entries marked done from the dispatch queue, keeping the others in order.
     */
    method DispatchSecondHalf()
      requires Valid() && Reserved(0)
      modifies this, dispq, regs, s0, s1, s2
      ensures Valid() && BackOk(old(Queue()), 0, old(regs[..]), old(SchedView()), old(schedTail))
      ensures var d := IssueFrom(old(Queue()), 0, old(regs[..]), old(SchedView()), old(schedTail));
              && Queue() == Filter(d.q, Done) && regs[..] == d.regs && SchedView() == d.sched && schedTail == d.tails
      ensures schedUsed == old(schedUsed) && fuUsed == old(fuUsed) && gline == old(gline) && eof == old(eof) && retired == old(retired)
      ensures old(ReservedExactly()) ==> schedTail == schedUsed
    {
      ghost var q, r, v, t, exact := Queue(), regs[..], SchedView(), schedTail, ReservedExactly();
      IssueAll();
      RemoveDone();
      if exact {
        IssueFillsReservations(q, r, v, t, schedUsed);
      }
    }

    /** The deletion pass of dispatch_second_half: entries marked done leave the dispatch queue, the others close up in order. */
    method RemoveDone()
      requires Valid()
      modifies this, dispq
      ensures Valid() && Queue() == Filter(old(Queue()), Done)
      ensures schedTail == old(schedTail) && Counters() == old(Counters())
    {
      ghost var issued := Queue();
      var m := Compact(dispq, dispUsed, Done, BlankDisp);
      dispUsed := m;
      FilterKeeps(issued, Done, ValidDisp);
      assert forall k :: dispUsed <= k < robSize ==> dispq[k] == BlankDisp by {
        forall k | old(dispUsed) <= k < robSize
          ensures dispq[k] == BlankDisp
        {
          assert dispq[k] == dispq[old(dispUsed)..][k - old(dispUsed)];
        }
      }
    }

    /** schedule_second_half for function-unit type f, on its scheduling queue and its unit count. */
    method MarkReady(f: nat)
      requires Valid() && f < FuTypes
      modifies this, Sched(f)
      ensures Valid() && ScheduleRest() == old(ScheduleRest())
      ensures var r := Scheduled(old(SchedView())[f], schedUsed[f], old(fuUsed[f]), fuSize[f]);
              SchedView() == old(SchedView())[f := r.0] && fuUsed == old(fuUsed)[f := r.1]
    {
      var a := Sched(f);
      var units := ReadyQueue(a, schedUsed[f], fuUsed[f], fuSize[f]);
      fuUsed := fuUsed[f := units];
      assert SchedView() == old(SchedView())[f := a[..]];
    }

    /** schedule_second_half: mark ready the fireable entries of each scheduling queue in turn. */
    method ScheduleSecondHalf()
      requires Valid()
      modifies this, s0, s1, s2
      ensures Valid() && ScheduleRest() == old(ScheduleRest())
      ensures forall f :: 0 <= f < FuTypes ==>
                var r := Scheduled(old(SchedView())[f], schedUsed[f], old(fuUsed)[f], fuSize[f]);
                SchedView()[f] == r.0 && fuUsed[f] == r.1
    {
      ghost var v0, u0 := SchedView(), fuUsed;
      for f := 0 to FuTypes
        invariant Valid() && ScheduleRest() == old(ScheduleRest())
        invariant forall g :: 0 <= g < f ==>
                    var r := Scheduled(v0[g], schedUsed[g], u0[g], fuSize[g]);
                    SchedView()[g] == r.0 && fuUsed[g] == r.1
        invariant forall g :: f <= g < FuTypes ==> SchedView()[g] == v0[g] && fuUsed[g] == u0[g]
      {
        MarkReady(f);
      }
    }

    /**
     * The compaction of stateupdate_second_half for queue f: freed entries
     * leave, the others close up in order, the freed slots are cleared, and
     * the tail and the count drop by one per freed entry. The source's 32-bit
     * tail would wrap if more entries were freed than it covers.
     */
    method RemoveFreed(f: nat)
      requires Valid() && f < FuTypes && Count(SchedView()[f][..schedUsed[f]], Freed) <= schedTail[f]
      modifies this, Sched(f)
      ensures Valid() && UpdateRest() == old(UpdateRest()) && retired == old(retired)
      ensures var c := Count(old(SchedView())[f][..old(schedUsed[f])], Freed);
              && SchedView() == old(SchedView())[f := Compacted(old(SchedView())[f], old(schedUsed[f]))]
              && schedUsed == old(schedUsed)[f := old(schedUsed[f]) - c]
              && schedTail == old(schedTail)[f := old(schedTail[f]) - c]
    {
      var a := Sched(f);
      var n := schedUsed[f];
      var m := CompactSched(a, n);
      var c := n - m;
      schedTail := schedTail[f := schedTail[f] - c];
      schedUsed := schedUsed[f := m];
      assert SchedView() == old(SchedView())[f := a[..]];
    }

    /** The compaction loop of stateupdate_second_half, over every scheduling queue. */
    method CompactQueues()
      requires Valid()
      requires forall f :: 0 <= f < FuTypes ==> Count(SchedView()[f][..schedUsed[f]], Freed) <= schedTail[f]
      modifies this, s0, s1, s2
      ensures Valid() && UpdateRest() == old(UpdateRest()) && retired == old(retired)
      ensures forall f :: 0 <= f < FuTypes ==>
                var c := Count(old(SchedView())[f][..old(schedUsed)[f]], Freed);
                && SchedView()[f] == Compacted(old(SchedView())[f], old(schedUsed)[f])
                && schedUsed[f] == old(schedUsed)[f] - c && schedTail[f] == old(schedTail)[f] - c
    {
      ghost var v0, u0, t0 := SchedView(), schedUsed, schedTail;
      for f := 0 to FuTypes
        invariant Valid() && UpdateRest() == old(UpdateRest()) && retired == old(retired)
        invariant CompactedUpTo(v0, u0, t0, SchedView(), schedUsed, schedTail, f)
      {
        CompactNext(f, v0, u0, t0);
      }
    }

    /** One iteration of the compaction loop, seen as progress from the loop's starting state (v0, u0, t0). */
    method CompactNext(f: nat, ghost v0: seq<seq<SchEntry>>, ghost u0: seq<nat>, ghost t0: seq<nat>)
      requires Valid() && f < FuTypes && CompactedUpTo(v0, u0, t0, SchedView(), schedUsed, schedTail, f)
      requires forall g :: 0 <= g < FuTypes ==> Count(v0[g][..u0[g]], Freed) <= t0[g]
      modifies this, s0, s1, s2
      ensures Valid() && UpdateRest() == old(UpdateRest()) && retired == old(retired)
      ensures CompactedUpTo(v0, u0, t0, SchedView(), schedUsed, schedTail, f + 1)
    {
      ghost var v, u, t := SchedView(), schedUsed, schedTail;
      RemoveFreed(f);
      CompactedNext(v0, u0, t0, v, u, t, f, SchedView(), schedUsed, schedTail);
    }

    /**
     * delete_from_rob in the given cycle: flag the entries that completed in
     * the previous cycle, then retire up to F flagged entries from the head,
     * counting them.
     */
    method DeleteFromRob(cycle: nat)
      requires Valid()
      modifies this, rob, rob.slots
      ensures Valid() && UpdateRest() == old(UpdateRest())
      ensures schedUsed == old(schedUsed) && schedTail == old(schedTail)
      ensures var marked := MarkRetire(old(rob.Contents()), cycle);
              rob.Contents() == marked[RetireCount(marked, width)..]
              && retired == old(retired) + RetireCount(marked, width)
    {
      rob.FlagRetirements(cycle);
      var n := rob.RetireFromHead(width);
      retired := retired + n;
    }

    /** stateupdate_second_half: compact each scheduling queue, then delete_from_rob. */
    method StateUpdateSecondHalf(cycle: nat)
      requires Valid()
      requires forall f :: 0 <= f < FuTypes ==> Count(SchedView()[f][..schedUsed[f]], Freed) <= schedTail[f]
      modifies this, s0, s1, s2, rob, rob.slots
      ensures Valid() && UpdateRest() == old(UpdateRest())
      ensures forall f :: 0 <= f < FuTypes ==>
                var c := Count(old(SchedView())[f][..old(schedUsed)[f]], Freed);
                && SchedView()[f] == Compacted(old(SchedView())[f], old(schedUsed)[f])
                && schedUsed[f] == old(schedUsed)[f] - c && schedTail[f] == old(schedTail)[f] - c
      ensures var marked := MarkRetire(old(rob.Contents()), cycle);
              rob.Contents() == marked[RetireCount(marked, width)..]
              && retired == old(retired) + RetireCount(marked, width)
    {
      CompactQueues();
      DeleteFromRob(cycle);
    }
  }
}
