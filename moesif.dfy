/**
 * MOESIF: stable states I, S, E, O, M and F (the clean designated supplier
 * among sharers), and the transient states IS, IM, SM, OM and FM. A store in
 * O or F goes through FM; no transition enters OM.
 */
module Moesif {
  import opened Coherence
  import opened Bus

  /** X stands for every enumerator the dispatchers do not route (dump() prints it as "X"). */
  datatype MoesifState = X | I | IS | IM | S | SM | E | O | OM | M | F | FM

  predicate Transient(s: MoesifState) { s == IS || s == IM || s == SM || s == OM || s == FM }

  /** The states that supply data when another cache asks for the block. */
  predicate Owner(s: MoesifState) { s == E || s == O || s == M || s == F }

  /** process_cache_request: LOAD or STORE from the line's own processor. */
  function CacheStep(l: MoesifState, m: Msg): (r: Outcome<MoesifState>)
    ensures !IsProcessorMsg(m) || Transient(l) || l == X ==> r.Fatal?
    ensures r.Ok? ==> !r.eff.assertShared && r.eff.bus != BusData
    ensures r.Ok? ==> (r.eff.bus == NoBus <==> r.eff.dataToProc)
    ensures r.Ok? ==> r.eff.dMisses == (if r.eff.bus == NoBus then 0 else 1)
    ensures r.Ok? ==> r.eff.dUpgrades == (if l == E && m == Store then 1 else 0)
    ensures r.Ok? && r.eff.bus == NoBus ==> r.next == (if l == E && m == Store then M else l)
    ensures r.Ok? && r.eff.bus != NoBus ==>
              r.next in {IS, IM, SM, FM} && (r.eff.bus == BusGetS <==> r.next == IS)
    ensures r.Ok? && r.next == FM <==> (l == O || l == F) && m == Store
  {
    match l
    case I =>
      (match m
       case Store => Ok(IM, Miss(BusGetM))
       case Load => Ok(IS, Miss(BusGetS))
       case _ => Fatal)
    case S =>
      (match m
       case Load => Ok(S, Hit)
       case Store => Ok(SM, Miss(BusGetM))
       case _ => Fatal)
    case O =>
      (match m
       case Load => Ok(O, Hit)
       case Store => Ok(FM, Miss(BusGetM))
       case _ => Fatal)
    case M =>
      (match m
       case Load => Ok(M, Hit)
       case Store => Ok(M, Hit)
       case _ => Fatal)
    case F =>
      (match m
       case Load => Ok(F, Hit)
       case Store => Ok(FM, Miss(BusGetM))
       case _ => Fatal)
    case E =>
      (match m
       case Load => Ok(E, Hit)
       case Store => Ok(M, Upgrade)
       case _ => Fatal)
    case SM => Fatal
    case IM => Fatal
    case IS => Fatal
    case OM => Fatal
    case FM => Fatal
    case X => Fatal
  }

  /** process_snoop_request: a GETS, GETM or DATA seen on the bus; fromSelf tells the line's own request. */
  function SnoopStep(l: MoesifState, m: Msg, fromSelf: bool, shared: bool): (r: Outcome<MoesifState>)
    ensures r.Fatal? <==> IsProcessorMsg(m) || l == X || (l == E && m == Data)
    ensures r.Ok? ==> r.eff.dMisses == 0 && r.eff.dUpgrades == 0
    ensures r.Ok? ==> r.eff.bus == NoBus || r.eff.bus == BusData
    ensures r.Ok? && r.eff.bus == BusData ==> (Owner(l) || l == OM || l == FM) && m != Data
    ensures r.Ok? && r.eff.assertShared ==>
              (m == GetS && l != I && l != IS && l != IM) || (m == GetM && l == SM && !fromSelf)
    ensures r.Ok? && r.eff.dataToProc <==> m == Data && Transient(l)
    ensures m == Data && Transient(l) ==> r.next == (if l == IS then (if shared then S else E) else M)
    ensures r.Ok? && r.next == F ==> l == E || l == F
  {
    match l
    case I =>
      if IsProcessorMsg(m) then Fatal else Ok(I, Quiet)
    case IM =>
      (match m
       case GetS => Ok(IM, Quiet)
       case GetM => Ok(IM, Quiet)
       case Data => Ok(M, Deliver)
       case _ => Fatal)
    case S =>
      (match m
       case GetS => Ok(S, AssertShared)
       case GetM => Ok(I, Quiet)
       case Data => Ok(S, Quiet)
       case _ => Fatal)
    case O =>
      (match m
       case GetS => Ok(O, Supply(true))
       case GetM => Ok(I, Supply(false))
       case Data => Ok(O, Quiet)
       case _ => Fatal)
    case F =>
      (match m
       case GetS => Ok(F, Supply(true))
       case GetM => Ok(I, Supply(false))
       case Data => Ok(F, Quiet)
       case _ => Fatal)
    case M =>
      (match m
       case GetS => Ok(O, Supply(true))
       case GetM => Ok(I, Supply(false))
       case Data => Ok(M, Quiet)
       case _ => Fatal)
    case SM =>
      (match m
       case GetS => Ok(SM, AssertShared)
       case GetM => if fromSelf then Ok(SM, Quiet) else Ok(IM, AssertShared)
       case Data => Ok(M, Deliver)
       case _ => Fatal)
    case IS =>
      (match m
       case GetS => Ok(IS, Quiet)
       case GetM => Ok(IS, Quiet)
       case Data => Ok(if shared then S else E, Deliver)
       case _ => Fatal)
    case OM =>
      (match m
       case GetS => Ok(OM, Supply(true))
       case GetM => Ok(if fromSelf then OM else IM, Supply(false))
       case Data => Ok(M, Deliver)
       case _ => Fatal)
    case FM =>
      (match m
       case GetS => Ok(FM, Supply(true))
       case GetM => Ok(if fromSelf then FM else IM, Supply(false))
       case Data => Ok(M, Deliver)
       case _ => Fatal)
    case E =>
      (match m
       case GetS => Ok(F, Supply(true))
       case GetM => Ok(I, Supply(false))
       case _ => Fatal)
    case X => Fatal
  }

  // ---------------------------------------------------------------------------
  // The transition table, row by row.
  // ---------------------------------------------------------------------------

  /** IS takes DATA to the processor and lands in S when the shared line is asserted, in E otherwise. */
  lemma ReadMissLanding(fromSelf: bool, shared: bool)
    ensures SnoopStep(IS, Data, fromSelf, shared) == Ok(if shared then S else E, Effect(NoBus, false, true, 0, 0))
  {
  }

  /** E upgrades silently on STORE: M, one silent upgrade, no bus message, no miss. */
  lemma SilentUpgrade()
    ensures CacheStep(E, Store) == Ok(M, Effect(NoBus, false, true, 0, 1))
  {
  }

  /** E supplies data on GETS (asserting the shared line, to F) and on GETM (to I); DATA in E is fatal. */
  lemma ExclusiveSnoops(fromSelf: bool, shared: bool)
    ensures SnoopStep(E, GetS, fromSelf, shared) == Ok(F, Effect(BusData, true, false, 0, 0))
    ensures SnoopStep(E, GetM, fromSelf, shared) == Ok(I, Effect(BusData, false, false, 0, 0))
    ensures SnoopStep(E, Data, fromSelf, shared) == Fatal
  {
  }

  /** F supplies data on GETS (asserting the shared line, staying F) and on GETM (to I). */
  lemma ForwardSnoops(fromSelf: bool, shared: bool)
    ensures SnoopStep(F, GetS, fromSelf, shared) == Ok(F, Effect(BusData, true, false, 0, 0))
    ensures SnoopStep(F, GetM, fromSelf, shared) == Ok(I, Effect(BusData, false, false, 0, 0))
  {
  }

  /** A store in O or in F issues GETM and enters FM with one miss. */
  lemma OwnedOrForwardStore(l: MoesifState)
    requires l == O || l == F
    ensures CacheStep(l, Store) == Ok(FM, Effect(BusGetM, false, false, 1, 0))
  {
  }

  /** FM supplies data on every GETM; another cache's GETM drops it to IM, its own echo keeps it in FM; DATA lands in M. */
  lemma ForwardUpgradePending(shared: bool)
    ensures SnoopStep(FM, GetM, false, shared) == Ok(IM, Effect(BusData, false, false, 0, 0))
    ensures SnoopStep(FM, GetM, true, shared) == Ok(FM, Effect(BusData, false, false, 0, 0))
    ensures SnoopStep(FM, Data, true, shared) == Ok(M, Effect(NoBus, false, true, 0, 0))
  {
  }

  /** SM asserts the shared line on GETS and stays; another cache's GETM asserts it and drops SM to IM. */
  lemma SharedUpgradePending(fromSelf: bool, shared: bool)
    ensures SnoopStep(SM, GetS, fromSelf, shared) == Ok(SM, Effect(NoBus, true, false, 0, 0))
    ensures SnoopStep(SM, GetM, false, shared) == Ok(IM, Effect(NoBus, true, false, 0, 0))
    ensures SnoopStep(SM, GetM, true, shared) == Ok(SM, Effect(NoBus, false, false, 0, 0))
  {
  }

  /** M supplies data and becomes O on GETS, I on GETM. */
  lemma ModifiedSnoops(fromSelf: bool, shared: bool)
    ensures SnoopStep(M, GetS, fromSelf, shared) == Ok(O, Effect(BusData, true, false, 0, 0))
    ensures SnoopStep(M, GetM, fromSelf, shared) == Ok(I, Effect(BusData, false, false, 0, 0))
  {
  }

  // ---------------------------------------------------------------------------
  // Reachability of one line.
  // ---------------------------------------------------------------------------

  /** No handler moves a line into OM from another state. */
  lemma NoStepEntersOwnedUpgrade(l: MoesifState, e: Event)
    requires l != OM
    ensures Step(CacheStep, SnoopStep, l, e).Ok? ==> Step(CacheStep, SnoopStep, l, e).next != OM
  {
  }

  /** A line that starts outside OM (a new line starts in I) never reaches OM, and never reaches X. */
  lemma {:induction false} OwnedUpgradeUnreachable(l: MoesifState, evs: seq<Event>)
    requires l != OM && l != X
    ensures Run(CacheStep, SnoopStep, l, evs).Some? ==>
              Run(CacheStep, SnoopStep, l, evs).value.state != OM &&
              Run(CacheStep, SnoopStep, l, evs).value.state != X
  {
    var inv := (x: MoesifState) => x != OM && x != X;
    forall x: MoesifState, e: Event | inv(x) && Step(CacheStep, SnoopStep, x, e).Ok?
      ensures inv(Step(CacheStep, SnoopStep, x, e).next)
    {
      NoStepEntersOwnedUpgrade(x, e);
    }
    RunPreserves(CacheStep, SnoopStep, inv, l, evs);
  }

  /** A read miss nobody shares lands in E, and the following store is a silent upgrade: one miss, one upgrade. */
  lemma ExclusiveReadThenStore()
    ensures Run(CacheStep, SnoopStep, I,
                [Proc(Load), Snoop(GetS, true, false), Snoop(Data, true, false), Proc(Store)])
            == Some(Tally(M, 1, 1))
  {
    var evs := [Proc(Load), Snoop(GetS, true, false), Snoop(Data, true, false), Proc(Store)];
    assert evs[1..][1..][1..] == [Proc(Store)];
    assert Run(CacheStep, SnoopStep, E, [Proc(Store)]) == Some(Tally(M, 0, 1));
    assert evs[1..][1..] == [Snoop(Data, true, false), Proc(Store)];
    assert Run(CacheStep, SnoopStep, IS, evs[1..][1..]) == Some(Tally(M, 0, 1));
  }

  // ---------------------------------------------------------------------------
  // Several caches on one atomic bus.
  // ---------------------------------------------------------------------------

  predicate Stable(s: MoesifState) { s == I || s == S || Owner(s) }

  /**
   * Between transactions every line is stable, at most one line is an owner
   * (E, O, M or F), and an E or M copy excludes every other copy.
   */
  ghost predicate SingleWriter(lines: seq<MoesifState>)
  {
    && (forall i :: 0 <= i < |lines| ==> Stable(lines[i]))
    && (forall i, j :: 0 <= i < |lines| && 0 <= j < |lines| && i != j && Owner(lines[i]) ==>
          !Owner(lines[j]))
    && (forall i, j :: 0 <= i < |lines| && 0 <= j < |lines| && i != j && lines[i] in {E, M} ==>
          lines[j] == I)
  }

  /** Whether some cache other than src holds the line. */
  ghost predicate OthersHold(lines: seq<MoesifState>, src: nat)
  {
    exists j :: 0 <= j < |lines| && j != src && lines[j] != I
  }

  /** What a snooped GETS leaves in another cache: E passes supply duty to F, M keeps the dirty copy as O. */
  function AfterForeignRead(s: MoesifState): MoesifState
  {
    if s == E then F else if s == M then O else s
  }

  /**
   * Lines after every cache snooped the request of cache src (waiting in p):
   * GETM invalidates every other copy, GETS demotes E to F and M to O, and the
   * shared line is asserted exactly when GETS finds another copy.
   */
  lemma {:induction false} RequestPhase(lines: seq<MoesifState>, src: nat, p: MoesifState)
    requires SingleWriter(lines) && src < |lines| && p in {IS, IM, SM, FM}
    ensures var req := if p == IS then GetS else GetM;
            var b := Broadcast(SnoopStep, lines[src := p], src, req, false);
            && b.Some?
            && b.value.0[src] == p
            && (forall i :: 0 <= i < |lines| && i != src ==>
                  b.value.0[i] == (if req == GetM then I else AfterForeignRead(lines[i])))
            && (b.value.1 <==> req == GetS && OthersHold(lines, src))
  {
    var req := if p == IS then GetS else GetM;
    var issued := lines[src := p];
    forall i | 0 <= i < |issued|
      ensures SnoopStep(issued[i], req, i == src, false).Ok?
      ensures SnoopStep(issued[i], req, i == src, false).next == (if i == src then p else if req == GetM then I else AfterForeignRead(lines[i]))
      ensures SnoopStep(issued[i], req, i == src, false).eff.assertShared <==>
                req == GetS && i != src && lines[i] != I
    {
      if i == src {
        OwnRequest(p, req);
      } else {
        assert issued[i] == lines[i];
        ForeignRequest(lines[i], req);
      }
    }
    if req == GetS && OthersHold(lines, src) {
      var j :| 0 <= j < |lines| && j != src && lines[j] != I;
      assert SnoopStep(issued[j], req, j == src, false).eff.assertShared;
    }
  }

  /** A stable line snooping another cache's request: GETM invalidates, GETS demotes, and any copy asserts the shared line on GETS. */
  lemma ForeignRequest(x: MoesifState, req: Msg)
    requires Stable(x) && (req == GetS || req == GetM)
    ensures SnoopStep(x, req, false, false).Ok?
    ensures SnoopStep(x, req, false, false).next == (if req == GetM then I else AfterForeignRead(x))
    ensures SnoopStep(x, req, false, false).eff.assertShared <==> req == GetS && x != I
  {
  }

  /** The requester snooping the echo of its own request stays where it is and asserts nothing. */
  lemma OwnRequest(p: MoesifState, req: Msg)
    requires p in {IS, IM, SM, FM} && req == (if p == IS then GetS else GetM)
    ensures SnoopStep(p, req, true, false).Ok?
    ensures SnoopStep(p, req, true, false).next == p && !SnoopStep(p, req, true, false).eff.assertShared
  {
  }

  /** The DATA of the transaction: cache src leaves its transient state, the others (in I, S, O or F) ignore it. */
  lemma {:induction false} DataPhase(after: seq<MoesifState>, src: nat, sh: bool)
    requires src < |after| && after[src] in {IS, IM, SM, FM}
    requires forall i :: 0 <= i < |after| && i != src ==> after[i] in {I, S, O, F}
    ensures var b := Broadcast(SnoopStep, after, src, Data, sh);
            && b.Some?
            && b.value.0[src] == (if after[src] == IS then (if sh then S else E) else M)
            && forall i :: 0 <= i < |after| && i != src ==> b.value.0[i] == after[i]
  {
    forall i | 0 <= i < |after|
      ensures SnoopStep(after[i], Data, i == src, sh).Ok?
    {
    }
  }

  /**
   * The lines a miss transaction of cache src leaves behind: a read lands in E
   * when nobody else holds the block and in S otherwise; a write lands in M
   * and invalidates every other copy.
   */
  lemma {:induction false} MissTransaction(lines: seq<MoesifState>, src: nat, m: Msg)
    requires SingleWriter(lines) && src < |lines|
    requires CacheStep(lines[src], m).Ok? && CacheStep(lines[src], m).eff.bus != NoBus
    ensures var t := Transaction(CacheStep, SnoopStep, lines, src, m);
            var p := CacheStep(lines[src], m).next;
            && t.Some?
            && t.value[src] == (if p == IS then (if OthersHold(lines, src) then S else E) else M)
            && forall i :: 0 <= i < |lines| && i != src ==>
                 t.value[i] == (if p != IS then I else AfterForeignRead(lines[i]))
  {
    var p := CacheStep(lines[src], m).next;
    var req := if p == IS then GetS else GetM;
    RequestPhase(lines, src, p);
    var b1 := Broadcast(SnoopStep, lines[src := p], src, req, false);
    RequestSettles(lines, src, req, b1.value.0);
    DataPhase(b1.value.0, src, b1.value.1);
    var final := Broadcast(SnoopStep, b1.value.0, src, Data, b1.value.1).value.0;
    PhasesCombine(lines, src, p, req, b1.value.0, b1.value.1, final);
    MissTransactionUnfolds(CacheStep, SnoopStep, lines, src, m, p, req, b1.value.0, b1.value.1, final);
  }

  /** After the request phase every other line is I, S, O or F. */
  lemma RequestSettles(lines: seq<MoesifState>, src: nat, req: Msg, after: seq<MoesifState>)
    requires SingleWriter(lines) && src < |lines| == |after|
    requires forall i :: 0 <= i < |lines| && i != src ==>
               after[i] == (if req == GetM then I else AfterForeignRead(lines[i]))
    ensures forall i :: 0 <= i < |after| && i != src ==> after[i] in {I, S, O, F}
  {
  }

  /** The data phase keeps what the request phase left in the other lines, and lands the requester. */
  lemma PhasesCombine(lines: seq<MoesifState>, src: nat, p: MoesifState, req: Msg, after: seq<MoesifState>, sh: bool,
                      final: seq<MoesifState>)
    requires src < |lines| == |after| == |final| && req == (if p == IS then GetS else GetM)
    requires after[src] == p && final[src] == (if after[src] == IS then (if sh then S else E) else M)
    requires sh <==> req == GetS && OthersHold(lines, src)
    requires forall i :: 0 <= i < |lines| && i != src ==>
               after[i] == (if req == GetM then I else AfterForeignRead(lines[i]))
    requires forall i :: 0 <= i < |after| && i != src ==> final[i] == after[i]
    ensures final[src] == (if p == IS then (if OthersHold(lines, src) then S else E) else M)
    ensures forall i :: 0 <= i < |lines| && i != src ==>
              final[i] == (if p != IS then I else AfterForeignRead(lines[i]))
  {
  }

  /** The states a transaction leaves behind form a single-writer configuration. */
  lemma StableResult(lines: seq<MoesifState>, final: seq<MoesifState>, src: nat, p: MoesifState)
    requires SingleWriter(lines) && src < |lines| == |final| && p in {IS, IM, SM, FM}
    requires final[src] == (if p == IS then (if OthersHold(lines, src) then S else E) else M)
    requires forall i :: 0 <= i < |lines| && i != src ==>
               final[i] == (if p != IS then I else AfterForeignRead(lines[i]))
    ensures SingleWriter(final)
  {
    if p == IS && final[src] == E {
      assert !OthersHold(lines, src);
    }
  }

  /**
   * A processor request on an atomic bus never hits a fatal_error from a
   * single-writer configuration, and leaves a single-writer configuration.
   */
  lemma {:induction false} TransactionKeepsSingleWriter(lines: seq<MoesifState>, src: nat, m: Msg)
    requires SingleWriter(lines) && src < |lines| && IsProcessorMsg(m)
    ensures Transaction(CacheStep, SnoopStep, lines, src, m).Some?
    ensures SingleWriter(Transaction(CacheStep, SnoopStep, lines, src, m).value)
  {
    var r := CacheStep(lines[src], m);
    assert r.Ok?;
    if r.eff.bus == NoBus {
      var final := lines[src := r.next];
      assert Transaction(CacheStep, SnoopStep, lines, src, m) == Some(final);
      forall i, j | 0 <= i < |final| && 0 <= j < |final| && i != j && final[i] in {E, M}
        ensures final[j] == I
      {
        assert lines[src] != I;
      }
    } else {
      MissTransaction(lines, src, m);
      StableResult(lines, Transaction(CacheStep, SnoopStep, lines, src, m).value, src, r.next);
    }
  }

  /*
   * Two caches, both starting in I: cache 0 reads (lands in E), cache 1 reads
   * (cache 0 passes to F, cache 1 lands in S), cache 0 writes (through FM;
   * cache 1 is invalidated) and ends in M.
   */

  /** First read of the block: nobody asserts the shared line, cache 0 lands in E. */
  lemma FirstReadLandsExclusive()
    ensures Transaction(CacheStep, SnoopStep, [I, I], 0, Load) == Some([E, I])
  {
    BroadcastPair(SnoopStep, IS, I, 0, GetS, false);
    BroadcastPair(SnoopStep, IS, I, 0, Data, false);
    assert [I, I][0 := IS] == [IS, I];
    MissTransactionUnfolds(CacheStep, SnoopStep, [I, I], 0, Load, IS, GetS, [IS, I], false, [E, I]);
  }

  /** Second reader: the E copy becomes the forwarder F and the reader lands in S. */
  lemma SecondReadMakesForwarder()
    ensures Transaction(CacheStep, SnoopStep, [E, I], 1, Load) == Some([F, S])
  {
    BroadcastPair(SnoopStep, E, IS, 1, GetS, false);
    BroadcastPair(SnoopStep, F, IS, 1, Data, true);
    assert [E, I][1 := IS] == [E, IS];
    MissTransactionUnfolds(CacheStep, SnoopStep, [E, I], 1, Load, IS, GetS, [F, IS], true, [F, S]);
  }

  /** The forwarder writes: it goes through FM, invalidates the sharer and ends in M. */
  lemma ForwarderWriteInvalidates()
    ensures Transaction(CacheStep, SnoopStep, [F, S], 0, Store) == Some([M, I])
  {
    BroadcastPair(SnoopStep, FM, S, 0, GetM, false);
    BroadcastPair(SnoopStep, FM, I, 0, Data, false);
    assert [F, S][0 := FM] == [FM, S];
    MissTransactionUnfolds(CacheStep, SnoopStep, [F, S], 0, Store, FM, GetM, [FM, I], false, [M, I]);
  }

  // ---------------------------------------------------------------------------
  // The line controller object.
  // ---------------------------------------------------------------------------

  /** One MOESIF_protocol instance: the state of one line in one cache. */
  class MoesifProtocol {
    var state: MoesifState

    /** A new line starts invalid. */
    constructor ()
      ensures state == I
    {
      state := I;
    }

    /** Runs the handler for a processor request; ok is false where the source calls fatal_error. */
    method ProcessCacheRequest(m: Msg, sim: Simulator) returns (ok: bool, eff: Effect)
      modifies this, sim
      ensures ok == CacheStep(old(state), m).Ok?
      ensures ok ==> state == CacheStep(old(state), m).next && eff == CacheStep(old(state), m).eff
      ensures !ok ==> state == old(state)
      ensures sim.cacheMisses == old(sim.cacheMisses) + (if ok then eff.dMisses else 0)
      ensures sim.silentUpgrades == old(sim.silentUpgrades) + (if ok then eff.dUpgrades else 0)
    {
      match CacheStep(state, m)
      case Fatal =>
        ok, eff := false, Quiet;
      case Ok(next, e) =>
        ok, eff := true, e;
        state := next;
        sim.Account(e);
    }

    /** Runs the handler for a snooped bus message; ok is false where the source calls fatal_error. */
    method ProcessSnoopRequest(m: Msg, fromSelf: bool, shared: bool, sim: Simulator) returns (ok: bool, eff: Effect)
      modifies this, sim
      ensures ok == SnoopStep(old(state), m, fromSelf, shared).Ok?
      ensures ok ==> state == SnoopStep(old(state), m, fromSelf, shared).next
                     && eff == SnoopStep(old(state), m, fromSelf, shared).eff
      ensures !ok ==> state == old(state)
      ensures sim.cacheMisses == old(sim.cacheMisses) && sim.silentUpgrades == old(sim.silentUpgrades)
    {
      match SnoopStep(state, m, fromSelf, shared)
      case Fatal =>
        ok, eff := false, Quiet;
      case Ok(next, e) =>
        ok, eff := true, e;
        state := next;
        sim.Account(e);
    }
  }
}
