/**
 * MESI: stable states I, S, E, M and the transient states IX (a read miss
 * waiting for DATA, which lands in S or E by the shared line), IM (a write
 * miss) and SM (an upgrade from S).
 */
module Mesi {
  import opened Coherence
  import opened Bus

  /** X stands for every enumerator the dispatchers do not route (dump() prints it as "X"). */
  datatype MesiState = X | I | S | E | M | IX | IM | SM

  predicate Transient(s: MesiState) { s == IX || s == IM || s == SM }

  /** process_cache_request: LOAD or STORE from the line's own processor. */
  function CacheStep(l: MesiState, m: Msg): (r: Outcome<MesiState>)
    ensures !IsProcessorMsg(m) || Transient(l) || l == X ==> r.Fatal?
    ensures r.Ok? ==> !r.eff.assertShared && r.eff.bus != BusData
    ensures r.Ok? ==> (r.eff.bus == NoBus <==> r.eff.dataToProc)
    ensures r.Ok? ==> r.eff.dMisses == (if r.eff.bus == NoBus then 0 else 1)
    ensures r.Ok? ==> r.eff.dUpgrades == (if l == E && m == Store then 1 else 0)
    ensures r.Ok? && r.eff.bus == NoBus ==> r.next == (if l == E && m == Store then M else l)
    ensures r.Ok? && r.eff.bus != NoBus ==> Transient(r.next) && (r.eff.bus == BusGetS <==> r.next == IX)
  {
    match l
    case I =>
      (match m
       case Store => Ok(IM, Miss(BusGetM))
       case Load => Ok(IX, Miss(BusGetS))
       case _ => Fatal)
    case S =>
      (match m
       case Load => Ok(S, Hit)
       case Store => Ok(SM, Miss(BusGetM))
       case _ => Fatal)
    case E =>
      (match m
       case Load => Ok(E, Hit)
       case Store => Ok(M, Upgrade)
       case _ => Fatal)
    case M =>
      (match m
       case Load => Ok(M, Hit)
       case Store => Ok(M, Hit)
       case _ => Fatal)
    case IX => Fatal
    case IM => Fatal
    case SM => Fatal
    case X => Fatal
  }

  /** process_snoop_request: a GETS, GETM or DATA seen on the bus; fromSelf tells the line's own request. */
  function SnoopStep(l: MesiState, m: Msg, fromSelf: bool, shared: bool): (r: Outcome<MesiState>)
    ensures r.Fatal? <==> IsProcessorMsg(m) || l == X || (l == E && m == Data)
    ensures r.Ok? ==> r.eff.dMisses == 0 && r.eff.dUpgrades == 0
    ensures r.Ok? ==> r.eff.bus == NoBus || r.eff.bus == BusData
    ensures r.Ok? && r.eff.bus == BusData ==> (l == E || l == M) && m != Data && r.next != l
    ensures r.Ok? && r.eff.assertShared ==> (m == GetS && l in {S, E, M}) || (l == SM && !fromSelf)
    ensures r.Ok? && r.eff.dataToProc <==> m == Data && Transient(l)
    ensures m == Data && Transient(l) ==> r.next == (if l == IX then (if shared then S else E) else M)
  {
    match l
    case I =>
      if IsProcessorMsg(m) then Fatal else Ok(I, Quiet)
    case IX =>
      (match m
       case GetS => Ok(IX, Quiet)
       case GetM => Ok(IX, Quiet)
       case Data => Ok(if shared then S else E, Deliver)
       case _ => Fatal)
    case IM =>
      (match m
       case GetS => Ok(IM, Quiet)
       case GetM => Ok(IM, Quiet)
       case Data => Ok(M, Deliver)
       case _ => Fatal)
    case SM =>
      (match m
       case GetS => if fromSelf then Ok(SM, Quiet) else Ok(IM, AssertShared)
       case GetM => if fromSelf then Ok(SM, Quiet) else Ok(IM, AssertShared)
       case Data => Ok(M, Deliver)
       case _ => Fatal)
    case S =>
      (match m
       case GetS => Ok(S, AssertShared)
       case GetM => Ok(I, Quiet)
       case Data => Ok(S, Quiet)
       case _ => Fatal)
    case E =>
      (match m
       case GetS => Ok(S, Supply(true))
       case GetM => Ok(I, Supply(false))
       case _ => Fatal)
    case M =>
      (match m
       case GetS => Ok(S, Supply(true))
       case GetM => Ok(I, Supply(false))
       case Data => Ok(M, Quiet)
       case _ => Fatal)
    case X => Fatal
  }

  // ---------------------------------------------------------------------------
  // The transition table, row by row.
  // ---------------------------------------------------------------------------

  /** From I, LOAD issues GETS into IX and STORE issues GETM into IM, each counting one miss. */
  lemma MissFromInvalid()
    ensures CacheStep(I, Load) == Ok(IX, Effect(BusGetS, false, false, 1, 0))
    ensures CacheStep(I, Store) == Ok(IM, Effect(BusGetM, false, false, 1, 0))
  {
  }

  /** IX takes DATA to the processor and lands in S when the shared line is asserted, in E otherwise. */
  lemma ReadMissLanding(fromSelf: bool, shared: bool)
    ensures SnoopStep(IX, Data, fromSelf, shared) == Ok(if shared then S else E, Effect(NoBus, false, true, 0, 0))
  {
  }

  /** E upgrades silently on STORE: M, one silent upgrade, no bus message, no miss. */
  lemma SilentUpgrade()
    ensures CacheStep(E, Store) == Ok(M, Effect(NoBus, false, true, 0, 1))
  {
  }

  /** S upgrades on STORE through SM with a GETM and one miss. */
  lemma StoreInShared()
    ensures CacheStep(S, Store) == Ok(SM, Effect(BusGetM, false, false, 1, 0))
  {
  }

  /** SM: another cache's request asserts the shared line and drops to IM, the own echo does nothing, DATA lands in M. */
  lemma UpgradePending(req: Msg, shared: bool)
    requires req == GetS || req == GetM
    ensures SnoopStep(SM, req, false, shared) == Ok(IM, Effect(NoBus, true, false, 0, 0))
    ensures SnoopStep(SM, req, true, shared) == Ok(SM, Effect(NoBus, false, false, 0, 0))
    ensures SnoopStep(SM, Data, true, shared) == Ok(M, Effect(NoBus, false, true, 0, 0))
  {
  }

  /** E and M supply data on GETS (asserting the shared line, to S) and on GETM (without it, to I). */
  lemma OwnerSnoops(l: MesiState, fromSelf: bool, shared: bool)
    requires l == E || l == M
    ensures SnoopStep(l, GetS, fromSelf, shared) == Ok(S, Effect(BusData, true, false, 0, 0))
    ensures SnoopStep(l, GetM, fromSelf, shared) == Ok(I, Effect(BusData, false, false, 0, 0))
  {
  }

  /** DATA is fatal in E but ignored in M. */
  lemma DataInOwner(fromSelf: bool, shared: bool)
    ensures SnoopStep(E, Data, fromSelf, shared) == Fatal
    ensures SnoopStep(M, Data, fromSelf, shared) == Ok(M, Effect(NoBus, false, false, 0, 0))
  {
  }

  // ---------------------------------------------------------------------------
  // Runs of one line.
  // ---------------------------------------------------------------------------

  /** A read miss nobody shares lands in E, and the following store is a silent upgrade: one miss, one upgrade. */
  lemma ExclusiveReadThenStore()
    ensures Run(CacheStep, SnoopStep, I,
                [Proc(Load), Snoop(GetS, true, false), Snoop(Data, true, false), Proc(Store)])
            == Some(Tally(M, 1, 1))
  {
    var evs := [Proc(Load), Snoop(GetS, true, false), Snoop(Data, true, false), Proc(Store)];
    assert evs[1..][1..][1..] == [Proc(Store)];
    assert Run(CacheStep, SnoopStep, E, [Proc(Store)]) == Some(Tally(M, 0, 1));
    assert evs[1..][1..] == [Snoop(Data, true, false), Proc(Store)];
    assert Run(CacheStep, SnoopStep, IX, evs[1..][1..]) == Some(Tally(M, 0, 1));
  }

  /** A read miss another cache shares lands in S, and the following store is a second miss through SM. */
  lemma SharedReadThenStore()
    ensures Run(CacheStep, SnoopStep, I,
                [Proc(Load), Snoop(GetS, true, false), Snoop(Data, true, true), Proc(Store)])
            == Some(Tally(SM, 2, 0))
  {
    var evs := [Proc(Load), Snoop(GetS, true, false), Snoop(Data, true, true), Proc(Store)];
    assert evs[1..][1..][1..] == [Proc(Store)];
    assert Run(CacheStep, SnoopStep, S, [Proc(Store)]) == Some(Tally(SM, 1, 0));
    assert evs[1..][1..] == [Snoop(Data, true, true), Proc(Store)];
    assert Run(CacheStep, SnoopStep, IX, evs[1..][1..]) == Some(Tally(SM, 1, 0));
  }

  /** A line that starts in a routed state never reaches X. */
  lemma {:induction false} NeverUnrouted(l: MesiState, evs: seq<Event>)
    requires l != X
    ensures Run(CacheStep, SnoopStep, l, evs).Some? ==> Run(CacheStep, SnoopStep, l, evs).value.state != X
  {
    var inv := (x: MesiState) => x != X;
    forall x: MesiState, e: Event | inv(x) && Step(CacheStep, SnoopStep, x, e).Ok?
      ensures inv(Step(CacheStep, SnoopStep, x, e).next)
    {
    }
    RunPreserves(CacheStep, SnoopStep, inv, l, evs);
  }

  // ---------------------------------------------------------------------------
  // Several caches on one atomic bus.
  // ---------------------------------------------------------------------------

  predicate Stable(s: MesiState) { s == I || s == S || s == E || s == M }

  /** Between transactions every line is stable, and an E or M copy excludes every other copy. */
  ghost predicate SingleWriter(lines: seq<MesiState>)
  {
    && (forall i :: 0 <= i < |lines| ==> Stable(lines[i]))
    && (forall i, j :: 0 <= i < |lines| && 0 <= j < |lines| && i != j && lines[i] in {E, M} ==>
          lines[j] == I)
  }

  /** Whether some cache other than src holds the line. */
  ghost predicate OthersHold(lines: seq<MesiState>, src: nat)
  {
    exists j :: 0 <= j < |lines| && j != src && lines[j] != I
  }

  /**
   * Lines after every cache snooped the request of cache src (waiting in p):
   * GETM invalidates every other copy, GETS demotes E and M to S, and the
   * shared line is asserted exactly when GETS finds another copy.
   */
  lemma {:induction false} RequestPhase(lines: seq<MesiState>, src: nat, p: MesiState)
    requires SingleWriter(lines) && src < |lines| && Transient(p)
    ensures var req := if p == IX then GetS else GetM;
            var b := Broadcast(SnoopStep, lines[src := p], src, req, false);
            && b.Some?
            && b.value.0[src] == p
            && (forall i :: 0 <= i < |lines| && i != src ==>
                  b.value.0[i] == (if req == GetM then I else if lines[i] in {E, M} then S else lines[i]))
            && (b.value.1 <==> req == GetS && OthersHold(lines, src))
  {
    var req := if p == IX then GetS else GetM;
    var issued := lines[src := p];
    forall i | 0 <= i < |issued|
      ensures SnoopStep(issued[i], req, i == src, false).Ok?
      ensures SnoopStep(issued[i], req, i == src, false).next
              == (if i == src then p else if req == GetM then I else if lines[i] in {E, M} then S else lines[i])
      ensures SnoopStep(issued[i], req, i == src, false).eff.assertShared <==>
                req == GetS && i != src && lines[i] != I
    {
      if i == src {
        OwnRequest(p, req);
      } else {
        assert issued[i] == lines[i];
        ForeignRequest(lines[i], req);
      }
    }
    if req == GetS && OthersHold(lines, src) {
      var j :| 0 <= j < |lines| && j != src && lines[j] != I;
      assert SnoopStep(issued[j], req, j == src, false).eff.assertShared;
    }
  }

  /** A stable line snooping another cache's request: GETM invalidates, GETS demotes E and M to S, and any copy asserts the shared line on GETS. */
  lemma ForeignRequest(x: MesiState, req: Msg)
    requires Stable(x) && (req == GetS || req == GetM)
    ensures SnoopStep(x, req, false, false).Ok?
    ensures SnoopStep(x, req, false, false).next == (if req == GetM then I else if x in {E, M} then S else x)
    ensures SnoopStep(x, req, false, false).eff.assertShared <==> req == GetS && x != I
  {
  }

  /** The requester snooping the echo of its own request stays where it is and asserts nothing. */
  lemma OwnRequest(p: MesiState, req: Msg)
    requires Transient(p) && req == (if p == IX then GetS else GetM)
    ensures SnoopStep(p, req, true, false).Ok?
    ensures SnoopStep(p, req, true, false).next == p && !SnoopStep(p, req, true, false).eff.assertShared
  {
  }

  /** The DATA of the transaction: cache src leaves its transient state, the others (in I or S) ignore it. */
  lemma {:induction false} DataPhase(after: seq<MesiState>, src: nat, sh: bool)
    requires src < |after| && Transient(after[src])
    requires forall i :: 0 <= i < |after| && i != src ==> after[i] == I || after[i] == S
    ensures var b := Broadcast(SnoopStep, after, src, Data, sh);
            && b.Some?
            && b.value.0[src] == (if after[src] == IX then (if sh then S else E) else M)
            && forall i :: 0 <= i < |after| && i != src ==> b.value.0[i] == after[i]
  {
    forall i | 0 <= i < |after|
      ensures SnoopStep(after[i], Data, i == src, sh).Ok?
    {
    }
  }

  /** The lines a miss transaction of cache src leaves behind, with the landing state of src. */
  lemma {:induction false} MissTransaction(lines: seq<MesiState>, src: nat, m: Msg)
    requires SingleWriter(lines) && src < |lines|
    requires CacheStep(lines[src], m).Ok? && CacheStep(lines[src], m).eff.bus != NoBus
    ensures var t := Transaction(CacheStep, SnoopStep, lines, src, m);
            var p := CacheStep(lines[src], m).next;
            && t.Some?
            && t.value[src] == (if p == IX then (if OthersHold(lines, src) then S else E) else M)
            && forall i :: 0 <= i < |lines| && i != src ==>
                 t.value[i] == (if p != IX then I else if lines[i] in {E, M} then S else lines[i])
  {
    var p := CacheStep(lines[src], m).next;
    var req := if p == IX then GetS else GetM;
    RequestPhase(lines, src, p);
    var b1 := Broadcast(SnoopStep, lines[src := p], src, req, false);
    DataPhase(b1.value.0, src, b1.value.1);
    var final := Broadcast(SnoopStep, b1.value.0, src, Data, b1.value.1).value.0;
    MissTransactionUnfolds(CacheStep, SnoopStep, lines, src, m, p, req, b1.value.0, b1.value.1, final);
  }

  /**
   * The shared line decides a read miss: from a single-writer configuration,
   * a LOAD by a cache in I ends in E exactly when every other cache is in I,
   * and in S otherwise.
   */
  lemma ReadMissExclusiveIffAlone(lines: seq<MesiState>, src: nat)
    requires SingleWriter(lines) && src < |lines| && lines[src] == I
    ensures Transaction(CacheStep, SnoopStep, lines, src, Load).Some?
    ensures Transaction(CacheStep, SnoopStep, lines, src, Load).value[src] ==
            (if forall j :: 0 <= j < |lines| && j != src ==> lines[j] == I then E else S)
  {
    MissTransaction(lines, src, Load);
  }

  /** The states a transaction leaves behind form a single-writer configuration. */
  lemma StableResult(lines: seq<MesiState>, final: seq<MesiState>, src: nat, p: MesiState)
    requires SingleWriter(lines) && src < |lines| == |final| && Transient(p)
    requires final[src] == (if p == IX then (if OthersHold(lines, src) then S else E) else M)
    requires forall i :: 0 <= i < |lines| && i != src ==>
               final[i] == (if p != IX then I else if lines[i] in {E, M} then S else lines[i])
    ensures SingleWriter(final)
  {
    if p == IX && final[src] == E {
      assert !OthersHold(lines, src);
    }
  }

  /**
   * A processor request on an atomic bus never hits a fatal_error from a
   * single-writer configuration, and leaves a single-writer configuration.
   */
  lemma {:induction false} TransactionKeepsSingleWriter(lines: seq<MesiState>, src: nat, m: Msg)
    requires SingleWriter(lines) && src < |lines| && IsProcessorMsg(m)
    ensures Transaction(CacheStep, SnoopStep, lines, src, m).Some?
    ensures SingleWriter(Transaction(CacheStep, SnoopStep, lines, src, m).value)
  {
    var r := CacheStep(lines[src], m);
    assert r.Ok?;
    if r.eff.bus == NoBus {
      var final := lines[src := r.next];
      assert Transaction(CacheStep, SnoopStep, lines, src, m) == Some(final);
      forall i, j | 0 <= i < |final| && 0 <= j < |final| && i != j && final[i] in {E, M}
        ensures final[j] == I
      {
        assert lines[src] != I;
      }
    } else {
      MissTransaction(lines, src, m);
      StableResult(lines, Transaction(CacheStep, SnoopStep, lines, src, m).value, src, r.next);
    }
  }

  // ---------------------------------------------------------------------------
  // The line controller object.
  // ---------------------------------------------------------------------------

  /** One MESI_protocol instance: the state of one line in one cache. */
  class MesiProtocol {
    var state: MesiState

    /** A new line starts invalid. */
    constructor ()
      ensures state == I
    {
      state := I;
    }

    /** Runs the handler for a processor request; ok is false where the source calls fatal_error. */
    method ProcessCacheRequest(m: Msg, sim: Simulator) returns (ok: bool, eff: Effect)
      modifies this, sim
      ensures ok == CacheStep(old(state), m).Ok?
      ensures ok ==> state == CacheStep(old(state), m).next && eff == CacheStep(old(state), m).eff
      ensures !ok ==> state == old(state)
      ensures sim.cacheMisses == old(sim.cacheMisses) + (if ok then eff.dMisses else 0)
      ensures sim.silentUpgrades == old(sim.silentUpgrades) + (if ok then eff.dUpgrades else 0)
    {
      match CacheStep(state, m)
      case Fatal =>
        ok, eff := false, Quiet;
      case Ok(next, e) =>
        ok, eff := true, e;
        state := next;
        sim.Account(e);
    }

    /** Runs the handler for a snooped bus message; ok is false where the source calls fatal_error. */
    method ProcessSnoopRequest(m: Msg, fromSelf: bool, shared: bool, sim: Simulator) returns (ok: bool, eff: Effect)
      modifies this, sim
      ensures ok == SnoopStep(old(state), m, fromSelf, shared).Ok?
      ensures ok ==> state == SnoopStep(old(state), m, fromSelf, shared).next
                     && eff == SnoopStep(old(state), m, fromSelf, shared).eff
      ensures !ok ==> state == old(state)
      ensures sim.cacheMisses == old(sim.cacheMisses) && sim.silentUpgrades == old(sim.silentUpgrades)
    {
      match SnoopStep(state, m, fromSelf, shared)
      case Fatal =>
        ok, eff := false, Quiet;
      case Ok(next, e) =>
        ok, eff := true, e;
        state := next;
        sim.Account(e);
    }
  }
}
