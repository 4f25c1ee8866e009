/**
 * MOSI: stable states I, S, O (a dirty copy others may share) and M, and the
 * transient states IS, IM, SM and OM, each waiting for the DATA of its own
 * request. There is no E: a read miss always lands in S.
 */
module Mosi {
  import opened Coherence
  import opened Bus

  /** X stands for every enumerator the dispatchers do not route (dump() prints it as "X"). */
  datatype MosiState = X | I | IM | IS | S | SM | O | OM | M

  predicate Transient(s: MosiState) { s == IS || s == IM || s == SM || s == OM }

  /** process_cache_request: LOAD or STORE from the line's own processor. */
  function CacheStep(l: MosiState, m: Msg): (r: Outcome<MosiState>)
    ensures !IsProcessorMsg(m) || Transient(l) || l == X ==> r.Fatal?
    ensures r.Ok? ==> r.eff.dUpgrades == 0 && !r.eff.assertShared && r.eff.bus != BusData
    ensures r.Ok? ==> (r.eff.bus == NoBus <==> r.eff.dataToProc)
    ensures r.Ok? ==> r.eff.dMisses == (if r.eff.bus == NoBus then 0 else 1)
    ensures r.Ok? && r.eff.bus == NoBus ==> r.next == l
    ensures r.Ok? && r.eff.bus != NoBus ==> Transient(r.next) && (r.eff.bus == BusGetS <==> r.next == IS)
    ensures r.Ok? ==> (r.eff.bus == NoBus <==> l == M || (m == Load && l != I))
  {
    match l
    case I =>
      (match m
       case Store => Ok(IM, Miss(BusGetM))
       case Load => Ok(IS, Miss(BusGetS))
       case _ => Fatal)
    case S =>
      (match m
       case Load => Ok(S, Hit)
       case Store => Ok(SM, Miss(BusGetM))
       case _ => Fatal)
    case O =>
      (match m
       case Load => Ok(O, Hit)
       case Store => Ok(OM, Miss(BusGetM))
       case _ => Fatal)
    case M =>
      (match m
       case Load => Ok(M, Hit)
       case Store => Ok(M, Hit)
       case _ => Fatal)
    case SM => Fatal
    case IM => Fatal
    case IS => Fatal
    case OM => Fatal
    case X => Fatal
  }

  /** process_snoop_request: a GETS, GETM or DATA seen on the bus; fromSelf tells the line's own request. */
  function SnoopStep(l: MosiState, m: Msg, fromSelf: bool, shared: bool): (r: Outcome<MosiState>)
    ensures r.Fatal? <==> IsProcessorMsg(m) || l == X
    ensures r.Ok? ==> r.eff.dMisses == 0 && r.eff.dUpgrades == 0
    ensures r.Ok? ==> r.eff.bus == NoBus || r.eff.bus == BusData
    ensures r.Ok? && r.eff.bus == BusData ==> l in {O, M, OM} && m != Data
    ensures r.Ok? && r.eff.assertShared ==>
              (m == GetS && l in {S, O, M, OM}) || (m == GetM && l == SM && !fromSelf)
    ensures r.Ok? && r.eff.dataToProc <==> m == Data && Transient(l)
    ensures m == Data && Transient(l) ==> r.next == (if l == IS then S else M)
    ensures r.Ok? && r.next == O ==> l in {O, M}
  {
    match l
    case I =>
      if IsProcessorMsg(m) then Fatal else Ok(I, Quiet)
    case IM =>
      (match m
       case GetS => Ok(IM, Quiet)
       case GetM => Ok(IM, Quiet)
       case Data => Ok(M, Deliver)
       case _ => Fatal)
    case S =>
      (match m
       case GetS => Ok(S, AssertShared)
       case GetM => Ok(I, Quiet)
       case Data => Ok(S, Quiet)
       case _ => Fatal)
    case O =>
      (match m
       case GetS => Ok(O, Supply(true))
       case GetM => Ok(I, Supply(false))
       case Data => Ok(O, Quiet)
       case _ => Fatal)
    case M =>
      (match m
       case GetS => Ok(O, Supply(true))
       case GetM => Ok(I, Supply(false))
       case Data => Ok(M, Quiet)
       case _ => Fatal)
    case SM =>
      (match m
       case GetS => Ok(SM, Quiet)
       case GetM => if fromSelf then Ok(SM, Quiet) else Ok(IM, AssertShared)
       case Data => Ok(M, Deliver)
       case _ => Fatal)
    case IS =>
      (match m
       case GetS => Ok(IS, Quiet)
       case GetM => Ok(IS, Quiet)
       case Data => Ok(S, Deliver)
       case _ => Fatal)
    case OM =>
      (match m
       case GetS => Ok(OM, Supply(true))
       case GetM => Ok(if fromSelf then OM else IM, Supply(false))
       case Data => Ok(M, Deliver)
       case _ => Fatal)
    case X => Fatal
  }

  // ---------------------------------------------------------------------------
  // The transition table, row by row.
  // ---------------------------------------------------------------------------

  /** From I, LOAD issues GETS into IS and STORE issues GETM into IM, each counting one miss. */
  lemma MissFromInvalid()
    ensures CacheStep(I, Load) == Ok(IS, Effect(BusGetS, false, false, 1, 0))
    ensures CacheStep(I, Store) == Ok(IM, Effect(BusGetM, false, false, 1, 0))
  {
  }

  /** IS takes DATA to the processor and lands in S whatever the shared line says. */
  lemma ReadMissLandsShared(fromSelf: bool, shared: bool)
    ensures SnoopStep(IS, Data, fromSelf, shared) == Ok(S, Effect(NoBus, false, true, 0, 0))
  {
  }

  /** M keeps its dirty copy on GETS: it asserts the shared line, supplies data and becomes O. */
  lemma ModifiedToOwned(fromSelf: bool, shared: bool)
    ensures SnoopStep(M, GetS, fromSelf, shared) == Ok(O, Effect(BusData, true, false, 0, 0))
    ensures SnoopStep(M, GetM, fromSelf, shared) == Ok(I, Effect(BusData, false, false, 0, 0))
  {
  }

  /** O supplies data on GETS (asserting the shared line, staying O) and on GETM (without it, to I). */
  lemma OwnedSnoops(fromSelf: bool, shared: bool)
    ensures SnoopStep(O, GetS, fromSelf, shared) == Ok(O, Effect(BusData, true, false, 0, 0))
    ensures SnoopStep(O, GetM, fromSelf, shared) == Ok(I, Effect(BusData, false, false, 0, 0))
  {
  }

  /** O upgrades on STORE through OM with a GETM and one miss. */
  lemma StoreInOwned()
    ensures CacheStep(O, Store) == Ok(OM, Effect(BusGetM, false, false, 1, 0))
  {
  }

  /** OM supplies data on every GETM; another cache's GETM drops it to IM, its own echo keeps it in OM; DATA lands in M. */
  lemma OwnedUpgradePending(shared: bool)
    ensures SnoopStep(OM, GetM, false, shared) == Ok(IM, Effect(BusData, false, false, 0, 0))
    ensures SnoopStep(OM, GetM, true, shared) == Ok(OM, Effect(BusData, false, false, 0, 0))
    ensures SnoopStep(OM, Data, true, shared) == Ok(M, Effect(NoBus, false, true, 0, 0))
  {
  }

  /** SM ignores GETS and its own GETM; another cache's GETM asserts the shared line and drops it to IM. */
  lemma SharedUpgradePending(fromSelf: bool, shared: bool)
    ensures SnoopStep(SM, GetS, fromSelf, shared) == Ok(SM, Effect(NoBus, false, false, 0, 0))
    ensures SnoopStep(SM, GetM, true, shared) == Ok(SM, Effect(NoBus, false, false, 0, 0))
    ensures SnoopStep(SM, GetM, false, shared) == Ok(IM, Effect(NoBus, true, false, 0, 0))
  {
  }

  // ---------------------------------------------------------------------------
  // Runs of one line.
  // ---------------------------------------------------------------------------

  /**
   * A store in O goes through OM, where the line supplies the data for its own
   * GETM and then lands in M: one miss.
   */
  lemma OwnedStoreCompletes(sh: bool)
    ensures Run(CacheStep, SnoopStep, O, [Proc(Store), Snoop(GetM, true, false), Snoop(Data, true, sh)])
            == Some(Tally(M, 1, 0))
  {
    var evs := [Proc(Store), Snoop(GetM, true, false), Snoop(Data, true, sh)];
    assert evs[1..][1..] == [Snoop(Data, true, sh)];
    assert Run(CacheStep, SnoopStep, OM, evs[1..][1..]) == Some(Tally(M, 0, 0));
  }

  /** Without an E state a read followed by a store costs two misses and no silent upgrade, whatever the shared line said. */
  lemma ReadThenStoreMissesTwice(sh: bool)
    ensures Run(CacheStep, SnoopStep, I,
                [Proc(Load), Snoop(GetS, true, false), Snoop(Data, true, sh), Proc(Store)])
            == Some(Tally(SM, 2, 0))
  {
    var evs := [Proc(Load), Snoop(GetS, true, false), Snoop(Data, true, sh), Proc(Store)];
    assert evs[1..][1..][1..] == [Proc(Store)];
    assert Run(CacheStep, SnoopStep, S, [Proc(Store)]) == Some(Tally(SM, 1, 0));
    assert evs[1..][1..] == [Snoop(Data, true, sh), Proc(Store)];
    assert Run(CacheStep, SnoopStep, IS, evs[1..][1..]) == Some(Tally(SM, 1, 0));
  }

  /** A line that starts in a routed state never reaches X. */
  lemma {:induction false} NeverUnrouted(l: MosiState, evs: seq<Event>)
    requires l != X
    ensures Run(CacheStep, SnoopStep, l, evs).Some? ==> Run(CacheStep, SnoopStep, l, evs).value.state != X
  {
    var inv := (x: MosiState) => x != X;
    forall x: MosiState, e: Event | inv(x) && Step(CacheStep, SnoopStep, x, e).Ok?
      ensures inv(Step(CacheStep, SnoopStep, x, e).next)
    {
    }
    RunPreserves(CacheStep, SnoopStep, inv, l, evs);
  }

  // ---------------------------------------------------------------------------
  // Several caches on one atomic bus.
  // ---------------------------------------------------------------------------

  predicate Stable(s: MosiState) { s == I || s == S || s == O || s == M }

  /**
   * Between transactions every line is stable, at most one line owns the
   * block (O or M), and an M copy excludes every other copy.
   */
  ghost predicate SingleWriter(lines: seq<MosiState>)
  {
    && (forall i :: 0 <= i < |lines| ==> Stable(lines[i]))
    && (forall i, j :: 0 <= i < |lines| && 0 <= j < |lines| && i != j && lines[i] in {O, M} ==>
          lines[j] !in {O, M})
    && (forall i, j :: 0 <= i < |lines| && 0 <= j < |lines| && i != j && lines[i] == M ==>
          lines[j] == I)
  }

  /** Lines after every cache snooped the request of cache src (waiting in p): GETM invalidates, GETS turns M into O. */
  lemma {:induction false} RequestPhase(lines: seq<MosiState>, src: nat, p: MosiState)
    requires SingleWriter(lines) && src < |lines| && Transient(p)
    ensures var req := if p == IS then GetS else GetM;
            var b := Broadcast(SnoopStep, lines[src := p], src, req, false);
            && b.Some?
            && b.value.0[src] == p
            && forall i :: 0 <= i < |lines| && i != src ==>
                 b.value.0[i] == (if req == GetM then I else if lines[i] == M then O else lines[i])
  {
    var req := if p == IS then GetS else GetM;
    var issued := lines[src := p];
    forall i | 0 <= i < |issued|
      ensures SnoopStep(issued[i], req, i == src, false).Ok?
      ensures SnoopStep(issued[i], req, i == src, false).next
              == (if i == src then p else if req == GetM then I else if lines[i] == M then O else lines[i])
    {
      if i == src {
        OwnRequest(p, req);
      } else {
        assert issued[i] == lines[i];
        ForeignRequest(lines[i], req);
      }
    }
  }

  /** A stable line snooping another cache's request: GETM invalidates, GETS turns M into O. */
  lemma ForeignRequest(x: MosiState, req: Msg)
    requires Stable(x) && (req == GetS || req == GetM)
    ensures SnoopStep(x, req, false, false).Ok?
    ensures SnoopStep(x, req, false, false).next == (if req == GetM then I else if x == M then O else x)
  {
  }

  /** The requester snooping the echo of its own request stays where it is. */
  lemma OwnRequest(p: MosiState, req: Msg)
    requires Transient(p) && req == (if p == IS then GetS else GetM)
    ensures SnoopStep(p, req, true, false).Ok? && SnoopStep(p, req, true, false).next == p
  {
  }

  /** The DATA of the transaction: cache src leaves its transient state, the others (in I, S or O) ignore it. */
  lemma {:induction false} DataPhase(after: seq<MosiState>, src: nat, sh: bool)
    requires src < |after| && Transient(after[src])
    requires forall i :: 0 <= i < |after| && i != src ==> after[i] in {I, S, O}
    ensures var b := Broadcast(SnoopStep, after, src, Data, sh);
            && b.Some?
            && b.value.0[src] == (if after[src] == IS then S else M)
            && forall i :: 0 <= i < |after| && i != src ==> b.value.0[i] == after[i]
  {
    forall i | 0 <= i < |after|
      ensures SnoopStep(after[i], Data, i == src, sh).Ok?
    {
    }
  }

  /**
   * The lines a miss transaction of cache src leaves behind: a read lands in S
   * and turns a modified copy elsewhere into O; a write lands in M and
   * invalidates every other copy.
   */
  lemma {:induction false} MissTransaction(lines: seq<MosiState>, src: nat, m: Msg)
    requires SingleWriter(lines) && src < |lines|
    requires CacheStep(lines[src], m).Ok? && CacheStep(lines[src], m).eff.bus != NoBus
    ensures var t := Transaction(CacheStep, SnoopStep, lines, src, m);
            var p := CacheStep(lines[src], m).next;
            && t.Some?
            && t.value[src] == (if p == IS then S else M)
            && forall i :: 0 <= i < |lines| && i != src ==>
                 t.value[i] == (if p != IS then I else if lines[i] == M then O else lines[i])
  {
    var p := CacheStep(lines[src], m).next;
    var req := if p == IS then GetS else GetM;
    assert Transient(p) && CacheStep(lines[src], m).eff.bus == (if req == GetS then BusGetS else BusGetM);
    RequestPhase(lines, src, p);
    var b1 := Broadcast(SnoopStep, lines[src := p], src, req, false);
    var after := b1.value.0;
    RequestSettles(lines, src, p, req, after);
    DataPhase(after, src, b1.value.1);
    var final := Broadcast(SnoopStep, after, src, Data, b1.value.1).value.0;
    PhasesCombine(lines, src, p, req, after, final);
    MissTransactionUnfolds(CacheStep, SnoopStep, lines, src, m, p, req, after, b1.value.1, final);
  }

  /** After the request phase every other line is I, S or O. */
  lemma RequestSettles(lines: seq<MosiState>, src: nat, p: MosiState, req: Msg, after: seq<MosiState>)
    requires SingleWriter(lines) && src < |lines| == |after|
    requires forall i :: 0 <= i < |lines| && i != src ==>
               after[i] == (if req == GetM then I else if lines[i] == M then O else lines[i])
    ensures forall i :: 0 <= i < |after| && i != src ==> after[i] in {I, S, O}
  {
  }

  /** The data phase keeps what the request phase left in the other lines, and lands the requester. */
  lemma PhasesCombine(lines: seq<MosiState>, src: nat, p: MosiState, req: Msg, after: seq<MosiState>, final: seq<MosiState>)
    requires src < |lines| == |after| == |final| && Transient(p) && req == (if p == IS then GetS else GetM)
    requires after[src] == p && final[src] == (if after[src] == IS then S else M)
    requires forall i :: 0 <= i < |lines| && i != src ==>
               after[i] == (if req == GetM then I else if lines[i] == M then O else lines[i])
    requires forall i :: 0 <= i < |after| && i != src ==> final[i] == after[i]
    ensures final[src] == (if p == IS then S else M)
    ensures forall i :: 0 <= i < |lines| && i != src ==>
              final[i] == (if p != IS then I else if lines[i] == M then O else lines[i])
  {
  }

  /** The states a transaction leaves behind form a single-writer configuration. */
  lemma StableResult(lines: seq<MosiState>, final: seq<MosiState>, src: nat, p: MosiState)
    requires SingleWriter(lines) && src < |lines| == |final| && Transient(p)
    requires final[src] == (if p == IS then S else M)
    requires forall i :: 0 <= i < |lines| && i != src ==>
               final[i] == (if p != IS then I else if lines[i] == M then O else lines[i])
    ensures SingleWriter(final)
  {
  }

  /**
   * A processor request on an atomic bus never hits a fatal_error from a
   * single-writer configuration, and leaves a single-writer configuration.
   */
  lemma {:induction false} TransactionKeepsSingleWriter(lines: seq<MosiState>, src: nat, m: Msg)
    requires SingleWriter(lines) && src < |lines| && IsProcessorMsg(m)
    ensures Transaction(CacheStep, SnoopStep, lines, src, m).Some?
    ensures SingleWriter(Transaction(CacheStep, SnoopStep, lines, src, m).value)
  {
    var r := CacheStep(lines[src], m);
    assert r.Ok?;
    if r.eff.bus == NoBus {
      assert Transaction(CacheStep, SnoopStep, lines, src, m) == Some(lines[src := r.next]);
    } else {
      MissTransaction(lines, src, m);
      StableResult(lines, Transaction(CacheStep, SnoopStep, lines, src, m).value, src, r.next);
    }
  }

  // ---------------------------------------------------------------------------
  // The line controller object.
  // ---------------------------------------------------------------------------

  /** One MOSI_protocol instance: the state of one line in one cache. */
  class MosiProtocol {
    var state: MosiState

    /** A new line starts invalid. */
    constructor ()
      ensures state == I
    {
      state := I;
    }

    /** Runs the handler for a processor request; ok is false where the source calls fatal_error. */
    method ProcessCacheRequest(m: Msg, sim: Simulator) returns (ok: bool, eff: Effect)
      modifies this, sim
      ensures ok == CacheStep(old(state), m).Ok?
      ensures ok ==> state == CacheStep(old(state), m).next && eff == CacheStep(old(state), m).eff
      ensures !ok ==> state == old(state)
      ensures sim.cacheMisses == old(sim.cacheMisses) + (if ok then eff.dMisses else 0)
      ensures sim.silentUpgrades == old(sim.silentUpgrades)
    {
      match CacheStep(state, m)
      case Fatal =>
        ok, eff := false, Quiet;
      case Ok(next, e) =>
        ok, eff := true, e;
        state := next;
        sim.Account(e);
    }

    /** Runs the handler for a snooped bus message; ok is false where the source calls fatal_error. */
    method ProcessSnoopRequest(m: Msg, fromSelf: bool, shared: bool, sim: Simulator) returns (ok: bool, eff: Effect)
      modifies this, sim
      ensures ok == SnoopStep(old(state), m, fromSelf, shared).Ok?
      ensures ok ==> state == SnoopStep(old(state), m, fromSelf, shared).next
                     && eff == SnoopStep(old(state), m, fromSelf, shared).eff
      ensures !ok ==> state == old(state)
      ensures sim.cacheMisses == old(sim.cacheMisses) && sim.silentUpgrades == old(sim.silentUpgrades)
    {
      match SnoopStep(state, m, fromSelf, shared)
      case Fatal =>
        ok, eff := false, Quiet;
      case Ok(next, e) =>
        ok, eff := true, e;
        state := next;
        sim.Account(e);
    }
  }
}
