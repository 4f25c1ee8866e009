/**
 * MSI: states I, IM (the one transient state, entered on any miss), S and M,
 * plus nxt_state, the landing state recorded when the line's request is
 * snooped while it waits for DATA.
 */
module Msi {
  import opened Coherence
  import opened Bus

  /** X stands for every enumerator the dispatchers do not route (dump() prints it as "X"). */
  datatype MsiState = X | I | IM | S | M

  /** state and nxt_state of one line. */
  datatype MsiLine = MsiLine(state: MsiState, nxt: MsiState)

  /** process_cache_request: LOAD or STORE from the line's own processor. */
  function CacheStep(l: MsiLine, m: Msg): (r: Outcome<MsiLine>)
    ensures !IsProcessorMsg(m) ==> r.Fatal?
    ensures l.state == IM || l.state == X ==> r.Fatal?
    ensures r.Ok? ==> r.eff.dUpgrades == 0 && !r.eff.assertShared && r.eff.bus != BusData
    ensures r.Ok? ==> (r.eff.bus == NoBus <==> r.eff.dataToProc)
    ensures r.Ok? ==> r.eff.dMisses == (if r.eff.bus == NoBus then 0 else 1)
    ensures r.Ok? && r.eff.bus == NoBus ==> r.next == l
    ensures r.Ok? && r.eff.bus != NoBus ==> r.next == l.(state := IM)
  {
    match l.state
    case I =>
      (match m
       case Store => Ok(l.(state := IM), Miss(BusGetM))
       case Load => Ok(l.(state := IM), Miss(BusGetS))
       case _ => Fatal)
    case IM => Fatal
    case S =>
      (match m
       case Load => Ok(l, Hit)
       case Store => Ok(l.(state := IM), Miss(BusGetM))
       case _ => Fatal)
    case M =>
      (match m
       case Load => Ok(l, Hit)
       case Store => Ok(l, Hit)
       case _ => Fatal)
    case X => Fatal
  }

  /** process_snoop_request: a GETS, GETM or DATA seen on the bus (fromSelf is unused by MSI). */
  function SnoopStep(l: MsiLine, m: Msg, fromSelf: bool, shared: bool): (r: Outcome<MsiLine>)
    ensures IsProcessorMsg(m) || l.state == X ==> r.Fatal?
    ensures r.Ok? ==> r.eff.dMisses == 0 && r.eff.dUpgrades == 0
    ensures r.Ok? ==> r.eff.bus == NoBus || r.eff.bus == BusData
    ensures r.Ok? && (r.eff.bus == BusData || r.eff.assertShared) ==> l.state == M
    ensures r.Ok? && r.eff.dataToProc <==> m == Data && l.state == IM
    ensures m == Data && l.state == IM ==> r.Ok? && r.next == l.(state := l.nxt)
    ensures r.Ok? && l.state != IM ==> r.next.nxt == l.nxt
  {
    match l.state
    case I =>
      if IsProcessorMsg(m) then Fatal else Ok(l, Quiet)
    case IM =>
      (match m
       case GetS => Ok(l.(nxt := S), Quiet)
       case GetM => Ok(l.(nxt := M), Quiet)
       case Data => Ok(l.(state := l.nxt), Deliver)
       case _ => Fatal)
    case S =>
      (match m
       case GetS => Ok(l, Quiet)
       case GetM => Ok(l.(state := I), Quiet)
       case Data => Ok(l, Quiet)
       case _ => Fatal)
    case M =>
      (match m
       case GetS => Ok(l.(state := S), Supply(true))
       case GetM => Ok(l.(state := I), Supply(true))
       case _ => Fatal)
    case X => Fatal
  }

  /**
   * do_snoop_IS: a handler the file defines but neither dispatcher calls
   * (no state is routed to it); DATA would complete a read into S.
   */
  function SnoopIS(l: MsiLine, m: Msg): (r: Outcome<MsiLine>)
    ensures r.Ok? <==> !IsProcessorMsg(m)
    ensures r.Ok? ==> r.eff.bus == NoBus && !r.eff.assertShared && r.eff.dMisses == 0
    ensures r.Ok? && m == Data ==> r.eff.dataToProc && r.next.state == S
    ensures r.Ok? && m != Data ==> r.next == l && !r.eff.dataToProc
  {
    match m
    case GetS => Ok(l, Quiet)
    case GetM => Ok(l, Quiet)
    case Data => Ok(l.(state := S), Deliver)
    case _ => Fatal
  }

  // ---------------------------------------------------------------------------
  // The transition table, row by row.
  // ---------------------------------------------------------------------------

  /** From I, STORE issues GETM and LOAD issues GETS; both enter IM and count one miss. */
  lemma MissFromInvalid(nxt: MsiState)
    ensures CacheStep(MsiLine(I, nxt), Store) == Ok(MsiLine(IM, nxt), Effect(BusGetM, false, false, 1, 0))
    ensures CacheStep(MsiLine(I, nxt), Load) == Ok(MsiLine(IM, nxt), Effect(BusGetS, false, false, 1, 0))
  {
  }

  /** M serves LOAD and STORE, S serves LOAD: data to the processor, no bus traffic, no counter. */
  lemma HitsAreSilent(l: MsiLine, m: Msg)
    requires (l.state == M && IsProcessorMsg(m)) || (l.state == S && m == Load)
    ensures CacheStep(l, m) == Ok(l, Effect(NoBus, false, true, 0, 0))
  {
  }

  /** S upgrades on STORE through IM with a GETM and one miss. */
  lemma StoreInShared(nxt: MsiState)
    ensures CacheStep(MsiLine(S, nxt), Store) == Ok(MsiLine(IM, nxt), Effect(BusGetM, false, false, 1, 0))
  {
  }

  /** In IM a snooped GETS records S and a GETM records M; DATA goes to the processor and lands in nxt_state. */
  lemma PendingRecordsLanding(l: MsiLine, fromSelf: bool, shared: bool)
    requires l.state == IM
    ensures SnoopStep(l, GetS, fromSelf, shared) == Ok(l.(nxt := S), Quiet)
    ensures SnoopStep(l, GetM, fromSelf, shared) == Ok(l.(nxt := M), Quiet)
    ensures SnoopStep(l, Data, fromSelf, shared) == Ok(MsiLine(l.nxt, l.nxt), Effect(NoBus, false, true, 0, 0))
  {
  }

  /** M supplies data and asserts the shared line on both GETS (to S) and GETM (to I); DATA in M is fatal. */
  lemma ModifiedSnoops(nxt: MsiState, fromSelf: bool, shared: bool)
    ensures SnoopStep(MsiLine(M, nxt), GetS, fromSelf, shared) == Ok(MsiLine(S, nxt), Effect(BusData, true, false, 0, 0))
    ensures SnoopStep(MsiLine(M, nxt), GetM, fromSelf, shared) == Ok(MsiLine(I, nxt), Effect(BusData, true, false, 0, 0))
    ensures SnoopStep(MsiLine(M, nxt), Data, fromSelf, shared) == Fatal
  {
  }

  /** S drops to I on GETM; on GETS or DATA nothing happens, and the shared line is not asserted. */
  lemma SharedSnoops(nxt: MsiState, fromSelf: bool, shared: bool)
    ensures SnoopStep(MsiLine(S, nxt), GetM, fromSelf, shared) == Ok(MsiLine(I, nxt), Quiet)
    ensures SnoopStep(MsiLine(S, nxt), GetS, fromSelf, shared) == Ok(MsiLine(S, nxt), Quiet)
    ensures SnoopStep(MsiLine(S, nxt), Data, fromSelf, shared) == Ok(MsiLine(S, nxt), Quiet)
    ensures !SnoopStep(MsiLine(S, nxt), GetS, fromSelf, shared).eff.assertShared
  {
  }

  // ---------------------------------------------------------------------------
  // Runs of one line.
  // ---------------------------------------------------------------------------

  /**
   * The request's own echo decides the landing state, whatever nxt_state held
   * before (it is never initialised): a read lands in S and a write in M,
   * each after exactly one miss.
   */
  lemma EchoDecidesLanding(garbage: MsiState, sh1: bool, sh2: bool, self: bool)
    ensures Run(CacheStep, SnoopStep, MsiLine(I, garbage),
                [Proc(Load), Snoop(GetS, true, sh1), Snoop(Data, self, sh2)])
            == Some(Tally(MsiLine(S, S), 1, 0))
    ensures Run(CacheStep, SnoopStep, MsiLine(I, garbage),
                [Proc(Store), Snoop(GetM, true, sh1), Snoop(Data, self, sh2)])
            == Some(Tally(MsiLine(M, M), 1, 0))
  {
    LoadEchoLands(garbage, sh1, sh2, self);
    StoreEchoLands(garbage, sh1, sh2, self);
  }

  /** The read half of EchoDecidesLanding: I -> IM -> S. */
  lemma LoadEchoLands(garbage: MsiState, sh1: bool, sh2: bool, self: bool)
    ensures Run(CacheStep, SnoopStep, MsiLine(I, garbage),
                [Proc(Load), Snoop(GetS, true, sh1), Snoop(Data, self, sh2)])
            == Some(Tally(MsiLine(S, S), 1, 0))
  {
    var data := [Snoop(Data, self, sh2)];
    assert Run(CacheStep, SnoopStep, MsiLine(IM, S), data) == Some(Tally(MsiLine(S, S), 0, 0));
    assert [Proc(Load), Snoop(GetS, true, sh1), Snoop(Data, self, sh2)][1..][1..] == data;
  }

  /** The write half of EchoDecidesLanding: I -> IM -> M. */
  lemma StoreEchoLands(garbage: MsiState, sh1: bool, sh2: bool, self: bool)
    ensures Run(CacheStep, SnoopStep, MsiLine(I, garbage),
                [Proc(Store), Snoop(GetM, true, sh1), Snoop(Data, self, sh2)])
            == Some(Tally(MsiLine(M, M), 1, 0))
  {
    var data := [Snoop(Data, self, sh2)];
    assert Run(CacheStep, SnoopStep, MsiLine(IM, M), data) == Some(Tally(MsiLine(M, M), 0, 0));
    assert [Proc(Store), Snoop(GetM, true, sh1), Snoop(Data, self, sh2)][1..][1..] == data;
  }

  /**
   * IM does not tell its own echo from another cache's request: a foreign GETS
   * snooped after the line's own GETM overwrites nxt_state, so the pending
   * store completes with the line in S.
   */
  lemma ForeignGetsOverridesPendingStore(garbage: MsiState, sh: bool)
    ensures Run(CacheStep, SnoopStep, MsiLine(I, garbage),
                [Proc(Store), Snoop(GetM, true, sh), Snoop(GetS, false, sh), Snoop(Data, true, sh)])
            == Some(Tally(MsiLine(S, S), 1, 0))
  {
    var evs := [Proc(Store), Snoop(GetM, true, sh), Snoop(GetS, false, sh), Snoop(Data, true, sh)];
    assert evs[1..][1..] == [Snoop(GetS, false, sh), Snoop(Data, true, sh)];
    assert evs[1..][1..][1..] == [Snoop(Data, true, sh)];
    assert Run(CacheStep, SnoopStep, MsiLine(IM, S), [Snoop(Data, true, sh)]) == Some(Tally(MsiLine(S, S), 0, 0));
    assert Run(CacheStep, SnoopStep, MsiLine(IM, M), evs[1..][1..]) == Some(Tally(MsiLine(S, S), 0, 0));
  }

  /**
   * Read, write, then a foreign read on one line: I -> IM -> S -> IM -> M -> S,
   * with two misses.
   */
  lemma ReadWriteForeignRead(garbage: MsiState, sh: bool)
    ensures Run(CacheStep, SnoopStep, MsiLine(I, garbage),
                [Proc(Load), Snoop(GetS, true, sh), Snoop(Data, true, sh),
                 Proc(Store), Snoop(GetM, true, sh), Snoop(Data, true, sh),
                 Snoop(GetS, false, sh)])
            == Some(Tally(MsiLine(S, M), 2, 0))
  {
    var evs := [Proc(Load), Snoop(GetS, true, sh), Snoop(Data, true, sh),
                Proc(Store), Snoop(GetM, true, sh), Snoop(Data, true, sh),
                Snoop(GetS, false, sh)];
    var e1 := evs[1..];
    var e2 := e1[1..];
    var e3 := e2[1..];
    assert e3 == [Proc(Store), Snoop(GetM, true, sh), Snoop(Data, true, sh), Snoop(GetS, false, sh)];
    WriteThenForeignRead(sh);
    assert Run(CacheStep, SnoopStep, MsiLine(IM, S), e2) == Some(Tally(MsiLine(S, M), 1, 0));
    assert Run(CacheStep, SnoopStep, MsiLine(IM, S), e1) == Some(Tally(MsiLine(S, M), 1, 0));
  }

  /** From S, a write misses once (S -> IM -> M) and a foreign read then brings the line back to S. */
  lemma WriteThenForeignRead(sh: bool)
    ensures Run(CacheStep, SnoopStep, MsiLine(S, S),
                [Proc(Store), Snoop(GetM, true, sh), Snoop(Data, true, sh), Snoop(GetS, false, sh)])
            == Some(Tally(MsiLine(S, M), 1, 0))
  {
    var e3 := [Proc(Store), Snoop(GetM, true, sh), Snoop(Data, true, sh), Snoop(GetS, false, sh)];
    var e4 := e3[1..];
    var e5 := e4[1..];
    var e6 := e5[1..];
    assert e6 == [Snoop(GetS, false, sh)];
    assert Run(CacheStep, SnoopStep, MsiLine(M, M), e6) == Some(Tally(MsiLine(S, M), 0, 0));
    assert Run(CacheStep, SnoopStep, MsiLine(IM, M), e5) == Some(Tally(MsiLine(S, M), 0, 0));
    assert Run(CacheStep, SnoopStep, MsiLine(IM, M), e4) == Some(Tally(MsiLine(S, M), 0, 0));
  }

  /** A line that starts in a state the dispatchers route never reaches X. */
  lemma {:induction false} NeverUnrouted(l: MsiLine, evs: seq<Event>)
    requires l.state != X && l.nxt != X
    ensures Run(CacheStep, SnoopStep, l, evs).Some? ==> Run(CacheStep, SnoopStep, l, evs).value.state.state != X
  {
    var inv := (x: MsiLine) => x.state != X && x.nxt != X;
    forall x: MsiLine, e: Event | inv(x) && Step(CacheStep, SnoopStep, x, e).Ok?
      ensures inv(Step(CacheStep, SnoopStep, x, e).next)
    {
    }
    RunPreserves(CacheStep, SnoopStep, inv, l, evs);
  }

  // ---------------------------------------------------------------------------
  // Several caches on one atomic bus.
  // ---------------------------------------------------------------------------

  /** Between transactions every line is stable, and an M copy excludes every other copy. */
  ghost predicate SingleWriter(lines: seq<MsiLine>)
  {
    && (forall i :: 0 <= i < |lines| ==> lines[i].state in {I, S, M})
    && (forall i, j :: 0 <= i < |lines| && 0 <= j < |lines| && i != j && lines[i].state == M ==>
          lines[j].state == I)
  }

  /** Lines after every cache snooped the request of cache src, which waits in IM. */
  lemma {:induction false} RequestPhase(lines: seq<MsiLine>, src: nat, nxt: MsiState, req: Msg)
    requires SingleWriter(lines) && src < |lines| && (req == GetS || req == GetM)
    ensures var b := Broadcast(SnoopStep, lines[src := MsiLine(IM, nxt)], src, req, false);
            && b.Some?
            && b.value.0[src] == MsiLine(IM, if req == GetS then S else M)
            && forall i :: 0 <= i < |lines| && i != src ==>
                 b.value.0[i].state == (if req == GetM then I else if lines[i].state == M then S else lines[i].state)
  {
    var issued := lines[src := MsiLine(IM, nxt)];
    forall i | 0 <= i < |issued|
      ensures SnoopStep(issued[i], req, i == src, false).Ok?
    {
      if i != src { assert issued[i] == lines[i]; }
    }
  }

  /** The DATA of the transaction: cache src lands in its recorded state, the others (in I or S) ignore it. */
  lemma {:induction false} DataPhase(after: seq<MsiLine>, src: nat, sh: bool)
    requires src < |after| && after[src].state == IM && after[src].nxt in {S, M}
    requires forall i :: 0 <= i < |after| && i != src ==> after[i].state in {I, S}
    ensures var b := Broadcast(SnoopStep, after, src, Data, sh);
            && b.Some?
            && b.value.0[src].state == after[src].nxt
            && forall i :: 0 <= i < |after| && i != src ==> b.value.0[i].state == after[i].state
  {
    forall i | 0 <= i < |after|
      ensures SnoopStep(after[i], Data, i == src, sh).Ok?
    {
    }
  }

  /**
   * A processor request on an atomic bus never hits a fatal_error from a
   * single-writer configuration, and leaves a single-writer configuration.
   */
  lemma {:induction false} TransactionKeepsSingleWriter(lines: seq<MsiLine>, src: nat, m: Msg)
    requires SingleWriter(lines) && src < |lines| && IsProcessorMsg(m)
    ensures Transaction(CacheStep, SnoopStep, lines, src, m).Some?
    ensures SingleWriter(Transaction(CacheStep, SnoopStep, lines, src, m).value)
  {
    var r := CacheStep(lines[src], m);
    assert r.Ok?;
    if r.eff.bus == NoBus {
      assert Transaction(CacheStep, SnoopStep, lines, src, m) == Some(lines[src := r.next]);
    } else {
      MissTransaction(lines, src, m);
      var req := if r.eff.bus == BusGetS then GetS else GetM;
      StableResult(lines, Transaction(CacheStep, SnoopStep, lines, src, m).value, src, req);
    }
  }

  /** A miss of cache src: src lands in S or M, and the others are invalidated or downgraded. */
  lemma {:induction false} MissTransaction(lines: seq<MsiLine>, src: nat, m: Msg)
    requires SingleWriter(lines) && src < |lines| && IsProcessorMsg(m)
    requires CacheStep(lines[src], m).Ok? && CacheStep(lines[src], m).eff.bus != NoBus
    ensures var t := Transaction(CacheStep, SnoopStep, lines, src, m);
            var req := if CacheStep(lines[src], m).eff.bus == BusGetS then GetS else GetM;
            && t.Some?
            && t.value[src].state == (if req == GetS then S else M)
            && forall i :: 0 <= i < |lines| && i != src ==>
                 t.value[i].state == (if req == GetM then I else if lines[i].state == M then S else lines[i].state)
  {
    var r := CacheStep(lines[src], m);
    var req := if r.eff.bus == BusGetS then GetS else GetM;
    assert r.next == MsiLine(IM, lines[src].nxt);
    RequestPhase(lines, src, lines[src].nxt, req);
    var b1 := Broadcast(SnoopStep, lines[src := r.next], src, req, false);
    DataPhase(b1.value.0, src, b1.value.1);
    var final := Broadcast(SnoopStep, b1.value.0, src, Data, b1.value.1).value.0;
    MissTransactionUnfolds(CacheStep, SnoopStep, lines, src, m, r.next, req, b1.value.0, b1.value.1, final);
  }

  /** The states a transaction leaves behind form a single-writer configuration. */
  lemma StableResult(lines: seq<MsiLine>, final: seq<MsiLine>, src: nat, req: Msg)
    requires SingleWriter(lines) && src < |lines| == |final| && (req == GetS || req == GetM)
    requires final[src].state == (if req == GetS then S else M)
    requires forall i :: 0 <= i < |lines| && i != src ==>
               final[i].state == (if req == GetM then I else if lines[i].state == M then S else lines[i].state)
    ensures SingleWriter(final)
  {
  }

  // ---------------------------------------------------------------------------
  // The line controller object.
  // ---------------------------------------------------------------------------

  /** One MSI_protocol instance: the state of one line in one cache. */
  class MsiProtocol {
    var state: MsiState
    var nxtState: MsiState

    function Line(): MsiLine
      reads this
    {
      MsiLine(state, nxtState)
    }

    /** A new line holds no data; nxt_state is left as it was found. */
    constructor (uninitialised: MsiState)
      ensures state == I && nxtState == uninitialised
    {
      state := I;
      nxtState := uninitialised;
    }

    /** Runs the handler for a processor request; ok is false where the source calls fatal_error. */
    method ProcessCacheRequest(m: Msg, sim: Simulator) returns (ok: bool, eff: Effect)
      modifies this, sim
      ensures ok == CacheStep(old(Line()), m).Ok?
      ensures ok ==> Line() == CacheStep(old(Line()), m).next && eff == CacheStep(old(Line()), m).eff
      ensures !ok ==> Line() == old(Line())
      ensures sim.cacheMisses == old(sim.cacheMisses) + (if ok then eff.dMisses else 0)
      ensures sim.silentUpgrades == old(sim.silentUpgrades)
    {
      match CacheStep(Line(), m)
      case Fatal =>
        ok, eff := false, Quiet;
      case Ok(next, e) =>
        ok, eff := true, e;
        state, nxtState := next.state, next.nxt;
        sim.Account(e);
    }

    /** Runs the handler for a snooped bus message; ok is false where the source calls fatal_error. */
    method ProcessSnoopRequest(m: Msg, fromSelf: bool, shared: bool, sim: Simulator) returns (ok: bool, eff: Effect)
      modifies this, sim
      ensures ok == SnoopStep(old(Line()), m, fromSelf, shared).Ok?
      ensures ok ==> Line() == SnoopStep(old(Line()), m, fromSelf, shared).next
                     && eff == SnoopStep(old(Line()), m, fromSelf, shared).eff
      ensures !ok ==> Line() == old(Line())
      ensures sim.cacheMisses == old(sim.cacheMisses) && sim.silentUpgrades == old(sim.silentUpgrades)
    {
      match SnoopStep(Line(), m, fromSelf, shared)
      case Fatal =>
        ok, eff := false, Quiet;
      case Ok(next, e) =>
        ok, eff := true, e;
        state, nxtState := next.state, next.nxt;
        sim.Account(e);
    }
  }
}
