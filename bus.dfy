/**
 * The surroundings of one line controller, reduced to what the protocols need:
 * a sequence of events seen by one line (its run), and a set of caches
 * sharing one address on an atomic broadcast bus.
 *
 * The bus delivers every message to every cache in the same (index) order,
 * including the requester's own GETS/GETM echoed back to it; a transaction is
 * the requester's processor request, its GETS/GETM seen by all caches, then
 * the DATA seen by all caches, with the shared line read as the OR of every
 * assertion made while the request was snooped.
 */
module Bus {
  import opened Coherence

  datatype Option<T> = None | Some(value: T)

  /** One input to one line: a processor request, or a snooped bus message with its origin and the shared line. */
  datatype Event = Proc(msg: Msg) | Snoop(msg: Msg, fromSelf: bool, shared: bool)

  /** Routes an event to process_cache_request or process_snoop_request. */
  function Step<S>(cache: (S, Msg) -> Outcome<S>, snoop: (S, Msg, bool, bool) -> Outcome<S>,
                   s: S, e: Event): Outcome<S>
  {
    match e
    case Proc(m) => cache(s, m)
    case Snoop(m, self, sh) => snoop(s, m, self, sh)
  }

  /** Where a run ends: the line's state and what it added to Sim->cache_misses and Sim->silent_upgrades. */
  datatype Tally<S> = Tally(state: S, misses: nat, upgrades: nat)

  /** The outcome of a sequence of events on one line, or None once a handler called fatal_error. */
  function Run<S>(cache: (S, Msg) -> Outcome<S>, snoop: (S, Msg, bool, bool) -> Outcome<S>,
                  s: S, evs: seq<Event>): Option<Tally<S>>
    decreases |evs|
  {
    if evs == [] then Some(Tally(s, 0, 0))
    else match Step(cache, snoop, s, evs[0])
      case Fatal => None
      case Ok(n, e) =>
        match Run(cache, snoop, n, evs[1..])
        case None => None
        case Some(t) => Some(Tally(t.state, t.misses + e.dMisses, t.upgrades + e.dUpgrades))
  }

  /** A property of line states that no single handler run can break holds along every run. */
  lemma {:induction false} RunPreserves<S>(cache: (S, Msg) -> Outcome<S>,
                                           snoop: (S, Msg, bool, bool) -> Outcome<S>,
                                           inv: S -> bool, s: S, evs: seq<Event>)
    requires forall x, e :: inv(x) && Step(cache, snoop, x, e).Ok? ==> inv(Step(cache, snoop, x, e).next)
    requires inv(s)
    ensures Run(cache, snoop, s, evs).Some? ==> inv(Run(cache, snoop, s, evs).value.state)
    decreases |evs|
  {
    if evs != [] {
      match Step(cache, snoop, s, evs[0])
      case Fatal =>
      case Ok(n, _) => RunPreserves(cache, snoop, inv, n, evs[1..]);
    }
  }

  /**
   * Every cache snoops message m in index order; the cache numbered src sees
   * it as its own request. None if some cache called fatal_error; otherwise
   * the new states and whether anyone asserted the shared line.
   */
  function Broadcast<S>(snoop: (S, Msg, bool, bool) -> Outcome<S>, lines: seq<S>, src: nat,
                        m: Msg, shared: bool): (r: Option<(seq<S>, bool)>)
    ensures r.Some? <==> forall i :: 0 <= i < |lines| ==> snoop(lines[i], m, i == src, shared).Ok?
    ensures r.Some? ==> |r.value.0| == |lines|
    ensures r.Some? ==> forall i :: 0 <= i < |lines| ==>
              r.value.0[i] == snoop(lines[i], m, i == src, shared).next
    ensures r.Some? ==> (r.value.1 <==> exists i :: 0 <= i < |lines| &&
                                          snoop(lines[i], m, i == src, shared).eff.assertShared)
    decreases |lines|
  {
    if |lines| == 0 then Some(([], false))
    else
      var last := |lines| - 1;
      var pre := lines[..last];
      assert forall i :: 0 <= i < |pre| ==> pre[i] == lines[i];
      match Broadcast(snoop, pre, src, m, shared)
      case None => None
      case Some((done, sh)) =>
        var o := snoop(lines[last], m, last == src, shared);
        if o.Fatal? then None
        else Some((done + [o.next], sh || o.eff.assertShared))
  }

  /**
   * One bus transaction on an atomic bus: cache src handles processor request m;
   * if that emits GETS or GETM, every cache snoops it (src sees its echo), then
   * every cache snoops the DATA with the shared line as asserted during the request.
   * None if any handler called fatal_error.
   */
  function Transaction<S>(cache: (S, Msg) -> Outcome<S>, snoop: (S, Msg, bool, bool) -> Outcome<S>,
                          lines: seq<S>, src: nat, m: Msg): (r: Option<seq<S>>)
    requires src < |lines|
    ensures r.Some? ==> |r.value| == |lines|
  {
    match cache(lines[src], m)
    case Fatal => None
    case Ok(l, e) =>
      var issued := lines[src := l];
      if e.bus == NoBus then Some(issued)
      else if e.bus == BusData then None
      else
        var req := if e.bus == BusGetS then GetS else GetM;
        match Broadcast(snoop, issued, src, req, false)
        case None => None
        case Some((afterReq, sh)) =>
          match Broadcast(snoop, afterReq, src, Data, sh)
          case None => None
          case Some((afterData, _)) => Some(afterData)
  }

  /** One more cache on the bus snoops after the others, and or-s its assertion into the shared line. */
  lemma BroadcastSnoc<S>(snoop: (S, Msg, bool, bool) -> Outcome<S>, lines: seq<S>, x: S, src: nat, m: Msg, shared: bool)
    requires Broadcast(snoop, lines, src, m, shared).Some? && snoop(x, m, |lines| == src, shared).Ok?
    ensures Broadcast(snoop, lines + [x], src, m, shared) ==
            Some((Broadcast(snoop, lines, src, m, shared).value.0 + [snoop(x, m, |lines| == src, shared).next],
                  Broadcast(snoop, lines, src, m, shared).value.1 || snoop(x, m, |lines| == src, shared).eff.assertShared))
  {
    assert (lines + [x])[..|lines|] == lines;
  }

  /** A broadcast on a two-cache bus: both caches snoop in order, and the shared line is the or of what they assert. */
  lemma BroadcastPair<S>(snoop: (S, Msg, bool, bool) -> Outcome<S>, a: S, b: S, src: nat, m: Msg, shared: bool)
    requires snoop(a, m, src == 0, shared).Ok? && snoop(b, m, src == 1, shared).Ok?
    ensures Broadcast(snoop, [a, b], src, m, shared) ==
            Some(([snoop(a, m, src == 0, shared).next, snoop(b, m, src == 1, shared).next],
                  snoop(a, m, src == 0, shared).eff.assertShared || snoop(b, m, src == 1, shared).eff.assertShared))
  {
    var oa, ob := snoop(a, m, src == 0, shared), snoop(b, m, src == 1, shared);
    BroadcastSnoc(snoop, [], a, src, m, shared);
    assert [] + [a] == [a] && [] + [oa.next] == [oa.next];
    BroadcastSnoc(snoop, [a], b, src, m, shared);
    assert [a] + [b] == [a, b] && [oa.next] + [ob.next] == [oa.next, ob.next];
  }

  /** A miss transaction in which nobody calls fatal_error ends with the lines the DATA broadcast leaves. */
  lemma MissTransactionUnfolds<S>(cache: (S, Msg) -> Outcome<S>, snoop: (S, Msg, bool, bool) -> Outcome<S>,
                                  lines: seq<S>, src: nat, m: Msg, p: S, req: Msg, afterReq: seq<S>, sh: bool,
                                  final: seq<S>)
    requires src < |lines| && cache(lines[src], m).Ok? && cache(lines[src], m).next == p
    requires (req == GetS || req == GetM) && cache(lines[src], m).eff.bus == (if req == GetS then BusGetS else BusGetM)
    requires Broadcast(snoop, lines[src := p], src, req, false) == Some((afterReq, sh))
    requires Broadcast(snoop, afterReq, src, Data, sh).Some?
    requires final == Broadcast(snoop, afterReq, src, Data, sh).value.0
    ensures Transaction(cache, snoop, lines, src, m) == Some(final)
  {
    var o := cache(lines[src], m);
    assert o == Ok(p, o.eff) && o.eff.bus != NoBus && o.eff.bus != BusData;
  }
}
