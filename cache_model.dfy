/**
 * The two-level set-associative LRU cache of the cache simulator, as values:
 * address decoding, the ways of one set, and what one L1 or L2 request does
 * to both levels, the global LRU clock and the statistics. The class in
 * cache_sim.dfy performs the same requests in place and is proved to agree
 * with these functions.
 */
module CacheModel {

  // ---------------------------------------------------------------------------
  // Powers of two and the address fields they cut out.
  // ---------------------------------------------------------------------------

  function Pow2(n: nat): (r: nat)
    ensures r >= 1
  {
    if n == 0 then 1 else 2 * Pow2(n - 1)
  }

  lemma {:induction false} Pow2Add(m: nat, n: nat)
    ensures Pow2(m + n) == Pow2(m) * Pow2(n)
    decreases m
  {
    if m > 0 {
      Pow2Add(m - 1, n);
      MulAssoc(2, Pow2(m - 1), Pow2(n));
    }
  }

  // Single steps of nonlinear arithmetic, each a lemma so that it is proved
  // apart from the context of the proofs that use it.

  lemma MulAssoc(a: int, b: int, c: int)
    ensures a * (b * c) == (a * b) * c
  {
  }

  lemma MulComm(a: int, b: int)
    ensures a * b == b * a
  {
  }

  lemma MulGe(k: int, d: int)
    requires k >= 1 && d >= 1
    ensures k * d >= d
  {
  }

  /** Rounding a down to a multiple of p stays a natural number. */
  lemma AlignNat(a: nat, p: nat)
    requires p >= 1
    ensures a / p >= 0 && (a / p) * p >= 0
  {
    var q := a / p;
    assert q >= 0;
    MulLeft(p, 0, q);
  }

  lemma MulLeft(k: int, a: int, b: int)
    requires k >= 0 && a <= b
    ensures k * a <= k * b
  {
  }

  lemma Distrib(a: int, b: int, d: int)
    ensures a * d - b * d == (a - b) * d
  {
  }

  /** Euclidean division is determined by any quotient and remainder that fit. */
  lemma DivModUnique(a: int, d: int, q: int, r: int)
    requires d > 0 && 0 <= r < d && a == q * d + r
    ensures a / d == q && a % d == r
  {
    var q', r' := a / d, a % d;
    Distrib(q', q, d);
    Distrib(q, q', d);
    if q' > q {
      MulGe(q' - q, d);
    } else if q' < q {
      MulGe(q - q', d);
    }
  }

  /** Dividing by x and then by y is dividing by x * y. */
  lemma DivDiv(a: nat, x: nat, y: nat)
    requires x > 0 && y > 0
    ensures a / (x * y) == (a / x) / y
  {
    var q1, r1 := a / x, a % x;
    var q2, r2 := q1 / y, q1 % y;
    assert q1 * x == q2 * (x * y) + r2 * x by {
      Distrib(q2 * y + r2, r2, x);
      MulAssoc(q2, y, x);
      MulComm(x, y);
    }
    assert r2 * x <= (y - 1) * x by {
      MulComm(r2, x);
      MulComm(y - 1, x);
      MulLeft(x, r2, y - 1);
    }
    Distrib(y, 1, x);
    MulComm(x, y);
    DivModUnique(a, x * y, q2, r2 * x + r1);
  }

  /** With obib = ob * ib: the quotient by obib and the remainder of a / ob by ib rebuild a rounded down to ob. */
  lemma Regroup(a: nat, ob: nat, ib: nat, obib: nat)
    requires ob > 0 && ib > 0 && obib == ob * ib
    ensures (a / obib) * obib + ((a / ob) % ib) * ob == (a / ob) * ob
  {
    DivDiv(a, ob, ib);
    var q := a / ob;
    var t, r := q / ib, q % ib;
    assert q == t * ib + r;
    MulComm(ob, ib);
    MulAssoc(t, ib, ob);
    Distrib(t * ib + r, r, ob);
  }

  /** Sizes of one cache level: 2^offsetBits-byte blocks, 2^indexBits sets of 2^assocBits ways. */
  datatype Geometry = Geometry(offsetBits: nat, indexBits: nat, assocBits: nat)

  /** nWays. */
  function Ways(g: Geometry): nat
  {
    Pow2(g.assocBits)
  }

  /** (address & index_mask) >> offset_bits: the set an address maps to. */
  function SetIndex(g: Geometry, a: nat): nat
  {
    (a / Pow2(g.offsetBits)) % Pow2(g.indexBits)
  }

  /** (address & tag_mask) >> (index_bits + offset_bits): the bits above the index. */
  function TagOf(g: Geometry, a: nat): nat
  {
    var p := Pow2(g.offsetBits + g.indexBits);
    AlignNat(a, p);
    a / p
  }

  /** address & ~offset_mask: the first byte of the block holding the address. */
  function BlockAlign(g: Geometry, a: nat): nat
  {
    var p := Pow2(g.offsetBits);
    AlignNat(a, p);
    (a / p) * p
  }

  /** tag << (offset_bits + index_bits) | index << offset_bits: the address of the block a way holds. */
  function BlockAddr(g: Geometry, tag: nat, idx: nat): nat
  {
    tag * Pow2(g.offsetBits + g.indexBits) + idx * Pow2(g.offsetBits)
  }

  /** A way's block address decodes back to the set it sits in and to its tag. */
  lemma BlockAddrRoundTrip(g: Geometry, tag: nat, idx: nat)
    requires idx < Pow2(g.indexBits)
    ensures SetIndex(g, BlockAddr(g, tag, idx)) == idx
    ensures TagOf(g, BlockAddr(g, tag, idx)) == tag
  {
    var ob, ib := Pow2(g.offsetBits), Pow2(g.indexBits);
    Pow2Add(g.offsetBits, g.indexBits);
    var b := BlockAddr(g, tag, idx);
    assert b == (tag * ib + idx) * ob by {
      MulAssoc(tag, ib, ob);
      MulComm(ob, ib);
      Distrib(tag * ib + idx, idx, ob);
    }
    DivModUnique(b, ob, tag * ib + idx, 0);
    DivModUnique(tag * ib + idx, ib, tag, idx);
    assert idx * ob <= (ib - 1) * ob by {
      MulComm(idx, ob);
      MulComm(ib - 1, ob);
      MulLeft(ob, idx, ib - 1);
    }
    Distrib(ib, 1, ob);
    MulComm(ob, ib);
    DivModUnique(b, ob * ib, tag, idx * ob);
  }

  /** An address's tag and set index rebuild the address of its block. */
  lemma BlockAddrOfAddress(g: Geometry, a: nat)
    ensures BlockAddr(g, TagOf(g, a), SetIndex(g, a)) == BlockAlign(g, a)
  {
    Pow2Add(g.offsetBits, g.indexBits);
    Regroup(a, Pow2(g.offsetBits), Pow2(g.indexBits), Pow2(g.offsetBits + g.indexBits));
  }

  // ---------------------------------------------------------------------------
  // One set.
  // ---------------------------------------------------------------------------

  /** One c_entry (the prefetch bookkeeping is not modelled). Tag 0 marks a way as empty. */
  datatype Way = Way(tag: nat, lru: nat, dirty: bool, valid: bool)

  /** A value-initialised c_entry. */
  const EmptyWay := Way(0, 0, false, false)

  /** The first way whose tag equals tag, or |ways| when there is none. */
  function FirstTag(ways: seq<Way>, tag: nat): (k: nat)
    ensures k <= |ways|
    ensures k < |ways| ==> ways[k].tag == tag
    ensures forall j :: 0 <= j < k ==> ways[j].tag != tag
    decreases |ways|
  {
    if |ways| == 0 then 0
    else if ways[0].tag == tag then 0
    else 1 + FirstTag(ways[1..], tag)
  }

  /**
   * find_lru_blk: scanning from way 0, the running minimum moves to every way
   * whose stamp is <= it, so the result is the LAST way with the least stamp.
   */
  function LruIndex(ways: seq<Way>): (k: nat)
    requires |ways| > 0
    ensures k < |ways|
    ensures forall j :: 0 <= j < |ways| ==> ways[k].lru <= ways[j].lru
    ensures forall j :: k < j < |ways| ==> ways[k].lru < ways[j].lru
    decreases |ways|
  {
    var last := |ways| - 1;
    if last == 0 then 0
    else
      var k := LruIndex(ways[..last]);
      if ways[k].lru >= ways[last].lru then last else k
  }

  /** Where a request for tag goes in a set: the way that holds it, the first empty way, or the LRU victim. */
  datatype Placement = Hit(way: nat) | Free(way: nat) | Victim(way: nat)

  function Place(ways: seq<Way>, tag: nat): (p: Placement)
    requires |ways| > 0
    ensures p.way < |ways|
    ensures p.Hit? <==> exists j :: 0 <= j < |ways| && ways[j].tag == tag
    ensures p.Hit? ==> ways[p.way].tag == tag && forall j :: 0 <= j < p.way ==> ways[j].tag != tag
    ensures p.Free? ==> ways[p.way].tag == 0 && forall j :: 0 <= j < p.way ==> ways[j].tag != 0
    ensures p.Victim? <==> forall j :: 0 <= j < |ways| ==> ways[j].tag != tag && ways[j].tag != 0
    ensures p.Victim? ==> p.way == LruIndex(ways)
  {
    var k := FirstTag(ways, tag);
    if k < |ways| then Hit(k)
    else
      var f := FirstTag(ways, 0);
      if f < |ways| then Free(f) else Victim(LruIndex(ways))
  }

  /** add_lru_info on a way that is hit: a new stamp, and the dirty bit set by a write. */
  function Touch(w: Way, stamp: nat, write: bool): Way
  {
    w.(lru := stamp, dirty := w.dirty || write)
  }

  /** The way a block is installed in: valid, clean after a read and dirty after a write. */
  function Fresh(tag: nat, stamp: nat, write: bool): Way
  {
    Way(tag, stamp, write, true)
  }

  /** A set accessed for the first time: nWays value-initialised ways, then the block in way 0. */
  function NewSet(n: nat, tag: nat, write: bool, stamp: nat): (s: seq<Way>)
    requires n >= 1
    ensures |s| == n && s[0] == Fresh(tag, stamp, write)
    ensures forall j :: 1 <= j < n ==> s[j] == EmptyWay
  {
    [Fresh(tag, stamp, write)] + seq(n - 1, _ => EmptyWay)
  }

  // ---------------------------------------------------------------------------
  // Both levels.
  // ---------------------------------------------------------------------------

  /** The counters of cache_stats_t that the modelled requests update. */
  datatype Stats = Stats(readRequests: nat, writeRequests: nat, l1Accesses: nat, l1ReadMisses: nat, l1WriteMisses: nat,
                         l2ReadMisses: nat, l2WriteMisses: nat, writeBacks: nat)

  const NoStats := Stats(0, 0, 0, 0, 0, 0, 0, 0)

  datatype Config = Config(g1: Geometry, g2: Geometry)

  /** L1Map, L2Map, glrutime and the statistics. */
  datatype Hier = Hier(l1: map<nat, seq<Way>>, l2: map<nat, seq<Way>>, time: nat, stats: Stats)

  /** Every set has nWays ways and no stamp is ahead of the clock. */
  predicate LevelOk(sets: map<nat, seq<Way>>, n: nat, time: nat)
  {
    forall i | i in sets :: SetOk(sets[i], n, time)
  }

  predicate SetOk(ways: seq<Way>, n: nat, time: nat)
  {
    |ways| == n && forall j :: 0 <= j < |ways| ==> ways[j].lru <= time
  }

  predicate WellFormed(c: Config, h: Hier)
  {
    LevelOk(h.l1, Ways(c.g1), h.time) && LevelOk(h.l2, Ways(c.g2), h.time)
  }

  /** Whether a cache level holds the block of address a (a way of its set carries its tag). */
  predicate Holds(sets: map<nat, seq<Way>>, g: Geometry, a: nat)
  {
    var idx := SetIndex(g, a);
    idx in sets && exists j :: 0 <= j < |sets[idx]| && sets[idx][j].tag == TagOf(g, a)
  }

  /** Stamps in a level never run ahead of a later clock. */
  lemma LevelOkLater(sets: map<nat, seq<Way>>, n: nat, t: nat, t': nat)
    requires LevelOk(sets, n, t) && t <= t'
    ensures LevelOk(sets, n, t')
  {
  }

  /** A level after one set of it is replaced by a set that also keeps the shape and the clock bound. */
  lemma LevelOkUpdate(sets: map<nat, seq<Way>>, n: nat, t: nat, idx: nat, s: seq<Way>)
    requires LevelOk(sets, n, t) && |s| == n && forall j :: 0 <= j < |s| ==> s[j].lru <= t
    ensures LevelOk(sets[idx := s], n, t)
  {
  }

  /**
   * L2ReadReq (write = false) or L2WriteReq (write = true) with prefetching off:
   * the address loses its L1 offset bits, a hit re-stamps the way (and a write
   * marks it dirty), a miss counts an L2 read or write miss and installs the
   * block in the first empty way or over the LRU victim, counting a write-back
   * when that victim was dirty.
   */
  function L2Access(c: Config, h: Hier, a: nat, write: bool): (r: Hier)
    requires WellFormed(c, h)
    ensures WellFormed(c, r)
    ensures r.l1 == h.l1 && r.time == h.time + 1
    ensures r.stats.readRequests == h.stats.readRequests && r.stats.writeRequests == h.stats.writeRequests
    ensures r.stats.l1Accesses == h.stats.l1Accesses
  {
    var b := BlockAlign(c.g1, a);
    var idx, tag := SetIndex(c.g2, b), TagOf(c.g2, b);
    var t := h.time + 1;
    var missed := if write then h.stats.(l2WriteMisses := h.stats.l2WriteMisses + 1)
                  else h.stats.(l2ReadMisses := h.stats.l2ReadMisses + 1);
    LevelOkLater(h.l1, Ways(c.g1), h.time, t);
    LevelOkLater(h.l2, Ways(c.g2), h.time, t);
    if idx in h.l2 then
      var ways := h.l2[idx];
      match Place(ways, tag)
      case Hit(k) =>
        LevelOkUpdate(h.l2, Ways(c.g2), t, idx, ways[k := Touch(ways[k], t, write)]);
        h.(l2 := h.l2[idx := ways[k := Touch(ways[k], t, write)]], time := t)
      case Free(k) =>
        LevelOkUpdate(h.l2, Ways(c.g2), t, idx, ways[k := Fresh(tag, t, write)]);
        h.(l2 := h.l2[idx := ways[k := Fresh(tag, t, write)]], time := t, stats := missed)
      case Victim(k) =>
        LevelOkUpdate(h.l2, Ways(c.g2), t, idx, ways[k := Fresh(tag, t, write)]);
        var wb := if ways[k].dirty then missed.(writeBacks := missed.writeBacks + 1) else missed;
        h.(l2 := h.l2[idx := ways[k := Fresh(tag, t, write)]], time := t, stats := wb)
    else
      LevelOkUpdate(h.l2, Ways(c.g2), t, idx, NewSet(Ways(c.g2), tag, write, t));
      h.(l2 := h.l2[idx := NewSet(Ways(c.g2), tag, write, t)], time := t, stats := missed)
  }

  /**
   * L1ReadReq (write = false) or L1WriteReq (write = true): counts the access;
   * a hit re-stamps the way (a write marks it dirty); a miss counts an L1 miss,
   * reads the block from L2 first, installs it (clean for a read, dirty for a
   * write) in the first empty way, over the LRU victim, or in way 0 of a new
   * set, and finally writes a dirty victim back to L2.
   */
  function L1Access(c: Config, h: Hier, a: nat, write: bool): (r: Hier)
    requires WellFormed(c, h)
    ensures WellFormed(c, r)
    ensures r.time > h.time
    ensures r.stats.readRequests == h.stats.readRequests && r.stats.writeRequests == h.stats.writeRequests
    ensures r.stats.l1Accesses == h.stats.l1Accesses + 1
  {
    var idx, tag := SetIndex(c.g1, a), TagOf(c.g1, a);
    var counted := h.stats.(l1Accesses := h.stats.l1Accesses + 1);
    if idx in h.l1 && Place(h.l1[idx], tag).Hit? then
      var ways, k, t := h.l1[idx], Place(h.l1[idx], tag).way, h.time + 1;
      LevelOkLater(h.l1, Ways(c.g1), h.time, t);
      LevelOkLater(h.l2, Ways(c.g2), h.time, t);
      LevelOkUpdate(h.l1, Ways(c.g1), t, idx, ways[k := Touch(ways[k], t, write)]);
      h.(l1 := h.l1[idx := ways[k := Touch(ways[k], t, write)]], time := t, stats := counted)
    else
      var fetched := L2Access(c, h.(stats := MissedStats(h, write)), a, false);
      var t := fetched.time + 1;
      LevelOkLater(fetched.l1, Ways(c.g1), fetched.time, t);
      LevelOkLater(fetched.l2, Ways(c.g2), fetched.time, t);
      if idx !in h.l1 then
        LevelOkUpdate(fetched.l1, Ways(c.g1), t, idx, NewSet(Ways(c.g1), tag, write, t));
        fetched.(l1 := fetched.l1[idx := NewSet(Ways(c.g1), tag, write, t)], time := t)
      else
        var ways := h.l1[idx];
        var k := Place(ways, tag).way;
        LevelOkUpdate(fetched.l1, Ways(c.g1), t, idx, ways[k := Fresh(tag, t, write)]);
        var installed := fetched.(l1 := fetched.l1[idx := ways[k := Fresh(tag, t, write)]], time := t);
        if Place(ways, tag).Victim? && ways[k].dirty then
          L2Access(c, installed, BlockAddr(c.g1, ways[k].tag, idx), true)
        else installed
  }

  /** cache_access: 'r' counts a read and runs L1ReadReq, 'w' counts a write and runs L1WriteReq, anything else does nothing. */
  function CacheAccess(c: Config, h: Hier, rw: char, a: nat): (r: Hier)
    requires WellFormed(c, h)
    ensures WellFormed(c, r)
  {
    if rw == 'r' then L1Access(c, h.(stats := h.stats.(readRequests := h.stats.readRequests + 1)), a, false)
    else if rw == 'w' then L1Access(c, h.(stats := h.stats.(writeRequests := h.stats.writeRequests + 1)), a, true)
    else h
  }

  // ---------------------------------------------------------------------------
  // What one request guarantees.
  // ---------------------------------------------------------------------------

  /** Only the set the request maps to changes; every other set of the level is kept as it was. */
  predicate OnlySetChanged(old_: map<nat, seq<Way>>, new_: map<nat, seq<Way>>, idx: nat)
  {
    new_.Keys == old_.Keys + {idx} && forall i | i in old_ && i != idx :: new_[i] == old_[i]
  }

  /**
   * After an L2 request the block is in its L2 set, in a way stamped
   * with the new clock value (dirty after a write, and still dirty if it was);
   * no other L2 set changes.
   */
  lemma L2AccessInstalls(c: Config, h: Hier, a: nat, write: bool)
    requires WellFormed(c, h)
    ensures var r, b := L2Access(c, h, a, write), BlockAlign(c.g1, a);
            var idx, tag := SetIndex(c.g2, b), TagOf(c.g2, b);
            && OnlySetChanged(h.l2, r.l2, idx)
            && exists k :: 0 <= k < |r.l2[idx]| && r.l2[idx][k].tag == tag
                           && r.l2[idx][k].lru == r.time && (write ==> r.l2[idx][k].dirty)
  {
    var r, b := L2Access(c, h, a, write), BlockAlign(c.g1, a);
    var idx, tag := SetIndex(c.g2, b), TagOf(c.g2, b);
    if idx in h.l2 {
      var k := Place(h.l2[idx], tag).way;
      if Place(h.l2[idx], tag).Hit? {
        assert r.l2[idx][k].tag == tag;
      } else {
        assert r.l2[idx][k] == Fresh(tag, r.time, write);
      }
    } else {
      assert r.l2[idx][0] == Fresh(tag, r.time, write);
    }
  }

  /**
   * An L2 request counts an L2 read or write miss exactly when the block was not
   * in L2, and a write-back exactly when it replaced a dirty LRU victim; no other
   * counter moves.
   */
  lemma L2AccessCounts(c: Config, h: Hier, a: nat, write: bool)
    requires WellFormed(c, h)
    ensures var r, b := L2Access(c, h, a, write), BlockAlign(c.g1, a);
            var idx, tag := SetIndex(c.g2, b), TagOf(c.g2, b);
            var miss := !Holds(h.l2, c.g2, b);
            var dirtyVictim := idx in h.l2 && Place(h.l2[idx], tag).Victim? && h.l2[idx][LruIndex(h.l2[idx])].dirty;
            && r.stats.l2ReadMisses == h.stats.l2ReadMisses + (if miss && !write then 1 else 0)
            && r.stats.l2WriteMisses == h.stats.l2WriteMisses + (if miss && write then 1 else 0)
            && r.stats.writeBacks == h.stats.writeBacks + (if dirtyVictim then 1 else 0)
            && r.stats.(l2ReadMisses := 0, l2WriteMisses := 0, writeBacks := 0)
               == h.stats.(l2ReadMisses := 0, l2WriteMisses := 0, writeBacks := 0)
  {
  }

  /**
   * An L1 request counts, when the block was not in L1, one L1 read or write
   * miss and the one L2 read it issues (an L2 read miss when the block is not
   * in L2 either); a hit leaves L2 and its counters alone and takes one stamp.
   */
  lemma L1AccessCounts(c: Config, h: Hier, a: nat, write: bool)
    requires WellFormed(c, h)
    ensures var r := L1Access(c, h, a, write);
            var miss := !Holds(h.l1, c.g1, a);
            && r.stats.l1ReadMisses == h.stats.l1ReadMisses + (if miss && !write then 1 else 0)
            && r.stats.l1WriteMisses == h.stats.l1WriteMisses + (if miss && write then 1 else 0)
            && r.stats.l2ReadMisses == h.stats.l2ReadMisses + (if miss && !Holds(h.l2, c.g2, BlockAlign(c.g1, a)) then 1 else 0)
            && (!miss ==> r.l2 == h.l2 && r.time == h.time + 1
                          && r.stats.(l1Accesses := 0) == h.stats.(l1Accesses := 0))
  {
    var idx, tag := SetIndex(c.g1, a), TagOf(c.g1, a);
    if idx in h.l1 && !Place(h.l1[idx], tag).Hit? {
      L1FillCounts(c, h, a, write);
    } else if idx !in h.l1 {
      L2AccessCounts(c, h.(stats := MissedStats(h, write)), a, false);
    }
  }

  /** The miss counters after an L1 miss into a set that is there: the fill and any write-back leave them alone. */
  lemma L1FillCounts(c: Config, h: Hier, a: nat, write: bool)
    requires WellFormed(c, h)
    requires SetIndex(c.g1, a) in h.l1 && !Place(h.l1[SetIndex(c.g1, a)], TagOf(c.g1, a)).Hit?
    ensures var r := L1Access(c, h, a, write);
            && r.stats.l1ReadMisses == h.stats.l1ReadMisses + (if write then 0 else 1)
            && r.stats.l1WriteMisses == h.stats.l1WriteMisses + (if write then 1 else 0)
            && r.stats.l2ReadMisses == h.stats.l2ReadMisses + (if Holds(h.l2, c.g2, BlockAlign(c.g1, a)) then 0 else 1)
  {
    var idx, tag := SetIndex(c.g1, a), TagOf(c.g1, a);
    var fetched := L2Access(c, h.(stats := MissedStats(h, write)), a, false);
    L2AccessCounts(c, h.(stats := MissedStats(h, write)), a, false);
    var ways := h.l1[idx];
    var k := Place(ways, tag).way;
    if Place(ways, tag).Victim? && ways[k].dirty {
      var installed := fetched.(l1 := fetched.l1[idx := ways[k := Fresh(tag, fetched.time + 1, write)]], time := fetched.time + 1);
      L2AccessCounts(c, installed, BlockAddr(c.g1, ways[k].tag, idx), true);
    }
  }

  /** Counting changes no cache contents, so the shape invariant still holds. */
  lemma StatsKeepShape(c: Config, h: Hier, s: Stats)
    requires WellFormed(c, h)
    ensures WellFormed(c, h.(stats := s))
  {
    assert h.(stats := s).l1 == h.l1 && h.(stats := s).l2 == h.l2 && h.(stats := s).time == h.time;
  }

  /** The statistics after an L1 miss is counted: one more access and one more read or write miss. */
  function MissedStats(h: Hier, write: bool): Stats
  {
    var counted := h.stats.(l1Accesses := h.stats.l1Accesses + 1);
    if write then counted.(l1WriteMisses := counted.l1WriteMisses + 1)
    else counted.(l1ReadMisses := counted.l1ReadMisses + 1)
  }

  /**
   * After an L1 request the block is in its L1 set, in a way whose stamp is
   * newer than every other way of that set, and dirty after a write; no other
   * L1 set changes.
   */
  lemma L1AccessInstalls(c: Config, h: Hier, a: nat, write: bool)
    requires WellFormed(c, h)
    ensures var r, idx, tag := L1Access(c, h, a, write), SetIndex(c.g1, a), TagOf(c.g1, a);
            && OnlySetChanged(h.l1, r.l1, idx)
            && exists k :: 0 <= k < |r.l1[idx]| && r.l1[idx][k].tag == tag && (write ==> r.l1[idx][k].dirty)
                           && forall j :: 0 <= j < |r.l1[idx]| && j != k ==> r.l1[idx][j].lru < r.l1[idx][k].lru
  {
    var idx, tag := SetIndex(c.g1, a), TagOf(c.g1, a);
    if idx in h.l1 && Place(h.l1[idx], tag).Hit? {
      HitInstalls(c, h, a, write);
    } else if idx in h.l1 {
      FillInstalls(c, h, a, write);
    } else {
      NewSetInstalls(c, h, a, write);
    }
  }

  /** The block is in set idx of l1, stamped newer than every other way there, dirty after a write, and no other set changed. */
  ghost predicate Installed(before: map<nat, seq<Way>>, after: map<nat, seq<Way>>, idx: nat, tag: nat, write: bool)
  {
    && OnlySetChanged(before, after, idx)
    && exists k :: 0 <= k < |after[idx]| && after[idx][k].tag == tag && (write ==> after[idx][k].dirty)
                   && forall j :: 0 <= j < |after[idx]| && j != k ==> after[idx][j].lru < after[idx][k].lru
  }

  /** The hit case of L1AccessInstalls. */
  lemma HitInstalls(c: Config, h: Hier, a: nat, write: bool)
    requires WellFormed(c, h) && SetIndex(c.g1, a) in h.l1 && Place(h.l1[SetIndex(c.g1, a)], TagOf(c.g1, a)).Hit?
    ensures Installed(h.l1, L1Access(c, h, a, write).l1, SetIndex(c.g1, a), TagOf(c.g1, a), write)
  {
    var r, idx, tag := L1Access(c, h, a, write), SetIndex(c.g1, a), TagOf(c.g1, a);
    var k := Place(h.l1[idx], tag).way;
    assert r.l1[idx][k].tag == tag;
  }

  /** The case of L1AccessInstalls where the set is there and the block is not. */
  lemma FillInstalls(c: Config, h: Hier, a: nat, write: bool)
    requires WellFormed(c, h) && SetIndex(c.g1, a) in h.l1 && !Place(h.l1[SetIndex(c.g1, a)], TagOf(c.g1, a)).Hit?
    ensures Installed(h.l1, L1Access(c, h, a, write).l1, SetIndex(c.g1, a), TagOf(c.g1, a), write)
  {
    var r, idx, tag := L1Access(c, h, a, write), SetIndex(c.g1, a), TagOf(c.g1, a);
    var ways := h.l1[idx];
    var k := Place(ways, tag).way;
    var fetched := L2Access(c, h.(stats := MissedStats(h, write)), a, false);
    assert r.l1[idx] == ways[k := Fresh(tag, fetched.time + 1, write)];
    assert r.l1[idx][k].tag == tag;
  }

  /** The case of L1AccessInstalls where the set is not there yet. */
  lemma NewSetInstalls(c: Config, h: Hier, a: nat, write: bool)
    requires WellFormed(c, h) && SetIndex(c.g1, a) !in h.l1
    ensures Installed(h.l1, L1Access(c, h, a, write).l1, SetIndex(c.g1, a), TagOf(c.g1, a), write)
  {
    var r, idx, tag := L1Access(c, h, a, write), SetIndex(c.g1, a), TagOf(c.g1, a);
    var fetched := L2Access(c, h.(stats := MissedStats(h, write)), a, false);
    assert r.l1 == fetched.l1[idx := NewSet(Ways(c.g1), tag, write, fetched.time + 1)];
  }

  /**
   * An L1 hit re-stamps the first way carrying the tag and, for a write, sets
   * its dirty bit; every tag and every other way of the set is unchanged.
   */
  lemma L1HitTouchesOneWay(c: Config, h: Hier, a: nat, write: bool)
    requires WellFormed(c, h) && Holds(h.l1, c.g1, a)
    ensures var r, idx, tag := L1Access(c, h, a, write), SetIndex(c.g1, a), TagOf(c.g1, a);
            var ways, k := h.l1[idx], FirstTag(h.l1[idx], tag);
            && r.l1 == h.l1[idx := r.l1[idx]] && |r.l1[idx]| == |ways|
            && (forall j :: 0 <= j < |ways| && j != k ==> r.l1[idx][j] == ways[j])
            && r.l1[idx][k].tag == ways[k].tag && r.l1[idx][k].valid == ways[k].valid
            && r.l1[idx][k].dirty == (ways[k].dirty || write) && r.l1[idx][k].lru == r.time
  {
  }

  /**
   * An L1 miss in a set that exists fills the first way with tag 0 when there is
   * one and otherwise replaces the LRU victim; the block is installed clean for
   * a read and dirty for a write, and the other ways are unchanged.
   */
  lemma L1MissPlacement(c: Config, h: Hier, a: nat, write: bool)
    requires WellFormed(c, h) && SetIndex(c.g1, a) in h.l1 && !Holds(h.l1, c.g1, a)
    ensures var r, idx, tag := L1Access(c, h, a, write), SetIndex(c.g1, a), TagOf(c.g1, a);
            var ways := h.l1[idx];
            var k := if FirstTag(ways, 0) < |ways| then FirstTag(ways, 0) else LruIndex(ways);
            && |r.l1[idx]| == |ways|
            && r.l1[idx][k].tag == tag && r.l1[idx][k].valid && r.l1[idx][k].dirty == write
            && forall j :: 0 <= j < |ways| && j != k ==> r.l1[idx][j] == ways[j]
  {
    var idx, tag := SetIndex(c.g1, a), TagOf(c.g1, a);
    var ways := h.l1[idx];
    var fetched := L2Access(c, h.(stats := MissedStats(h, write)), a, false);
    var k := Place(ways, tag).way;
    assert L1Access(c, h, a, write).l1[idx] == ways[k := Fresh(tag, fetched.time + 1, write)];
  }

  /**
   * An L1 miss on a set never used before creates it with nWays ways: the block
   * in way 0, every other way value-initialised.
   */
  lemma L1MissNewSet(c: Config, h: Hier, a: nat, write: bool)
    requires WellFormed(c, h) && SetIndex(c.g1, a) !in h.l1
    ensures var r, idx, tag := L1Access(c, h, a, write), SetIndex(c.g1, a), TagOf(c.g1, a);
            && |r.l1[idx]| == Ways(c.g1)
            && r.l1[idx][0].tag == tag && r.l1[idx][0].valid && r.l1[idx][0].dirty == write
            && forall j :: 1 <= j < Ways(c.g1) ==> r.l1[idx][j] == EmptyWay
  {
  }

  /**
   * A miss writes the replaced block back to L2 exactly when it was the dirty
   * LRU victim: then its block address (rebuilt from its tag and the set index,
   * which decode back to them) is dirty in L2 afterwards and the request took
   * three stamps; otherwise it took two.
   */
  lemma L1MissWriteBack(c: Config, h: Hier, a: nat, write: bool)
    requires WellFormed(c, h) && SetIndex(c.g1, a) in h.l1 && !Holds(h.l1, c.g1, a)
    ensures var r, idx, ways := L1Access(c, h, a, write), SetIndex(c.g1, a), h.l1[SetIndex(c.g1, a)];
            var v := LruIndex(ways);
            var writesBack := (forall j :: 0 <= j < |ways| ==> ways[j].tag != 0) && ways[v].dirty;
            var victim := BlockAddr(c.g1, ways[v].tag, idx);
            && SetIndex(c.g1, victim) == idx && TagOf(c.g1, victim) == ways[v].tag
            && r.time == h.time + (if writesBack then 3 else 2)
            && (writesBack ==> var vb := BlockAlign(c.g1, victim);
                               exists k :: 0 <= k < |r.l2[SetIndex(c.g2, vb)]| && r.l2[SetIndex(c.g2, vb)][k].tag == TagOf(c.g2, vb)
                                           && r.l2[SetIndex(c.g2, vb)][k].dirty)
  {
    var idx, tag, ways := SetIndex(c.g1, a), TagOf(c.g1, a), h.l1[SetIndex(c.g1, a)];
    var v := LruIndex(ways);
    BlockAddrRoundTrip(c.g1, ways[v].tag, idx);
    if Place(ways, tag).Victim? && ways[v].dirty {
      WriteBackLands(c, h, a, write);
    }
  }

  /** A miss that replaces a dirty LRU victim writes it back: three stamps, and the victim's block is dirty in L2. */
  lemma WriteBackLands(c: Config, h: Hier, a: nat, write: bool)
    requires WellFormed(c, h) && SetIndex(c.g1, a) in h.l1
    requires var ways := h.l1[SetIndex(c.g1, a)];
             Place(ways, TagOf(c.g1, a)).Victim? && ways[LruIndex(ways)].dirty
    ensures var r, idx, ways := L1Access(c, h, a, write), SetIndex(c.g1, a), h.l1[SetIndex(c.g1, a)];
            var vb := BlockAlign(c.g1, BlockAddr(c.g1, ways[LruIndex(ways)].tag, idx));
            && r.time == h.time + 3
            && exists k :: 0 <= k < |r.l2[SetIndex(c.g2, vb)]| && r.l2[SetIndex(c.g2, vb)][k].tag == TagOf(c.g2, vb)
                           && r.l2[SetIndex(c.g2, vb)][k].dirty
  {
    var idx, tag, ways := SetIndex(c.g1, a), TagOf(c.g1, a), h.l1[SetIndex(c.g1, a)];
    var v := LruIndex(ways);
    var fetched := L2Access(c, h.(stats := MissedStats(h, write)), a, false);
    var installed := fetched.(l1 := fetched.l1[idx := ways[v := Fresh(tag, fetched.time + 1, write)]], time := fetched.time + 1);
    assert Place(ways, tag).way == v;
    assert L1Access(c, h, a, write) == L2Access(c, installed, BlockAddr(c.g1, ways[v].tag, idx), true);
    L2AccessInstalls(c, installed, BlockAddr(c.g1, ways[v].tag, idx), true);
  }

  /**
   * Tag 0 doubles as the "empty way" mark and lookups ignore the valid bit: an
   * address whose tag is 0 hits on a way that was never filled, so it counts no
   * miss and reaches neither L2 nor the dirty-victim path.
   */
  lemma ZeroTagHitsEmptyWay(c: Config, h: Hier, a: nat, write: bool)
    requires WellFormed(c, h) && SetIndex(c.g1, a) in h.l1 && TagOf(c.g1, a) == 0
    requires exists j :: 0 <= j < |h.l1[SetIndex(c.g1, a)]| && h.l1[SetIndex(c.g1, a)][j] == EmptyWay
    ensures var r := L1Access(c, h, a, write);
            && r.stats.l1ReadMisses == h.stats.l1ReadMisses && r.stats.l1WriteMisses == h.stats.l1WriteMisses
            && r.l2 == h.l2
  {
    L1AccessCounts(c, h, a, write);
  }

  /** cache_access counts a read for 'r' and a write for 'w' and ignores every other request kind. */
  lemma CacheAccessDispatch(c: Config, h: Hier, rw: char, a: nat)
    requires WellFormed(c, h)
    ensures var r := CacheAccess(c, h, rw, a);
            && r.stats.readRequests == h.stats.readRequests + (if rw == 'r' then 1 else 0)
            && r.stats.writeRequests == h.stats.writeRequests + (if rw == 'w' then 1 else 0)
            && r.stats.l1Accesses == h.stats.l1Accesses + (if rw == 'r' || rw == 'w' then 1 else 0)
            && (rw != 'r' && rw != 'w' ==> r == h)
  {
    if rw == 'r' {
      ReadRequestCounts(c, h, a);
    } else if rw == 'w' {
      WriteRequestCounts(c, h, a);
    }
  }

  /** A read request counts one read and one L1 access. */
  lemma ReadRequestCounts(c: Config, h: Hier, a: nat)
    requires WellFormed(c, h)
    ensures var r := CacheAccess(c, h, 'r', a);
            && r.stats.readRequests == h.stats.readRequests + 1 && r.stats.writeRequests == h.stats.writeRequests
            && r.stats.l1Accesses == h.stats.l1Accesses + 1
  {
    var s := h.stats.(readRequests := h.stats.readRequests + 1);
    StatsKeepShape(c, h, s);
    var r := L1Access(c, h.(stats := s), a, false);
    assert CacheAccess(c, h, 'r', a) == r;
  }

  /** A write request counts one write and one L1 access. */
  lemma WriteRequestCounts(c: Config, h: Hier, a: nat)
    requires WellFormed(c, h)
    ensures var r := CacheAccess(c, h, 'w', a);
            && r.stats.writeRequests == h.stats.writeRequests + 1 && r.stats.readRequests == h.stats.readRequests
            && r.stats.l1Accesses == h.stats.l1Accesses + 1
  {
    var s := h.stats.(writeRequests := h.stats.writeRequests + 1);
    StatsKeepShape(c, h, s);
    var r := L1Access(c, h.(stats := s), a, true);
    assert CacheAccess(c, h, 'w', a) == r;
  }

}
