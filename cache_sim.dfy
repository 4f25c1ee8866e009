/**
 * The cache simulator's state as the source keeps it: L1Map and L2Map,
 * updated in place, the global LRU clock and the statistics. Each request
 * method is proved to leave exactly the state the functions of CacheModel
 * describe, so the lemmas there are about these methods too.
 */
module CacheSim {
  import opened CacheModel

  /** find_lru_blk: the scan keeps the last way whose stamp is <= the running minimum. */
  method FindLruBlk(ways: seq<Way>) returns (n: nat)
    requires |ways| > 0
    ensures n == LruIndex(ways)
  {
    n := 0;
    var sMin := ways[0].lru;
    var i := 1;
    while i < |ways|
      invariant 1 <= i <= |ways|
      invariant n == LruIndex(ways[..i]) && sMin == ways[n].lru
    {
      assert ways[..i + 1][..i] == ways[..i];
      if sMin >= ways[i].lru {
        sMin := ways[i].lru;
        n := i;
      }
      i := i + 1;
    }
    assert ways[..i] == ways;
  }

  /**
   * The tag search of every request: stop at the first way carrying the tag;
   * on the way there, note whether a way with tag 0 (an empty way) was passed.
   */
  method ScanSet(ways: seq<Way>, tag: nat) returns (hit: bool, n: nat, slotAvailable: bool)
    ensures hit <==> FirstTag(ways, tag) < |ways|
    ensures hit ==> n == FirstTag(ways, tag)
    ensures !hit ==> (slotAvailable <==> FirstTag(ways, 0) < |ways|)
  {
    hit, n, slotAvailable := false, 0, false;
    var i := 0;
    while i < |ways| && !hit
      invariant 0 <= i <= |ways|
      decreases |ways| - i, if hit then 0 else 1
      invariant hit ==> i < |ways| && n == i && ways[i].tag == tag
      invariant forall j :: 0 <= j < i ==> ways[j].tag != tag
      invariant slotAvailable <==> exists j :: 0 <= j < i && ways[j].tag == 0
    {
      if ways[i].tag == tag {
        hit, n := true, i;
      } else {
        if ways[i].tag == 0 {
          slotAvailable := true;
        }
        i := i + 1;
      }
    }
  }

  /** The walk to the first empty way, run only when the scan saw one. */
  method FirstFreeWay(ways: seq<Way>) returns (n: nat)
    requires FirstTag(ways, 0) < |ways|
    ensures n == FirstTag(ways, 0)
  {
    n := 0;
    while ways[n].tag != 0
      invariant n <= FirstTag(ways, 0)
      decreases FirstTag(ways, 0) - n
    {
      n := n + 1;
    }
  }

  /** The nWays value-initialised entries pushed into a set seen for the first time. */
  method EmptySet(count: nat) returns (s: seq<Way>)
    ensures |s| == count && forall j :: 0 <= j < count ==> s[j] == EmptyWay
  {
    s := [];
    while |s| < count
      invariant |s| <= count && forall j :: 0 <= j < |s| ==> s[j] == EmptyWay
    {
      s := s + [EmptyWay];
    }
  }

  /**
   * The way a miss fills: the first empty way when the scan saw one, else the
   * LRU victim, which must be written back when it is dirty.
   */
  method ChooseWay(ways: seq<Way>, tag: nat, slotAvailable: bool) returns (k: nat, writeBack: bool)
    requires |ways| > 0 && !Place(ways, tag).Hit?
    requires slotAvailable <==> FirstTag(ways, 0) < |ways|
    ensures k == Place(ways, tag).way
    ensures writeBack <==> Place(ways, tag).Victim? && ways[k].dirty
  {
    writeBack := false;
    if !slotAvailable {
      k := FindLruBlk(ways);
      writeBack := ways[k].dirty;
    } else {
      k := FirstFreeWay(ways);
    }
  }

  class Simulator {
    const cfg: Config
    var l1: map<nat, seq<Way>>
    var l2: map<nat, seq<Way>>
    var glrutime: nat
    var stats: Stats

    function State(): Hier
      reads this
    {
      Hier(l1, l2, glrutime, stats)
    }

    predicate Valid()
      reads this
    {
      WellFormed(cfg, State())
    }

    /**
     * setup_cache with sizes 2^c bytes, 2^b-byte blocks and 2^s ways per level,
     * and both maps empty with the clock at 10000 (stamps below that are kept
     * for prefetched blocks).
     */
    constructor(c1: nat, b1: nat, s1: nat, c2: nat, b2: nat, s2: nat)
      requires b1 + s1 <= c1 && b2 + s2 <= c2
      ensures cfg == Config(Geometry(b1, c1 - b1 - s1, s1), Geometry(b2, c2 - b2 - s2, s2))
      ensures l1 == map[] && l2 == map[] && glrutime == 10000 && stats == NoStats
      ensures Valid()
    {
      cfg := Config(Geometry(b1, c1 - b1 - s1, s1), Geometry(b2, c2 - b2 - s2, s2));
      l1, l2 := map[], map[];
      glrutime := 10000;
      stats := NoStats;
    }

    /** add_lru_info: advance the clock and hand out its new value as a stamp. */
    method AddLruInfo() returns (stamp: nat)
      modifies this
      ensures glrutime == old(glrutime) + 1 && stamp == glrutime
      ensures l1 == old(l1) && l2 == old(l2) && stats == old(stats)
    {
      glrutime := glrutime + 1;
      stamp := glrutime;
    }

    /** Count an L2 read miss or an L2 write miss. */
    method CountL2Miss(write: bool)
      modifies this
      ensures stats == if write then old(stats).(l2WriteMisses := old(stats).l2WriteMisses + 1)
                       else old(stats).(l2ReadMisses := old(stats).l2ReadMisses + 1)
      ensures l1 == old(l1) && l2 == old(l2) && glrutime == old(glrutime)
    {
      if write {
        stats := stats.(l2WriteMisses := stats.l2WriteMisses + 1);
      } else {
        stats := stats.(l2ReadMisses := stats.l2ReadMisses + 1);
      }
    }

    /** L2ReadReq (write = false) and L2WriteReq (write = true), prefetching off. */
    method L2Request(a: nat, write: bool)
      requires Valid()
      modifies this
      ensures Valid()
      ensures State() == L2Access(cfg, old(State()), a, write)
    {
      var b := BlockAlign(cfg.g1, a);
      var idx, tag := SetIndex(cfg.g2, b), TagOf(cfg.g2, b);
      ghost var h := State();
      ghost var r := L2Access(cfg, h, a, write);
      if idx in l2 {
        var ways := l2[idx];
        var hit, n, slotAvailable := ScanSet(ways, tag);
        if hit {
          assert Place(ways, tag) == Hit(n);
          var stamp := AddLruInfo();
          l2 := l2[idx := ways[n := Touch(ways[n], stamp, write)]];
          assert State() == r;
        } else {
          CountL2Miss(write);
          var k, writeBack := ChooseWay(ways, tag, slotAvailable);
          if writeBack {
            stats := stats.(writeBacks := stats.writeBacks + 1);
          }
          var stamp := AddLruInfo();
          l2 := l2[idx := ways[k := Fresh(tag, stamp, write)]];
          assert State() == r;
        }
      } else {
        CountL2Miss(write);
        var blank := EmptySet(Ways(cfg.g2));
        var stamp := AddLruInfo();
        assert blank[0 := Fresh(tag, stamp, write)] == NewSet(Ways(cfg.g2), tag, write, stamp);
        l2 := l2[idx := blank[0 := Fresh(tag, stamp, write)]];
        assert State() == r;
      }
    }

    /**
     * L1ReadReq (write = false) and L1WriteReq (write = true): a hit re-stamps
     * the way; a miss goes to L1Miss.
     */
    method L1Request(a: nat, write: bool)
      requires Valid()
      modifies this
      ensures Valid()
      ensures State() == L1Access(cfg, old(State()), a, write)
    {
      var idx, tag := SetIndex(cfg.g1, a), TagOf(cfg.g1, a);
      var hit, n, slotAvailable := false, 0, false;
      if idx in l1 {
        hit, n, slotAvailable := ScanSet(l1[idx], tag);
      }
      if hit {
        ghost var r := L1Access(cfg, State(), a, write);
        var ways := l1[idx];
        assert Place(ways, tag) == Hit(n);
        stats := stats.(l1Accesses := stats.l1Accesses + 1);
        var stamp := AddLruInfo();
        l1 := l1[idx := ways[n := Touch(ways[n], stamp, write)]];
        assert State() == r;
      } else {
        L1Miss(a, write, slotAvailable);
      }
    }

    /** An L1 miss: count it, then fill the existing set or create it. */
    method L1Miss(a: nat, write: bool, slotAvailable: bool)
      requires Valid() && !Holds(l1, cfg.g1, a)
      requires SetIndex(cfg.g1, a) in l1 ==> (slotAvailable <==> FirstTag(l1[SetIndex(cfg.g1, a)], 0) < |l1[SetIndex(cfg.g1, a)]|)
      modifies this
      ensures Valid()
      ensures State() == L1Access(cfg, old(State()), a, write)
    {
      ghost var h := State();
      stats := stats.(l1Accesses := stats.l1Accesses + 1);
      if write {
        stats := stats.(l1WriteMisses := stats.l1WriteMisses + 1);
      } else {
        stats := stats.(l1ReadMisses := stats.l1ReadMisses + 1);
      }
      if SetIndex(cfg.g1, a) in l1 {
        L1Fill(a, write, slotAvailable, h);
      } else {
        L1NewSet(a, write, h);
      }
    }

    /**
     * A miss in a set that exists: read the block from L2 first, install it in
     * the first empty way or over the LRU victim, then write a dirty victim to L2.
     */
    method L1Fill(a: nat, write: bool, slotAvailable: bool, ghost h: Hier)
      requires WellFormed(cfg, h) && SetIndex(cfg.g1, a) in h.l1 && !Holds(h.l1, cfg.g1, a)
      requires slotAvailable <==> FirstTag(h.l1[SetIndex(cfg.g1, a)], 0) < |h.l1[SetIndex(cfg.g1, a)]|
      requires State() == h.(stats := MissedStats(h, write))
      modifies this
      ensures Valid()
      ensures State() == L1Access(cfg, h, a, write)
    {
      var idx, tag := SetIndex(cfg.g1, a), TagOf(cfg.g1, a);
      var ways := l1[idx];
      L2Request(a, false);
      ghost var fetched := State();
      assert fetched == L2Access(cfg, h.(stats := MissedStats(h, write)), a, false);
      var k, writeBack := ChooseWay(ways, tag, slotAvailable);
      InstallL1(idx, k, tag, write);
      assert State() == fetched.(l1 := fetched.l1[idx := ways[k := Fresh(tag, fetched.time + 1, write)]], time := fetched.time + 1);
      if writeBack {
        L2Request(BlockAddr(cfg.g1, ways[k].tag, idx), true);
      }
    }

    /** Install the block with the given tag in way k of L1 set idx, with a new stamp. */
    method InstallL1(idx: nat, k: nat, tag: nat, write: bool)
      requires Valid() && idx in l1 && k < |l1[idx]|
      modifies this
      ensures Valid()
      ensures State() == old(State()).(l1 := old(l1)[idx := old(l1[idx])[k := Fresh(tag, old(glrutime) + 1, write)]], time := old(glrutime) + 1)
    {
      ghost var h := State();
      var ways := l1[idx];
      var stamp := AddLruInfo();
      l1 := l1[idx := ways[k := Fresh(tag, stamp, write)]];
      assert Valid() by {
        LevelOkLater(h.l1, Ways(cfg.g1), h.time, glrutime);
        LevelOkLater(h.l2, Ways(cfg.g2), h.time, glrutime);
        LevelOkUpdate(h.l1, Ways(cfg.g1), glrutime, idx, ways[k := Fresh(tag, glrutime, write)]);
      }
    }

    /** A miss in a set never used before: read the block from L2, then create the set with the block in way 0. */
    method L1NewSet(a: nat, write: bool, ghost h: Hier)
      requires WellFormed(cfg, h) && SetIndex(cfg.g1, a) !in h.l1
      requires State() == h.(stats := MissedStats(h, write))
      modifies this
      ensures Valid()
      ensures State() == L1Access(cfg, h, a, write)
    {
      var idx, tag := SetIndex(cfg.g1, a), TagOf(cfg.g1, a);
      L2Request(a, false);
      var blank := EmptySet(Ways(cfg.g1));
      var stamp := AddLruInfo();
      assert blank[0 := Fresh(tag, stamp, write)] == NewSet(Ways(cfg.g1), tag, write, stamp);
      l1 := l1[idx := blank[0 := Fresh(tag, stamp, write)]];
    }

    /** cache_access: dispatch on the request kind. */
    method Access(rw: char, a: nat)
      requires Valid()
      modifies this
      ensures Valid()
      ensures State() == CacheAccess(cfg, old(State()), rw, a)
    {
      if rw == 'r' {
        stats := stats.(readRequests := stats.readRequests + 1);
        L1Request(a, false);
      } else if rw == 'w' {
        stats := stats.(writeRequests := stats.writeRequests + 1);
        L1Request(a, true);
      }
    }
  }
}
