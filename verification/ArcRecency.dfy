/**
 * The replacer's lists against a clock. The specification notes when each frame was last accessed and
 * when each page was last evicted; the program keeps only the order of its lists.
 */
module ArcRecency {
  import opened Sql
  import opened Arc

  /** The replacer, a clock that ticks with every operation, and the times of accesses and evictions. */
  datatype Timed = Timed(arc: State, clock: int, used: map<int, int>, evicted: map<int, int>)

  const START: Timed := Timed(EMPTY, 0, map[], map[])

  ghost function Tick(t: Timed, c: nat, op: Op): Timed {
    var now := t.clock + 1;
    var used := if op.Access? then t.used[op.f := now] else t.used;
    var out := if op.Evict? then Victim(t.arc) else None;
    var evicted := if out.Some? && out.value in t.arc.alive then t.evicted[t.arc.alive[out.value].page := now]
      else t.evicted;
    Timed(Apply(t.arc, c, op), now, used, evicted)
  }

  ghost predicate IsTimedRun(t: Timed, c: nat, ops: seq<Op>)
    decreases |ops|
  {
    ops == [] || (Allowed(t.arc, c, ops[0]) && IsTimedRun(Tick(t, c, ops[0]), c, ops[1..]))
  }

  ghost function TimedAfter(t: Timed, c: nat, ops: seq<Op>): Timed
    requires IsTimedRun(t, c, ops)
    decreases |ops|
  {
    if ops == [] then t else TimedAfter(Tick(t, c, ops[0]), c, ops[1..])
  }

  // ----- lists in order of time ---------------------------------------------------------------------------------

  /** Most recent first, and nothing after `bound`. */
  ghost predicate NewestFirst(list: seq<int>, when: map<int, int>, bound: int) {
    list == [] || (list[0] in when && when[list[0]] <= bound && NewestFirst(list[1..], when, when[list[0]] - 1))
  }

  lemma Later(list: seq<int>, when: map<int, int>, bound: int, later: int)
    requires NewestFirst(list, when, bound) && bound <= later
    ensures NewestFirst(list, when, later)
  {
  }

  /** Entry `i` is newer than entry `j` further back. */
  lemma {:induction false} NewerThan(list: seq<int>, when: map<int, int>, bound: int, i: nat, j: nat)
    requires NewestFirst(list, when, bound) && i <= j < |list|
    ensures list[i] in when && list[j] in when && when[list[j]] <= when[list[i]] <= bound
    decreases |list|
  {
    if j > 0 {
      NewerThan(list[1..], when, when[list[0]] - 1, if i > 0 then i - 1 else 0, j - 1);
    }
  }

  lemma {:induction false} OtherTouched(list: seq<int>, when: map<int, int>, bound: int, x: int, time: int)
    requires NewestFirst(list, when, bound) && x !in list
    ensures NewestFirst(list, when[x := time], bound)
    decreases |list|
  {
    if list != [] {
      assert list[0] in list;
      OtherTouched(list[1..], when, when[list[0]] - 1, x, time);
    }
  }

  lemma PushNewest(list: seq<int>, when: map<int, int>, bound: int, x: int, time: int)
    requires NewestFirst(list, when, bound) && x !in list && bound < time
    ensures NewestFirst([x] + list, when[x := time], time)
  {
    OtherTouched(list, when, bound, x, time);
    Later(list, when[x := time], bound, time - 1);
    assert ([x] + list)[1..] == list;
  }

  lemma {:induction false} TakeOut(list: seq<int>, when: map<int, int>, bound: int, x: int)
    requires NewestFirst(list, when, bound)
    ensures NewestFirst(Without(list, x), when, bound)
    decreases |list|
  {
    if list != [] {
      if list[0] == x {
        Later(list[1..], when, when[list[0]] - 1, bound);
      } else {
        TakeOut(list[1..], when, when[list[0]] - 1, x);
        assert Without(list, x)[1..] == Without(list[1..], x);
      }
    }
  }

  lemma {:induction false} DropOldest(list: seq<int>, when: map<int, int>, bound: int)
    requires NewestFirst(list, when, bound)
    ensures NewestFirst(DropLast(list), when, bound)
    decreases |list|
  {
    if |list| > 1 {
      DropOldest(list[1..], when, when[list[0]] - 1);
      assert DropLast(list)[1..] == DropLast(list[1..]);
    }
  }

  // ----- every operation keeps the order ---------------------------------------------------------------------------

  /** Frames by last access, remembered pages by eviction. */
  ghost predicate InOrder(t: Timed) {
    && NewestFirst(t.arc.mru, t.used, t.clock)
    && NewestFirst(t.arc.mfu, t.used, t.clock)
    && NewestFirst(t.arc.mruGhost, t.evicted, t.clock)
    && NewestFirst(t.arc.mfuGhost, t.evicted, t.clock)
  }

  lemma HitInOrder(t: Timed, c: nat, f: int, p: int)
    requires Consistent(t.arc) && InOrder(t) && f in t.arc.alive
    ensures InOrder(Tick(t, c, Access(f, p)))
  {
    var a, now := t.arc, t.clock + 1;
    GhostsStay(t);
    TakeOut(a.mru, t.used, t.clock, f);
    TakeOut(a.mfu, t.used, t.clock, f);
    WithoutMembers(a.mru, f);
    WithoutMembers(a.mfu, f);
    OtherTouched(Without(a.mru, f), t.used, t.clock, f, now);
    Later(Without(a.mru, f), t.used[f := now], t.clock, now);
    PushNewest(Without(a.mfu, f), t.used, t.clock, f, now);
  }

  lemma GhostsStay(t: Timed)
    requires InOrder(t)
    ensures NewestFirst(t.arc.mruGhost, t.evicted, t.clock + 1) && NewestFirst(t.arc.mfuGhost, t.evicted, t.clock + 1)
  {
    Later(t.arc.mruGhost, t.evicted, t.clock, t.clock + 1);
    Later(t.arc.mfuGhost, t.evicted, t.clock, t.clock + 1);
  }

  lemma FramesStay(t: Timed)
    requires InOrder(t)
    ensures NewestFirst(t.arc.mru, t.used, t.clock + 1) && NewestFirst(t.arc.mfu, t.used, t.clock + 1)
  {
    Later(t.arc.mru, t.used, t.clock, t.clock + 1);
    Later(t.arc.mfu, t.used, t.clock, t.clock + 1);
  }

  /** A new frame at the front of either list leaves both in order. */
  lemma NewFrameInOrder(t: Timed, f: int)
    requires Consistent(t.arc) && InOrder(t) && f !in t.arc.alive
    ensures var used, now := t.used[f := t.clock + 1], t.clock + 1;
      && NewestFirst(t.arc.mru, used, now) && NewestFirst(t.arc.mfu, used, now)
      && NewestFirst([f] + t.arc.mru, used, now) && NewestFirst([f] + t.arc.mfu, used, now)
  {
    var a, now := t.arc, t.clock + 1;
    OtherTouched(a.mru, t.used, t.clock, f, now);
    OtherTouched(a.mfu, t.used, t.clock, f, now);
    Later(a.mru, t.used[f := now], t.clock, now);
    Later(a.mfu, t.used[f := now], t.clock, now);
    PushNewest(a.mru, t.used, t.clock, f, now);
    PushNewest(a.mfu, t.used, t.clock, f, now);
  }

  lemma FetchInOrder(t: Timed, c: nat, f: int, p: int)
    requires Consistent(t.arc) && InOrder(t) && f !in t.arc.alive
    ensures InOrder(Tick(t, c, Access(f, p)))
  {
    var a, now := t.arc, t.clock + 1;
    GhostsStay(t);
    NewFrameInOrder(t, f);
    if p in a.ghosts {
      TakeOut(a.mruGhost, t.evicted, now, p);
      TakeOut(a.mfuGhost, t.evicted, now, p);
    } else {
      DropOldest(a.mruGhost, t.evicted, now);
      DropOldest(a.mfuGhost, t.evicted, now);
    }
  }

  lemma EvictInOrder(t: Timed, c: nat)
    requires Arc.Inv(t.arc, c) && InOrder(t)
    ensures InOrder(Tick(t, c, Evict))
  {
    var a := t.arc;
    FramesStay(t);
    GhostsStay(t);
    EvictSpec(a, c);
    if Victim(a).Some? {
      TakeOut(a.mru, t.used, t.clock + 1, Victim(a).value);
      TakeOut(a.mfu, t.used, t.clock + 1, Victim(a).value);
      NewGhostInOrder(t, a.alive[Victim(a).value].page);
    }
  }

  lemma NewGhostInOrder(t: Timed, p: int)
    requires Consistent(t.arc) && InOrder(t) && p !in t.arc.ghosts
    ensures var evicted, now := t.evicted[p := t.clock + 1], t.clock + 1;
      && NewestFirst(t.arc.mruGhost, evicted, now) && NewestFirst(t.arc.mfuGhost, evicted, now)
      && NewestFirst([p] + t.arc.mruGhost, evicted, now) && NewestFirst([p] + t.arc.mfuGhost, evicted, now)
  {
    var a, now := t.arc, t.clock + 1;
    OtherTouched(a.mruGhost, t.evicted, t.clock, p, now);
    OtherTouched(a.mfuGhost, t.evicted, t.clock, p, now);
    Later(a.mruGhost, t.evicted[p := now], t.clock, now);
    Later(a.mfuGhost, t.evicted[p := now], t.clock, now);
    PushNewest(a.mruGhost, t.evicted, t.clock, p, now);
    PushNewest(a.mfuGhost, t.evicted, t.clock, p, now);
  }

  lemma RemoveInOrder(t: Timed, c: nat, f: int)
    requires InOrder(t)
    ensures InOrder(Tick(t, c, Remove(f)))
  {
    FramesStay(t);
    GhostsStay(t);
    TakeOut(t.arc.mru, t.used, t.clock + 1, f);
    TakeOut(t.arc.mfu, t.used, t.clock + 1, f);
  }

  lemma TickInOrder(t: Timed, c: nat, op: Op)
    requires Arc.Inv(t.arc, c) && InOrder(t) && Allowed(t.arc, c, op)
    ensures InOrder(Tick(t, c, op)) && Arc.Inv(Tick(t, c, op).arc, c)
  {
    match op
    case Access(f, p) =>
      AccessInv(t.arc, c, f, p);
      if f in t.arc.alive { HitInOrder(t, c, f, p); } else { FetchInOrder(t, c, f, p); }
    case Evict =>
      EvictInv(t.arc, c);
      EvictInOrder(t, c);
    case SetEvictable(f, e) =>
      SetEvictableInv(t.arc, c, f, e);
      FramesStay(t);
      GhostsStay(t);
    case Remove(f) =>
      RemoveInv(t.arc, c, f);
      RemoveInOrder(t, c, f);
  }

  lemma {:induction false} RunInOrder(t: Timed, c: nat, ops: seq<Op>)
    requires Arc.Inv(t.arc, c) && InOrder(t) && IsTimedRun(t, c, ops)
    ensures Arc.Inv(TimedAfter(t, c, ops).arc, c) && InOrder(TimedAfter(t, c, ops))
    decreases |ops|
  {
    if ops != [] {
      TickInOrder(t, c, ops[0]);
      RunInOrder(Tick(t, c, ops[0]), c, ops[1..]);
    }
  }

  // ----- what eviction and forgetting choose -------------------------------------------------------------------------

  /** In every run the frame given up is the least recently accessed evictable one on its side. */
  lemma EvictsLeastRecent(c: nat, ops: seq<Op>, g: int)
    requires IsTimedRun(START, c, ops)
    ensures var t := TimedAfter(START, c, ops);
      Victim(t.arc).Some? ==>
        var f := Victim(t.arc).value;
        && f in t.arc.alive && t.arc.alive[f].evictable && f in t.used
        && (g in t.arc.alive && t.arc.alive[g].evictable && t.arc.alive[g].inMru == t.arc.alive[f].inMru ==>
              g in t.used && t.used[f] <= t.used[g])
  {
    EmptyInv(c);
    RunInOrder(START, c, ops);
    var t := TimedAfter(START, c, ops);
    EvictSpec(t.arc, c);
    if Victim(t.arc).Some? {
      LeastRecent(t, c, Victim(t.arc).value, g);
    }
  }

  lemma LeastRecent(t: Timed, c: nat, f: int, g: int)
    requires Consistent(t.arc) && InOrder(t) && f in t.arc.alive && t.arc.alive[f].evictable
    requires var list := if t.arc.alive[f].inMru then t.arc.mru else t.arc.mfu;
      exists i :: 0 <= i < |list| && list[i] == f
        && forall j :: i < j < |list| && list[j] in t.arc.alive ==> !t.arc.alive[list[j]].evictable
    ensures f in t.used
    ensures g in t.arc.alive && t.arc.alive[g].evictable && t.arc.alive[g].inMru == t.arc.alive[f].inMru ==>
      g in t.used && t.used[f] <= t.used[g]
  {
    var list := if t.arc.alive[f].inMru then t.arc.mru else t.arc.mfu;
    var i :| 0 <= i < |list| && list[i] == f
      && forall j :: i < j < |list| && list[j] in t.arc.alive ==> !t.arc.alive[list[j]].evictable;
    NewerThan(list, t.used, t.clock, i, i);
    if g in t.arc.alive && t.arc.alive[g].evictable && t.arc.alive[g].inMru == t.arc.alive[f].inMru {
      assert g in list;
      var k :| 0 <= k < |list| && list[k] == g;
      NewerThan(list, t.used, t.clock, k, i);
    }
  }

  /** A page that a miss makes the replacer forget was evicted before every other page remembered on its side. */
  lemma ForgetsOldestGhost(c: nat, ops: seq<Op>, f: int, p: int, q: int, r: int)
    requires IsTimedRun(START, c, ops)
    requires var a := TimedAfter(START, c, ops).arc;
      && Allowed(a, c, Access(f, p)) && p !in a.ghosts
      && q in a.ghosts && q !in DoAccess(a, c, f, p).ghosts && r in a.ghosts && a.ghosts[r] == a.ghosts[q]
    ensures var t := TimedAfter(START, c, ops);
      q in t.evicted && r in t.evicted && t.evicted[q] <= t.evicted[r]
  {
    EmptyInv(c);
    RunInOrder(START, c, ops);
    var t := TimedAfter(START, c, ops);
    var list := if t.arc.ghosts[q] then t.arc.mruGhost else t.arc.mfuGhost;
    assert r in list;
    assert q == list[|list| - 1];
    var k :| 0 <= k < |list| && list[k] == r;
    NewerThan(list, t.evicted, t.clock, k, |list| - 1);
  }

  /**
   * The target moves only on ghost hits: up on a remembered MRU page, by the ratio of the ghost lists but at least
   * by one and at most to `c`; down by one or not at all on an MFU page.
   */
  lemma TargetMoves(a: State, c: nat, f: int, p: int)
    requires Arc.Inv(a, c) && AccessAllowed(a, c, f, p)
    ensures var b := DoAccess(a, c, f, p);
      if f in a.alive || p !in a.ghosts then b.target == a.target
      else if a.ghosts[p] then
        && a.mruGhost != []
        && var up := a.target + (if |a.mfuGhost| < 2 * |a.mruGhost| then 1 else |a.mfuGhost| / |a.mruGhost|);
           b.target == if up < c then up else c
      else b.target == if |a.mfuGhost| >= |a.mruGhost| && a.target > 0 then a.target - 1 else a.target
  {
    if f !in a.alive && p in a.ghosts && a.ghosts[p] {
      assert p in a.mruGhost;
      RatioPositive(|a.mfuGhost|, |a.mruGhost|);
    }
  }

  lemma RatioPositive(n: nat, d: nat)
    ensures 0 < d <= n ==> n / d >= 1
    ensures 0 < d <= n < 2 * d ==> n / d == 1
  {
  }
}
