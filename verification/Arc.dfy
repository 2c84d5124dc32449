/** The ARC replacer: four recency lists, two maps, a count and a target. */
module Arc {
  import Sets
  import opened Bags
  import opened Sql

  /** What the replacer knows of a frame in memory. */
  datatype Status = Status(page: int, evictable: bool, inMru: bool)

  /**
   * `mru` and `mfu` list frames in memory, most recent first; the ghost lists remember pages that
   * have been evicted. `ghosts` says of a remembered page whether it is in the MRU ghost list.
   */
  datatype State = State(
    mru: seq<int>, mfu: seq<int>, mruGhost: seq<int>, mfuGhost: seq<int>,
    alive: map<int, Status>, ghosts: map<int, bool>, size: int, target: int)

  // ----- lists without duplicates --------------------------------------------------------------------

  /** The list with one entry taken out. */
  function Without(s: seq<int>, x: int): (r: seq<int>)
    ensures x in s ==> |r| == |s| - 1
    ensures x !in s ==> r == s
  {
    if s == [] then []
    else if s[0] == x then s[1..]
    else [s[0]] + Without(s[1..], x)
  }

  lemma {:induction false} WithoutMembers(s: seq<int>, x: int)
    requires Distinct(s)
    ensures Distinct(Without(s, x))
    ensures forall y :: y in Without(s, x) <==> y in s && y != x
  {
    if s != [] {
      WithoutMembers(s[1..], x);
      var r := Without(s, x);
      assert forall y :: y in s <==> y == s[0] || y in s[1..];
      if s[0] != x {
        assert forall y :: y in r <==> y == s[0] || y in Without(s[1..], x);
        assert s[0] !in Without(s[1..], x);
        forall i, j | 0 <= i < j < |r|
          ensures r[i] != r[j]
        {
          assert r[j] in Without(s[1..], x);
        }
      }
    }
  }

  lemma PushFront(s: seq<int>, x: int)
    requires Distinct(s) && x !in s
    ensures Distinct([x] + s) && forall y :: y in [x] + s <==> y == x || y in s
  {
  }

  /** Pigeonhole: distinct entries drawn from a set are no more than the set has. */
  lemma {:induction false} Pigeonhole(s: seq<int>, pool: set<int>)
    requires Distinct(s) && forall x :: x in s ==> x in pool
    ensures |s| <= |pool|
    decreases |s|
  {
    if s != [] {
      assert s[0] in s && s[0] !in s[1..];
      assert forall x :: x in s[1..] ==> x in s;
      Pigeonhole(s[1..], pool - {s[0]});
    }
  }

  /** The frame ids of a pool of `c` frames. */
  ghost function Frames(c: nat): (r: set<int>)
    ensures |r| == c && forall f :: f in r <==> 0 <= f < c
  {
    if c == 0 then {} else Frames(c - 1) + {c - 1}
  }

  lemma DistinctConcat(s: seq<int>, t: seq<int>)
    requires Distinct(s) && Distinct(t) && forall x :: x in s ==> x !in t
    ensures Distinct(s + t)
  {
    forall i, j | 0 <= i < j < |s + t|
      ensures (s + t)[i] != (s + t)[j]
    {
      if i < |s| <= j {
        assert (s + t)[i] in s && (s + t)[j] in t;
      }
    }
  }

  // ----- the invariant ---------------------------------------------------------------------------------

  ghost function Evictables(alive: map<int, Status>): set<int> {
    set f | f in alive && alive[f].evictable
  }

  /** Lists and maps agree. */
  ghost predicate Consistent(a: State) {
    && Distinct(a.mru) && Distinct(a.mfu) && Distinct(a.mruGhost) && Distinct(a.mfuGhost)
    && (forall f :: f in a.mru <==> f in a.alive && a.alive[f].inMru)
    && (forall f :: f in a.mfu <==> f in a.alive && !a.alive[f].inMru)
    && (forall p :: p in a.mruGhost <==> p in a.ghosts && a.ghosts[p])
    && (forall p :: p in a.mfuGhost <==> p in a.ghosts && !a.ghosts[p])
  }

  /** A page is in one frame at most, and not also remembered as evicted. */
  ghost predicate OnePlace(a: State) {
    && (forall f, g :: f in a.alive && g in a.alive && a.alive[f].page == a.alive[g].page ==> f == g)
    && (forall f :: f in a.alive ==> a.alive[f].page !in a.ghosts)
  }

  ghost predicate Bounded(a: State, c: nat) {
    && (forall f :: f in a.alive ==> 0 <= f < c)
    && |a.mru| + |a.mruGhost| <= c
    && |a.mru| + |a.mruGhost| + |a.mfu| + |a.mfuGhost| <= 2 * c
    && 0 <= a.target <= c
    && a.size == |Evictables(a.alive)|
  }

  ghost predicate Inv(a: State, c: nat) {
    Consistent(a) && OnePlace(a) && Bounded(a, c)
  }

  const EMPTY: State := State([], [], [], [], map[], map[], 0, 0)

  lemma EmptyInv(c: nat)
    ensures Inv(EMPTY, c)
  {
    assert Evictables(map[]) == {};
  }

  // ----- the operations --------------------------------------------------------------------------------

  /** The position closest to the back whose frame may be evicted. */
  function LastEvictable(list: seq<int>, alive: map<int, Status>): (r: Option<nat>)
    ensures r.Some? ==> r.value < |list|
  {
    if list == [] then None
    else
      var f := list[|list| - 1];
      if f in alive && alive[f].evictable then Some(|list| - 1)
      else LastEvictable(list[..|list| - 1], alive)
  }

  lemma {:induction false} LastEvictableIs(list: seq<int>, alive: map<int, Status>)
    ensures var r := LastEvictable(list, alive);
      && (r.None? ==> forall f :: f in list && f in alive ==> !alive[f].evictable)
      && (r.Some? ==> list[r.value] in alive && alive[list[r.value]].evictable
                      && forall i :: r.value < i < |list| && list[i] in alive ==> !alive[list[i]].evictable)
  {
    if list != [] {
      var f := list[|list| - 1];
      if !(f in alive && alive[f].evictable) {
        LastEvictableIs(list[..|list| - 1], alive);
        assert forall g :: g in list <==> g == f || g in list[..|list| - 1];
      }
    }
  }

  /** Move the frame at position `i` of one list out of memory, its page to the front of that ghost list. */
  function EvictAt(a: State, fromMru: bool, f: int): State
    requires f in a.alive
  {
    var p := a.alive[f].page;
    if fromMru then
      a.(mru := Without(a.mru, f), mruGhost := [p] + a.mruGhost, ghosts := a.ghosts[p := true],
         alive := a.alive - {f}, size := a.size - 1)
    else
      a.(mfu := Without(a.mfu, f), mfuGhost := [p] + a.mfuGhost, ghosts := a.ghosts[p := false],
         alive := a.alive - {f}, size := a.size - 1)
  }

  /** Which list gives up a frame: MRU while it is at or above its target, the other if all are pinned. */
  function VictimFromMru(a: State): bool {
    if |a.mru| >= a.target then LastEvictable(a.mru, a.alive).Some?
    else LastEvictable(a.mfu, a.alive).None?
  }

  function Victim(a: State): (r: Option<int>)
  {
    if a.size == 0 then None
    else
      var list := if VictimFromMru(a) then a.mru else a.mfu;
      var i := LastEvictable(list, a.alive);
      if i.Some? then Some(list[i.value]) else None
  }

  function DoEvict(a: State): State
  {
    var f := Victim(a);
    if f.Some? && f.value in a.alive then EvictAt(a, VictimFromMru(a), f.value) else a
  }

  function Min(x: int, y: int): int {
    if x <= y then x else y
  }

  /** The new target after a hit in a ghost list. */
  function Adapt(a: State, c: nat, mruHit: bool): int {
    var b1, b2 := |a.mruGhost|, |a.mfuGhost|;
    if mruHit then
      if b1 >= b2 then Min(a.target + 1, c)
      else if b1 == 0 then a.target
      else Min(a.target + b2 / b1, c)
    else if b2 >= b1 then (if a.target > 0 then a.target - 1 else 0)
    else a.target
  }

  /** Forget the oldest remembered page of a ghost list. */
  function DropLast(s: seq<int>): seq<int> {
    if s == [] then [] else s[..|s| - 1]
  }

  function TrimGhosts(a: State, c: nat): State {
    var total := |a.mru| + |a.mruGhost|;
    if total == c then
      if a.mruGhost == [] then a
      else a.(mruGhost := DropLast(a.mruGhost), ghosts := a.ghosts - {a.mruGhost[|a.mruGhost| - 1]})
    else if total + |a.mfu| + |a.mfuGhost| == 2 * c then
      if a.mfuGhost == [] then a
      else a.(mfuGhost := DropLast(a.mfuGhost), ghosts := a.ghosts - {a.mfuGhost[|a.mfuGhost| - 1]})
    else a
  }

  function Hit(a: State, f: int): State
    requires f in a.alive
  {
    var s := a.alive[f].(inMru := false);
    if a.alive[f].inMru then a.(mru := Without(a.mru, f), mfu := [f] + a.mfu, alive := a.alive[f := s])
    else a.(mfu := [f] + Without(a.mfu, f), alive := a.alive[f := s])
  }

  function GhostHit(a: State, c: nat, f: int, p: int): State
    requires p in a.ghosts
  {
    var b := a.(target := Adapt(a, c, a.ghosts[p]), ghosts := a.ghosts - {p},
                mfu := [f] + a.mfu, alive := a.alive[f := Status(p, false, false)]);
    if a.ghosts[p] then b.(mruGhost := Without(a.mruGhost, p))
    else b.(mfuGhost := Without(a.mfuGhost, p))
  }

  function Miss(a: State, c: nat, f: int, p: int): State {
    var b := TrimGhosts(a, c);
    b.(mru := [f] + b.mru, alive := b.alive[f := Status(p, false, true)])
  }

  function DoAccess(a: State, c: nat, f: int, p: int): State {
    if f in a.alive then Hit(a, f)
    else if p in a.ghosts then GhostHit(a, c, f, p)
    else Miss(a, c, f, p)
  }

  function DoSetEvictable(a: State, f: int, e: bool): State {
    if f !in a.alive || a.alive[f].evictable == e then a
    else a.(alive := a.alive[f := a.alive[f].(evictable := e)], size := if e then a.size + 1 else a.size - 1)
  }

  function DoRemove(a: State, f: int): State {
    if f !in a.alive then a
    else if a.alive[f].inMru then a.(mru := Without(a.mru, f), alive := a.alive - {f}, size := a.size - 1)
    else a.(mfu := Without(a.mfu, f), alive := a.alive - {f}, size := a.size - 1)
  }

  // ----- every operation keeps the invariant ------------------------------------------------------------

  /** All frames in memory fit in the pool, with room for one more if `f` is not among them. */
  lemma AliveBound(a: State, c: nat, f: int)
    requires Consistent(a) && Bounded(a, c)
    ensures |a.mru| + |a.mfu| <= c
    ensures 0 <= f < c && f !in a.alive ==> |a.mru| + |a.mfu| < c
  {
    var all := a.mru + a.mfu;
    DistinctConcat(a.mru, a.mfu);
    Pigeonhole(all, Frames(c));
    if 0 <= f < c && f !in a.alive {
      Pigeonhole(all, Frames(c) - {f});
    }
  }

  /** The trims at equality always find a ghost to drop. */
  lemma TrimFindsGhost(a: State, c: nat, f: int)
    requires Consistent(a) && Bounded(a, c) && 0 <= f < c && f !in a.alive
    ensures |a.mru| + |a.mruGhost| == c ==> a.mruGhost != []
    ensures |a.mru| + |a.mruGhost| < c && |a.mru| + |a.mruGhost| + |a.mfu| + |a.mfuGhost| == 2 * c ==> a.mfuGhost != []
  {
    AliveBound(a, c, f);
  }

  lemma DropLastMembers(s: seq<int>)
    requires Distinct(s) && s != []
    ensures Distinct(DropLast(s)) && |DropLast(s)| == |s| - 1
    ensures forall y :: y in DropLast(s) <==> y in s && y != s[|s| - 1]
  {
    assert forall y :: y in s <==> y in DropLast(s) || y == s[|s| - 1];
  }

  lemma TrimInv(a: State, c: nat, f: int)
    requires Inv(a, c) && 0 <= f < c && f !in a.alive
    ensures Inv(TrimGhosts(a, c), c)
    ensures var b := TrimGhosts(a, c);
      && b.mru == a.mru && b.mfu == a.mfu && b.alive == a.alive && b.ghosts.Keys <= a.ghosts.Keys
      && |b.mru| + |b.mruGhost| < c && |b.mru| + |b.mruGhost| + |b.mfu| + |b.mfuGhost| < 2 * c
  {
    TrimFindsGhost(a, c, f);
    if a.mruGhost != [] { DropLastMembers(a.mruGhost); }
    if a.mfuGhost != [] { DropLastMembers(a.mfuGhost); }
  }

  lemma HitInv(a: State, c: nat, f: int)
    requires Inv(a, c) && f in a.alive
    ensures Inv(Hit(a, f), c) && Hit(a, f).alive.Keys == a.alive.Keys
  {
    WithoutMembers(a.mru, f);
    WithoutMembers(a.mfu, f);
    PushFront(if a.alive[f].inMru then a.mfu else Without(a.mfu, f), f);
    assert Evictables(Hit(a, f).alive) == Evictables(a.alive);
  }

  lemma NewFrame(alive: map<int, Status>, f: int, s: Status)
    requires f !in alive && !s.evictable
    ensures Evictables(alive[f := s]) == Evictables(alive)
  {
  }

  lemma AdaptBound(a: State, c: nat, mruHit: bool)
    requires 0 <= a.target <= c
    ensures 0 <= Adapt(a, c, mruHit) <= c
  {
  }

  lemma GhostHitConsistent(a: State, c: nat, f: int, p: int)
    requires Consistent(a) && p in a.ghosts && f !in a.alive
    ensures Consistent(GhostHit(a, c, f, p))
  {
    WithoutMembers(a.mruGhost, p);
    WithoutMembers(a.mfuGhost, p);
    PushFront(a.mfu, f);
  }

  lemma GhostHitInv(a: State, c: nat, f: int, p: int)
    requires Inv(a, c) && p in a.ghosts && f !in a.alive && 0 <= f < c
    ensures Inv(GhostHit(a, c, f, p), c)
  {
    GhostHitConsistent(a, c, f, p);
    AdaptBound(a, c, a.ghosts[p]);
    NewFrame(a.alive, f, Status(p, false, false));
    assert p in if a.ghosts[p] then a.mruGhost else a.mfuGhost;
  }

  lemma MissInv(a: State, c: nat, f: int, p: int)
    requires Inv(a, c) && p !in a.ghosts && f !in a.alive && 0 <= f < c
    requires forall g :: g in a.alive ==> a.alive[g].page != p
    ensures Inv(Miss(a, c, f, p), c)
  {
    TrimInv(a, c, f);
    var b := TrimGhosts(a, c);
    PushFront(b.mru, f);
    NewFrame(b.alive, f, Status(p, false, true));
  }

  /** The caller's side of an access: a live frame keeps its page, a new one brings a page no frame holds. */
  ghost predicate AccessAllowed(a: State, c: nat, f: int, p: int) {
    && 0 <= f < c
    && (f in a.alive ==> a.alive[f].page == p)
    && (f !in a.alive ==> forall g :: g in a.alive ==> a.alive[g].page != p)
  }

  lemma AccessInv(a: State, c: nat, f: int, p: int)
    requires Inv(a, c) && AccessAllowed(a, c, f, p)
    ensures Inv(DoAccess(a, c, f, p), c)
    ensures DoAccess(a, c, f, p).alive.Keys == a.alive.Keys + {f}
    ensures DoAccess(a, c, f, p).alive[f].page == p
  {
    if f in a.alive {
      HitInv(a, c, f);
    } else if p in a.ghosts {
      GhostHitInv(a, c, f, p);
    } else {
      MissInv(a, c, f, p);
      TrimInv(a, c, f);
    }
  }

  lemma RemovedFrame(alive: map<int, Status>, f: int)
    requires f in alive && alive[f].evictable
    ensures |Evictables(alive - {f})| == |Evictables(alive)| - 1
  {
    assert Evictables(alive - {f}) == Evictables(alive) - {f};
  }

  /** Eviction: none exactly when no frame may go; else the rule's victim, oldest evictable of its list. */
  lemma EvictSpec(a: State, c: nat)
    requires Inv(a, c)
    ensures Victim(a).None? <==> forall f :: f in a.alive ==> !a.alive[f].evictable
    ensures Victim(a).Some? ==>
      var f := Victim(a).value;
      var list := if VictimFromMru(a) then a.mru else a.mfu;
      && f in a.alive && a.alive[f].evictable && a.alive[f].inMru == VictimFromMru(a)
      && exists i :: 0 <= i < |list| && list[i] == f
           && forall j :: i < j < |list| && list[j] in a.alive ==> !a.alive[list[j]].evictable
  {
    LastEvictableIs(a.mru, a.alive);
    LastEvictableIs(a.mfu, a.alive);
    if a.size == 0 {
      assert Evictables(a.alive) == {};
      assert forall f :: f in a.alive && a.alive[f].evictable ==> f in Evictables(a.alive);
    } else {
      var f := Sets.Pick(Evictables(a.alive));
      assert f in a.mru || f in a.mfu;
    }
  }

  /** The preferred list gives up a frame whenever it has an evictable one. */
  lemma EvictPrefers(a: State, c: nat)
    requires Inv(a, c) && Victim(a).Some?
    ensures |a.mru| >= a.target ==> (VictimFromMru(a) <==> exists f :: f in a.mru && a.alive[f].evictable)
    ensures |a.mru| < a.target ==> (!VictimFromMru(a) <==> exists f :: f in a.mfu && a.alive[f].evictable)
  {
    SomeEvictable(a.mru, a.alive);
    SomeEvictable(a.mfu, a.alive);
  }

  lemma SomeEvictable(list: seq<int>, alive: map<int, Status>)
    requires forall f :: f in list ==> f in alive
    ensures LastEvictable(list, alive).Some? <==> exists f :: f in list && alive[f].evictable
  {
    LastEvictableIs(list, alive);
    var r := LastEvictable(list, alive);
    if r.Some? {
      assert list[r.value] in list && alive[list[r.value]].evictable;
    }
  }

  lemma EvictInv(a: State, c: nat)
    requires Inv(a, c)
    ensures Inv(DoEvict(a), c)
    ensures Victim(a).Some? ==> DoEvict(a).alive == a.alive - {Victim(a).value}
  {
    EvictSpec(a, c);
    if Victim(a).Some? {
      var f := Victim(a).value;
      WithoutMembers(a.mru, f);
      WithoutMembers(a.mfu, f);
      PushFront(if VictimFromMru(a) then a.mruGhost else a.mfuGhost, a.alive[f].page);
      RemovedFrame(a.alive, f);
    }
  }

  lemma SetEvictableInv(a: State, c: nat, f: int, e: bool)
    requires Inv(a, c)
    ensures Inv(DoSetEvictable(a, f, e), c) && DoSetEvictable(a, f, e).alive.Keys == a.alive.Keys
  {
    var b := DoSetEvictable(a, f, e);
    if f in a.alive && a.alive[f].evictable != e {
      if e {
        assert Evictables(b.alive) == Evictables(a.alive) + {f};
      } else {
        assert Evictables(b.alive) == Evictables(a.alive) - {f};
      }
    }
  }

  lemma RemoveInv(a: State, c: nat, f: int)
    requires Inv(a, c) && (f in a.alive ==> a.alive[f].evictable)
    ensures Inv(DoRemove(a, f), c) && DoRemove(a, f).alive == a.alive - {f}
  {
    if f in a.alive {
      WithoutMembers(a.mru, f);
      WithoutMembers(a.mfu, f);
      RemovedFrame(a.alive, f);
    }
  }

  /** What an access changes in the frame map: the accessed frame's entry and no other. */
  lemma AccessAlive(a: State, c: nat, f: int, p: int)
    ensures var b := DoAccess(a, c, f, p);
      && f in b.alive && b.alive == a.alive[f := b.alive[f]]
      && b.alive[f].evictable == (f in a.alive && a.alive[f].evictable)
      && b.alive[f].page == if f in a.alive then a.alive[f].page else p
  {
  }

  // ----- runs -----------------------------------------------------------------------------------------------

  datatype Op = Access(f: int, p: int) | Evict | SetEvictable(f: int, evictable: bool) | Remove(f: int)

  /** Accesses bind a frame to a page that is in no other frame; removing a frame asserts that it may go. */
  ghost predicate Allowed(a: State, c: nat, op: Op) {
    match op
    case Access(f, p) => AccessAllowed(a, c, f, p)
    case Evict => true
    case SetEvictable(_, _) => true
    case Remove(f) => f in a.alive ==> a.alive[f].evictable
  }

  ghost function Apply(a: State, c: nat, op: Op): State {
    match op
    case Access(f, p) => DoAccess(a, c, f, p)
    case Evict => DoEvict(a)
    case SetEvictable(f, evictable) => DoSetEvictable(a, f, evictable)
    case Remove(f) => DoRemove(a, f)
  }

  ghost predicate IsRun(a: State, c: nat, ops: seq<Op>)
    decreases |ops|
  {
    ops == [] || (Allowed(a, c, ops[0]) && IsRun(Apply(a, c, ops[0]), c, ops[1..]))
  }

  ghost function After(a: State, c: nat, ops: seq<Op>): State
    requires IsRun(a, c, ops)
    decreases |ops|
  {
    if ops == [] then a else After(Apply(a, c, ops[0]), c, ops[1..])
  }

  /** In every run of a new replacer the lists agree with the maps and all four bounds hold. */
  lemma ArcBounds(c: nat, ops: seq<Op>)
    requires IsRun(EMPTY, c, ops)
    ensures Inv(After(EMPTY, c, ops), c)
  {
    EmptyInv(c);
    RunInv(EMPTY, c, ops);
  }

  lemma {:induction false} RunInv(a: State, c: nat, ops: seq<Op>)
    requires Inv(a, c) && IsRun(a, c, ops)
    ensures Inv(After(a, c, ops), c)
    decreases |ops|
  {
    if ops != [] {
      match ops[0] {
        case Access(f, p) => AccessInv(a, c, f, p);
        case Evict => EvictInv(a, c);
        case SetEvictable(f, evictable) => SetEvictableInv(a, c, f, evictable);
        case Remove(f) => RemoveInv(a, c, f);
      }
      RunInv(Apply(a, c, ops[0]), c, ops[1..]);
    }
  }
}
