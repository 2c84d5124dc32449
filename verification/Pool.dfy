/**
 * The buffer pool as a step system. What a call does under the pool latch is one step. A page guard
 * takes four: the fetch that pins, the page latch, the unpinning, and the call back to the replacer.
 */
module Pool {
  import Arc
  import Bags

  type Data = seq<bv8>

  const PAGE_SIZE: nat := 8192

  /** A page of zero bytes. */
  function Blank(): Data {
    seq(PAGE_SIZE, _ => 0)
  }

  datatype Frame = Frame(data: Data, pins: int, dirty: bool)

  /** `Fetched`: pinned, page latch not yet taken. `Latched`: in use. `Leaving`: unpinned, replacer not yet told. */
  datatype Stage = Fetched | Latched | Leaving

  datatype Guard = Guard(page: int, frame: int, write: bool, stage: Stage)

  datatype State = State(
    n: nat, table: map<int, int>, owner: map<int, int>, free: seq<int>, frames: map<int, Frame>,
    arc: Arc.State, disk: map<int, Data>, guards: map<nat, Guard>, crashed: bool)

  datatype Step =
    | Fetch(g: nat, page: int, write: bool)
    | Latch(g: nat)
    | Write(g: nat, page: int, data: Data)
    | GuardFlush(g: nat)
    | Unpin(g: nat)
    | Leave(g: nat)
    | Delete(page: int, junk: Data)
    | Flush(page: int)
    | FlushUnsafe(page: int)

  function OnDisk(disk: map<int, Data>, page: int): Data {
    if page in disk then disk[page] else Blank()
  }

  /** What a page holds, wherever it is: the frame if resident, else the disk. */
  function Logical(s: State, page: int): Data {
    if page in s.table && s.table[page] in s.frames then s.frames[s.table[page]].data else OnDisk(s.disk, page)
  }

  // ----- the steps ---------------------------------------------------------------------------------------

  function FlushFrame(s: State, f: int, page: int): State
    requires f in s.frames
  {
    if s.frames[f].dirty then
      s.(disk := s.disk[page := s.frames[f].data], frames := s.frames[f := s.frames[f].(dirty := false)])
    else s
  }

  /** Bring `page` into the empty frame `f`, pinned once. */
  function Load(s: State, g: nat, f: int, page: int, write: bool): State {
    s.(table := s.table[page := f],
       owner := s.owner[f := page],
       frames := s.frames[f := Frame(OnDisk(s.disk, page), 1, false)],
       arc := Arc.DoSetEvictable(Arc.DoAccess(s.arc, s.n, f, page), f, false),
       guards := s.guards[g := Guard(page, f, write, Fetched)])
  }

  /** Push the replacer's victim out of its frame, writing it back if it is dirty. */
  function EvictFrame(s: State, f: int): State
    requires f in s.frames
  {
    var a := Arc.DoEvict(s.arc);
    var clean := if f in s.owner then FlushFrame(s, f, s.owner[f]) else s;
    clean.(arc := a,
           table := if f in s.owner then s.table - {s.owner[f]} else s.table,
           owner := s.owner - {f},
           frames := clean.frames[f := Frame(Blank(), 0, false)])
  }

  function DoFetch(s: State, g: nat, page: int, write: bool): State {
    if page in s.table && s.table[page] in s.frames then
      var f := s.table[page];
      s.(frames := s.frames[f := s.frames[f].(pins := s.frames[f].pins + 1)],
         arc := Arc.DoAccess(Arc.DoSetEvictable(s.arc, f, false), s.n, f, page),
         guards := s.guards[g := Guard(page, f, write, Fetched)])
    else if s.free != [] then
      Load(s.(free := s.free[1..]), g, s.free[0], page, write)
    else
      var f := Arc.Victim(s.arc);
      if f.Some? && f.value in s.frames then Load(EvictFrame(s, f.value), g, f.value, page, write)
      else s
  }

  function DoLatch(s: State, g: nat): State
    requires g in s.guards && s.guards[g].frame in s.frames
  {
    var guard := s.guards[g];
    var f := s.frames[guard.frame];
    s.(guards := s.guards[g := guard.(stage := Latched)],
       frames := s.frames[guard.frame := f.(dirty := f.dirty || guard.write)])
  }

  /** A write through a guard changes the bytes; only taking the latch marks the frame dirty. */
  function DoWrite(s: State, g: nat, data: Data): State
    requires g in s.guards && s.guards[g].frame in s.frames
  {
    var f := s.guards[g].frame;
    s.(frames := s.frames[f := s.frames[f].(data := data)])
  }

  function DoUnpin(s: State, g: nat): State
    requires g in s.guards && s.guards[g].frame in s.frames
  {
    var f := s.guards[g].frame;
    s.(guards := s.guards[g := s.guards[g].(stage := Leaving)],
       frames := s.frames[f := s.frames[f].(pins := s.frames[f].pins - 1)])
  }

  function DoLeave(s: State, g: nat): State
    requires g in s.guards && s.guards[g].frame in s.frames
  {
    var f := s.guards[g].frame;
    s.(guards := s.guards - {g},
       arc := if s.frames[f].pins == 0 then Arc.DoSetEvictable(s.arc, f, true) else s.arc)
  }

  /** `Remove` asserts that the frame is evictable; if it is not, the process dies. */
  predicate RemoveAsserts(s: State, f: int) {
    f in s.arc.alive && !s.arc.alive[f].evictable
  }

  function DoDelete(s: State, page: int, junk: Data): State {
    if page in s.table && s.table[page] in s.frames then
      var f := s.table[page];
      if s.frames[f].pins > 0 then s
      else if RemoveAsserts(s, f) then s.(crashed := true)
      else
        s.(arc := Arc.DoRemove(s.arc, f), table := s.table - {page}, owner := s.owner - {f},
           free := s.free + [f], frames := s.frames[f := Frame(Blank(), 0, false)], disk := s.disk[page := junk])
    else s.(disk := s.disk[page := junk])
  }

  function DoFlush(s: State, page: int): State {
    if page in s.table && s.table[page] in s.frames then FlushFrame(s, s.table[page], page) else s
  }

  predicate Usable(s: State, g: nat) {
    g in s.guards && s.guards[g].frame in s.frames
  }

  /** The page latch is free for this guard: no writer holds it, and nobody at all if it wants to write. */
  ghost predicate LatchFree(s: State, f: int, write: bool) {
    forall h :: h in s.guards && s.guards[h].frame == f && s.guards[h].stage == Latched ==> !write && !s.guards[h].write
  }

  ghost predicate Enabled(s: State, step: Step) {
    !s.crashed &&
    match step
    case Fetch(g, _, _) => g !in s.guards
    case Latch(g) => Usable(s, g) && s.guards[g].stage == Fetched && LatchFree(s, s.guards[g].frame, s.guards[g].write)
    case Write(g, page, _) => Usable(s, g) && s.guards[g].stage == Latched && s.guards[g].write
      && s.guards[g].page == page
    case GuardFlush(g) => Usable(s, g) && s.guards[g].stage == Latched
    case Unpin(g) => Usable(s, g) && s.guards[g].stage == Latched
    case Leave(g) => Usable(s, g) && s.guards[g].stage == Leaving
    case Delete(_, _) => true
    case Flush(page) => page in s.table ==> LatchFree(s, s.table[page], true)
    case FlushUnsafe(_) => true
  }

  ghost function Next(s: State, step: Step): State
    requires Enabled(s, step)
  {
    match step
    case Fetch(g, page, write) => DoFetch(s, g, page, write)
    case Latch(g) => DoLatch(s, g)
    case Write(g, _, data) => DoWrite(s, g, data)
    case GuardFlush(g) => FlushFrame(s, s.guards[g].frame, s.guards[g].page)
    case Unpin(g) => DoUnpin(s, g)
    case Leave(g) => DoLeave(s, g)
    case Delete(page, junk) => DoDelete(s, page, junk)
    case Flush(page) => DoFlush(s, page)
    case FlushUnsafe(page) => DoFlush(s, page)
  }

  // ----- the invariant ---------------------------------------------------------------------------------------

  /** The page table and the frame-to-page map are inverse to each other. */
  ghost predicate Inverse(table: map<int, int>, owner: map<int, int>) {
    && (forall p :: p in table ==> table[p] in owner && owner[table[p]] == p)
    && (forall f :: f in owner ==> owner[f] in table && table[owner[f]] == f)
  }

  /** Every frame of the pool is either free, and then reset, or holds a page. */
  ghost predicate Partition(s: State) {
    && (forall f :: f in s.frames <==> 0 <= f < s.n)
    && Bags.Distinct(s.free)
    && (forall f :: f in s.frames <==> f in s.free || f in s.owner)
    && (forall f :: f in s.free ==> f !in s.owner && s.frames[f].pins == 0 && !s.frames[f].dirty)
  }

  /** The replacer tracks exactly the resident frames, each with its page. */
  ghost predicate Tracked(arc: Arc.State, n: nat, owner: map<int, int>) {
    && Arc.Inv(arc, n)
    && arc.alive.Keys == owner.Keys
    && (forall f :: f in owner ==> arc.alive[f].page == owner[f])
  }

  ghost function Pinners(guards: map<nat, Guard>, f: int): set<nat> {
    set g | g in guards && guards[g].frame == f && guards[g].stage != Leaving
  }

  ghost predicate SomeoneLeaving(guards: map<nat, Guard>, f: int) {
    exists g :: g in guards && guards[g].frame == f && guards[g].stage == Leaving
  }

  /** Pins count the guards, and a pinned page stays in its frame. */
  ghost predicate PinsOk(s: State) {
    && (forall f :: f in s.frames ==> s.frames[f].pins == |Pinners(s.guards, f)|)
    && (forall g :: g in s.guards ==> s.guards[g].frame in s.frames)
    && (forall g :: g in s.guards && s.guards[g].stage != Leaving ==>
          s.guards[g].frame in s.owner && s.owner[s.guards[g].frame] == s.guards[g].page)
  }

  /** Only unpinned frames are evictable, and all of them are once their guards have left. */
  ghost predicate EvictableOk(s: State) {
    forall f :: f in s.owner && f in s.frames && f in s.arc.alive ==>
      && (s.arc.alive[f].evictable ==> s.frames[f].pins == 0)
      && (s.frames[f].pins == 0 && !SomeoneLeaving(s.guards, f) ==> s.arc.alive[f].evictable)
  }

  ghost predicate Inv(s: State) {
    && Inverse(s.table, s.owner)
    && Partition(s)
    && Tracked(s.arc, s.n, s.owner)
    && PinsOk(s)
    && EvictableOk(s)
  }

  /** Clean frames hold what the disk holds. */
  ghost predicate Clean(s: State) {
    forall f :: f in s.owner && f in s.frames && !s.frames[f].dirty ==> s.frames[f].data == OnDisk(s.disk, s.owner[f])
  }

  /** Whoever may write through a guard has its frame marked dirty. */
  ghost predicate WritersDirty(s: State) {
    forall g :: g in s.guards && s.guards[g].stage == Latched && s.guards[g].write && s.guards[g].frame in s.frames ==>
      s.frames[s.guards[g].frame].dirty
  }

  // ----- guards --------------------------------------------------------------------------------------------------

  lemma NewPinner(guards: map<nat, Guard>, g: nat, guard: Guard)
    requires g !in guards && guard.stage != Leaving
    ensures forall f :: f != guard.frame ==> Pinners(guards[g := guard], f) == Pinners(guards, f)
    ensures |Pinners(guards[g := guard], guard.frame)| == |Pinners(guards, guard.frame)| + 1
    ensures forall f :: SomeoneLeaving(guards[g := guard], f) <==> SomeoneLeaving(guards, f)
  {
    assert Pinners(guards[g := guard], guard.frame) == Pinners(guards, guard.frame) + {g};
    forall f
      ensures SomeoneLeaving(guards[g := guard], f) <==> SomeoneLeaving(guards, f)
    {
      if SomeoneLeaving(guards, f) {
        var h :| h in guards && guards[h].frame == f && guards[h].stage == Leaving;
        assert guards[g := guard][h] == guards[h];
      }
    }
  }

  lemma Unpinned(guards: map<nat, Guard>, g: nat)
    requires g in guards && guards[g].stage != Leaving
    ensures var after := guards[g := guards[g].(stage := Leaving)];
      && (forall f :: f != guards[g].frame ==> Pinners(after, f) == Pinners(guards, f))
      && |Pinners(after, guards[g].frame)| == |Pinners(guards, guards[g].frame)| - 1
      && SomeoneLeaving(after, guards[g].frame)
      && (forall f :: SomeoneLeaving(guards, f) ==> SomeoneLeaving(after, f))
  {
    var after := guards[g := guards[g].(stage := Leaving)];
    assert Pinners(after, guards[g].frame) == Pinners(guards, guards[g].frame) - {g};
    assert g in after && after[g].stage == Leaving;
    forall f | SomeoneLeaving(guards, f)
      ensures SomeoneLeaving(after, f)
    {
      var h :| h in guards && guards[h].frame == f && guards[h].stage == Leaving;
      assert after[h] == guards[h];
    }
  }

  lemma LeftBehind(guards: map<nat, Guard>, g: nat)
    requires g in guards && guards[g].stage == Leaving
    ensures forall f :: Pinners(guards - {g}, f) == Pinners(guards, f)
    ensures forall f :: f != guards[g].frame && SomeoneLeaving(guards, f) ==> SomeoneLeaving(guards - {g}, f)
  {
    forall f | f != guards[g].frame && SomeoneLeaving(guards, f)
      ensures SomeoneLeaving(guards - {g}, f)
    {
      var h :| h in guards && guards[h].frame == f && guards[h].stage == Leaving;
      assert h in guards - {g};
    }
  }
}
