/** Which pages each pool operation moves, in and out of which frames, and what it writes to disk. */
module PoolMoves {
  import opened Pool
  import opened PoolInv
  import opened PoolTheorems
  import ArcRecency
  import ArcFrequency

  // ----- fetching ----------------------------------------------------------------------------------------------

  /** The page is resident: one more pin, and nothing moves. */
  lemma FetchResident(s: State, g: nat, page: int, write: bool)
    requires Inv(s) && Enabled(s, Fetch(g, page, write)) && page in s.table
    ensures s.table[page] in s.frames
    ensures var s', f := Next(s, Fetch(g, page, write)), s.table[page];
      && s'.table == s.table && s'.owner == s.owner && s'.free == s.free && s'.disk == s.disk
      && s'.frames == s.frames[f := s.frames[f].(pins := s.frames[f].pins + 1)]
      && s'.guards == s.guards[g := Guard(page, f, write, Fetched)]
  {
    ResidentFrame(s, page);
  }

  /** Where a page that was read in has gone, with the disk's bytes, pinned once. */
  ghost predicate ReadInto(s: State, s': State, g: nat, page: int, write: bool, f: int) {
    && s'.table == s.table[page := f] && s'.owner == s.owner[f := page]
    && s'.frames == s.frames[f := Frame(OnDisk(s.disk, page), 1, false)] && s'.disk == s.disk
    && s'.guards == s.guards[g := Guard(page, f, write, Fetched)]
  }

  /** The page is absent and a frame is free: it is read into a free frame and no other page moves. */
  lemma FetchIntoFree(s: State, g: nat, page: int, write: bool)
    requires Inv(s) && Enabled(s, Fetch(g, page, write)) && page !in s.table && s.free != []
    ensures var s' := Next(s, Fetch(g, page, write));
      exists f :: f in s.free && f in s.frames && ReadInto(s, s', g, page, write, f) && [f] + s'.free == s.free
  {
    var f := s.free[0];
    assert f in s.free && ReadInto(s, Next(s, Fetch(g, page, write)), g, page, write, f);
  }

  /** The pool with the page of frame `f` pushed out, written back exactly if its frame was dirty. */
  ghost function PushedOut(s: State, f: int): State
    requires f in s.owner && f in s.frames
  {
    s.(table := s.table - {s.owner[f]}, owner := s.owner - {f},
       disk := if s.frames[f].dirty then s.disk[s.owner[f] := s.frames[f].data] else s.disk)
  }

  /**
   * The page is absent and no frame is free: if the fetch succeeds, exactly one page leaves, that of the replacer's
   * victim, an unpinned frame; dirty bytes are written back, clean ones are not.
   */
  lemma FetchEvicts(s: State, g: nat, page: int, write: bool)
    requires Inv(s) && Enabled(s, Fetch(g, page, write)) && page !in s.table && s.free == []
    requires Arc.Victim(s.arc).Some?
    ensures var s', f := Next(s, Fetch(g, page, write)), Arc.Victim(s.arc).value;
      && f in s.owner && f in s.frames && s.frames[f].pins == 0 && s'.free == []
      && ReadInto(PushedOut(s, f), s', g, page, write, f)
  {
    VictimUnpinned(s);
    var f := Arc.Victim(s.arc).value;
    FrameEmptied(s, f);
    assert Next(s, Fetch(g, page, write)) == Load(EvictFrame(s, f), g, f, page, write);
  }

  lemma FrameEmptied(s: State, f: int)
    requires f in s.owner && f in s.frames
    ensures var out, t := PushedOut(s, f), EvictFrame(s, f);
      && t.table == out.table && t.owner == out.owner && t.disk == out.disk && t.guards == out.guards
      && t.free == s.free && t.frames.Keys == s.frames.Keys
      && forall h :: h in s.frames && h != f ==> t.frames[h] == s.frames[h]
  {
  }

  // ----- guards ------------------------------------------------------------------------------------------------------

  /** What the other steps of a guard change: one frame's mark, bytes or pin, and the guard's own stage. */
  lemma GuardSteps(s: State, step: Step)
    requires Inv(s) && Enabled(s, step) && (step.Latch? || step.Write? || step.Unpin? || step.Leave?)
    ensures step.g in s.guards && s.guards[step.g].frame in s.frames
    ensures var s', guard := Next(s, step), s.guards[step.g];
      var frame := s.frames[guard.frame];
      && s'.table == s.table && s'.owner == s.owner && s'.free == s.free && s'.disk == s.disk
      && s'.frames == s.frames[guard.frame :=
           if step.Latch? then frame.(dirty := frame.dirty || guard.write)
           else if step.Write? then frame.(data := step.data)
           else if step.Unpin? then frame.(pins := frame.pins - 1) else frame]
      && s'.guards == if step.Latch? then s.guards[step.g := guard.(stage := Latched)]
                      else if step.Write? then s.guards
                      else if step.Unpin? then s.guards[step.g := guard.(stage := Leaving)] else s.guards - {step.g}
  {
  }

  // ----- flushing and deleting -----------------------------------------------------------------------------------

  /** A flush writes a dirty frame's bytes and clears the mark; it changes nothing else, and nothing if clean. */
  lemma FlushWrites(s: State, step: Step, page: int)
    requires Inv(s) && Enabled(s, step) && (step == Flush(page) || step == FlushUnsafe(page))
    ensures page in s.table ==> s.table[page] in s.frames
    ensures var s' := Next(s, step);
      if page in s.table && s.frames[s.table[page]].dirty then
        && OnDisk(s'.disk, page) == Logical(s, page) && s'.disk == s.disk[page := OnDisk(s'.disk, page)]
        && var f := s.table[page];
           s' == s.(disk := s'.disk, frames := s.frames[f := s.frames[f].(dirty := false)])
      else s' == s
  {
    if page in s.table { ResidentFrame(s, page); }
  }

  /** A pinned page stays; an unpinned one leaves its frame to the free list; on disk it is gone. */
  lemma DeleteFrees(s: State, page: int, junk: Data)
    requires Inv(s) && Enabled(s, Delete(page, junk)) && !Next(s, Delete(page, junk)).crashed
    ensures page in s.table ==> s.table[page] in s.frames
    ensures var s' := Next(s, Delete(page, junk));
      if page in s.table && s.frames[s.table[page]].pins > 0 then s' == s
      else
        && s'.disk == s.disk[page := junk] && s'.guards == s.guards
        && (page in s.table ==>
              && s'.table == s.table - {page} && s'.owner == s.owner - {s.table[page]}
              && s'.free == s.free + [s.table[page]]
              && s'.frames == s.frames[s.table[page] := Frame(Blank(), 0, false)])
        && (page !in s.table ==> s'.table == s.table && s'.frames == s.frames && s'.free == s.free)
  {
    if page in s.table { ResidentFrame(s, page); }
  }

  // ----- the replacer's own run ------------------------------------------------------------------------------------

  /** What a step asks of the replacer. */
  ghost function ReplacerOps(s: State, step: Step): seq<Arc.Op> {
    match step
    case Fetch(_, page, _) =>
      if page in s.table then [Arc.SetEvictable(s.table[page], false), Arc.Access(s.table[page], page)]
      else if s.free != [] then [Arc.Access(s.free[0], page), Arc.SetEvictable(s.free[0], false)]
      else if Arc.Victim(s.arc).Some? then
        var f := Arc.Victim(s.arc).value;
        [Arc.Evict, Arc.Access(f, page), Arc.SetEvictable(f, false)]
      else []
    case Leave(g) =>
      if Usable(s, g) && s.frames[s.guards[g].frame].pins == 0 then [Arc.SetEvictable(s.guards[g].frame, true)] else []
    case Delete(page, _) =>
      if page in s.table && s.table[page] in s.frames && s.frames[s.table[page]].pins <= 0
         && !RemoveAsserts(s, s.table[page])
      then [Arc.Remove(s.table[page])] else []
    case _ => []
  }

  lemma TwoOps(a: Arc.State, n: nat, x: Arc.Op, y: Arc.Op)
    requires Arc.Allowed(a, n, x) && Arc.Allowed(Arc.Apply(a, n, x), n, y)
    ensures Arc.IsRun(a, n, [x, y]) && Arc.After(a, n, [x, y]) == Arc.Apply(Arc.Apply(a, n, x), n, y)
  {
    assert [x, y][1..] == [y];
    OneOp(Arc.Apply(a, n, x), n, y);
  }

  lemma OneOp(a: Arc.State, n: nat, x: Arc.Op)
    requires Arc.Allowed(a, n, x)
    ensures Arc.IsRun(a, n, [x]) && Arc.After(a, n, [x]) == Arc.Apply(a, n, x)
  {
    assert [x][1..] == [];
  }

  lemma FetchReplacer(s: State, g: nat, page: int, write: bool)
    requires Inv(s) && Enabled(s, Fetch(g, page, write))
    ensures Arc.IsRun(s.arc, s.n, ReplacerOps(s, Fetch(g, page, write)))
    ensures Next(s, Fetch(g, page, write)).arc == Arc.After(s.arc, s.n, ReplacerOps(s, Fetch(g, page, write)))
  {
    if page in s.table {
      ResidentFrame(s, page);
      TwoOps(s.arc, s.n, Arc.SetEvictable(s.table[page], false), Arc.Access(s.table[page], page));
    } else if s.free != [] {
      var f := s.free[0];
      assert f in s.free && f !in s.owner;
      NewInReplacer(s.arc, s.n, s.owner, s.table, f, page);
      TwoOps(s.arc, s.n, Arc.Access(f, page), Arc.SetEvictable(f, false));
    } else if Arc.Victim(s.arc).Some? {
      var f := Arc.Victim(s.arc).value;
      VictimUnpinned(s);
      Arc.EvictInv(s.arc, s.n);
      var a := Arc.DoEvict(s.arc);
      NewInReplacer(a, s.n, s.owner - {f}, s.table - {s.owner[f]}, f, page);
      TwoOps(a, s.n, Arc.Access(f, page), Arc.SetEvictable(f, false));
      assert [Arc.Evict, Arc.Access(f, page), Arc.SetEvictable(f, false)][1..] ==
             [Arc.Access(f, page), Arc.SetEvictable(f, false)];
    }
  }

  lemma NewInReplacer(a: Arc.State, n: nat, owner: map<int, int>, table: map<int, int>, f: int, page: int)
    requires a.alive.Keys == owner.Keys && (forall h :: h in owner ==> a.alive[h].page == owner[h])
    requires 0 <= f < n && f !in owner && page !in table && forall h :: h in owner ==> owner[h] in table
    ensures Arc.Allowed(a, n, Arc.Access(f, page))
  {
  }

  lemma LeaveReplacer(s: State, g: nat)
    requires Enabled(s, Leave(g))
    ensures Arc.IsRun(s.arc, s.n, ReplacerOps(s, Leave(g)))
    ensures Next(s, Leave(g)).n == s.n && Next(s, Leave(g)).arc == Arc.After(s.arc, s.n, ReplacerOps(s, Leave(g)))
  {
    OneOp(s.arc, s.n, Arc.SetEvictable(s.guards[g].frame, true));
  }

  lemma OtherReplacer(s: State, step: Step)
    requires Enabled(s, step) && !step.Fetch? && !step.Leave?
    ensures Arc.IsRun(s.arc, s.n, ReplacerOps(s, step))
    ensures Next(s, step).n == s.n && Next(s, step).arc == Arc.After(s.arc, s.n, ReplacerOps(s, step))
  {
    if ReplacerOps(s, step) != [] { OneOp(s.arc, s.n, Arc.Remove(s.table[step.page])); }
  }

  /** Every step of the pool is a run of the replacer, which sees each fetch as an access and nothing else as one. */
  lemma StepReplacer(s: State, step: Step)
    requires Inv(s) && Enabled(s, step)
    ensures Arc.IsRun(s.arc, s.n, ReplacerOps(s, step))
    ensures Next(s, step).n == s.n && Next(s, step).arc == Arc.After(s.arc, s.n, ReplacerOps(s, step))
  {
    match step
    case Fetch(g, page, write) => FetchReplacer(s, g, page, write);
    case Leave(g) => LeaveReplacer(s, g);
    case _ => OtherReplacer(s, step);
  }

  ghost function AllOps(s: State, steps: seq<Step>): seq<Arc.Op>
    requires IsRun(s, steps)
    decreases |steps|
  {
    if steps == [] then [] else ReplacerOps(s, steps[0]) + AllOps(Next(s, steps[0]), steps[1..])
  }

  lemma {:induction false} ArcConcat(a: Arc.State, n: nat, xs: seq<Arc.Op>, ys: seq<Arc.Op>)
    requires Arc.IsRun(a, n, xs) && Arc.IsRun(Arc.After(a, n, xs), n, ys)
    ensures Arc.IsRun(a, n, xs + ys) && Arc.After(a, n, xs + ys) == Arc.After(Arc.After(a, n, xs), n, ys)
    decreases |xs|
  {
    if xs == [] {
      assert xs + ys == ys;
    } else {
      assert (xs + ys)[1..] == xs[1..] + ys;
      ArcConcat(Arc.Apply(a, n, xs[0]), n, xs[1..], ys);
    }
  }

  lemma {:induction false} RunReplacer(s: State, steps: seq<Step>)
    requires Inv(s) && IsRun(s, steps)
    ensures Arc.IsRun(s.arc, s.n, AllOps(s, steps))
    ensures After(s, steps).n == s.n && After(s, steps).arc == Arc.After(s.arc, s.n, AllOps(s, steps))
    decreases |steps|
  {
    if steps != [] {
      StepInv(s, steps[0]);
      StepReplacer(s, steps[0]);
      RunReplacer(Next(s, steps[0]), steps[1..]);
      ArcConcat(s.arc, s.n, ReplacerOps(s, steps[0]), AllOps(Next(s, steps[0]), steps[1..]));
    }
  }

  lemma {:induction false} TimedRun(t: ArcRecency.Timed, c: nat, ops: seq<Arc.Op>)
    requires Arc.IsRun(t.arc, c, ops)
    ensures ArcRecency.IsTimedRun(t, c, ops) && ArcRecency.TimedAfter(t, c, ops).arc == Arc.After(t.arc, c, ops)
    decreases |ops|
  {
    if ops != [] { TimedRun(ArcRecency.Tick(t, c, ops[0]), c, ops[1..]); }
  }

  /**
   * In every run of a new pool, the page a fetch would push out is the least recently fetched unpinned one on its
   * side, and the side of a page is that of its frequency.
   */
  lemma PoolEvictsByRecencyAndFrequency(n: nat, disk: map<int, Data>, steps: seq<Step>, g: int)
    requires IsRun(Fresh(n, disk), steps)
    ensures var s, ops := After(Fresh(n, disk), steps), AllOps(Fresh(n, disk), steps);
      && Arc.IsRun(Arc.EMPTY, n, ops) && ArcRecency.IsTimedRun(ArcRecency.START, n, ops)
      && var t := ArcRecency.TimedAfter(ArcRecency.START, n, ops);
      && var x := ArcFrequency.NotedAfter(ArcFrequency.START, n, ops);
      && t.arc == x.arc == s.arc
      && (Arc.Victim(s.arc).Some? ==>
            var f := Arc.Victim(s.arc).value;
            && f in s.arc.alive && f in t.used
            && (g in s.arc.alive && s.arc.alive[g].evictable && (g in s.arc.mru <==> f in s.arc.mru) ==>
                  g in t.used && t.used[f] <= t.used[g]))
      && (g in s.arc.mru ==> g in x.uses && x.uses[g] == 1)
  {
    FreshInv(n, disk);
    RunReplacer(Fresh(n, disk), steps);
    var ops := AllOps(Fresh(n, disk), steps);
    TimedRun(ArcRecency.START, n, ops);
    Arc.ArcBounds(n, ops);
    ArcRecency.EvictsLeastRecent(n, ops, g);
    ArcFrequency.PromotedBySecondAccess(n, ops, g);
  }
}
