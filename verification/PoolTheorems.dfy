/** What pins protect: when a fetch fails, when a page stays, and when a deletion kills the process. */
module PoolTheorems {
  import Sets
  import opened Pool
  import opened PoolInv

  // ----- runs ------------------------------------------------------------------------------------------------

  function FreeList(n: nat): (r: seq<int>)
    ensures |r| == n && forall i :: 0 <= i < n ==> r[i] == i
  {
    if n == 0 then [] else FreeList(n - 1) + [n - 1]
  }

  /** A pool just constructed. */
  ghost function Fresh(n: nat, disk: map<int, Data>): State {
    State(n, map[], map[], FreeList(n), map f | f in Arc.Frames(n) :: Frame(Blank(), 0, false), Arc.EMPTY, disk,
      map[], false)
  }

  lemma FreshInv(n: nat, disk: map<int, Data>)
    ensures Inv(Fresh(n, disk))
  {
    Arc.EmptyInv(n);
    var s := Fresh(n, disk);
    forall f | 0 <= f < n
      ensures f in s.free
    {
      assert s.free[f] == f;
    }
    assert forall f :: Pinners(s.guards, f) == {};
  }

  ghost predicate IsRun(s: State, steps: seq<Step>)
    decreases |steps|
  {
    steps == [] || (Enabled(s, steps[0]) && IsRun(Next(s, steps[0]), steps[1..]))
  }

  ghost function After(s: State, steps: seq<Step>): State
    requires IsRun(s, steps)
    decreases |steps|
  {
    if steps == [] then s else After(Next(s, steps[0]), steps[1..])
  }

  lemma {:induction false} RunInv(s: State, steps: seq<Step>)
    requires Inv(s) && IsRun(s, steps)
    ensures Inv(After(s, steps))
    decreases |steps|
  {
    if steps != [] {
      StepInv(s, steps[0]);
      RunInv(Next(s, steps[0]), steps[1..]);
    }
  }

  lemma {:induction false} RunAppend(s: State, steps: seq<Step>, step: Step)
    requires IsRun(s, steps) && Enabled(After(s, steps), step)
    ensures IsRun(s, steps + [step]) && After(s, steps + [step]) == Next(After(s, steps), step)
    decreases |steps|
  {
    if steps == [] {
      assert steps + [step] == [step];
    } else {
      RunAppend(Next(s, steps[0]), steps[1..], step);
      assert (steps + [step])[1..] == steps[1..] + [step];
    }
  }

  lemma ResidentFrame(s: State, page: int)
    requires Inv(s) && page in s.table
    ensures s.table[page] in s.owner && s.table[page] in s.frames && s.table[page] in s.arc.alive
  {
    var f := s.table[page];
    assert f in s.owner;
    assert f in s.free || f in s.owner;
    assert f in s.owner.Keys;
  }

  // ----- pinning ----------------------------------------------------------------------------------------------

  /** The outcome of a fetch: it fails only when it changes nothing. */
  ghost predicate FetchFails(s: State, page: int) {
    page !in s.table && s.free == [] && Arc.Victim(s.arc).None?
  }

  /** A checked fetch returns nothing exactly when the page is absent, no frame is free and no resident frame may go. */
  lemma FetchFailsExactly(s: State, page: int)
    requires Inv(s)
    ensures forall f :: f in s.owner ==> f in s.arc.alive
    ensures FetchFails(s, page) <==>
      page !in s.table && s.free == [] && forall f :: f in s.owner ==> !s.arc.alive[f].evictable
  {
    Arc.EvictSpec(s.arc, s.n);
    assert forall f :: f in s.owner <==> f in s.arc.alive;
  }

  /**
   * In terms of pins: if it fails, each resident frame is pinned or has a guard that is still leaving; if
   * all are pinned, it fails. The two agree when no guard is leaving.
   */
  lemma FetchFailsWhen(s: State, page: int)
    requires Inv(s)
    ensures FetchFails(s, page) ==>
      page !in s.table && s.free == []
      && forall f :: f in s.owner ==> s.frames[f].pins > 0 || SomeoneLeaving(s.guards, f)
    ensures page !in s.table && s.free == [] && (forall f :: f in s.owner ==> s.frames[f].pins > 0) ==>
      FetchFails(s, page)
    ensures (forall g :: g in s.guards ==> s.guards[g].stage != Leaving) ==>
      (FetchFails(s, page) <==>
       page !in s.table && s.free == [] && forall f :: f in s.owner ==> s.frames[f].pins > 0)
  {
    Arc.EvictSpec(s.arc, s.n);
    assert forall f :: f in s.owner ==> f in s.arc.alive && f in s.frames;
  }

  /** A fetch that succeeds pins the page; one that fails leaves the pool as it was. */
  lemma FetchResult(s: State, g: nat, page: int, write: bool)
    requires Inv(s) && Enabled(s, Fetch(g, page, write))
    ensures var s' := Next(s, Fetch(g, page, write));
      && (FetchFails(s, page) ==> s' == s)
      && (!FetchFails(s, page) ==>
            && g in s'.guards && s'.guards[g].page == page && page in s'.table
            && s'.guards[g].frame == s'.table[page] && s'.frames[s'.table[page]].pins > 0)
  {
    StepInv(s, Fetch(g, page, write));
    if page !in s.table && s.free == [] && Arc.Victim(s.arc).Some? {
      VictimUnpinned(s);
    }
    var s' := Next(s, Fetch(g, page, write));
    if page in s.table {
      ResidentFrame(s, page);
    }
    if !FetchFails(s, page) {
      PinPositive(s', g);
    }
  }

  /** No step takes a page out of its frame while somebody else's guard holds it. */
  lemma PinnedStays(s: State, step: Step, g: nat)
    requires Inv(s) && Enabled(s, step) && g in s.guards && s.guards[g].stage != Leaving
    ensures var s' := Next(s, step);
      g in s'.guards && s'.guards[g].stage != Leaving ==>
        && s.guards[g].page in s.table && s.table[s.guards[g].page] == s.guards[g].frame
        && s.guards[g].page in s'.table && s'.table[s.guards[g].page] == s.guards[g].frame
  {
    StepInv(s, step);
    GuardKept(s, step, g);
    GuardResident(s, g);
    if g in Next(s, step).guards && Next(s, step).guards[g].stage != Leaving {
      GuardResident(Next(s, step), g);
    }
  }

  /** A guard stays on its page and frame as long as it lives. */
  lemma GuardKept(s: State, step: Step, g: nat)
    requires Enabled(s, step) && g in s.guards
    ensures g in Next(s, step).guards ==>
      Next(s, step).guards[g].page == s.guards[g].page && Next(s, step).guards[g].frame == s.guards[g].frame
  {
  }

  lemma GuardResident(s: State, g: nat)
    requires PinsOk(s) && Inverse(s.table, s.owner) && g in s.guards && s.guards[g].stage != Leaving
    ensures s.guards[g].page in s.table && s.table[s.guards[g].page] == s.guards[g].frame
  {
  }

  /**
   * `Remove`'s assertion. Deleting an unpinned page kills the process exactly when a guard has given
   * up its pin but has not yet told the replacer; otherwise the assertion cannot fire.
   */
  lemma DeleteAsserts(s: State, page: int, junk: Data)
    requires Inv(s) && Enabled(s, Delete(page, junk))
    ensures page in s.table ==> s.table[page] in s.frames && s.table[page] in s.arc.alive
    ensures Next(s, Delete(page, junk)).crashed ==>
      page in s.table && s.frames[s.table[page]].pins == 0 && SomeoneLeaving(s.guards, s.table[page])
    ensures Next(s, Delete(page, junk)).crashed <==>
      page in s.table && s.frames[s.table[page]].pins == 0 && !s.arc.alive[s.table[page]].evictable
    ensures (forall g :: g in s.guards ==> s.guards[g].stage != Leaving) ==> !Next(s, Delete(page, junk)).crashed
  {
    if page in s.table {
      ResidentFrame(s, page);
    }
  }

  // ----- the two halves of a departure ---------------------------------------------------------------------------

  /** A run through explicit states, one step at a time. */
  lemma Prepend(s: State, step: Step, rest: seq<Step>)
    requires Enabled(s, step) && IsRun(Next(s, step), rest)
    ensures IsRun(s, [step] + rest) && After(s, [step] + rest) == After(Next(s, step), rest)
  {
    assert ([step] + rest)[1..] == rest;
  }

  /** Page 7 in the only frame of a pool, with one guard on it. */
  ghost function OneFrame(
      data: Data, pins: int, dirty: bool, evictable: bool, disk: map<int, Data>, guards: map<nat, Guard>): State
  {
    State(1, map[7 := 0], map[0 := 7], [], map[0 := Frame(data, pins, dirty)],
          Arc.State([0], [], [], [], map[0 := Arc.Status(7, evictable, true)], map[], if evictable then 1 else 0, 0),
          disk, guards, false)
  }

  lemma FirstFetch(write: bool)
    ensures Enabled(Fresh(1, map[]), Fetch(0, 7, write))
    ensures Next(Fresh(1, map[]), Fetch(0, 7, write)) ==
            OneFrame(Blank(), 1, false, false, map[], map[0 := Guard(7, 0, write, Fetched)])
  {
    var s := Fresh(1, map[]);
    assert Arc.Frames(1) == {0};
    assert s.frames == map[0 := Frame(Blank(), 0, false)];
    assert s.free == [0] && s.free[1..] == [];
  }

  /** The only frame, whose guard has given up its pin but not yet told the replacer. */
  ghost function HalfLeft(): State {
    OneFrame(Blank(), 0, false, false, map[], map[0 := Guard(7, 0, false, Leaving)])
  }

  lemma HalfLeftRun()
    ensures var steps := [Fetch(0, 7, false)] + ([Latch(0)] + ([Unpin(0)] + []));
      IsRun(Fresh(1, map[]), steps) && After(Fresh(1, map[]), steps) == HalfLeft()
  {
    var guard := Guard(7, 0, false, Latched);
    var s1 := OneFrame(Blank(), 1, false, false, map[], map[0 := guard.(stage := Fetched)]);
    var s2 := OneFrame(Blank(), 1, false, false, map[], map[0 := guard]);
    FirstFetch(false);
    assert Enabled(s1, Latch(0)) && Next(s1, Latch(0)) == s2;
    assert Enabled(s2, Unpin(0)) && Next(s2, Unpin(0)) == HalfLeft();
    assert IsRun(HalfLeft(), []) && After(HalfLeft(), []) == HalfLeft();
    Prepend(s2, Unpin(0), []);
    Prepend(s1, Latch(0), [Unpin(0)] + []);
    Prepend(Fresh(1, map[]), Fetch(0, 7, false), [Latch(0)] + ([Unpin(0)] + []));
  }

  /** A run after which a fetch fails although the only frame is not pinned by anybody. */
  lemma FetchFailsUnpinned()
    ensures exists steps: seq<Step> ::
      IsRun(Fresh(1, map[]), steps) && FetchFails(After(Fresh(1, map[]), steps), 8)
      && 0 in After(Fresh(1, map[]), steps).frames && After(Fresh(1, map[]), steps).frames[0].pins == 0
  {
    HalfLeftRun();
    var steps := [Fetch(0, 7, false)] + ([Latch(0)] + ([Unpin(0)] + []));
    assert FetchFails(HalfLeft(), 8);
    assert IsRun(Fresh(1, map[]), steps);
  }

  /** A deletion that falls between the two halves of a guard's departure kills the process. */
  lemma DeleteDuringDepartureCrashes()
    ensures exists steps: seq<Step> :: IsRun(Fresh(1, map[]), steps) && After(Fresh(1, map[]), steps).crashed
  {
    HalfLeftRun();
    var steps := [Fetch(0, 7, false)] + ([Latch(0)] + ([Unpin(0)] + []));
    RunAppend(Fresh(1, map[]), steps, Delete(7, Blank()));
    assert Next(HalfLeft(), Delete(7, Blank())).crashed;
    assert IsRun(Fresh(1, map[]), steps + [Delete(7, Blank())]);
  }
}
