/** Every step of the buffer pool keeps its invariant, whatever the interleaving. */
module PoolInv {
  import opened Sql
  import opened Pool

  // ----- fetching a resident page -----------------------------------------------------------------------

  lemma HitTracked(s: State, f: int, page: int)
    requires Tracked(s.arc, s.n, s.owner) && f in s.owner && s.owner[f] == page && 0 <= f < s.n
    ensures var a := Arc.DoAccess(Arc.DoSetEvictable(s.arc, f, false), s.n, f, page);
      && Tracked(a, s.n, s.owner)
      && !a.alive[f].evictable
      && forall g :: g in s.owner && g != f ==> a.alive[g] == s.arc.alive[g]
  {
    var b := Arc.DoSetEvictable(s.arc, f, false);
    Arc.SetEvictableInv(s.arc, s.n, f, false);
    Arc.AccessInv(b, s.n, f, page);
    Arc.AccessAlive(b, s.n, f, page);
  }

  /** One more guard on frame `f`: the pins still count the guards. */
  lemma PinAdded(s: State, s': State, g: nat, guard: Guard)
    requires PinsOk(s) && g !in s.guards && guard.stage == Fetched && guard.frame in s.frames
    requires s'.guards == s.guards[g := guard] && s'.frames.Keys == s.frames.Keys
    requires s'.frames[guard.frame].pins == s.frames[guard.frame].pins + 1
    requires forall x :: x in s.frames && x != guard.frame ==> s'.frames[x].pins == s.frames[x].pins
    requires guard.frame in s'.owner && s'.owner[guard.frame] == guard.page
    requires forall x :: x in s.owner ==> x in s'.owner && s'.owner[x] == s.owner[x]
    ensures PinsOk(s')
  {
    NewPinner(s.guards, g, guard);
  }

  /** The pinned frame is not evictable; nothing changes for the others. */
  lemma PinnedEvictable(s: State, s': State, g: nat, guard: Guard)
    requires EvictableOk(s) && g !in s.guards && guard.stage == Fetched && s'.guards == s.guards[g := guard]
    requires guard.frame in s'.arc.alive && !s'.arc.alive[guard.frame].evictable
    requires guard.frame in s'.frames && s'.frames[guard.frame].pins > 0
    requires forall x :: x in s'.owner && x != guard.frame ==>
               x in s.owner && (x in s'.frames ==> x in s.frames && s'.frames[x].pins == s.frames[x].pins)
               && (x in s'.arc.alive ==> x in s.arc.alive && s'.arc.alive[x] == s.arc.alive[x])
    ensures EvictableOk(s')
  {
    NewPinner(s.guards, g, guard);
  }

  lemma HitInv(s: State, g: nat, page: int, write: bool)
    requires Inv(s) && g !in s.guards && page in s.table
    ensures Inv(DoFetch(s, g, page, write))
  {
    var f := s.table[page];
    var s' := DoFetch(s, g, page, write);
    HitTracked(s, f, page);
    PinAdded(s, s', g, Guard(page, f, write, Fetched));
    PinPositive(s', g);
    PinnedEvictable(s, s', g, Guard(page, f, write, Fetched));
  }

  lemma PinPositive(s: State, g: nat)
    requires PinsOk(s) && g in s.guards && s.guards[g].stage != Leaving
    ensures s.frames[s.guards[g].frame].pins > 0
  {
    assert g in Pinners(s.guards, s.guards[g].frame);
  }

  // ----- loading a page into a frame -----------------------------------------------------------------------

  /** The state just before a load: frame `f` is neither free nor in use. */
  ghost predicate Vacant(s: State, f: int) {
    && Inverse(s.table, s.owner)
    && (forall x :: x in s.frames <==> 0 <= x < s.n) && Bags.Distinct(s.free)
    && (forall x :: x in s.frames <==> x in s.free || x in s.owner || x == f)
    && (forall x :: x in s.free ==> x !in s.owner && x != f && s.frames[x].pins == 0 && !s.frames[x].dirty)
    && f !in s.owner && 0 <= f < s.n
    && Tracked(s.arc, s.n, s.owner)
    && PinsOk(s)
    && EvictableOk(s)
    && s.frames[f].pins == 0
  }

  lemma LoadTracked(s: State, f: int, page: int)
    requires Tracked(s.arc, s.n, s.owner) && f !in s.owner && 0 <= f < s.n && page !in s.table
      && Inverse(s.table, s.owner)
    ensures var a := Arc.DoSetEvictable(Arc.DoAccess(s.arc, s.n, f, page), f, false);
      && Tracked(a, s.n, s.owner[f := page])
      && !a.alive[f].evictable
      && forall g :: g in s.owner && g != f ==> a.alive[g] == s.arc.alive[g]
  {
    var b := Arc.DoAccess(s.arc, s.n, f, page);
    Arc.AccessInv(s.arc, s.n, f, page);
    Arc.AccessAlive(s.arc, s.n, f, page);
    Arc.SetEvictableInv(b, s.n, f, false);
  }

  lemma LoadPins(s: State, g: nat, f: int, page: int, write: bool)
    requires PinsOk(s) && g !in s.guards && f in s.frames && s.frames[f].pins == 0 && f !in s.owner
    ensures PinsOk(Load(s, g, f, page, write))
  {
    PinAdded(s, Load(s, g, f, page, write), g, Guard(page, f, write, Fetched));
  }

  lemma LoadInv(s: State, g: nat, f: int, page: int, write: bool)
    requires Vacant(s, f) && g !in s.guards && page !in s.table
    ensures Inv(Load(s, g, f, page, write))
  {
    var s' := Load(s, g, f, page, write);
    LoadTracked(s, f, page);
    LoadMaps(s, f, page, s');
    LoadPins(s, g, f, page, write);
    PinnedEvictable(s, s', g, Guard(page, f, write, Fetched));
  }

  lemma LoadMaps(s: State, f: int, page: int, s': State)
    requires Inverse(s.table, s.owner) && f !in s.owner && page !in s.table
    requires (forall x :: x in s.frames <==> 0 <= x < s.n) && Bags.Distinct(s.free) && f in s.frames
    requires forall x :: x in s.frames <==> x in s.free || x in s.owner || x == f
    requires forall x :: x in s.free ==> x !in s.owner && x != f && s.frames[x].pins == 0 && !s.frames[x].dirty
    requires s'.n == s.n && s'.free == s.free && s'.table == s.table[page := f] && s'.owner == s.owner[f := page]
    requires f in s'.frames && s'.frames == s.frames[f := s'.frames[f]]
    ensures Inverse(s'.table, s'.owner) && Partition(s')
  {
  }

  lemma FreeVacant(s: State)
    requires Inv(s) && s.free != []
    ensures Vacant(s.(free := s.free[1..]), s.free[0])
  {
    FreeParts(s);
  }

  lemma FreeParts(s: State)
    requires Partition(s) && s.free != []
    ensures var f, rest := s.free[0], s.free[1..];
      && Bags.Distinct(rest) && f !in rest && f in s.frames && f !in s.owner && 0 <= f < s.n && s.frames[f].pins == 0
      && (forall x :: x in s.frames <==> x in rest || x in s.owner || x == f)
      && (forall x :: x in rest ==> x !in s.owner && x != f && s.frames[x].pins == 0 && !s.frames[x].dirty)
  {
    var f := s.free[0];
    assert f in s.free;
    Bags.DistinctTail(s.free);
    assert forall x :: x in s.free <==> x == f || x in s.free[1..];
  }

  /** The replacer's victim is resident and unpinned. */
  lemma VictimUnpinned(s: State)
    requires Inv(s) && Arc.Victim(s.arc).Some?
    ensures var f := Arc.Victim(s.arc).value; f in s.owner && f in s.frames && s.frames[f].pins == 0
  {
    Arc.EvictSpec(s.arc, s.n);
  }

  lemma EvictTracked(s: State, f: int)
    requires Tracked(s.arc, s.n, s.owner) && Arc.Victim(s.arc) == Some(f) && f in s.owner
    ensures Tracked(Arc.DoEvict(s.arc), s.n, s.owner - {f})
    ensures Arc.DoEvict(s.arc).alive == s.arc.alive - {f}
  {
    Arc.EvictInv(s.arc, s.n);
  }

  lemma NobodyPins(s: State, f: int)
    requires PinsOk(s) && f in s.frames && s.frames[f].pins == 0
    ensures forall g :: g in s.guards && s.guards[g].frame == f ==> s.guards[g].stage == Leaving
  {
    assert Pinners(s.guards, f) == {};
    forall g | g in s.guards && s.guards[g].frame == f
      ensures s.guards[g].stage == Leaving
    {
      assert g !in Pinners(s.guards, f);
    }
  }

  /** Emptying an unpinned frame disturbs no guard. */
  lemma VacatedPins(s: State, s': State, f: int)
    requires PinsOk(s) && f in s.frames && s.frames[f].pins == 0
    requires s'.guards == s.guards && s'.owner == s.owner - {f} && s'.frames.Keys == s.frames.Keys
    requires s'.frames[f].pins == 0 && forall x :: x in s.frames && x != f ==> s'.frames[x].pins == s.frames[x].pins
    ensures PinsOk(s')
  {
    NobodyPins(s, f);
  }

  lemma EvictVacant(s: State, f: int)
    requires Inv(s) && s.free == [] && Arc.Victim(s.arc) == Some(f)
    ensures f in s.frames && Vacant(EvictFrame(s, f), f)
  {
    VictimUnpinned(s);
    EvictTracked(s, f);
    EvictedVacant(s, f);
  }

  lemma EvictedVacant(s: State, f: int)
    requires Inverse(s.table, s.owner) && Partition(s) && PinsOk(s) && EvictableOk(s)
    requires s.free == [] && f in s.owner && f in s.frames && s.frames[f].pins == 0
    requires Tracked(Arc.DoEvict(s.arc), s.n, s.owner - {f}) && Arc.DoEvict(s.arc).alive == s.arc.alive - {f}
    ensures Vacant(EvictFrame(s, f), f)
  {
    VacatedPins(s, EvictFrame(s, f), f);
    EvictMaps(s.table, s.owner, f);
    EvictFrames(s, f);
    EvictParts(s, f);
  }

  /** With nothing free, every frame but the emptied one still holds a page. */
  lemma EvictParts(s: State, f: int)
    requires Partition(s) && s.free == [] && f in s.frames && f in s.owner
    ensures var s' := EvictFrame(s, f);
      && (forall x :: x in s'.frames <==> 0 <= x < s'.n) && s'.free == []
      && (forall x :: x in s'.frames <==> x in s'.owner || x == f)
      && f !in s'.owner && 0 <= f < s'.n && s'.frames[f].pins == 0
  {
  }

  lemma EvictMaps(table: map<int, int>, owner: map<int, int>, f: int)
    requires Inverse(table, owner) && f in owner
    ensures Inverse(table - {owner[f]}, owner - {f})
  {
  }

  lemma EvictFrames(s: State, f: int)
    requires f in s.frames && f in s.owner && EvictableOk(s)
    requires Arc.DoEvict(s.arc).alive == s.arc.alive - {f}
    ensures EvictableOk(EvictFrame(s, f))
    ensures EvictFrame(s, f).frames.Keys == s.frames.Keys
  {
  }

  lemma FetchInv(s: State, g: nat, page: int, write: bool)
    requires Inv(s) && g !in s.guards
    ensures Inv(DoFetch(s, g, page, write))
  {
    if page in s.table {
      HitInv(s, g, page, write);
    } else if s.free != [] {
      FreeVacant(s);
      LoadInv(s.(free := s.free[1..]), g, s.free[0], page, write);
    } else {
      var f := Arc.Victim(s.arc);
      if f.Some? {
        EvictVacant(s, f.value);
        LoadInv(EvictFrame(s, f.value), g, f.value, page, write);
      }
    }
  }

  // ----- guards, flushes, deletion -----------------------------------------------------------------------------

  lemma LatchInv(s: State, g: nat)
    requires Inv(s) && Enabled(s, Latch(g))
    ensures Inv(DoLatch(s, g))
  {
    LatchGuards(s.guards, g);
    LatchPins(s, g);
  }

  lemma LatchGuards(guards: map<nat, Guard>, g: nat)
    requires g in guards && guards[g].stage != Leaving
    ensures var after := guards[g := guards[g].(stage := Latched)];
      && (forall f :: Pinners(after, f) == Pinners(guards, f))
      && (forall f :: SomeoneLeaving(guards, f) ==> SomeoneLeaving(after, f))
  {
    var after := guards[g := guards[g].(stage := Latched)];
    forall f | SomeoneLeaving(guards, f)
      ensures SomeoneLeaving(after, f)
    {
      var h :| h in guards && guards[h].frame == f && guards[h].stage == Leaving;
      assert after[h] == guards[h];
    }
  }

  lemma LatchPins(s: State, g: nat)
    requires PinsOk(s) && EvictableOk(s) && Enabled(s, Latch(g))
    requires var after := s.guards[g := s.guards[g].(stage := Latched)];
      && (forall f :: Pinners(after, f) == Pinners(s.guards, f))
      && (forall f :: SomeoneLeaving(s.guards, f) ==> SomeoneLeaving(after, f))
    ensures PinsOk(DoLatch(s, g)) && EvictableOk(DoLatch(s, g))
  {
  }

  lemma UnpinInv(s: State, g: nat)
    requires Inv(s) && Enabled(s, Unpin(g))
    ensures Inv(DoUnpin(s, g))
  {
    Unpinned(s.guards, g);
    assert g in Pinners(s.guards, s.guards[g].frame);
    UnpinEvictable(s, g);
  }

  lemma UnpinEvictable(s: State, g: nat)
    requires PinsOk(s) && EvictableOk(s) && g in s.guards && s.guards[g].frame in s.frames
      && s.guards[g].stage != Leaving && s.frames[s.guards[g].frame].pins > 0
    ensures EvictableOk(DoUnpin(s, g))
  {
    Unpinned(s.guards, g);
  }

  lemma LeaveInv(s: State, g: nat)
    requires Inv(s) && Enabled(s, Leave(g))
    ensures Inv(DoLeave(s, g))
  {
    LeftBehind(s.guards, g);
    Arc.SetEvictableInv(s.arc, s.n, s.guards[g].frame, true);
    LeavePins(s, g);
  }

  lemma LeavePins(s: State, g: nat)
    requires PinsOk(s) && EvictableOk(s) && g in s.guards && s.guards[g].frame in s.frames
      && s.guards[g].stage == Leaving
    requires forall f :: Pinners(s.guards - {g}, f) == Pinners(s.guards, f)
    requires forall f :: f != s.guards[g].frame && SomeoneLeaving(s.guards, f) ==> SomeoneLeaving(s.guards - {g}, f)
    ensures PinsOk(DoLeave(s, g)) && EvictableOk(DoLeave(s, g))
  {
  }

  lemma WriteInv(s: State, g: nat, data: Data)
    requires Inv(s) && g in s.guards && s.guards[g].frame in s.frames
    ensures Inv(DoWrite(s, g, data))
  {
  }

  lemma FlushFrameInv(s: State, f: int, page: int)
    requires Inv(s) && f in s.frames
    ensures Inv(FlushFrame(s, f, page))
  {
  }

  lemma DeleteParts(s: State, page: int, junk: Data)
    requires Partition(s) && Inverse(s.table, s.owner) && page in s.table && s.table[page] in s.frames
    requires s.frames[s.table[page]].pins <= 0 && !RemoveAsserts(s, s.table[page])
    ensures Partition(DoDelete(s, page, junk)) && Inverse(DoDelete(s, page, junk).table, DoDelete(s, page, junk).owner)
  {
    var f := s.table[page];
    assert forall x :: x in s.free + [f] <==> x in s.free || x == f;
  }

  lemma DeleteInv(s: State, page: int, junk: Data)
    requires Inv(s)
    ensures Inv(DoDelete(s, page, junk))
  {
    if page in s.table && s.table[page] in s.frames && s.frames[s.table[page]].pins <= 0
      && !RemoveAsserts(s, s.table[page]) {
      var f := s.table[page];
      Arc.RemoveInv(s.arc, s.n, f);
      VacatedPins(s, DoDelete(s, page, junk), f);
      DeleteParts(s, page, junk);
    }
  }

  lemma StepInv(s: State, step: Step)
    requires Inv(s) && Enabled(s, step)
    ensures Inv(Next(s, step))
  {
    match step
    case Fetch(g, page, write) => FetchInv(s, g, page, write);
    case Latch(g) => LatchInv(s, g);
    case Write(g, _, data) => WriteInv(s, g, data);
    case GuardFlush(g) => FlushFrameInv(s, s.guards[g].frame, s.guards[g].page);
    case Unpin(g) => UnpinInv(s, g);
    case Leave(g) => LeaveInv(s, g);
    case Delete(page, junk) => DeleteInv(s, page, junk);
    case Flush(page) => if page in s.table { FlushFrameInv(s, s.table[page], page); }
    case FlushUnsafe(page) => if page in s.table { FlushFrameInv(s, s.table[page], page); }
  }
}
