/** The replacer and the buffer pool manager as programs over mutable state. */
module BufferPool {
  import opened Sql
  import opened Pool
  import opened PoolInv
  import opened PoolTheorems

  class ArcReplacer {
    const replacerSize: nat
    var mru: seq<int>
    var mfu: seq<int>
    var mruGhost: seq<int>
    var mfuGhost: seq<int>
    var aliveMap: map<int, Arc.Status>
    var ghostMap: map<int, bool>
    var currSize: int
    var mruTargetSize: int

    function Value(): Arc.State
      reads this
    {
      Arc.State(mru, mfu, mruGhost, mfuGhost, aliveMap, ghostMap, currSize, mruTargetSize)
    }

    /** Every listed frame has a status. */
    ghost predicate Listed()
      reads this
    {
      && (forall f :: f in mru ==> f in aliveMap)
      && (forall f :: f in mfu ==> f in aliveMap)
    }

    constructor (numFrames: nat)
      ensures replacerSize == numFrames && Value() == Arc.EMPTY
    {
      replacerSize := numFrames;
      mru, mfu, mruGhost, mfuGhost := [], [], [], [];
      aliveMap, ghostMap, currSize, mruTargetSize := map[], map[], 0, 0;
    }

    /** Search one list from its least recent end for a frame that may go. */
    method FindFromBack(list: seq<int>) returns (found: Option<int>)
      requires forall f :: f in list ==> f in aliveMap
      ensures found.Some? <==> Arc.LastEvictable(list, aliveMap).Some?
      ensures found.Some? ==> found.value == list[Arc.LastEvictable(list, aliveMap).value]
    {
      var i := |list|;
      assert list[..i] == list;
      while i > 0
        invariant 0 <= i <= |list|
        invariant Arc.LastEvictable(list, aliveMap) == Arc.LastEvictable(list[..i], aliveMap)
      {
        i := i - 1;
        assert list[..i + 1][..i] == list[..i];
        var fid := list[i];
        if aliveMap[fid].evictable {
          return Some(fid);
        }
      }
      return None;
    }

    /** Take a frame out of memory and remember its page in the ghost list of the list it was in. */
    method MoveToGhost(fid: int, fromMru: bool)
      requires fid in aliveMap
      modifies this
      ensures Value() == Arc.EvictAt(old(Value()), fromMru, fid)
    {
      var pid := aliveMap[fid].page;
      if fromMru {
        mruGhost := [pid] + mruGhost;
        mru := Arc.Without(mru, fid);
      } else {
        mfuGhost := [pid] + mfuGhost;
        mfu := Arc.Without(mfu, fid);
      }
      ghostMap := ghostMap[pid := fromMru];
      aliveMap := aliveMap - {fid};
      currSize := currSize - 1;
    }

    method Evict() returns (victim: Option<int>)
      requires Listed()
      modifies this
      ensures Value() == Arc.DoEvict(old(Value())) && victim == Arc.Victim(old(Value()))
    {
      if currSize == 0 {
        return None;
      }
      var preferMru := |mru| >= mruTargetSize;
      var first := FindFromBack(if preferMru then mru else mfu);
      if first.Some? {
        MoveToGhost(first.value, preferMru);
        return first;
      }
      victim := FindFromBack(if preferMru then mfu else mru);
      if victim.Some? {
        MoveToGhost(victim.value, !preferMru);
      }
    }

    method RecordAccess(frame: int, page: int)
      modifies this
      ensures Value() == Arc.DoAccess(old(Value()), replacerSize, frame, page)
    {
      if frame in aliveMap {
        var status := aliveMap[frame];
        if status.inMru {
          mru := Arc.Without(mru, frame);
        } else {
          mfu := Arc.Without(mfu, frame);
        }
        mfu := [frame] + mfu;
        aliveMap := aliveMap[frame := status.(inMru := false)];
        return;
      }
      if page in ghostMap {
        GhostAccess(frame, page);
        return;
      }
      TrimOneGhost();
      mru := [frame] + mru;
      aliveMap := aliveMap[frame := Arc.Status(page, false, true)];
    }

    /** A page remembered as evicted comes back: adapt the target and put its frame in front of MFU. */
    method GhostAccess(frame: int, page: int)
      requires page in ghostMap
      modifies this
      ensures Value() == Arc.GhostHit(old(Value()), replacerSize, frame, page)
    {
      mruTargetSize := Arc.Adapt(Value(), replacerSize, ghostMap[page]);
      if ghostMap[page] {
        mruGhost := Arc.Without(mruGhost, page);
      } else {
        mfuGhost := Arc.Without(mfuGhost, page);
      }
      ghostMap := ghostMap - {page};
      mfu := [frame] + mfu;
      aliveMap := aliveMap[frame := Arc.Status(page, false, false)];
    }

    /** On a complete miss with the lists at their bounds, forget the oldest ghost. */
    method TrimOneGhost()
      modifies this
      ensures Value() == Arc.TrimGhosts(old(Value()), replacerSize)
    {
      var mruTotal := |mru| + |mruGhost|;
      if mruTotal == replacerSize {
        if mruGhost != [] {
          ghostMap := ghostMap - {mruGhost[|mruGhost| - 1]};
          mruGhost := mruGhost[..|mruGhost| - 1];
        }
      } else if mruTotal + |mfu| + |mfuGhost| == 2 * replacerSize {
        if mfuGhost != [] {
          ghostMap := ghostMap - {mfuGhost[|mfuGhost| - 1]};
          mfuGhost := mfuGhost[..|mfuGhost| - 1];
        }
      }
    }

    method SetEvictable(frame: int, evictable: bool)
      requires frame >= 0
      modifies this
      ensures Value() == Arc.DoSetEvictable(old(Value()), frame, evictable)
    {
      if frame !in aliveMap || aliveMap[frame].evictable == evictable {
        return;
      }
      aliveMap := aliveMap[frame := aliveMap[frame].(evictable := evictable)];
      currSize := if evictable then currSize + 1 else currSize - 1;
    }

    /** The assertion of the source is the precondition: a tracked frame must be evictable. */
    method Remove(frame: int)
      requires frame in aliveMap ==> aliveMap[frame].evictable
      modifies this
      ensures Value() == Arc.DoRemove(old(Value()), frame)
    {
      if frame !in aliveMap {
        return;
      }
      if aliveMap[frame].inMru {
        mru := Arc.Without(mru, frame);
      } else {
        mfu := Arc.Without(mfu, frame);
      }
      aliveMap := aliveMap - {frame};
      currSize := currSize - 1;
    }

    method Size() returns (n: int)
      requires Arc.Inv(Value(), replacerSize)
      ensures n == |Arc.Evictables(aliveMap)|
    {
      n := currSize;
    }
  }

  // ----- the pool -------------------------------------------------------------------------------------------

  /** The frame array as the map the step system uses. */
  ghost function Contents(frames: array<Frame>): map<int, Frame>
    reads frames
  {
    map f | f in Arc.Frames(frames.Length) :: frames[f]
  }

  /** A state some run of a new pool leads to. */
  ghost predicate Reachable(s: State) {
    exists pages, steps :: IsRun(Fresh(s.n, pages), steps) && After(Fresh(s.n, pages), steps) == s
  }

  lemma ReachableInv(s: State)
    requires Reachable(s)
    ensures Inv(s)
  {
    var pages, steps :| IsRun(Fresh(s.n, pages), steps) && After(Fresh(s.n, pages), steps) == s;
    FreshInv(s.n, pages);
    RunInv(Fresh(s.n, pages), steps);
  }

  lemma FreshReachable(n: nat, pages: map<int, Data>)
    ensures Reachable(Fresh(n, pages))
  {
    assert IsRun(Fresh(n, pages), []) && After(Fresh(n, pages), []) == Fresh(n, pages);
  }

  lemma StepReachable(s: State, step: Step)
    requires Reachable(s) && Enabled(s, step)
    ensures Next(s, step).n == s.n && Reachable(Next(s, step))
  {
    SameSize(s, step);
    var pages, steps :| IsRun(Fresh(s.n, pages), steps) && After(Fresh(s.n, pages), steps) == s;
    RunAppend(Fresh(s.n, pages), steps, step);
  }

  lemma SameSize(s: State, step: Step)
    requires Enabled(s, step)
    ensures Next(s, step).n == s.n
  {
  }

  /** What the invariant says about the frame of a resident page. */
  lemma ResidentFacts(s: State, page: int)
    requires Reachable(s)
    ensures page in s.table ==> s.table[page] in s.frames && 0 <= s.table[page] < s.n && s.table[page] in s.owner
    ensures forall f :: f in s.free ==> f in s.frames && 0 <= f < s.n && f !in s.owner
    ensures forall f :: f in s.arc.mru || f in s.arc.mfu ==> f in s.arc.alive
  {
    ReachableInv(s);
    if page in s.table {
      ResidentFrame(s, page);
    }
  }

  /** What it says about the frame the replacer gives up. */
  lemma VictimFacts(s: State)
    requires Reachable(s) && Arc.Victim(s.arc).Some?
    ensures var f := Arc.Victim(s.arc).value; f in s.owner && f in s.frames && 0 <= f < s.n
  {
    ReachableInv(s);
    VictimUnpinned(s);
  }

  ghost predicate OnlyFlushes(steps: seq<Step>) {
    forall k :: 0 <= k < |steps| ==> steps[k].FlushUnsafe?
  }

  /** The page is resident and its frame is clean. */
  ghost predicate Flushed(s: State, page: int) {
    page in s.table && s.table[page] in s.frames && !s.frames[s.table[page]].dirty
  }

  /** A flush cleans its page and dirties no other. */
  lemma FlushedStays(s: State, page: int)
    requires Reachable(s) && page in s.table
    ensures DoFlush(s, page).table == s.table && Flushed(DoFlush(s, page), page)
    ensures forall p :: Flushed(s, p) ==> Flushed(DoFlush(s, page), p)
  {
    ResidentFacts(s, page);
  }

  datatype DeleteResult = Deleted | Pinned | AssertionFailed

  class BufferPoolManager {
    const numFrames: nat
    const replacer: ArcReplacer
    const frames: array<Frame>
    var pageTable: map<int, int>
    var frameToPage: map<int, int>
    var freeFrames: seq<int>
    var disk: map<int, Data>
    ghost var guards: map<nat, Guard>

    ghost function Value(): State
      reads this, frames, replacer
    {
      State(numFrames, pageTable, frameToPage, freeFrames, Contents(frames), replacer.Value(), disk, guards, false)
    }

    ghost predicate Valid()
      reads this, frames, replacer
    {
      && frames.Length == numFrames
      && replacer.replacerSize == numFrames
      && Reachable(Value())
    }

    constructor (n: nat, pages: map<int, Data>)
      ensures Valid() && Value() == Fresh(n, pages) && fresh(replacer) && fresh(frames)
    {
      numFrames := n;
      replacer := new ArcReplacer(n);
      frames := new Frame[n](_ => Frame(Blank(), 0, false));
      pageTable, frameToPage, disk := map[], map[], pages;
      guards := map[];
      freeFrames := FreeList(n);
      new;
      FreshReachable(n, pages);
    }

    method SetFrame(fid: int, frame: Frame)
      requires 0 <= fid < frames.Length
      modifies frames
      ensures Contents(frames) == old(Contents(frames))[fid := frame]
    {
      frames[fid] := frame;
    }

    /** Write a dirty frame's bytes to its page on disk. */
    method WriteBack(fid: int, page: int)
      requires 0 <= fid < frames.Length
      modifies this, frames
      ensures Value() == FlushFrame(old(Value()), fid, page)
    {
      ghost var s := Value();
      if frames[fid].dirty {
        disk := disk[page := frames[fid].data];
        SetFrame(fid, frames[fid].(dirty := false));
      }
    }

    /** Evict the replacer's choice, if it has one, and leave its frame reset. */
    method TakeVictim() returns (fid: Option<int>)
      requires Valid()
      modifies this, frames, replacer
      ensures fid == Arc.Victim(old(Value()).arc)
      ensures fid.None? ==> Value() == old(Value())
      ensures fid.Some? ==> 0 <= fid.value < numFrames && fid.value in old(Value()).frames
                            && Value() == EvictFrame(old(Value()), fid.value)
    {
      ghost var s := Value();
      ResidentFacts(s, 0);
      if Arc.Victim(s.arc).Some? { VictimFacts(s); }
      fid := replacer.Evict();
      if fid.None? {
        return;
      }
      EmptyFrame(fid.value);
    }

    /** Write the frame's page back if need be, and forget it. */
    method EmptyFrame(f: int)
      requires f in frameToPage && 0 <= f < numFrames == frames.Length
      modifies this, frames
      ensures var s := old(Value());
        var clean := FlushFrame(s, f, s.owner[f]);
        Value() == clean.(table := s.table - {s.owner[f]}, owner := s.owner - {f},
                          frames := clean.frames[f := Frame(Blank(), 0, false)])
    {
      ghost var s := Value();
      var evicted := frameToPage[f];
      WriteBack(f, evicted);
      pageTable := pageTable - {evicted};
      frameToPage := frameToPage - {f};
      ghost var clean := Contents(frames);
      SetFrame(f, Frame(Blank(), 0, false));
    }

    /** Read the page into a frame that holds nothing, and pin it. */
    method ReadIn(fid: int, page: int, write: bool, ghost g: nat)
      requires 0 <= fid < numFrames == frames.Length && replacer.replacerSize == numFrames
      modifies this, frames, replacer
      ensures Value() == Load(old(Value()), g, fid, page, write)
    {
      FillFrame(fid, page);
      replacer.RecordAccess(fid, page);
      replacer.SetEvictable(fid, false);
      guards := guards[g := Guard(page, fid, write, Fetched)];
    }

    method FillFrame(fid: int, page: int)
      requires 0 <= fid < frames.Length
      modifies this, frames
      ensures var s := old(Value());
        Value() == s.(table := s.table[page := fid], owner := s.owner[fid := page],
                      frames := s.frames[fid := Frame(OnDisk(s.disk, page), 1, false)])
    {
      ghost var s := Value();
      SetFrame(fid, Frame(if page in disk then disk[page] else Blank(), 1, false));
      pageTable := pageTable[page := fid];
      frameToPage := frameToPage[fid := page];
    }

    /** The page is resident: pin its frame once more. */
    method PinResident(page: int, write: bool, ghost g: nat)
      requires page in pageTable && 0 <= pageTable[page] < numFrames == frames.Length
        && replacer.replacerSize == numFrames
      modifies this, frames, replacer
      ensures Value() == DoFetch(old(Value()), g, page, write)
    {
      ghost var s := Value();
      var fid := pageTable[page];
      SetFrame(fid, frames[fid].(pins := frames[fid].pins + 1));
      replacer.SetEvictable(fid, false);
      replacer.RecordAccess(fid, page);
      guards := guards[g := Guard(page, fid, write, Fetched)];
    }

    /** The shared body of `CheckedReadPage` and `CheckedWritePage`: pin the page, or report that no frame is to be
        had. */
    method CheckedFetch(page: int, write: bool, ghost g: nat) returns (ok: bool)
      requires Valid() && g !in guards
      modifies this, frames, replacer
      ensures Valid() && Value() == Next(old(Value()), Fetch(g, page, write))
      ensures ok <==> !FetchFails(old(Value()), page)
    {
      ghost var s := Value();
      StepReachable(s, Fetch(g, page, write));
      ResidentFacts(s, page);
      if page in pageTable {
        PinResident(page, write, g);
        return true;
      }
      if freeFrames != [] {
        var fid := freeFrames[0];
        assert fid in s.free;
        freeFrames := freeFrames[1..];
        ReadIn(fid, page, write, g);
        return true;
      }
      var victim := TakeVictim();
      if victim.None? {
        return false;
      }
      ReadIn(victim.value, page, write, g);
      return true;
    }

    /** The guard takes the page latch; a write guard marks the frame dirty. */
    method LatchGuard(fid: int, write: bool, ghost g: nat)
      requires Valid() && Enabled(Value(), Latch(g)) && guards[g].frame == fid && guards[g].write == write
      modifies this, frames
      ensures Valid() && Value() == Next(old(Value()), Latch(g))
    {
      ghost var s := Value();
      StepReachable(s, Latch(g));
      SetFrame(fid, frames[fid].(dirty := frames[fid].dirty || write));
      guards := guards[g := guards[g].(stage := Latched)];
    }

    method WriteThroughGuard(fid: int, page: int, data: Data, ghost g: nat)
      requires Valid() && Enabled(Value(), Write(g, page, data)) && guards[g].frame == fid
      modifies this, frames
      ensures Valid() && Value() == Next(old(Value()), Write(g, page, data))
    {
      ghost var s := Value();
      StepReachable(s, Write(g, page, data));
      SetFrame(fid, frames[fid].(data := data));
    }

    /** First half of a guard's departure: give up the pin. */
    method UnpinGuard(fid: int, ghost g: nat)
      requires Valid() && Enabled(Value(), Unpin(g)) && guards[g].frame == fid
      modifies this, frames
      ensures Valid() && Value() == Next(old(Value()), Unpin(g))
    {
      ghost var s := Value();
      StepReachable(s, Unpin(g));
      SetFrame(fid, frames[fid].(pins := frames[fid].pins - 1));
      guards := guards[g := guards[g].(stage := Leaving)];
    }

    /** Second half, under the pool latch: the replacer may have the frame if nobody pins it. */
    method LeaveGuard(fid: int, ghost g: nat)
      requires Valid() && Enabled(Value(), Leave(g)) && guards[g].frame == fid
      modifies this, replacer
      ensures Valid() && Value() == Next(old(Value()), Leave(g))
    {
      ghost var s := Value();
      StepReachable(s, Leave(g));
      if frames[fid].pins == 0 {
        replacer.SetEvictable(fid, true);
      }
      guards := guards - {g};
      assert Value() == Next(s, Leave(g));
    }

    ghost predicate IsPinned(page: int)
      reads this, frames
    {
      page in pageTable && 0 <= pageTable[page] < frames.Length && frames[pageTable[page]].pins > 0
    }

    /** `junk` is whatever later reads of the deallocated page find on disk. */
    method DeletePage(page: int, junk: Data) returns (result: DeleteResult)
      requires Valid()
      modifies this, frames, replacer
      ensures result.Deleted? ==> Valid() && Value() == Next(old(Value()), Delete(page, junk))
      ensures !result.Deleted? ==> Value() == old(Value())
      ensures result.AssertionFailed? <==> Next(old(Value()), Delete(page, junk)).crashed
      ensures result.Pinned? <==> old(IsPinned(page))
    {
      ghost var s := Value();
      StepReachable(s, Delete(page, junk));
      ResidentFacts(s, page);
      if page !in pageTable {
        disk := disk[page := junk];
        return Deleted;
      }
      var fid := pageTable[page];
      if frames[fid].pins > 0 {
        return Pinned;
      }
      if fid in replacer.aliveMap && !replacer.aliveMap[fid].evictable {
        return AssertionFailed;
      }
      FreeFrame(page, fid, junk);
      return Deleted;
    }

    /** The page gives its frame back to the free list. */
    method FreeFrame(page: int, fid: int, junk: Data)
      requires page in pageTable && pageTable[page] == fid && 0 <= fid < numFrames == frames.Length
      requires frames[fid].pins <= 0 && !RemoveAsserts(Value(), fid)
      modifies this, frames, replacer
      ensures Value() == DoDelete(old(Value()), page, junk)
    {
      ghost var s := Value();
      replacer.Remove(fid);
      pageTable := pageTable - {page};
      frameToPage := frameToPage - {fid};
      freeFrames := freeFrames + [fid];
      SetFrame(fid, Frame(Blank(), 0, false));
      disk := disk[page := junk];
    }

    /** Flush one page: safe when nobody has its latch, unsafe otherwise; the bytes written are the same. */
    method FlushPage(page: int) returns (ok: bool)
      requires Valid()
      modifies this, frames
      ensures Valid() && Value() == DoFlush(old(Value()), page)
      ensures ok <==> page in old(pageTable)
    {
      ghost var s := Value();
      StepReachable(s, FlushUnsafe(page));
      ResidentFacts(s, page);
      if page !in pageTable {
        return false;
      }
      WriteBack(pageTable[page], page);
      return true;
    }

    /** Flush every resident page; `trace` lists the single flushes. Afterwards every resident frame is clean. */
    method FlushAllPages() returns (ghost trace: seq<Step>)
      requires Valid()
      modifies this, frames
      ensures Valid() && OnlyFlushes(trace) && IsRun(old(Value()), trace) && Value() == After(old(Value()), trace)
      ensures pageTable == old(pageTable)
      ensures forall page :: page in pageTable ==> Flushed(Value(), page)
    {
      trace := [];
      ghost var s := Value();
      var rest := pageTable.Keys;
      while rest != {}
        invariant Valid() && rest <= pageTable.Keys && pageTable == s.table
        invariant OnlyFlushes(trace) && IsRun(s, trace) && Value() == After(s, trace)
        invariant forall page :: page in pageTable && page !in rest ==> Flushed(Value(), page)
        decreases |rest|
      {
        ghost var some := Sets.Pick(rest);
        var page :| page in rest;
        ghost var now := Value();
        ResidentFacts(now, page);
        RunAppend(s, trace, FlushUnsafe(page));
        FlushedStays(now, page);
        var ok := FlushPage(page);
        trace := trace + [FlushUnsafe(page)];
        rest := rest - {page};
      }
    }
  }
}
