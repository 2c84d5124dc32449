/**
 * The buffer pool as a plain page store: what a page holds changes by writes to it and by its deletion, and by
 * nothing else, until an eviction drops bytes that no flush has written.
 */
module PageStore {
  import opened Sql
  import opened Pool
  import opened PoolInv
  import opened PoolTheorems

  // ----- clean frames ---------------------------------------------------------------------------------------------

  lemma LoadClean(s: State, g: nat, f: int, page: int, write: bool)
    requires Clean(s) && f !in s.owner
    ensures Clean(Load(s, g, f, page, write))
  {
  }

  lemma EvictClean(s: State, f: int)
    requires Clean(s) && Inverse(s.table, s.owner) && f in s.owner && f in s.frames
    ensures Clean(EvictFrame(s, f))
  {
    forall x | x in s.owner && x != f
      ensures s.owner[x] != s.owner[f]
    {
    }
  }

  lemma FlushClean(s: State, f: int, page: int)
    requires Clean(s) && Inverse(s.table, s.owner) && f in s.frames && f in s.owner && s.owner[f] == page
    ensures Clean(FlushFrame(s, f, page))
  {
    forall x | x in s.owner && x != f
      ensures s.owner[x] != page
    {
    }
  }

  lemma DeleteClean(s: State, page: int, junk: Data)
    requires Clean(s) && Inverse(s.table, s.owner) && forall f :: f in s.owner ==> f in s.frames
    ensures Clean(DoDelete(s, page, junk))
  {
    forall x | x in s.owner && (page !in s.table || x != s.table[page])
      ensures s.owner[x] != page
    {
    }
  }

  /** Every step but a write keeps clean frames equal to the disk. */
  lemma StepClean(s: State, step: Step)
    requires Inv(s) && Clean(s) && Enabled(s, step) && !step.Write?
    ensures Clean(Next(s, step))
  {
    assert forall f :: f in s.owner ==> f in s.frames;
    match step
    case Fetch(g, page, write) =>
      if page !in s.table {
        if s.free != [] {
          assert s.free[0] in s.free;
          LoadClean(s.(free := s.free[1..]), g, s.free[0], page, write);
        } else if Arc.Victim(s.arc).Some? {
          var f := Arc.Victim(s.arc).value;
          VictimUnpinned(s);
          EvictClean(s, f);
          LoadClean(EvictFrame(s, f), g, f, page, write);
        }
      }
    case GuardFlush(g) => FlushClean(s, s.guards[g].frame, s.guards[g].page);
    case Delete(page, junk) => DeleteClean(s, page, junk);
    case Flush(page) => if page in s.table { FlushClean(s, s.table[page], page); }
    case FlushUnsafe(page) => if page in s.table { FlushClean(s, s.table[page], page); }
    case _ =>
  }

  /**
   * A write keeps clean frames equal to the disk exactly when the frame is dirty or the bytes do not
   * change. Guards mark the frame only when they take the latch, so a flush under a live write guard
   * makes its later writes break this.
   */
  lemma WriteClean(s: State, g: nat, page: int, data: Data)
    requires Inv(s) && Clean(s) && Enabled(s, Write(g, page, data))
    ensures Clean(Next(s, Write(g, page, data))) <==>
      s.frames[s.guards[g].frame].dirty || data == s.frames[s.guards[g].frame].data
  {
    var s' := Next(s, Write(g, page, data));
    var f := s.guards[g].frame;
    assert f in s'.owner && f in s'.frames;
  }

  lemma FreshClean(n: nat, disk: map<int, Data>)
    ensures Clean(Fresh(n, disk)) && WritersDirty(Fresh(n, disk)) && Exclusive(Fresh(n, disk))
  {
  }

  // ----- one step ---------------------------------------------------------------------------------------------

  /** A deletion that goes through. */
  ghost predicate Deletes(s: State, page: int) {
    page in s.table && s.table[page] in s.frames ==>
      s.frames[s.table[page]].pins <= 0 && !RemoveAsserts(s, s.table[page])
  }

  /** What the step makes of a page that holds `contents`, in a plain page store. */
  ghost function StoreNext(s: State, step: Step, page: int, contents: Data): Data {
    match step
    case Write(_, p, data) => if p == page then data else contents
    case Delete(p, junk) => if p == page && Deletes(s, page) then junk else contents
    case _ => contents
  }

  /** The fetch evicts this page's frame, which counts as clean although its bytes are not the disk's. */
  ghost predicate Loses(s: State, step: Step, page: int) {
    && step.Fetch? && step.page !in s.table && s.free == [] && Arc.Victim(s.arc).Some?
    && var f := Arc.Victim(s.arc).value;
       && f in s.owner && f in s.frames && s.owner[f] == page
       && !s.frames[f].dirty && s.frames[f].data != OnDisk(s.disk, page)
  }

  lemma LoadLogical(s: State, g: nat, f: int, page: int, write: bool, p: int)
    requires Inverse(s.table, s.owner) && f !in s.owner && page !in s.table
    ensures Logical(Load(s, g, f, page, write), p) == Logical(s, p)
  {
  }

  /** Pushing a page out keeps its contents exactly when its frame is dirty or holds the disk's bytes. */
  lemma EvictLogical(s: State, f: int, p: int)
    requires Inverse(s.table, s.owner) && f in s.owner && f in s.frames
    ensures Logical(EvictFrame(s, f), p) == Logical(s, p) <==>
      (p == s.owner[f] ==> s.frames[f].dirty || s.frames[f].data == OnDisk(s.disk, p))
    ensures Inverse(EvictFrame(s, f).table, EvictFrame(s, f).owner)
  {
    EvictMaps(s.table, s.owner, f);
  }

  lemma FetchLogical(s: State, g: nat, page: int, write: bool, p: int)
    requires Inv(s) && Enabled(s, Fetch(g, page, write))
    ensures Logical(Next(s, Fetch(g, page, write)), p) == Logical(s, p) <==> !Loses(s, Fetch(g, page, write), p)
  {
    if page !in s.table && s.free == [] && Arc.Victim(s.arc).Some? {
      var f := Arc.Victim(s.arc).value;
      VictimUnpinned(s);
      EvictLogical(s, f, p);
      LoadLogical(EvictFrame(s, f), g, f, page, write, p);
    } else if page !in s.table && s.free != [] {
      assert s.free[0] in s.free;
      LoadLogical(s.(free := s.free[1..]), g, s.free[0], page, write, p);
    }
  }

  lemma WriteLogical(s: State, g: nat, page: int, data: Data, p: int)
    requires Inv(s) && Enabled(s, Write(g, page, data))
    ensures Logical(Next(s, Write(g, page, data)), p) == if p == page then data else Logical(s, p)
  {
  }

  lemma DeleteLogical(s: State, page: int, junk: Data, p: int)
    requires Inv(s) && Enabled(s, Delete(page, junk))
    ensures Logical(Next(s, Delete(page, junk)), p) == if p == page && Deletes(s, page) then junk else Logical(s, p)
  {
  }

  lemma OtherLogical(s: State, step: Step, p: int)
    requires Inv(s) && Enabled(s, step) && !step.Fetch? && !step.Write? && !step.Delete?
    ensures Logical(Next(s, step), p) == Logical(s, p)
  {
  }

  /** A step does to every page what it does to the plain store, unless it loses the page. */
  lemma StepLogical(s: State, step: Step, p: int)
    requires Inv(s) && Enabled(s, step)
    ensures Logical(Next(s, step), p) == StoreNext(s, step, p, Logical(s, p)) <==> !Loses(s, step, p)
  {
    match step
    case Fetch(g, page, write) => FetchLogical(s, g, page, write, p);
    case Write(g, page, data) => WriteLogical(s, g, page, data, p);
    case Delete(page, junk) => DeleteLogical(s, page, junk, p);
    case _ => OtherLogical(s, step, p);
  }

  // ----- runs -----------------------------------------------------------------------------------------------------

  /** The plain page store after the run. */
  ghost function Stored(s: State, steps: seq<Step>, page: int, contents: Data): Data
    requires IsRun(s, steps)
    decreases |steps|
  {
    if steps == [] then contents
    else Stored(Next(s, steps[0]), steps[1..], page, StoreNext(s, steps[0], page, contents))
  }

  /** The page holds what the plain store holds, in every state of the run. */
  ghost predicate AlwaysStored(s: State, steps: seq<Step>, page: int, contents: Data)
    requires IsRun(s, steps)
    decreases |steps|
  {
    && Logical(s, page) == contents
    && (steps == [] || AlwaysStored(Next(s, steps[0]), steps[1..], page, StoreNext(s, steps[0], page, contents)))
  }

  ghost predicate NeverLoses(s: State, steps: seq<Step>, page: int)
    requires IsRun(s, steps)
    decreases |steps|
  {
    steps == [] || (!Loses(s, steps[0], page) && NeverLoses(Next(s, steps[0]), steps[1..], page))
  }

  /**
   * When the pool is a page store: a page holds what the plain store holds throughout a run if and only if
   * no eviction of the run drops unwritten bytes of a clean frame.
   */
  lemma {:induction false} PageStoreExactly(s: State, steps: seq<Step>, page: int)
    requires Inv(s) && IsRun(s, steps)
    ensures AlwaysStored(s, steps, page, Logical(s, page)) <==> NeverLoses(s, steps, page)
    ensures NeverLoses(s, steps, page) ==> Logical(After(s, steps), page) == Stored(s, steps, page, Logical(s, page))
    decreases |steps|
  {
    if steps != [] {
      StepInv(s, steps[0]);
      StepLogical(s, steps[0], page);
      if !Loses(s, steps[0], page) {
        PageStoreExactly(Next(s, steps[0]), steps[1..], page);
      } else {
        NotStored(Next(s, steps[0]), steps[1..], page, StoreNext(s, steps[0], page, Logical(s, page)));
      }
    }
  }

  lemma NotStored(s: State, steps: seq<Step>, page: int, contents: Data)
    requires IsRun(s, steps) && Logical(s, page) != contents
    ensures !AlwaysStored(s, steps, page, contents)
  {
  }

  /** Every write finds its frame marked dirty, or changes no byte. */
  ghost predicate Careful(s: State, step: Step) {
    step.Write? && step.g in s.guards && s.guards[step.g].frame in s.frames ==>
      var f := s.guards[step.g].frame;
      s.frames[f].dirty || step.data == s.frames[f].data
  }

  ghost predicate CarefulRun(s: State, steps: seq<Step>)
    requires IsRun(s, steps)
    decreases |steps|
  {
    steps == [] || (Careful(s, steps[0]) && CarefulRun(Next(s, steps[0]), steps[1..]))
  }

  lemma CarefulStep(s: State, step: Step)
    requires Inv(s) && Clean(s) && Enabled(s, step) && Careful(s, step)
    ensures Clean(Next(s, step)) && forall page :: !Loses(s, step, page)
  {
    if step.Write? {
      WriteClean(s, step.g, step.page, step.data);
    } else {
      StepClean(s, step);
    }
  }

  /**
   * The pool refines a plain page store in every careful run: whatever is fetched, evicted, flushed or
   * deleted in between, a page holds the last data written to it, and clean frames equal the disk.
   */
  lemma {:induction false} RefinesPageStore(s: State, steps: seq<Step>, page: int)
    requires Inv(s) && Clean(s) && IsRun(s, steps) && CarefulRun(s, steps)
    ensures NeverLoses(s, steps, page) && Clean(After(s, steps))
    ensures Logical(After(s, steps), page) == Stored(s, steps, page, Logical(s, page))
    decreases |steps|
  {
    if steps != [] {
      StepInv(s, steps[0]);
      CarefulStep(s, steps[0]);
      StepLogical(s, steps[0], page);
      RefinesPageStore(Next(s, steps[0]), steps[1..], page);
    }
  }

  // ----- a discipline that is enough --------------------------------------------------------------------------------

  /** No flush of a page that a write guard has latched. */
  ghost predicate Disciplined(s: State, step: Step) {
    match step
    case GuardFlush(g) => g in s.guards ==> !s.guards[g].write
    case FlushUnsafe(page) =>
      page in s.table ==>
        forall g :: g in s.guards && s.guards[g].frame == s.table[page] && s.guards[g].stage == Latched
          ==> !s.guards[g].write
    case _ => true
  }

  ghost predicate DisciplinedRun(s: State, steps: seq<Step>)
    requires IsRun(s, steps)
    decreases |steps|
  {
    steps == [] || (Disciplined(s, steps[0]) && DisciplinedRun(Next(s, steps[0]), steps[1..]))
  }

  /** Nobody holds the latch of a frame that nobody pins. */
  lemma FetchWritersDirty(s: State, g: nat, page: int, write: bool)
    requires Inv(s) && WritersDirty(s) && Enabled(s, Fetch(g, page, write))
    ensures WritersDirty(DoFetch(s, g, page, write))
  {
    if page !in s.table {
      if s.free != [] {
        assert s.free[0] in s.free;
        NobodyPins(s, s.free[0]);
        LoadWritersDirty(s.(free := s.free[1..]), g, s.free[0], page, write);
      } else if Arc.Victim(s.arc).Some? {
        var f := Arc.Victim(s.arc).value;
        VictimUnpinned(s);
        NobodyPins(s, f);
        EvictWritersDirty(s, f);
        LoadWritersDirty(EvictFrame(s, f), g, f, page, write);
      }
    }
  }

  /** No guard is under the latch of the frame. */
  ghost predicate Unlatched(s: State, f: int) {
    forall g :: g in s.guards && s.guards[g].frame == f ==> s.guards[g].stage != Latched
  }

  lemma LoadWritersDirty(s: State, g: nat, f: int, page: int, write: bool)
    requires WritersDirty(s) && Unlatched(s, f)
    ensures WritersDirty(Load(s, g, f, page, write))
  {
  }

  lemma EvictWritersDirty(s: State, f: int)
    requires WritersDirty(s) && f in s.frames && Unlatched(s, f)
    ensures WritersDirty(EvictFrame(s, f)) && Unlatched(EvictFrame(s, f), f)
  {
  }

  lemma DeleteWritersDirty(s: State, page: int, junk: Data)
    requires PinsOk(s) && WritersDirty(s)
    ensures WritersDirty(DoDelete(s, page, junk))
  {
    if page in s.table && s.table[page] in s.frames && s.frames[s.table[page]].pins == 0 {
      NobodyPins(s, s.table[page]);
    }
  }

  lemma FlushWritersDirty(s: State, f: int, page: int)
    requires WritersDirty(s) && f in s.frames
    requires forall g :: g in s.guards && s.guards[g].frame == f && s.guards[g].stage == Latched ==> !s.guards[g].write
    ensures WritersDirty(FlushFrame(s, f, page))
  {
  }

  lemma StepWritersDirty(s: State, step: Step)
    requires Inv(s) && WritersDirty(s) && Exclusive(s) && Enabled(s, step) && Disciplined(s, step)
    ensures WritersDirty(Next(s, step))
  {
    match step
    case Fetch(g, page, write) => FetchWritersDirty(s, g, page, write);
    case Delete(page, junk) => DeleteWritersDirty(s, page, junk);
    case GuardFlush(g) => FlushWritersDirty(s, s.guards[g].frame, s.guards[g].page);
    case Flush(page) => if page in s.table { ResidentFrame(s, page); FlushWritersDirty(s, s.table[page], page); }
    case FlushUnsafe(page) => if page in s.table { ResidentFrame(s, page); FlushWritersDirty(s, s.table[page], page); }
    case _ =>
  }

  /** The page latch lets one writer in alone, or any number of readers. */
  ghost predicate Exclusive(s: State) {
    forall g, h ::
      (g in s.guards && h in s.guards && g != h && s.guards[g].frame == s.guards[h].frame
       && s.guards[g].stage == Latched && s.guards[h].stage == Latched) ==>
        !s.guards[g].write && !s.guards[h].write
  }

  lemma StepExclusive(s: State, step: Step)
    requires Exclusive(s) && Enabled(s, step)
    ensures Exclusive(Next(s, step))
  {
    if !step.Latch? {
      NoNewLatch(s, step);
      FewerLatched(s, Next(s, step));
    }
  }

  /** Only taking the latch puts a guard under it. */
  lemma NoNewLatch(s: State, step: Step)
    requires Enabled(s, step) && !step.Latch?
    ensures forall g :: g in Next(s, step).guards && Next(s, step).guards[g].stage == Latched ==>
      g in s.guards && s.guards[g] == Next(s, step).guards[g]
  {
  }

  lemma FewerLatched(s: State, s': State)
    requires Exclusive(s)
    requires forall g :: g in s'.guards && s'.guards[g].stage == Latched ==>
               g in s.guards && s.guards[g] == s'.guards[g]
    ensures Exclusive(s')
  {
  }

  /** A run that never flushes under a write guard is careful: its writers' frames stay marked. */
  lemma {:induction false} DisciplinedIsCareful(s: State, steps: seq<Step>)
    requires Inv(s) && WritersDirty(s) && Exclusive(s) && IsRun(s, steps) && DisciplinedRun(s, steps)
    ensures CarefulRun(s, steps)
    decreases |steps|
  {
    if steps != [] {
      StepInv(s, steps[0]);
      StepWritersDirty(s, steps[0]);
      StepExclusive(s, steps[0]);
      DisciplinedIsCareful(Next(s, steps[0]), steps[1..]);
    }
  }

  /**
   * From an empty pool on: in every run that never flushes under a write guard, a page holds what it
   * would hold in a plain page store that starts with the disk.
   */
  lemma PoolIsPageStore(n: nat, disk: map<int, Data>, steps: seq<Step>, page: int)
    requires IsRun(Fresh(n, disk), steps) && DisciplinedRun(Fresh(n, disk), steps)
    ensures Logical(After(Fresh(n, disk), steps), page) == Stored(Fresh(n, disk), steps, page, OnDisk(disk, page))
  {
    FreshInv(n, disk);
    FreshClean(n, disk);
    DisciplinedIsCareful(Fresh(n, disk), steps);
    RefinesPageStore(Fresh(n, disk), steps, page);
  }

  // ----- a run that loses a write ------------------------------------------------------------------------------------

  lemma PrependStored(s: State, step: Step, rest: seq<Step>, page: int, contents: Data)
    requires Enabled(s, step) && IsRun(Next(s, step), rest)
    ensures IsRun(s, [step] + rest) && After(s, [step] + rest) == After(Next(s, step), rest)
    ensures Stored(s, [step] + rest, page, contents) ==
            Stored(Next(s, step), rest, page, StoreNext(s, step, page, contents))
  {
    assert ([step] + rest)[1..] == rest;
  }

  /** Nobody pins page 7 and its frame is evictable: fetching another page drops it. */
  lemma SecondFetch(data: Data, disk: map<int, Data>)
    ensures var s := OneFrame(data, 0, false, true, disk, map[]);
      Enabled(s, Fetch(1, 8, false)) && Logical(Next(s, Fetch(1, 8, false)), 7) == OnDisk(disk, 7)
  {
    var s := OneFrame(data, 0, false, true, disk, map[]);
    assert Arc.LastEvictable([0], s.arc.alive) == Some(0);
    assert Arc.Victim(s.arc) == Some(0);
  }

  /** The second half of the lost write: a clean frame with unwritten bytes is left and evicted. */
  lemma DirtyBytesDropped(data: Data, disk: map<int, Data>)
    ensures var s := OneFrame(data, 1, false, false, disk, map[0 := Guard(7, 0, true, Latched)]);
      var steps := [Unpin(0)] + ([Leave(0)] + ([Fetch(1, 8, false)] + []));
      IsRun(s, steps) && Logical(After(s, steps), 7) == OnDisk(disk, 7) && Stored(s, steps, 7, data) == data
  {
    var guard := Guard(7, 0, true, Latched);
    var s4 := OneFrame(data, 1, false, false, disk, map[0 := guard]);
    var s5 := OneFrame(data, 0, false, false, disk, map[0 := guard.(stage := Leaving)]);
    var s6 := OneFrame(data, 0, false, true, disk, map[]);
    assert Enabled(s4, Unpin(0)) && Next(s4, Unpin(0)) == s5;
    assert Enabled(s5, Leave(0)) && Next(s5, Leave(0)) == s6 by { assert s5.guards - {0} == map[]; }
    SecondFetch(data, disk);
    var s7 := Next(s6, Fetch(1, 8, false));
    assert IsRun(s7, []) && After(s7, []) == s7;
    PrependStored(s6, Fetch(1, 8, false), [], 7, data);
    PrependStored(s5, Leave(0), [Fetch(1, 8, false)] + [], 7, data);
    PrependStored(s4, Unpin(0), [Leave(0)] + ([Fetch(1, 8, false)] + []), 7, data);
  }

  /** A page with a write guard on it: flush, write, drop the guard, bring in another page. */
  lemma FlushThenWrite(data: Data)
    ensures var s := OneFrame(Blank(), 1, true, false, map[], map[0 := Guard(7, 0, true, Latched)]);
      var steps := [GuardFlush(0)] + ([Write(0, 7, data)] + ([Unpin(0)] + ([Leave(0)] + ([Fetch(1, 8, false)] + []))));
      IsRun(s, steps) && Logical(After(s, steps), 7) == Blank() && Stored(s, steps, 7, Blank()) == data
  {
    var guard := Guard(7, 0, true, Latched);
    var s2 := OneFrame(Blank(), 1, true, false, map[], map[0 := guard]);
    var s3 := OneFrame(Blank(), 1, false, false, map[7 := Blank()], map[0 := guard]);
    var s4 := OneFrame(data, 1, false, false, map[7 := Blank()], map[0 := guard]);
    assert Enabled(s2, GuardFlush(0)) && Next(s2, GuardFlush(0)) == s3;
    assert Enabled(s3, Write(0, 7, data)) && Next(s3, Write(0, 7, data)) == s4;
    DirtyBytesDropped(data, map[7 := Blank()]);
    var tail := [Unpin(0)] + ([Leave(0)] + ([Fetch(1, 8, false)] + []));
    PrependStored(s3, Write(0, 7, data), tail, 7, Blank());
    PrependStored(s2, GuardFlush(0), [Write(0, 7, data)] + tail, 7, Blank());
  }

  ghost function LosingSteps(data: Data): seq<Step> {
    [Latch(0)] + ([GuardFlush(0)] + ([Write(0, 7, data)] + ([Unpin(0)] + ([Leave(0)] + ([Fetch(1, 8, false)] + [])))))
  }

  lemma LatchThenFlush(data: Data)
    ensures var s, steps := OneFrame(Blank(), 1, false, false, map[], map[0 := Guard(7, 0, true, Fetched)]),
                            LosingSteps(data);
      IsRun(s, steps) && Logical(After(s, steps), 7) == Blank() && Stored(s, steps, 7, Blank()) == data
  {
    var guard := Guard(7, 0, true, Latched);
    var s1 := OneFrame(Blank(), 1, false, false, map[], map[0 := guard.(stage := Fetched)]);
    var s2 := OneFrame(Blank(), 1, true, false, map[], map[0 := guard]);
    assert Enabled(s1, Latch(0)) && Next(s1, Latch(0)) == s2;
    FlushThenWrite(data);
    PrependStored(s1, Latch(0), LosingSteps(data)[1..], 7, Blank());
    assert LosingSteps(data) == [Latch(0)] + LosingSteps(data)[1..];
  }

  /**
   * The discipline is needed. Flushing through a write guard and then writing through it loses the
   * write as soon as the page is evicted: the frame counts as clean.
   */
  lemma FlushUnderWriterLosesWrite()
    ensures exists steps: seq<Step> :: IsRun(Fresh(1, map[]), steps)
              && Logical(After(Fresh(1, map[]), steps), 7) != Stored(Fresh(1, map[]), steps, 7, Blank())
  {
    var data: Data := [1];
    FirstFetch(true);
    LatchThenFlush(data);
    PrependStored(Fresh(1, map[]), Fetch(0, 7, true), LosingSteps(data), 7, Blank());
    assert |Blank()| == PAGE_SIZE;
    assert IsRun(Fresh(1, map[]), [Fetch(0, 7, true)] + LosingSteps(data));
  }
}
