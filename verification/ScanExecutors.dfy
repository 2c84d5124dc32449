/** The two table scans, batch at a time: every slot in heap order, or the slots that the index leads to. */
module ScanExecutors {
  import opened Sql
  import opened Chain
  import opened Mvcc
  import opened PkIndex
  import opened PkTheorems
  import opened IndexedTables
  import opened Bags
  import opened Plans
  import opened Optimizer
  import Sets

  /** A row a scan yields, with its record id. */
  datatype Hit = Hit(rid: Rid, row: Row)

  lemma Associates(a: seq<Hit>, b: seq<Hit>, c: seq<Hit>)
    ensures a + (b + c) == (a + b) + c
  {
  }

  // ----- what a scan of a view finds -----------------------------------------------------------------------------

  /** The hit at a slot, if its row passes the filter. */
  function Hitting(table: nat, view: seq<Option<Row>>, filter: Option<Expr>): nat -> seq<Hit> {
    (i: nat) => if i < |view| && view[i].Some? && Passes(filter, view[i].value)
      then [Hit(Rid(table, i), view[i].value)] else []
  }

  /** The hits at some slots, in order. */
  function HitsAt(table: nat, view: seq<Option<Row>>, filter: Option<Expr>, slots: seq<nat>): seq<Hit> {
    FlatMap<nat, Hit>(Hitting(table, view, filter), slots)
  }

  lemma TakeSlot(table: nat, view: seq<Option<Row>>, filter: Option<Expr>, slots: seq<nat>, k: nat)
    requires k < |slots|
    ensures HitsAt(table, view, filter, slots[k..]) ==
            Hitting(table, view, filter)(slots[k]) + HitsAt(table, view, filter, slots[k + 1..])
  {
    assert slots[k..][1..] == slots[k + 1..];
  }

  function RowOf(): Hit -> seq<Row> {
    (h: Hit) => [h.row]
  }

  function RowsOf(hits: seq<Hit>): seq<Row> {
    FlatMap(RowOf(), hits)
  }

  function RidsOf(hits: seq<Hit>): seq<Rid> {
    seq(|hits|, i requires 0 <= i < |hits| => hits[i].rid)
  }

  /** Without their record ids the hits are the rows of the scan. */
  lemma HitRows(table: nat, view: seq<Option<Row>>, filter: Option<Expr>, slots: seq<nat>)
    ensures RowsOf(HitsAt(table, view, filter, slots)) == FlatMap(Scanning(view, filter), slots)
  {
    var f, h := Hitting(table, view, filter), Scanning(view, filter);
    forall i: nat
      ensures h(i) == FlatMap(RowOf(), f(i))
    {
    }
    FlatMapCompose<nat, Hit, Row>(f, RowOf(), h, slots);
  }

  /** The hits are what the view shows at their record ids, which lie in the given slots. */
  ghost predicate AllShown(hits: seq<Hit>, table: nat, view: seq<Option<Row>>, slots: seq<nat>) {
    forall h :: h in hits ==>
      h.rid.table == table && h.rid.slot in slots && h.rid.slot < |view| && view[h.rid.slot] == Some(h.row)
  }

  lemma {:induction false} HitsShown(table: nat, view: seq<Option<Row>>, filter: Option<Expr>, slots: seq<nat>)
    ensures AllShown(HitsAt(table, view, filter, slots), table, view, slots)
    decreases |slots|
  {
    if slots != [] {
      HitsShown(table, view, filter, slots[1..]);
      var first, later := Hitting(table, view, filter)(slots[0]), HitsAt(table, view, filter, slots[1..]);
      assert HitsAt(table, view, filter, slots) == first + later;
      forall h: Hit | h in first + later
        ensures h.rid.slot in slots
      {
        if h in later { assert h.rid.slot in slots[1..]; }
      }
    }
  }

  ghost predicate DistinctRids(hits: seq<Hit>) {
    forall i, j :: 0 <= i < j < |hits| ==> hits[i].rid != hits[j].rid
  }

  /** Slots without repetition give hits without. */
  lemma {:induction false} HitsDistinct(table: nat, view: seq<Option<Row>>, filter: Option<Expr>, slots: seq<nat>)
    requires Distinct(slots)
    ensures DistinctRids(HitsAt(table, view, filter, slots))
    decreases |slots|
  {
    if slots != [] {
      DistinctTail(slots);
      HitsDistinct(table, view, filter, slots[1..]);
      HitsShown(table, view, filter, slots[1..]);
      var first, later := Hitting(table, view, filter)(slots[0]), HitsAt(table, view, filter, slots[1..]);
      assert HitsAt(table, view, filter, slots) == first + later;
      forall h: Hit | h in later
        ensures h.rid.slot != slots[0]
      {
      }
    }
  }

  /** The hit at a slot, if the transaction sees a row there and it passes the filter. */
  method Visit(table: IndexedTable, t: TxnId, filter: Option<Expr>, slot: nat, ghost view: seq<Option<Row>>)
      returns (out: seq<Hit>)
    requires table.Valid() && table.Ready(t) && slot < |view| <= table.slots && table.Sight(t)[slot] == view[slot]
    ensures out == Hitting(table.info.table, view, filter)(slot)
  {
    var row := table.ReadSlot(t, slot);
    if row.None? || (filter.Some? && !IsTrue(Evaluate(filter.value, row.value))) {
      return [];
    }
    return [Hit(Rid(table.info.table, slot), row.value)];
  }

  // ----- slots ahead of a scan -------------------------------------------------------------------------------------

  /** The slots still show what they showed in `view`. */
  ghost predicate Undisturbed(sight: seq<Option<Row>>, view: seq<Option<Row>>, slots: seq<nat>) {
    |view| <= |sight| && forall i :: i in slots ==> i < |view| && sight[i] == view[i]
  }

  /** Other transactions only add slots that show nothing. */
  lemma PadUndisturbed(sight: seq<Option<Row>>, n: nat, view: seq<Option<Row>>, slots: seq<nat>)
    requires Undisturbed(sight, view, slots) && |sight| <= n
    ensures Undisturbed(Pad(sight, n), view, slots)
  {
    forall i | i in slots
      ensures Pad(sight, n)[i] == sight[i]
    {
      assert Pad(sight, n)[..|sight|][i] == sight[i];
    }
  }

  /** What a batch has taken lies behind the scan. */
  ghost predicate Behind(batch: seq<Hit>, ahead: seq<nat>) {
    forall h :: h in batch ==> h.rid.slot !in ahead
  }

  /** Taking the next slot of a scan. */
  lemma StepAhead(
      table: nat, sight: seq<Option<Row>>, view: seq<Option<Row>>, filter: Option<Expr>, slots: seq<nat>, k: nat)
    requires k < |slots| && Distinct(slots) && Undisturbed(sight, view, slots[k..])
    ensures slots[k] < |view| <= |sight| && sight[slots[k]] == view[slots[k]]
    ensures Undisturbed(sight, view, slots[k + 1..]) && forall i :: i in slots[k + 1..] ==> i in slots[k..]
    ensures Behind(Hitting(table, view, filter)(slots[k]), slots[k + 1..])
    ensures HitsAt(table, view, filter, slots[k..]) ==
            Hitting(table, view, filter)(slots[k]) + HitsAt(table, view, filter, slots[k + 1..])
  {
    assert slots[k..][0] == slots[k] && slots[k] in slots[k..];
    TakeSlot(table, view, filter, slots, k);
  }

  class SeqScanExecutor {
    const table: IndexedTable
    const t: TxnId
    const filter: Option<Expr>
    var cursor: nat
    var stop: nat
    ghost var view: seq<Option<Row>>

    constructor (table: IndexedTable, t: TxnId, filter: Option<Expr>)
      ensures this.table == table && this.t == t && this.filter == filter
    {
      this.table, this.t, this.filter := table, t, filter;
    }

    /** The slots still to come. */
    ghost function Ahead(): seq<nat>
      reads this
    {
      if cursor <= stop then UpTo(stop)[cursor..] else []
    }

    ghost predicate Placed()
      reads this
    {
      cursor <= stop == |view|
    }

    /** The table is in order, and the slots ahead show what they showed when the scan began. */
    ghost predicate Valid()
      reads this, table, table.tm, table.tm.runningTxns
    {
      Placed() && table.Valid() && table.Ready(t) && Undisturbed(table.Sight(t), view, Ahead())
    }

    /** The hits still to come. */
    ghost function Remaining(): seq<Hit>
      reads this
    {
      HitsAt(table.info.table, view, filter, Ahead())
    }

    method Init()
      requires table.Valid() && table.Ready(t)
      modifies this, table.tm
      ensures Valid() && view == table.Sight(t) == old(table.Sight(t)) && Ahead() == UpTo(|view|)
      ensures table.Recorded(old(table.tm.State()), t, filter)
    {
      table.AppendScanPredicate(t, filter);
      cursor, stop := 0, table.slots;
      view := table.Sight(t);
    }

    method Next(batchSize: nat) returns (batch: seq<Hit>, ok: bool)
      requires Valid()
      modifies this`cursor
      ensures Valid() && batch + Remaining() == old(Remaining()) && Behind(batch, Ahead())
      ensures |batch| == batchSize || (|batch| < batchSize && Remaining() == [])
      ensures ok <==> batch != []
    {
      batch := [];
      while cursor < stop && |batch| < batchSize
        invariant Valid() && batch + Remaining() == old(Remaining()) && Behind(batch, Ahead())
        invariant |batch| <= batchSize
        decreases stop - cursor
      {
        var out := VisitNext();
        Associates(batch, out, Remaining());
        batch := batch + out;
      }
      return batch, batch != [];
    }

    method VisitNext() returns (out: seq<Hit>)
      requires Valid() && cursor < stop
      modifies this`cursor
      ensures Valid() && cursor == old(cursor) + 1 && |out| <= 1 && out + Remaining() == old(Remaining())
      ensures Behind(out, Ahead()) && forall i :: i in Ahead() ==> i in old(Ahead())
    {
      StepAhead(table.info.table, table.Sight(t), view, filter, UpTo(stop), cursor);
      out := Visit(table, t, filter, cursor, view);
      cursor := cursor + 1;
    }
  }

  class IndexScanExecutor {
    const table: IndexedTable
    const t: TxnId
    const filter: Option<Expr>
    const predKeys: seq<Expr>
    var lookupSlots: seq<nat>
    var lookupCursor: nat
    ghost var view: seq<Option<Row>>

    constructor (table: IndexedTable, t: TxnId, filter: Option<Expr>, predKeys: seq<Expr>)
      ensures this.table == table && this.t == t && this.filter == filter && this.predKeys == predKeys
    {
      this.table, this.t, this.filter, this.predKeys := table, t, filter, predKeys;
    }

    /** The slots still to come. */
    ghost function Ahead(): seq<nat>
      reads this
    {
      if lookupCursor <= |lookupSlots| then lookupSlots[lookupCursor..] else []
    }

    ghost predicate Placed()
      reads this
    {
      lookupCursor <= |lookupSlots| && Distinct(lookupSlots)
    }

    /** The table is in order, and the slots ahead show what they showed when the scan began. */
    ghost predicate Valid()
      reads this, table, table.tm, table.tm.runningTxns
    {
      Placed() && table.Valid() && table.Ready(t) && Undisturbed(table.Sight(t), view, Ahead())
    }

    /** The hits still to come. */
    ghost function Remaining(): seq<Hit>
      reads this
    {
      HitsAt(table.info.table, view, filter, Ahead())
    }

    /** Look every key up and keep each slot found once; with no keys, go through the whole index. */
    method Init()
      requires table.Valid() && table.Ready(t)
      modifies this, table.tm
      ensures Valid() && view == table.Sight(t) == old(table.Sight(t))
      ensures predKeys != [] ==> Ahead() == LookupSlots(Entries(table.index), predKeys)
      ensures predKeys == [] ==> AllEntries(table.index, Ahead())
      ensures table.Recorded(old(table.tm.State()), t, filter)
    {
      table.AppendScanPredicate(t, filter);
      var slots := FindSlots();
      StartAt(slots);
    }

    method StartAt(slots: seq<nat>)
      requires table.Valid() && table.Ready(t) && Distinct(slots)
      requires forall i :: 0 <= i < |slots| ==> slots[i] < table.slots
      modifies this
      ensures Valid() && view == table.Sight(t) && Ahead() == slots
    {
      lookupSlots, lookupCursor := slots, 0;
      view := table.Sight(t);
    }

    method FindSlots() returns (slots: seq<nat>)
      requires table.Valid()
      ensures predKeys != [] ==> slots == LookupSlots(Entries(table.index), predKeys)
      ensures predKeys == [] ==> AllEntries(table.index, slots)
      ensures Distinct(slots) && forall i :: 0 <= i < |slots| ==> slots[i] < table.slots
    {
      if predKeys != [] {
        var found := LookKeysUp();
        slots := RemoveRepeats(found);
        UniqueFacts(found);
      } else {
        slots := IterateIndex();
      }
    }

    method LookKeysUp() returns (found: seq<nat>)
      requires table.Valid()
      ensures found == FlatMap(LookingUp(Entries(table.index)), predKeys)
      ensures forall i :: 0 <= i < |found| ==> found[i] < table.slots
    {
      EntriesInUse(table.Value(), table.slots);
      found := [];
      ghost var f := LookingUp(Entries(table.index));
      for k := 0 to |predKeys|
        invariant found == FlatMap(f, predKeys[..k])
        invariant forall i :: 0 <= i < |found| ==> found[i] < table.slots
      {
        var value := Evaluate(predKeys[k], []);
        if value in table.index {
          found := found + [table.index[value].slot];
        }
        assert predKeys[..k + 1] == predKeys[..k] + [predKeys[k]];
        FlatMapAppend(f, predKeys[..k], [predKeys[k]]);
        FlatMapSingle(f, predKeys[k]);
      }
      assert predKeys[..|predKeys|] == predKeys;
    }

    method RemoveRepeats(found: seq<nat>) returns (unique: seq<nat>)
      ensures unique == Unique(found)
      ensures forall i :: 0 <= i < |unique| ==> unique[i] in found
    {
      unique := [];
      var seen: set<nat> := {};
      for k := 0 to |found|
        invariant unique == Unique(found[..k])
        invariant forall x :: x in seen <==> x in unique
        invariant forall i :: 0 <= i < |unique| ==> unique[i] in found
      {
        assert found[..k + 1][..k] == found[..k];
        if found[k] !in seen {
          seen := seen + {found[k]};
          unique := unique + [found[k]];
        }
      }
      assert found[..|found|] == found;
    }

    /** The slots of all entries; which key comes first is the index's business. */
    method IterateIndex() returns (slots: seq<nat>)
      requires table.Valid()
      ensures AllEntries(table.index, slots) && forall i :: 0 <= i < |slots| ==> slots[i] < table.slots
    {
      EntriesInUse(table.Value(), table.slots);
      EntriesApart(table.Value());
      slots := [];
      var rest := table.index.Keys;
      while rest != {}
        invariant rest <= table.index.Keys && AllEntriesBut(table.index, rest, slots)
        invariant forall i :: 0 <= i < |slots| ==> slots[i] < table.slots
        decreases rest
      {
        ghost var some := Sets.Pick(rest);
        var key :| key in rest;
        OneMoreEntry(table.index, rest, slots, key);
        slots := slots + [table.index[key].slot];
        rest := rest - {key};
      }
    }

    method Next(batchSize: nat) returns (batch: seq<Hit>, ok: bool)
      requires Valid()
      modifies this`lookupCursor
      ensures Valid() && batch + Remaining() == old(Remaining()) && Behind(batch, Ahead())
      ensures |batch| == batchSize || (|batch| < batchSize && Remaining() == [])
      ensures ok <==> batch != []
    {
      batch := [];
      while |batch| < batchSize
        invariant Valid() && batch + Remaining() == old(Remaining()) && Behind(batch, Ahead())
        invariant |batch| <= batchSize
        decreases |lookupSlots| - lookupCursor
      {
        if lookupCursor == |lookupSlots| {
          break;
        }
        var out := VisitNext();
        Associates(batch, out, Remaining());
        batch := batch + out;
      }
      return batch, batch != [];
    }

    method VisitNext() returns (out: seq<Hit>)
      requires Valid() && lookupCursor < |lookupSlots|
      modifies this`lookupCursor
      ensures Valid() && lookupCursor == old(lookupCursor) + 1 && |out| <= 1 && out + Remaining() == old(Remaining())
      ensures Behind(out, Ahead()) && forall i :: i in Ahead() ==> i in old(Ahead())
    {
      StepAhead(table.info.table, table.Sight(t), view, filter, lookupSlots, lookupCursor);
      out := Visit(table, t, filter, lookupSlots[lookupCursor], view);
      lookupCursor := lookupCursor + 1;
    }
  }

  // ----- iterating over the whole index ---------------------------------------------------------------------------

  /** The slots of the entries whose keys are not in `rest`, each once. */
  ghost predicate AllEntriesBut(index: map<Value, Rid>, rest: set<Value>, slots: seq<nat>) {
    && Distinct(slots)
    && (forall i :: i in slots <==> exists key :: key in index && key !in rest && index[key].slot == i)
  }

  ghost predicate AllEntries(index: map<Value, Rid>, slots: seq<nat>) {
    AllEntriesBut(index, {}, slots)
  }

  /** Different keys lead to different slots. */
  ghost predicate Apart(index: map<Value, Rid>) {
    forall a, b :: a in index && b in index && index[a].slot == index[b].slot ==> a == b
  }

  lemma EntriesApart(p: Pk)
    requires PkReachable(p)
    ensures Apart(p.index)
  {
    PkReachableInv(p);
    forall a, b | a in p.index && b in p.index && p.index[a].slot == p.index[b].slot
      ensures a == b
    {
      assert p.index[a] == Rid(p.info.table, p.index[a].slot) == p.index[b];
    }
  }

  lemma OneMoreEntry(index: map<Value, Rid>, rest: set<Value>, slots: seq<nat>, key: Value)
    requires Apart(index) && AllEntriesBut(index, rest, slots) && key in rest && key in index
    ensures AllEntriesBut(index, rest - {key}, slots + [index[key].slot])
  {
    var slot := index[key].slot;
    assert slot !in slots;
    forall i | i in slots + [slot]
      ensures exists k :: k in index && k !in rest - {key} && index[k].slot == i
    {
      if i == slot { assert key in index && key !in rest - {key} && index[key].slot == i; }
    }
    forall k | k in index && k !in rest - {key}
      ensures index[k].slot in slots + [slot]
    {
      if k != key { assert index[k].slot in slots; }
    }
  }

  /** Going through the whole index passes every visible row. */
  lemma IterationComplete(p: Pk, t: TxnId, n: nat, filter: Option<Expr>, slots: seq<nat>)
    requires PkInv(p) && Settled(p, t) && AllEntries(p.index, slots)
    ensures Complete(View(p, t, n), filter, slots)
  {
    ViewAgrees(p, t, n);
    forall i | 0 <= i < n && View(p, t, n)[i].Some?
      ensures i in slots
    {
      var key := GetColumn(View(p, t, n)[i].value, p.info.col);
      assert key in p.index && key !in {} && p.index[key].slot == i;
    }
  }

  /** So it finds the rows of a sequential scan. */
  lemma IndexIterationIsScan(p: Pk, t: TxnId, n: nat, filter: Option<Expr>, slots: seq<nat>)
    requires PkInv(p) && Settled(p, t) && AllEntries(p.index, slots)
    ensures multiset(FlatMap(Scanning(View(p, t, n), filter), slots)) == multiset(SeqScanRows(View(p, t, n), filter))
  {
    IterationComplete(p, t, n, filter, slots);
    CompleteBag(View(p, t, n), filter, slots);
  }

  // ----- either scan ------------------------------------------------------------------------------------------------

  /** The keys an index scan may be given for a filter: none, or those collected from it. */
  predicate KeysFor(filter: Option<Expr>, keys: seq<Expr>, col: nat) {
    || keys == []
    || (filter.Some? && CollectEqualityKeys(filter.value, None).Some?
        && CollectEqualityKeys(filter.value, None).value == Lookup(keys, col))
  }

  /** The slots an index scan goes through. */
  ghost predicate FoundBy(index: map<Value, Rid>, keys: seq<Expr>, slots: seq<nat>) {
    if keys == [] then AllEntries(index, slots) else slots == LookupSlots(Entries(index), keys)
  }

  lemma FoundComplete(p: Pk, t: TxnId, n: nat, filter: Option<Expr>, keys: seq<Expr>, slots: seq<nat>)
    requires PkReachable(p) && ReadyIn(p, t) && KeysFor(filter, keys, p.info.col) && FoundBy(p.index, keys, slots)
    ensures Complete(View(p, t, n), filter, slots)
  {
    PkReachableInv(p);
    if keys == [] {
      IterationComplete(p, t, n, filter, slots);
    } else {
      ViewAgrees(p, t, n);
      LookupComplete(View(p, t, n), Entries(p.index), filter.value);
    }
  }

  /** The child of an update or a deletion: one of the two scans. */
  datatype TableScan =
    | Sequential(seqScan: SeqScanExecutor)
    | ByIndex(indexScan: IndexScanExecutor)
  {
    function Table(): IndexedTable { if Sequential? then seqScan.table else indexScan.table }

    function Txn(): TxnId { if Sequential? then seqScan.t else indexScan.t }

    function Predicate(): Option<Expr> { if Sequential? then seqScan.filter else indexScan.filter }

    function Executor(): object { if Sequential? then seqScan else indexScan }

    /** The keys, if any, are those of the filter. */
    predicate Suits() {
      ByIndex? ==> KeysFor(indexScan.filter, indexScan.predKeys, indexScan.table.info.col)
    }

    ghost function Viewed(): seq<Option<Row>>
      reads Executor()
    {
      if Sequential? then seqScan.view else indexScan.view
    }

    ghost function Ahead(): seq<nat>
      reads Executor()
    {
      if Sequential? then seqScan.Ahead() else indexScan.Ahead()
    }

    ghost function Remaining(): seq<Hit>
      reads Executor()
    {
      HitsAt(Table().info.table, Viewed(), Predicate(), Ahead())
    }

    ghost predicate Placed()
      reads Executor()
    {
      if Sequential? then seqScan.Placed() else indexScan.Placed()
    }

    ghost predicate Valid()
      reads Executor(), Table(), Table().tm, Table().tm.runningTxns
    {
      && Placed() && Table().Valid() && Table().Ready(Txn())
      && Undisturbed(Sight(), Viewed(), Ahead())
    }

    /** What the transaction sees of the table now. */
    ghost function Sight(): seq<Option<Row>>
      requires Txn() in Table().tm.txns
      reads Executor(), Table(), Table().tm, Table().tm.runningTxns
    {
      Table().Sight(Txn())
    }

    /** Before the first row: others may have run since the scan began, but all it selects is still to come. */
    ghost predicate Fresh()
      reads Executor(), Table(), Table().tm, Table().tm.runningTxns
    {
      Valid() && Complete(Viewed(), Predicate(), Ahead()) && Sight() == Pad(Viewed(), Table().slots)
    }

    method Init()
      requires Table().Valid() && Table().Ready(Txn())
      modifies Executor(), Table().tm
      ensures Valid() && Viewed() == Sight() == old(Sight())
      ensures Sequential? ==> Ahead() == UpTo(|Viewed()|)
      ensures ByIndex? ==> FoundBy(Table().index, indexScan.predKeys, Ahead())
      ensures Table().Recorded(old(Table().tm.State()), Txn(), Predicate())
    {
      if Sequential? {
        seqScan.Init();
      } else {
        indexScan.Init();
      }
    }

    /** A scan just begun with fitting keys is fresh. */
    lemma BeginsFresh()
      requires Valid() && Suits() && Viewed() == Sight()
      requires if Sequential? then Ahead() == UpTo(|Viewed()|)
               else FoundBy(Table().index, indexScan.predKeys, Ahead())
      ensures Fresh()
    {
      if Sequential? {
        AllComplete(Viewed(), Predicate());
      } else {
        FoundComplete(Table().Value(), Txn(), Table().slots, Predicate(), indexScan.predKeys, Ahead());
      }
    }

    method Next(batchSize: nat) returns (batch: seq<Hit>, ok: bool)
      requires Valid()
      modifies Executor()
      ensures Valid() && batch + Remaining() == old(Remaining()) && Behind(batch, Ahead())
      ensures Viewed() == old(Viewed())
      ensures |batch| == batchSize || (|batch| < batchSize && Remaining() == [])
      ensures ok <==> batch != []
    {
      if Sequential? {
        batch, ok := seqScan.Next(batchSize);
      } else {
        batch, ok := indexScan.Next(batchSize);
      }
    }
  }

  /** One batch, after others have run; the slots ahead of the scan stay undisturbed. */
  method NextBatch(scan: TableScan, batchSize: nat, ghost start: seq<Option<Row>>, ghost alone: bool)
      returns (batch: seq<Hit>, ok: bool)
    requires scan.Valid() && |start| <= scan.Table().slots && scan.Sight() == Pad(start, scan.Table().slots)
    modifies scan.Executor(), scan.Table(), scan.Table().tm, scan.Table().tm.runningTxns
    ensures scan.Valid() && batch + scan.Remaining() == old(scan.Remaining()) && Behind(batch, scan.Ahead())
    ensures ok <==> batch != []
    ensures |batch| < batchSize ==> scan.Remaining() == []
    ensures scan.Table().slots >= old(scan.Table().slots) && scan.Sight() == Pad(start, scan.Table().slots)
    ensures alone ==> scan.Table().Value() == old(scan.Table().Value()) && scan.Table().slots == old(scan.Table().slots)
  {
    ghost var sight := scan.Sight();
    scan.Table().LetOthersRun(scan.Txn(), alone);
    PadTwice(start, |sight|, scan.Table().slots);
    PadUndisturbed(sight, scan.Table().slots, scan.Viewed(), scan.Ahead());
    batch, ok := scan.Next(batchSize);
  }

  /** Poll to the end, with whatever batch sizes the caller asks for and others running between the batches. */
  method PollExecutor(scan: TableScan, sizes: nat -> nat, ghost alone: bool) returns (result: seq<Hit>)
    requires scan.Valid() && forall i :: sizes(i) > 0
    modifies scan.Executor(), scan.Table(), scan.Table().tm, scan.Table().tm.runningTxns
    ensures scan.Valid() && result == old(scan.Remaining()) && scan.Table().slots >= old(scan.Table().slots)
    ensures scan.Sight() == Pad(old(scan.Sight()), scan.Table().slots)
    ensures alone ==> scan.Table().Value() == old(scan.Table().Value()) && scan.Table().slots == old(scan.Table().slots)
  {
    result := [];
    ghost var start := scan.Sight();
    var calls, ok := 0, true;
    while ok
      invariant scan.Valid() && scan.Table().slots >= old(scan.Table().slots) && (!ok ==> scan.Remaining() == [])
      invariant scan.Sight() == Pad(start, scan.Table().slots)
      invariant alone ==>
        scan.Table().Value() == old(scan.Table().Value()) && scan.Table().slots == old(scan.Table().slots)
      invariant result + scan.Remaining() == old(scan.Remaining())
      decreases ok, |scan.Remaining()|
    {
      var batch;
      batch, ok := NextBatch(scan, sizes(calls), start, alone);
      Associates(result, batch, scan.Remaining());
      result, calls := result + batch, calls + 1;
    }
  }

  /** What a scan that has just begun is about to return: rows in sight, each once, the rows the filter selects. */
  lemma FreshHits(table: nat, view: seq<Option<Row>>, filter: Option<Expr>, slots: seq<nat>)
    requires Complete(view, filter, slots)
    ensures var hits := HitsAt(table, view, filter, slots);
      && AllShown(hits, table, view, slots) && DistinctRids(hits)
      && multiset(RowsOf(hits)) == multiset(SeqScanRows(view, filter))
  {
    HitsShown(table, view, filter, slots);
    HitsDistinct(table, view, filter, slots);
    HitRows(table, view, filter, slots);
    CompleteBag(view, filter, slots);
  }

  /** Both scans of one query, polled to the end with any batch sizes and interruptions, find the same bag of rows. */
  method BothScans(
      table: IndexedTable, t: TxnId, filter: Option<Expr>, keys: seq<Expr>, sizes: nat -> nat, otherSizes: nat -> nat)
      returns (scanned: seq<Hit>, looked: seq<Hit>)
    requires table.Valid() && table.Ready(t) && KeysFor(filter, keys, table.info.col)
    requires (forall i :: sizes(i) > 0) && (forall i :: otherSizes(i) > 0)
    modifies table, table.tm, table.tm.runningTxns
    ensures RowsOf(scanned) == old(SeqScanRows(table.Sight(t), filter))
    ensures multiset(RowsOf(looked)) == multiset(RowsOf(scanned))
  {
    ghost var sight := table.Sight(t);
    var indexScan := new IndexScanExecutor(table, t, filter, keys);
    indexScan.Init();
    FoundComplete(table.Value(), t, table.slots, filter, keys, indexScan.Ahead());
    FreshHits(table.info.table, sight, filter, indexScan.Ahead());
    scanned := ScanAll(table, t, filter, sizes, sight, indexScan.Ahead());
    looked := PollExecutor(ByIndex(indexScan), otherSizes, false);
  }

  /** A whole sequential scan, while another scan of the table is waiting. */
  method ScanAll(table: IndexedTable, t: TxnId, filter: Option<Expr>, sizes: nat -> nat,
                 ghost view: seq<Option<Row>>, ghost waiting: seq<nat>)
      returns (result: seq<Hit>)
    requires table.Valid() && table.Ready(t) && forall i :: sizes(i) > 0
    requires Undisturbed(table.Sight(t), view, waiting)
    modifies table, table.tm, table.tm.runningTxns
    ensures table.Valid() && table.Ready(t) && Undisturbed(table.Sight(t), view, waiting)
    ensures RowsOf(result) == old(SeqScanRows(table.Sight(t), filter))
  {
    ghost var sight := table.Sight(t);
    var scan := new SeqScanExecutor(table, t, filter);
    scan.Init();
    result := PollExecutor(Sequential(scan), sizes, false);
    HitRows(table.info.table, sight, filter, UpTo(|sight|));
    PadUndisturbed(sight, table.slots, view, waiting);
  }
}
