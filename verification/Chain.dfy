/**
 * One row's version chain: the newest version in the heap, older ones as undo logs in the buffers of
 * the transactions that wrote them. The specification is the row's committed history, a plain
 * sequence of versions; `Represents` says that a chain stands for a history.
 */
module Chain {
  import opened Sql
  import opened Undo

  type TxnId = int

  /** The first transaction id. Ids double as temporary timestamps, above every commit timestamp. */
  const TXN_START_ID: int := 0x4000_0000_0000_0000

  /** A heap row with its metadata and its undo link. */
  datatype Slot = Slot(ts: int, deleted: bool, row: Row, link: Link)

  /** Undo buffers of the transactions still in the transaction map. */
  type Buffers = map<TxnId, seq<UndoLog>>

  /** A committed version: who wrote it, and the read timestamp that transaction worked at. */
  datatype Version = Version(ts: int, row: Option<Row>, writer: TxnId, snapshot: int)

  type History = h: seq<Version> | |h| > 0 witness [Version(0, None, -1, 0)]

  function Content(v: Slot): Option<Row> {
    if v.deleted then None else Some(v.row)
  }

  /** The log a link points to, if its transaction has not been collected. */
  predicate Resolves(u: Buffers, l: Link) {
    l.Link? && l.txn in u && l.idx < |u[l.txn]|
  }

  function LogAt(u: Buffers, l: Link): UndoLog
    requires Resolves(u, l)
  {
    u[l.txn][l.idx]
  }

  /** The log can be applied to this slot; below a tombstone only full logs or tombstones may follow. */
  ghost predicate Fits(log: UndoLog, v: Slot) {
    && WellFormed(log, |v.row|)
    && (v.deleted && !log.deleted ==> Full(log))
  }

  /** One version back. */
  ghost function Down(v: Slot, log: UndoLog): Slot
    requires WellFormed(log, |v.row|)
  {
    Slot(log.ts, log.deleted, Restore(v.row, log), log.prev)
  }

  function Last(h: History): Version {
    h[|h| - 1]
  }

  /** A chain may end without a link at the first version, or right above a row that did not exist. */
  ghost predicate Bottom(h: History) {
    |h| == 1 || (|h| == 2 && h[0].row == None)
  }

  /**
   * The chain that starts at `v` stands for history `h`. Every version's undo log is in its own
   * writer's buffer. Logs of collected transactions may be missing, but only below versions that
   * are no newer than `floor`.
   */
  ghost predicate Represents(u: Buffers, floor: int, v: Slot, h: History)
    decreases |h|
  {
    && v.ts == Last(h).ts
    && Content(v) == Last(h).row
    && match v.link
       case NoLink => Bottom(h)
       case Link(t, i) =>
         && t == Last(h).writer
         && |h| > 1
         && if t in u then
              && i < |u[t]|
              && Fits(u[t][i], v)
              && Represents(u, floor, Down(v, u[t][i]), h[..|h| - 1])
            else v.ts <= floor
  }

  /** Timestamps grow along a history, and nobody wrote over a version newer than its own snapshot. */
  ghost predicate Ordered(h: History) {
    && h[0].ts == 0
    && (forall i :: 0 < i < |h| ==> h[i - 1].ts <= h[i].snapshot < h[i].ts)
  }

  lemma {:induction false} OrderedTs(h: History, i: nat, j: nat)
    requires Ordered(h) && i < j < |h|
    ensures h[i].ts <= h[j].snapshot < h[j].ts
    decreases j - i
  {
    if i + 1 < j {
      OrderedTs(h, i, j - 1);
    }
  }

  lemma OrderedNonNegative(h: History, i: nat)
    requires Ordered(h) && i < |h|
    ensures 0 <= h[i].ts
  {
    if i > 0 {
      OrderedTs(h, 0, i);
    }
  }

  /** The committed row as of timestamp `r`: the version with the greatest timestamp at or below `r`. */
  ghost function AsOf(h: History, r: int): Option<Row>
    decreases |h|
  {
    if Last(h).ts <= r then Last(h).row
    else if |h| == 1 then None
    else AsOf(h[..|h| - 1], r)
  }

  /** The version at `k` is the newest at or below `r`. */
  ghost predicate NewestAt(h: History, r: int, k: nat) {
    k < |h| && h[k].ts <= r && forall j :: 0 <= j < |h| && h[j].ts <= r ==> h[j].ts <= h[k].ts
  }

  /** `AsOf` really is the newest version at or below `r`. */
  lemma {:induction false} AsOfIsNewest(h: History, r: int)
    requires Ordered(h) && 0 <= r
    ensures exists k :: 0 <= k < |h| && AsOf(h, r) == h[k].row && NewestAt(h, r, k)
    decreases |h|
  {
    if Last(h).ts <= r {
      forall j | 0 <= j < |h| - 1
        ensures h[j].ts <= Last(h).ts
      {
        OrderedTs(h, j, |h| - 1);
      }
    } else {
      var rest: History := h[..|h| - 1];
      AsOfIsNewest(rest, r);
      var k :| 0 <= k < |rest| && AsOf(rest, r) == rest[k].row && NewestAt(rest, r, k);
      assert h[k] == rest[k] && NewestAt(h, r, k);
    }
  }

  /** Later versions do not disturb an earlier snapshot. */
  lemma AsOfAppend(h: History, next: Version, r: int)
    requires next.ts > r
    ensures AsOf(h + [next], r) == AsOf(h, r)
  {
    assert (h + [next])[..|h + [next]| - 1] == h;
  }

  // ----- reading ---------------------------------------------------------------------------------

  /**
   * What a reader gets: the row (or tombstone) it may see, no version at all, a missing undo log
   * (an exception in the program), or a chain whose timestamps fail to decrease (an endless walk).
   */
  datatype Reading = Seen(row: Option<Row>) | NeverExisted | LogMissing | Endless

  /** Collect undo logs down to timestamp `r` and apply them. */
  ghost function Read(u: Buffers, v: Slot, r: int): Reading
    decreases if v.ts < 0 then 0 else v.ts
  {
    if v.ts <= r then Seen(Content(v))
    else if v.link.NoLink? then NeverExisted
    else if !Resolves(u, v.link) then LogMissing
    else
      var log := LogAt(u, v.link);
      if !WellFormed(log, |v.row|) then LogMissing
      else if log.ts < v.ts && 0 < v.ts then Read(u, Down(v, log), r)
      else Endless
  }

  /** The rows a reading lets through: a tombstone and a row that never existed look the same. */
  function Visible(reading: Reading): Option<Row> {
    if reading.Seen? then reading.row else None
  }

  ghost predicate Sound(reading: Reading) {
    reading.Seen? || reading.NeverExisted?
  }

  /** Reading a chain that stands for `h` gives exactly the committed row as of `r`. */
  lemma {:induction false} ReadIsAsOf(u: Buffers, floor: int, v: Slot, h: History, r: int)
    requires Represents(u, floor, v, h) && Ordered(h) && floor <= r && 0 <= r
    ensures Sound(Read(u, v, r))
    ensures Visible(Read(u, v, r)) == AsOf(h, r)
    decreases |h|
  {
    if v.ts > r && v.link.Link? {
      var log := u[v.link.txn][v.link.idx];
      assert h[|h| - 2].ts < h[|h| - 1].ts;
      ReadIsAsOf(u, floor, Down(v, log), h[..|h| - 1], r);
    }
  }

  /** Timestamps strictly decrease along the chain: the measure of every walk over it. */
  lemma ChainDecreases(u: Buffers, floor: int, v: Slot, h: History)
    requires Represents(u, floor, v, h) && Ordered(h) && Resolves(u, v.link)
    ensures 0 <= LogAt(u, v.link).ts < v.ts
  {
    OrderedNonNegative(h, |h| - 2);
  }

  // ----- changes to the buffers ------------------------------------------------------------------

  /** `t` wrote no version of `h`. */
  ghost predicate NotWriter(h: History, t: TxnId) {
    forall k :: 0 <= k < |h| ==> h[k].writer != t
  }

  /** A transaction that wrote nothing in `h` may do what it likes to its own buffer. */
  lemma {:induction false} RepresentsFrame(u: Buffers, floor: int, v: Slot, h: History, t: TxnId, logs: seq<UndoLog>)
    requires Represents(u, floor, v, h) && NotWriter(h, t)
    requires t in u
    ensures Represents(u[t := logs], floor, v, h)
    decreases |h|
  {
    if v.link.Link? && v.link.txn in u {
      assert v.link.txn != t;
      RepresentsFrame(u, floor, Down(v, u[v.link.txn][v.link.idx]), h[..|h| - 1], t, logs);
    }
  }

  /** Appending to a buffer, or adding a new buffer, changes no chain. */
  lemma {:induction false} RepresentsAppend(u: Buffers, floor: int, v: Slot, h: History, t: TxnId, logs: seq<UndoLog>)
    requires Represents(u, floor, v, h)
    requires t in u && u[t] <= logs
    ensures Represents(u[t := logs], floor, v, h)
    decreases |h|
  {
    if v.link.Link? && v.link.txn in u {
      var log := u[v.link.txn][v.link.idx];
      assert u[t := logs][v.link.txn][v.link.idx] == log;
      RepresentsAppend(u, floor, Down(v, log), h[..|h| - 1], t, logs);
    }
  }

  lemma {:induction false} RepresentsNewBuffer(u: Buffers, floor: int, v: Slot, h: History, t: TxnId)
    requires Represents(u, floor, v, h) && NotWriter(h, t)
    ensures Represents(u[t := []], floor, v, h)
    decreases |h|
  {
    if v.link.Link? && v.link.txn in u {
      RepresentsNewBuffer(u, floor, Down(v, u[v.link.txn][v.link.idx]), h[..|h| - 1], t);
    }
  }

  /** The bytes behind a tombstone do not matter. */
  lemma {:induction false} TombstoneBytes(u: Buffers, floor: int, v: Slot, h: History, bytes: Row)
    requires Represents(u, floor, v, h) && v.deleted && |bytes| == |v.row|
    ensures Represents(u, floor, v.(row := bytes), h)
    decreases |h|
  {
    if v.link.Link? && v.link.txn in u {
      var log := u[v.link.txn][v.link.idx];
      if log.deleted {
        TombstoneBytes(u, floor, Down(v, log), h[..|h| - 1], Restore(bytes, log));
      } else {
        FullRestores(log, v.row, bytes);
      }
    }
  }

  // ----- garbage collection ------------------------------------------------------------------------

  /** The transactions whose buffers a collection at `watermark` must keep for this chain. */
  ghost function Needed(u: Buffers, v: Slot, watermark: int): set<TxnId>
    decreases if v.ts < 0 then 0 else v.ts
  {
    if v.ts <= watermark || !Resolves(u, v.link) then {}
    else
      var log := LogAt(u, v.link);
      {v.link.txn} +
      (if log.ts <= watermark || !WellFormed(log, |v.row|) || log.ts >= v.ts || v.ts <= 0 then {}
       else Needed(u, Down(v, log), watermark))
  }

  ghost function Keep(u: Buffers, kept: set<TxnId>): Buffers {
    map t | t in u && t in kept :: u[t]
  }

  /** Dropping buffers a chain does not need leaves it standing for the same history, from `watermark` up. */
  lemma {:induction false} CollectKeepsChain(
      u: Buffers, floor: int, v: Slot, h: History, watermark: int, kept: set<TxnId>)
    requires Represents(u, floor, v, h) && Ordered(h) && floor <= watermark
    requires Needed(u, v, watermark) <= kept
    ensures Represents(Keep(u, kept), watermark, v, h)
    decreases |h|
  {
    if v.link.Link? && v.link.txn in u {
      var log := u[v.link.txn][v.link.idx];
      ChainDecreases(u, floor, v, h);
      CollectKeepsChain(u, floor, Down(v, log), h[..|h| - 1], watermark, kept);
    }
  }

  // ----- validation ----------------------------------------------------------------------------------

  /** A scan recorded for validation: the table and the filter, `None` when the whole table was read. */
  datatype Scan = Scan(table: nat, filter: Option<Expr>)

  /** The scans of one transaction, asked about a row of `table`. */
  datatype Query = Query(scans: seq<Scan>, table: nat)

  /** Some scan of the table lets the row through; a row that is not there never matches. */
  predicate Matches(q: Query, row: Option<Row>) {
    row.Some? && exists k :: 0 <= k < |q.scans| && q.scans[k].table == q.table && Passes(q.scans[k].filter, row.value)
  }

  /** The validation walk of one row: is no committed change after `r` visible to the scans of `q`? */
  ghost predicate Unchanged(u: Buffers, v: Slot, r: int, q: Query)
    decreases if v.ts < 0 then 0 else v.ts
  {
    if v.ts <= r then true
    else
      var found := Resolves(u, v.link) && WellFormed(LogAt(u, v.link), |v.row|);
      var before := if found then Content(Down(v, LogAt(u, v.link))) else None;
      && !(v.ts < TXN_START_ID && (Matches(q, Content(v)) || Matches(q, before)))
      && (found && LogAt(u, v.link).ts < v.ts && 0 < v.ts ==>
            var log := LogAt(u, v.link);
            Unchanged(u, Slot(log.ts, log.deleted, if before.Some? then before.value else v.row, log.prev), r, q))
  }

  /** The same verdict read off the history: no version after `r`, and no image before one, matches. */
  ghost predicate UnchangedSince(h: History, r: int, q: Query) {
    forall k :: 0 <= k < |h| && r < h[k].ts < TXN_START_ID ==>
      !Matches(q, h[k].row) && (k > 0 ==> !Matches(q, h[k - 1].row))
  }

  lemma {:induction false} UnchangedIsUnchangedSince(
      u: Buffers, floor: int, v: Slot, h: History, r: int, q: Query)
    requires Represents(u, floor, v, h) && Ordered(h) && floor <= r && 0 <= r
    ensures Unchanged(u, v, r, q) <==> UnchangedSince(h, r, q)
    decreases |h|
  {
    if v.ts <= r {
      forall k | 0 <= k < |h| - 1
        ensures h[k].ts < v.ts
      {
        OrderedTs(h, k, |h| - 1);
      }
    } else if v.link.Link? {
      var log := u[v.link.txn][v.link.idx];
      ChainDecreases(u, floor, v, h);
      var rest: History := h[..|h| - 1];
      RestoreTombstone(v.row, log);
      UnchangedIsUnchangedSince(u, floor, Down(v, log), rest, r, q);
      UnchangedSinceSplit(h, r, q);
    } else {
      assert |h| == 1 || h[|h| - 2].row == None;
    }
  }

  lemma RestoreTombstone(row: Row, log: UndoLog)
    requires WellFormed(log, |row|)
    ensures log.deleted ==> Restore(row, log) == row
  {
  }

  lemma UnchangedSinceSplit(h: History, r: int, q: Query)
    requires |h| > 1
    ensures UnchangedSince(h, r, q) <==>
              && UnchangedSince(h[..|h| - 1], r, q)
              && (r < Last(h).ts < TXN_START_ID ==> !Matches(q, Last(h).row) && !Matches(q, h[|h| - 2].row))
  {
    var rest: History := h[..|h| - 1];
    if UnchangedSince(rest, r, q) {
      assert forall k :: 0 <= k < |rest| ==> h[k] == rest[k];
    }
    if UnchangedSince(h, r, q) {
      forall k | 0 <= k < |rest| && r < rest[k].ts < TXN_START_ID
        ensures !Matches(q, rest[k].row) && (k > 0 ==> !Matches(q, rest[k - 1].row))
      {
        assert h[k] == rest[k];
      }
    }
  }

  /** The scans of `q` select the same row at both times, or no row at both. */
  ghost predicate SameForScans(h: History, r: int, later: int, q: Query) {
    Matches(q, AsOf(h, r)) || Matches(q, AsOf(h, later)) ==> AsOf(h, r) == AsOf(h, later)
  }

  /** A row that validation lets through shows the scan the same match at `r` as at any later time. */
  lemma {:induction false} UnchangedMatches(h: History, r: int, later: int, q: Query)
    requires Ordered(h) && 0 <= r <= later < TXN_START_ID
    requires UnchangedSince(h, r, q)
    ensures SameForScans(h, r, later, q)
    decreases |h|
  {
    if Last(h).ts > r && |h| > 1 {
      UnchangedSinceSplit(h, r, q);
      UnchangedMatches(h[..|h| - 1], r, later, q);
      var rest: History := h[..|h| - 1];
      if Last(h).ts <= later {
        if Last(rest).ts > r {
          assert !Matches(q, AsOf(rest, later)) by { OrderedTs(h, |h| - 2, |h| - 1); }
        }
      }
    }
  }
}
