/** The read timestamps of running transactions, and the smallest of them. */
module Watermarks {
  import Sets

  /** How many running transactions read at each timestamp; only positive counts are kept. */
  type Counts = map<int, nat>

  function AddRead(counts: Counts, r: int): Counts {
    counts[r := (if r in counts then counts[r] else 0) + 1]
  }

  function RemoveRead(counts: Counts, r: int): Counts {
    if r !in counts then counts
    else if counts[r] <= 1 then counts - {r}
    else counts[r := counts[r] - 1]
  }

  ghost predicate IsLeast(s: set<int>, x: int) {
    x in s && forall y :: y in s ==> x <= y
  }

  lemma {:induction false} LeastExists(s: set<int>)
    requires s != {}
    ensures exists x :: IsLeast(s, x)
  {
    var y := Sets.Pick(s);
    var rest := s - {y};
    if rest == {} {
      assert s == {y};
      assert IsLeast(s, y);
    } else {
      LeastExists(rest);
      var x :| IsLeast(rest, x);
      assert s == rest + {y};
      assert IsLeast(s, if y <= x then y else x);
    }
  }

  function Least(s: set<int>): (x: int)
    requires s != {}
    ensures IsLeast(s, x)
  {
    LeastExists(s);
    var x :| x in s && forall y :: y in s ==> x <= y;
    x
  }

  /** The smallest running read timestamp, or the last commit timestamp when nobody is running. */
  function WatermarkOf(counts: Counts, last: int): int {
    if counts.Keys == {} then last else Least(counts.Keys)
  }

  datatype AddResult = Added | ReadTsTooOld

  class Watermark {
    var commitTs: int
    var watermark: int
    var currentReads: Counts
    var readTimestamps: set<int>

    /** The ordered set mirrors the keys of the count map, and the cached minimum is up to date. */
    ghost predicate Valid()
      reads this
    {
      && readTimestamps == currentReads.Keys
      && (forall r :: r in currentReads ==> currentReads[r] > 0)
      && (currentReads.Keys != {} ==> IsLeast(currentReads.Keys, watermark))
    }

    constructor (commitTs: int)
      ensures Valid() && this.commitTs == commitTs && currentReads == map[]
    {
      this.commitTs := commitTs;
      watermark := commitTs;
      currentReads := map[];
      readTimestamps := {};
    }

    method AddTxn(readTs: int) returns (result: AddResult)
      requires Valid()
      modifies this
      ensures Valid() && commitTs == old(commitTs)
      ensures result == if readTs < old(commitTs) then ReadTsTooOld else Added
      ensures currentReads == if result.Added? then AddRead(old(currentReads), readTs) else old(currentReads)
    {
      if readTs < commitTs {
        return ReadTsTooOld;
      }
      currentReads := AddRead(currentReads, readTs);
      readTimestamps := readTimestamps + {readTs};
      watermark := Least(readTimestamps);
      return Added;
    }

    method RemoveTxn(readTs: int)
      requires Valid()
      modifies this
      ensures Valid() && commitTs == old(commitTs)
      ensures currentReads == RemoveRead(old(currentReads), readTs)
    {
      if readTs !in currentReads {
        return;
      }
      if currentReads[readTs] - 1 == 0 {
        currentReads := currentReads - {readTs};
        readTimestamps := readTimestamps - {readTs};
      } else {
        currentReads := currentReads[readTs := currentReads[readTs] - 1];
      }
      watermark := if readTimestamps == {} then commitTs else Least(readTimestamps);
    }

    method UpdateCommitTs(ts: int)
      requires Valid()
      modifies this`commitTs
      ensures Valid() && commitTs == ts
    {
      commitTs := ts;
    }

    method GetWatermark() returns (mark: int)
      requires Valid()
      ensures mark == WatermarkOf(currentReads, commitTs)
    {
      if |currentReads| == 0 {
        return commitTs;
      }
      LeastUnique(currentReads.Keys, watermark, Least(currentReads.Keys));
      return watermark;
    }
  }

  lemma LeastUnique(s: set<int>, x: int, y: int)
    requires IsLeast(s, x) && IsLeast(s, y)
    ensures x == y
  {
  }
}
