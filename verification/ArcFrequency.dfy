/**
 * The replacer's four lists against counts. The specification notes how often each frame has been accessed since
 * its page came in, whether that page was remembered then, and from which list each page was evicted.
 */
module ArcFrequency {
  import opened Sql
  import opened Arc

  /** The replacer, accesses per frame, frames whose page came back, and whether a page was evicted from MRU. */
  datatype Counted = Counted(arc: State, uses: map<int, nat>, back: map<int, bool>, fromMru: map<int, bool>)

  const START: Counted := Counted(EMPTY, map[], map[], map[])

  /** What an operation adds to the notes, read off the lists before it. */
  ghost function Note(x: Counted, c: nat, op: Op): Counted {
    var a, b := x.arc, Apply(x.arc, c, op);
    match op
    case Access(f, p) =>
      if f in a.mru || f in a.mfu then
        Counted(b, x.uses[f := 1 + if f in x.uses then x.uses[f] else 0], x.back, x.fromMru)
      else Counted(b, x.uses[f := 1], x.back[f := p in a.mruGhost || p in a.mfuGhost], x.fromMru)
    case Evict =>
      var out := Victim(a);
      if out.Some? && out.value in a.alive then
        Counted(b, x.uses, x.back, x.fromMru[a.alive[out.value].page := out.value in a.mru])
      else Counted(b, x.uses, x.back, x.fromMru)
    case _ => Counted(b, x.uses, x.back, x.fromMru)
  }

  ghost function NotedAfter(x: Counted, c: nat, ops: seq<Op>): Counted
    decreases |ops|
  {
    if ops == [] then x else NotedAfter(Note(x, c, ops[0]), c, ops[1..])
  }

  /** A frame accessed once whose page was new is in MRU, any other in MFU; a page is remembered on its side. */
  ghost predicate ByFrequency(x: Counted) {
    && (forall f :: f in x.arc.mru ==> f in x.uses && f in x.back && x.uses[f] == 1 && !x.back[f])
    && (forall f :: f in x.arc.mfu ==> f in x.uses && f in x.back && (x.uses[f] > 1 || x.back[f]))
    && (forall p :: p in x.arc.mruGhost ==> p in x.fromMru && x.fromMru[p])
    && (forall p :: p in x.arc.mfuGhost ==> p in x.fromMru && !x.fromMru[p])
  }

  lemma AccessByFrequency(x: Counted, c: nat, f: int, p: int)
    requires Arc.Inv(x.arc, c) && ByFrequency(x) && AccessAllowed(x.arc, c, f, p)
    ensures ByFrequency(Note(x, c, Access(f, p)))
  {
    var a := x.arc;
    if f in a.alive {
      WithoutMembers(a.mru, f);
      WithoutMembers(a.mfu, f);
    } else if p in a.ghosts {
      WithoutMembers(a.mruGhost, p);
      WithoutMembers(a.mfuGhost, p);
    } else {
      TrimInv(a, c, f);
      if a.mruGhost != [] { DropLastMembers(a.mruGhost); }
      if a.mfuGhost != [] { DropLastMembers(a.mfuGhost); }
    }
  }

  lemma EvictByFrequency(x: Counted, c: nat)
    requires Arc.Inv(x.arc, c) && ByFrequency(x)
    ensures ByFrequency(Note(x, c, Evict))
  {
    EvictSpec(x.arc, c);
    if Victim(x.arc).Some? {
      WithoutMembers(x.arc.mru, Victim(x.arc).value);
      WithoutMembers(x.arc.mfu, Victim(x.arc).value);
    }
  }

  lemma NoteByFrequency(x: Counted, c: nat, op: Op)
    requires Arc.Inv(x.arc, c) && ByFrequency(x) && Allowed(x.arc, c, op)
    ensures ByFrequency(Note(x, c, op)) && Arc.Inv(Note(x, c, op).arc, c)
  {
    match op
    case Access(f, p) =>
      AccessInv(x.arc, c, f, p);
      AccessByFrequency(x, c, f, p);
    case Evict =>
      EvictInv(x.arc, c);
      EvictByFrequency(x, c);
    case SetEvictable(f, e) => SetEvictableInv(x.arc, c, f, e);
    case Remove(f) =>
      RemoveInv(x.arc, c, f);
      WithoutMembers(x.arc.mru, f);
      WithoutMembers(x.arc.mfu, f);
  }

  lemma {:induction false} RunByFrequency(x: Counted, c: nat, ops: seq<Op>)
    requires Arc.Inv(x.arc, c) && ByFrequency(x) && IsRun(x.arc, c, ops)
    ensures ByFrequency(NotedAfter(x, c, ops)) && NotedAfter(x, c, ops).arc == After(x.arc, c, ops)
    decreases |ops|
  {
    if ops != [] {
      NoteByFrequency(x, c, ops[0]);
      assert Note(x, c, ops[0]).arc == Apply(x.arc, c, ops[0]);
      RunByFrequency(Note(x, c, ops[0]), c, ops[1..]);
    }
  }

  /**
   * Promotion, in every run of a new replacer: a frame in memory is on the MRU side exactly if its page came in by a
   * complete miss and has been accessed once, and on the MFU side otherwise.
   */
  lemma PromotedBySecondAccess(c: nat, ops: seq<Op>, f: int)
    requires IsRun(EMPTY, c, ops)
    ensures var x := NotedAfter(START, c, ops);
      && x.arc == After(EMPTY, c, ops)
      && (f in x.arc.alive <==> f in x.arc.mru || f in x.arc.mfu)
      && (f in x.arc.alive ==>
            && f in x.uses && f in x.back
            && (f in x.arc.mru <==> x.uses[f] == 1 && !x.back[f])
            && (f in x.arc.mfu <==> x.uses[f] > 1 || x.back[f]))
  {
    EmptyInv(c);
    RunByFrequency(START, c, ops);
    ArcBounds(c, ops);
  }

  /** A remembered page lies in the ghost list of the side it was evicted from. */
  lemma RememberedOnItsSide(c: nat, ops: seq<Op>, p: int)
    requires IsRun(EMPTY, c, ops)
    ensures var x := NotedAfter(START, c, ops);
      && (p in x.arc.ghosts <==> p in x.arc.mruGhost || p in x.arc.mfuGhost)
      && (p in x.arc.ghosts ==>
            && p in x.fromMru
            && (p in x.arc.mruGhost <==> x.fromMru[p]) && (p in x.arc.mfuGhost <==> !x.fromMru[p]))
  {
    EmptyInv(c);
    RunByFrequency(START, c, ops);
    ArcBounds(c, ops);
  }

  /** A frame accessed twice and one accessed once: the second goes first. */
  lemma FrequentFrameStays()
    ensures var ops := [Access(0, 10), Access(0, 10), Access(1, 11), SetEvictable(0, true), SetEvictable(1, true)];
      && IsRun(EMPTY, 2, ops) && Victim(After(EMPTY, 2, ops)) == Some(1)
  {
    var a1 := Apply(EMPTY, 2, Access(0, 10));
    var a2 := Apply(a1, 2, Access(0, 10));
    var a3 := Apply(a2, 2, Access(1, 11));
    assert a1.mru == [0] && a2.mru == [] && a2.mfu == [0] && a3.mru == [1] && a3.mfu == [0];
    var a4 := Apply(a3, 2, SetEvictable(0, true));
    var a5 := Apply(a4, 2, SetEvictable(1, true));
    var ops := [Access(0, 10), Access(0, 10), Access(1, 11), SetEvictable(0, true), SetEvictable(1, true)];
    assert ops[1..][1..][1..][1..] == [SetEvictable(1, true)];
    assert After(EMPTY, 2, ops) == a5;
  }

  // ----- forgetting ------------------------------------------------------------------------------------------------

  /**
   * What an access makes the replacer forget: the accessed page itself if it was remembered; the last of a full MRU
   * side, or else the last on the MFU side when both are full, if it was a complete miss; and nothing else.
   */
  lemma ForgetsOnlyWhenFull(a: State, c: nat, f: int, p: int, q: int)
    requires Arc.Inv(a, c) && AccessAllowed(a, c, f, p) && q in a.ghosts
    ensures q !in DoAccess(a, c, f, p).ghosts <==>
      if f in a.alive then false
      else if p in a.ghosts then q == p
      else if |a.mru| + |a.mruGhost| == c then a.mruGhost != [] && q == a.mruGhost[|a.mruGhost| - 1]
      else
        && |a.mru| + |a.mruGhost| + |a.mfu| + |a.mfuGhost| == 2 * c
        && a.mfuGhost != [] && q == a.mfuGhost[|a.mfuGhost| - 1]
  {
    if f !in a.alive { TrimFindsGhost(a, c, f); }
  }
}
