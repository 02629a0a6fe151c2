/** What is left of the indexer's loop once `running` is false: the rest of one pass, and no more. */
module IndexStops {
  import opened Wrappers
  import opened BlockTree
  import opened IndexProtocol
  import opened IndexTheorems

  /** A loop that is past its first call never comes to that call again: it begins no further pass. */
  lemma {:induction false} NoFurtherPass(w: World, s: State, es: seq<Event>)
    requires OneLoop(s) && !s.running && Start !in es && GetStatus !in s.loops
    ensures GetStatus !in Run(w, s, es).loops
    decreases |es|
  {
    if es != [] {
      assert es[0] != Start && forall e :: e in es[1..] ==> e in es;
      NoFurtherPassOnce(w, s, es[0]);
      NoFurtherPass(w, Step(w, s, es[0]), es[1..]);
    }
  }

  lemma NoFurtherPassOnce(w: World, s: State, e: Event)
    requires OneLoop(s) && !s.running && e != Start && GetStatus !in s.loops
    ensures var t := Step(w, s, e); OneLoop(t) && !t.running && GetStatus !in t.loops
  {
  }

  /** No block has more rows than `m`. */
  ghost predicate AtMost(w: World, m: nat) {
    w.genesis.writes <= m && forall h :: h in w.blocks ==> w.blocks[h].writes <= m
  }

  lemma {:induction false} LargestOf(hs: set<Hash>, blocks: map<Hash, Block>) returns (m: nat)
    requires hs <= blocks.Keys
    ensures forall h :: h in hs ==> blocks[h].writes <= m
    decreases |hs|
  {
    m := 0;
    if hs != {} {
      var h :| h in hs;
      m := LargestOf(hs - {h}, blocks);
      if m < blocks[h].writes {
        m := blocks[h].writes;
      }
    }
  }

  /** There is always such a number. */
  lemma Largest(w: World) returns (m: nat)
    ensures AtMost(w, m)
  {
    m := LargestOf(w.blocks.Keys, w.blocks);
    if m < w.genesis.writes {
      m := w.genesis.writes;
    }
  }

  function Minus(n: nat, k: nat): nat {
    if k < n then n - k else 0
  }

  /** The calls that are left from `pc` to the end of the pass, at most. */
  function CallsLeft(w: World, m: nat, pc: Pc): nat {
    match pc
    case GetStatus => 14 + 2 * m
    case GetHighest => 8 + m
    case GetHash(_) => 7 + m
    case GetBlock(_, _) => 6 + m
    case GetGenesisHash => 6 + m
    case GetGenesisBlock(_) => 5 + m
    case PutIndexing(b) => 5 + b.writes
    case PutRaw(b, _) => 4 + b.writes
    case WriteRow(b, k, _) => 3 + Minus(b.writes, k)
    case PutIndexed(_) => 2
    case PutIndexError(_) => 1
    case PutInvalidating(h, _, cleaning) => 5 + RowsOf(w, h) + Afterwards(m, cleaning)
    case GetRaw(h, _, cleaning) => 4 + RowsOf(w, h) + Afterwards(m, cleaning)
    case DeleteRow(h, _, k, cleaning) => 3 + Minus(RowsOf(w, h), k) + Afterwards(m, cleaning)
    case PutInvalidated(_, _, cleaning) => 2 + Afterwards(m, cleaning)
    case PutInvalidateError(_, _, _) => 1
  }

  function RowsOf(w: World, h: Hash): nat {
    Resolve(w, h, w.genesis).writes
  }

  /** After a clean-up `synchronize` follows. */
  function Afterwards(m: nat, cleaning: bool): nat {
    if cleaning then 8 + m else 0
  }

  function Left(w: World, m: nat, s: State): nat {
    if s.loops == [] then 0 else CallsLeft(w, m, s.loops[0])
  }

  /** The event is the end of a call that a loop awaits. */
  ghost predicate Ends(w: World, s: State, e: Event) {
    e.Resume? && e.loop < |s.loops| && Possible(w, s.db, s.loops[e.loop], e.outcome)
  }

  /** The calls of loops that end in a run. */
  ghost function Calls(w: World, s: State, es: seq<Event>): nat
    decreases |es|
  {
    if es == [] then 0 else (if Ends(w, s, es[0]) then 1 else 0) + Calls(w, Step(w, s, es[0]), es[1..])
  }

  lemma OneCallLess(w: World, m: nat, s: State, e: Event)
    requires AtMost(w, m) && OneLoop(s) && !s.running && e != Start
    ensures var t := Step(w, s, e);
      OneLoop(t) && !t.running && Left(w, m, t) + (if Ends(w, s, e) then 1 else 0) <= Left(w, m, s)
  {
    if Ends(w, s, e) {
      AdvanceIsOneLess(w, m, s.db, s.node, s.loops[0], e.outcome);
    }
  }

  lemma AdvanceIsOneLess(w: World, m: nat, db: Db, node: seq<Block>, pc: Pc, o: Outcome)
    requires AtMost(w, m)
    ensures var next := Advance(w, db, node, pc, o).1; next.Go? ==> CallsLeft(w, m, next.pc) < CallsLeft(w, m, pc)
    ensures CallsLeft(w, m, pc) > 0
  {
    if Invalidating(pc) {
      InvalidateIsOneLess(w, m, db, node, pc, o);
    }
  }

  predicate Invalidating(pc: Pc) {
    pc.PutInvalidating? || pc.GetRaw? || pc.DeleteRow? || pc.PutInvalidated? || pc.PutInvalidateError?
  }

  lemma InvalidateIsOneLess(w: World, m: nat, db: Db, node: seq<Block>, pc: Pc, o: Outcome)
    requires AtMost(w, m) && Invalidating(pc)
    ensures var next := Advance(w, db, node, pc, o).1; next.Go? ==> CallsLeft(w, m, next.pc) < CallsLeft(w, m, pc)
  {
  }

  lemma SomethingIsLeft(w: World, m: nat, s: State)
    requires OneLoop(s) && Left(w, m, s) == 0
    ensures s.loops == [] && !s.indexing
  {
  }

  /** Once `running` is false, as many calls can still end as are left of one pass, in any run without `start`. When
      that many have ended the loop has, and `indexing` is false, which is what `stop` waits for. */
  lemma {:induction false} PassEnds(w: World, m: nat, s: State, es: seq<Event>)
    requires AtMost(w, m) && OneLoop(s) && !s.running && Start !in es
    ensures Calls(w, s, es) + Left(w, m, Run(w, s, es)) <= Left(w, m, s)
    ensures Calls(w, s, es) >= Left(w, m, s) ==> Run(w, s, es).loops == [] && !Run(w, s, es).indexing
    decreases |es|
  {
    OneLoopTheorem(w, s, es);
    if es != [] {
      assert es[0] != Start && forall e :: e in es[1..] ==> e in es;
      OneCallLess(w, m, s, es[0]);
      PassEnds(w, m, Step(w, s, es[0]), es[1..]);
    }
    if Calls(w, s, es) >= Left(w, m, s) {
      SomethingIsLeft(w, m, Run(w, s, es));
    }
  }

  /** Until then some call can end. */
  lemma CanGoOn(w: World, s: State)
    requires s.loops != []
    ensures Ends(w, s, Resume(0, Throw(false)))
  {
  }

  /** The block that a loop is writing. */
  function Written(pc: Pc): Option<Block> {
    match pc
    case PutIndexing(b) => Some(b)
    case PutRaw(b, _) => Some(b)
    case WriteRow(b, _, _) => Some(b)
    case PutIndexed(b) => Some(b)
    case PutIndexError(b) => Some(b)
    case _ => None
  }

  ghost predicate Small(m: nat, s: State) {
    forall i :: 0 <= i < |s.loops| && Written(s.loops[i]).Some? ==> Written(s.loops[i]).value.writes <= m
  }

  lemma {:induction false} StaysSmall(w: World, m: nat, s: State, es: seq<Event>)
    requires AtMost(w, m) && OneLoop(s) && Small(m, s)
    ensures Small(m, Run(w, s, es))
    decreases |es|
  {
    if es != [] {
      StaysSmallOnce(w, m, s, es[0]);
      StaysSmall(w, m, Step(w, s, es[0]), es[1..]);
    }
  }

  lemma StaysSmallOnce(w: World, m: nat, s: State, e: Event)
    requires AtMost(w, m) && OneLoop(s) && Small(m, s)
    ensures OneLoop(Step(w, s, e)) && Small(m, Step(w, s, e))
  {
    if Ends(w, s, e) {
      AdvanceStaysSmall(w, m, s.db, s.node, s.loops[0], e.outcome);
    }
  }

  lemma AdvanceStaysSmall(w: World, m: nat, db: Db, node: seq<Block>, pc: Pc, o: Outcome)
    requires AtMost(w, m) && (Written(pc).Some? ==> Written(pc).value.writes <= m)
    ensures var next := Advance(w, db, node, pc, o).1;
      next.Go? && Written(next.pc).Some? ==> Written(next.pc).value.writes <= m
  {
  }

  lemma LeftIsBounded(w: World, m: nat, s: State)
    requires AtMost(w, m) && OneLoop(s) && Small(m, s)
    ensures Left(w, m, s) <= 14 + 2 * m
  {
    if s.loops != [] {
      assert RowsOf(w, w.genesis.hash) <= m;
    }
  }

  /** `stop` at any time of any run, whatever has failed and whatever fails from then on: until `start` is
      called no more calls end than a clean-up and one pass over the largest block make; once that many have,
      `indexing` is false. */
  lemma StopResolves(w: World, m: nat, node: seq<Block>, before: seq<Event>, after: seq<Event>)
    requires AtMost(w, m) && Start !in after
    ensures var s := Step(w, Run(w, Initial(node), before), Stop);
      && Calls(w, s, after) <= 14 + 2 * m
      && (Calls(w, s, after) == 14 + 2 * m ==> Run(w, s, after).loops == [] && !Run(w, s, after).indexing)
  {
    var r := Run(w, Initial(node), before);
    OneLoopTheorem(w, Initial(node), before);
    StaysSmall(w, m, Initial(node), before);
    LeftIsBounded(w, m, r);
    PassEnds(w, m, Step(w, r, Stop), after);
  }
}
