/** The deferred deletion after the scan: which instructions it erases, and
    that it leaves the rest of the block in order. */
module Deletion {
  import opened IR
  import opened Rules

  /** The block with every instruction removed that is enqueued and passes
      isSafeToRemove, the others kept in their order. */
  function Keep(blk: Block, queue: seq<Id>, isSafeToRemove: Instr -> bool): (r: Block)
    ensures forall ins <- r :: ins in blk
  {
    if blk == [] then []
    else (if blk[0].id in queue && isSafeToRemove(blk[0]) then [] else [blk[0]]) + Keep(blk[1..], queue, isSafeToRemove)
  }

  lemma {:induction false} KeepMembers(blk: Block, queue: seq<Id>, isSafeToRemove: Instr -> bool, ins: Instr)
    ensures ins in Keep(blk, queue, isSafeToRemove) <==> ins in blk && !(ins.id in queue && isSafeToRemove(ins))
  {
    if blk != [] {
      KeepMembers(blk[1..], queue, isSafeToRemove, ins);
      assert blk == [blk[0]] + blk[1..];
    }
  }

  /** Enqueueing an identity that no instruction of the block has changes
      nothing. */
  lemma {:induction false} KeepAbsent(blk: Block, queue: seq<Id>, x: Id, isSafeToRemove: Instr -> bool)
    requires x !in Ids(blk)
    ensures Keep(blk, queue + [x], isSafeToRemove) == Keep(blk, queue, isSafeToRemove)
  {
    if blk != [] {
      assert blk[0] in blk;
      assert Ids(blk[1..]) <= Ids(blk) by {
        forall y | y in Ids(blk[1..]) ensures y in Ids(blk) {
          var ins :| ins in blk[1..] && ins.id == y;
          assert ins in blk;
        }
      }
      KeepAbsent(blk[1..], queue, x, isSafeToRemove);
    }
  }

  /** Looking past a first instruction of another identity. */
  lemma IndexFromCons(h: Instr, t: Block, x: Id)
    requires h.id != x
    ensures IndexFrom([h] + t, x, 0) == (match IndexFrom(t, x, 0) case None => None case Some(k) => Some(k + 1))
  {
    var s := [h] + t;
    var a, c := IndexFrom(s, x, 0), IndexFrom(t, x, 0);
    assert forall j | 1 <= j < |s| :: s[j] == t[j - 1];
    match c
    case None =>
      assert forall j | 0 <= j < |s| :: s[j].id != x;
    case Some(k) =>
      assert s[k + 1].id == x;
      if a.Some? {
        assert a.value >= 1 && t[a.value - 1].id == x;
      }
  }

  lemma EraseIfSafeCons(h: Instr, t: Block, x: Id, isSafeToRemove: Instr -> bool)
    requires h.id != x
    ensures EraseIfSafe([h] + t, x, isSafeToRemove) == [h] + EraseIfSafe(t, x, isSafeToRemove)
  {
    IndexFromCons(h, t, x);
    match IndexFrom(t, x, 0)
    case None =>
    case Some(k) =>
      var s := [h] + t;
      assert s[k + 1] == t[k];
      if isSafeToRemove(t[k]) {
        assert s[..k + 1] + s[k + 2..] == [h] + (t[..k] + t[k + 1..]);
      }
  }

  /** One more turn of the deletion loop on a block with distinct identities
      is one more identity in the filter. */
  lemma {:induction false} EraseIfSafeKeep(blk: Block, queue: seq<Id>, x: Id, isSafeToRemove: Instr -> bool)
    requires DistinctIds(blk)
    ensures EraseIfSafe(Keep(blk, queue, isSafeToRemove), x, isSafeToRemove) == Keep(blk, queue + [x], isSafeToRemove)
  {
    if blk == [] {
    } else {
      var h, t := blk[0], blk[1..];
      assert DistinctIds(t) by {
        forall i, j | 0 <= i < j < |t| ensures t[i].id != t[j].id {
          assert t[i] == blk[i + 1] && t[j] == blk[j + 1];
        }
      }
      var kt := Keep(t, queue, isSafeToRemove);
      if h.id in queue && isSafeToRemove(h) {
        assert h.id in queue + [x];
        assert Keep(blk, queue, isSafeToRemove) == [] + kt == kt;
        assert Keep(blk, queue + [x], isSafeToRemove) == [] + Keep(t, queue + [x], isSafeToRemove);
        EraseIfSafeKeep(t, queue, x, isSafeToRemove);
      } else if h.id == x {
        assert x !in Ids(t);
        KeepAbsent(t, queue, x, isSafeToRemove);
        assert IndexFrom([h] + kt, x, 0) == Some(0);
        assert ([h] + kt)[1..] == kt;
      } else {
        assert (h.id in queue + [x]) == (h.id in queue);
        EraseIfSafeCons(h, kt, x, isSafeToRemove);
        EraseIfSafeKeep(t, queue, x, isSafeToRemove);
      }
    }
  }

  /** The deletion loop over a block with distinct identities erases exactly
      the enqueued instructions that pass isSafeToRemove and keeps the others
      in order; an identity enqueued twice is erased once. */
  lemma {:induction false} DrainIsKeep(blk: Block, queue: seq<Id>, isSafeToRemove: Instr -> bool)
    requires DistinctIds(blk)
    ensures Drain(blk, queue, isSafeToRemove) == Keep(blk, queue, isSafeToRemove)
    decreases |queue|
  {
    if queue == [] {
      KeepNothing(blk, isSafeToRemove);
    } else {
      var init, x := queue[..|queue| - 1], queue[|queue| - 1];
      DrainIsKeep(blk, init, isSafeToRemove);
      EraseIfSafeKeep(blk, init, x, isSafeToRemove);
      assert init + [x] == queue;
    }
  }

  lemma {:induction false} KeepNothing(blk: Block, isSafeToRemove: Instr -> bool)
    ensures Keep(blk, [], isSafeToRemove) == blk
  {
    if blk != [] {
      KeepNothing(blk[1..], isSafeToRemove);
      assert blk == [blk[0]] + blk[1..];
    }
  }
}
