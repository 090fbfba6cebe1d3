/** Every local invariant survives whatever `Rely` allows. */
module Interference {
  import opened Base
  import opened FileRows
  import opened Stores
  import opened Protocol
  import opened History
  import opened World
  import opened FileInvariant
  import opened WorldInvariant

  /** What an operation knows of its file stays true while another operation, or the clock, moves. */
  lemma KnowledgeIsStable(c: Cell, c': Cell, o: nat, op: Op, actor: nat, now: int, now': int)
    requires o != actor && now <= now'
    requires FileInv(c, Subject(op), now) && FileInv(c', Subject(op), now')
    requires OpInv(c, o, op, now)
    requires Rely(c, c', Subject(op), actor, now) && Lost(c, c', actor, now)
    ensures OpInv(c', o, op, now')
  {}

  lemma ListedStaysListed(c: Cell, c': Cell, id: FileId, actor: nat, now: int, now': int)
    requires now <= now'
    requires FileInv(c, id, now) && FileInv(c', id, now')
    requires Rely(c, c', id, actor, now)
    ensures Known(c, id) ==> Known(c', id)
    ensures Settled(c) ==> Settled(c')
    ensures NotPending(c) ==> NotPending(c')
    ensures forall key :: Expiring(c, Candidate(id, key), now) ==> Expiring(c', Candidate(id, key), now')
  {}

  /** One step of `actor` changed at most the file `touched`, and that within the rely. */
  ghost predicate Stepped(w: World, w': World, actor: nat, touched: FileId) {
    var c, c' := CellOf(w, touched), CellOf(w', touched);
    && w.st.now <= w'.st.now
    && (forall id :: id != touched ==> CellOf(w', id) == CellOf(w, id))
    && FileInv(c', touched, w'.st.now)
    && Rely(c, c', touched, actor, w.st.now)
    && Lost(c, c', actor, w.st.now)
  }

  lemma OtherFilesKeep(c: Cell, id: FileId, now: int, now': int)
    requires FileInv(c, id, now) && now <= now'
    ensures FileInv(c, id, now')
  {}

  lemma UnchangedIsRely(c: Cell, id: FileId, actor: nat, now: int)
    requires FileInv(c, id, now)
    ensures Rely(c, c, id, actor, now) && Lost(c, c, actor, now)
  {}

  lemma RestIsStable(w: World, w': World, op: Op, actor: nat, touched: FileId)
    requires Inv(w) && Stepped(w, w', actor, touched)
    requires RestInv(w, op)
    ensures RestInv(w', op)
  {
    forall id
      ensures Known(CellOf(w, id), id) ==> Known(CellOf(w', id), id)
      ensures Settled(CellOf(w, id)) ==> Settled(CellOf(w', id))
      ensures NotPending(CellOf(w, id)) ==> NotPending(CellOf(w', id))
      ensures forall key ::
                Expiring(CellOf(w, id), Candidate(id, key), w.st.now) ==>
                  Expiring(CellOf(w', id), Candidate(id, key), w'.st.now)
    {
      OtherFilesKeep(CellOf(w, id), id, w.st.now, w'.st.now);
      UnchangedIsRely(CellOf(w, id), id, actor, w.st.now);
      ListedStaysListed(CellOf(w, id), CellOf(w', id), id, actor, w.st.now, w'.st.now);
    }
  }

  lemma OthersKeepRunning(w: World, w': World, actor: nat, touched: FileId, o: nat)
    requires Inv(w) && Stepped(w, w', actor, touched)
    requires w.nextOp <= w'.nextOp && w.nextFile <= w'.nextFile
    requires o in w.ops && o != actor
    ensures Running(w', o, w.ops[o])
  {
    var op := w.ops[o];
    assert Running(w, o, op);
    var id := Subject(op);
    OtherFilesKeep(CellOf(w, id), id, w.st.now, w'.st.now);
    UnchangedIsRely(CellOf(w, id), id, actor, w.st.now);
    KnowledgeIsStable(CellOf(w, id), CellOf(w', id), o, op, actor, w.st.now, w'.st.now);
    RestIsStable(w, w', op, actor, touched);
  }

  /** The invariant of the whole world, from what one step does to one file. */
  lemma StepKeepsInv(w: World, w': World, actor: nat, touched: FileId)
    requires Inv(w) && Stepped(w, w', actor, touched)
    requires w.nextOp <= w'.nextOp && w.nextFile <= w'.nextFile
    requires forall id :: id >= w'.nextFile ==> CellOf(w', id) == EMPTY_CELL
    requires forall id :: 0 <= id < w'.nextFile <==> id in w'.traces
    requires forall o :: o in w'.ops && o != actor ==> o in w.ops && w'.ops[o] == w.ops[o]
    requires actor in w'.ops ==> Running(w', actor, w'.ops[actor])
    ensures Inv(w')
  {
    forall id ensures FileInv(CellOf(w', id), id, w'.st.now) {
      OtherFilesKeep(CellOf(w, id), id, w.st.now, w'.st.now);
    }
    forall o | o in w'.ops ensures Running(w', o, w'.ops[o]) {
      if o != actor { OthersKeepRunning(w, w', actor, touched, o); }
    }
  }
}
