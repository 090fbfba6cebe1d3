/** The inductive invariant of the whole system. */
module WorldInvariant {
  import opened Base
  import opened FileRows
  import opened Stores
  import opened Protocol
  import opened History
  import opened World
  import opened FileInvariant

  function CellOf(w: World, id: FileId): Cell {
    CellIn(w.st, TraceOf(w, id), id)
  }

  /** What a loop knows of the files it has listed and not reached. */
  ghost predicate RestInv(w: World, op: Op) {
    match op
    case Delete(_, _, origin) => origin.ByReaper? ==> AllKnown(w, origin.rest)
    case PurgeTombstone(_, ids) => AllSettled(w, ids)
    case Requeue(_, _, ids) => AllNotPending(w, ids)
    case Expire(_, _, todo, _) => AllDue(w, todo)
    case _ => true
  }

  ghost predicate AllKnown(w: World, ids: seq<FileId>) {
    forall i :: 0 <= i < |ids| ==> Known(CellOf(w, ids[i]), ids[i])
  }

  ghost predicate AllSettled(w: World, ids: seq<FileId>) {
    forall i :: 0 <= i < |ids| ==> Settled(CellOf(w, ids[i]))
  }

  ghost predicate AllNotPending(w: World, ids: seq<FileId>) {
    forall i :: 0 <= i < |ids| ==> NotPending(CellOf(w, ids[i]))
  }

  ghost predicate AllDue(w: World, todo: seq<Candidate>) {
    forall i :: 0 <= i < |todo| ==> Expiring(CellOf(w, todo[i].id), todo[i], w.st.now)
  }

  ghost predicate Inv(w: World) {
    && 0 <= w.nextFile
    && (forall id :: FileInv(CellOf(w, id), id, w.st.now))
    && (forall id :: id >= w.nextFile ==> CellOf(w, id) == EMPTY_CELL)
    && (forall id :: 0 <= id < w.nextFile <==> id in w.traces)
    && (forall o :: o in w.ops ==> Running(w, o, w.ops[o]))
  }

  /** Operation `o` may stand at `op`. */
  ghost predicate Running(w: World, o: nat, op: Op) {
    && o < w.nextOp
    && Subject(op) < w.nextFile
    && OpInv(CellOf(w, Subject(op)), o, op, w.st.now)
    && RestInv(w, op)
  }
}
