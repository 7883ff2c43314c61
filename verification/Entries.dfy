/** op/op.go and space/op/op.go: what operations of either kind of set have in common. */
module Entries {

  /** An operation of the log: its id, its timestamp, and what it edits. Ids are totally ordered. */
  datatype Entry<E> = Entry(id: int, ts: int, edit: E)

  /** (timestamp, id) identifies an operation. */
  ghost predicate Keyed<E>(ops: set<Entry<E>>) {
    forall a, b :: a in ops && b in ops && a.ts == b.ts && a.id == b.id ==> a == b
  }
}
