/** The operations that travel from the replication stream to the search engine. */
module BulkData {

  datatype Option<+T> = None | Some(value: T)

  /** A Go byte string: one `char` stands for one byte. */
  type Bytes = string

  /** The action byte of an operation; values from 4 up are unknown actions. */
  type ActionCode = n: nat | n < 256

  const INDEX: ActionCode := 0
  const CREATE: ActionCode := 1
  const DELETE: ActionCode := 2
  const UPDATE: ActionCode := 3

  predicate Known(action: ActionCode) {
    action <= UPDATE
  }

  datatype Data = Data(id: string, action: ActionCode, body: Bytes)

  /** Every item of `w` occurs in `items`, in any order and any number of times. */
  ghost predicate DrawnFrom(w: seq<Data>, items: seq<Data>) {
    forall x :: x in w ==> x in items
  }
}
