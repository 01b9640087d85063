/** What several modules share. */
module Common {
  datatype Option<T> = None | Some(value: T)

  type ConnId = nat

  type Byte = b: int | 0 <= b < 256
  type Bytes = seq<Byte>

  function Min(a: nat, b: nat): nat { if a < b then a else b }

  /** What a guarded definition is about. */
  datatype Topic = OfState | OfChange | OfLaws

  /** A definition that is guarded by `forall n :: Shown(t, n) ==> ...` is seen only by the proofs that say
      `assert Shown(t, 0)`; the others pass it on as it is. */
  ghost predicate Shown(t: Topic, n: nat) { true }
}
