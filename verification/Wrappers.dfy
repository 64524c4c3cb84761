/** Result shapes shared by the whole model. */
module Wrappers {

  /** A nullable Go pointer, or a value that may be absent. */
  datatype Option<+T> = None | Some(value: T)

  /** A raw extension of a Kubernetes object: absent, present but not decodable, or decoded. */
  datatype Decoded<+T> = Missing | Undecodable | Decoded(value: T)

  /** The first n lists, one after the other. */
  function Flatten<T>(parts: seq<seq<T>>, n: nat): seq<T>
    requires n <= |parts|
  {
    if n == 0 then [] else Flatten(parts, n - 1) + parts[n - 1]
  }

  lemma {:induction false} FlattenMembers<T>(parts: seq<seq<T>>, n: nat, x: T)
    requires n <= |parts|
    ensures x in Flatten(parts, n) <==> exists i | 0 <= i < n :: x in parts[i]
  {
    if n == 0 {
    } else {
      FlattenMembers(parts, n - 1, x);
    }
  }

  lemma {:induction false} FlattenEmpty<T>(parts: seq<seq<T>>, n: nat)
    requires n <= |parts|
    ensures Flatten(parts, n) == [] <==> forall i | 0 <= i < n :: parts[i] == []
  {
    if n == 0 {
    } else {
      FlattenEmpty(parts, n - 1);
    }
  }
}
