/** Small datatypes for absent values, for names, and for the error returns of the Go sources,
    and the absence of repetitions in a sequence. */
module Wrappers {

  datatype Option<+T> = None | Some(value: T)

  /** A Go string that serves as a name or a map key; only its equality matters. */
  datatype Name = Name(text: string)

  const EmptyName: Name := Name("")

  /** What a call that may return an error did. `Fatal` is the source's `klog.Fatalf`,
      which ends the process. */
  datatype Outcome = Ok | Err | Fatal

  predicate NoDup<T(==)>(s: seq<T>) {
    forall i, j :: 0 <= i < j < |s| ==> s[i] != s[j]
  }
}
