/** Results shared by every component. */
module Wrappers {

  datatype Option<+T> = None | Some(value: T)

  /** The error codes the modelled functions return (negated in C). */
  datatype Errno = EINVAL | ENOMEM | ENODATA | ENOENT | EGROUP

  /** How a C call ends.
      `Crashed` stands for a failed `assert` (the build keeps assertions on), a null
      dereference, a read past the end of a vector or of freed storage, or undefined
      arithmetic. */
  datatype Outcome<+T> = Done(value: T) | Failed(errno: Errno) | Crashed

  /** A sequence is all but its last element and the last element. */
  lemma {:induction false} InitLast<T>(s: seq<T>)
    requires s != []
    ensures s == s[..|s| - 1] + [s[|s| - 1]]
  {
  }

  /** A longer prefix is the shorter one and one more element. */
  lemma {:induction false} NextPrefix<T>(s: seq<T>, i: nat)
    requires i < |s|
    ensures s[..i + 1] == s[..i] + [s[i]]
  {
  }
}
