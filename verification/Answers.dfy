/** Error numbers, and the answers that operations give. */
module Answers {
  const OK: int := 0
  const ENOENT: int := -2
  const EIO: int := -5
  const ENOMEM: int := -12
  const EEXIST: int := -17
  const EINVAL: int := -22
  const ENOSPC: int := -28
  const ENOTEMPTY: int := -39
  const ESTALE: int := -116

  datatype Option<T> = None | Some(value: T)

  /** What the emptiness test of a directory says. Stuck: it stands at a dead record, which
      it never leaves. */
  datatype Verdict = Empty | NotEmpty | Stuck
}
