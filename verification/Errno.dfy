/** The error numbers of src/include/errno.h that the model mentions. The source returns them
    negated. */
module Errno {
  const ENOENT := 2
  const ENOEXEC := 8
  const ENOMEM := 12
  const EBUSY := 16
  const EEXIST := 17
  const ENOTDIR := 20
  const EISDIR := 21
  const EINVAL := 22
  const ENOTEMPTY := 39
}
