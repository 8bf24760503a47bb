/** The host's error numbers. */
module Errno {

  const ENOENT := 2
  const EIO := 5
  const EBADF := 9
  const EAGAIN := 11
  const ENOMEM := 12
  const EBUSY := 16
  const EEXIST := 17
  const EINVAL := 22
  const ENOSPC := 28
}
