/** The error numbers the modelled functions return (negated), as Linux numbers them. */
module Errno {
  const EIO := 5
  const E2BIG := 7
  const EBADF := 9
  const EAGAIN := 11
  const EBUSY := 16
  const EINVAL := 22
  const ENOSPC := 28
  const EPIPE := 32
  const ERANGE := 34
  const ENOSYS := 38
  const ENODATA := 61
  const EPROTO := 71
  const EBADMSG := 74
  const EOVERFLOW := 75
  const ESHUTDOWN := 108
  const ETIMEDOUT := 110
  const ESTALE := 116
  const ECANCELED := 125
}
