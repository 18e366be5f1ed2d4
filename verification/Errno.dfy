/** Error numbers of the C library the runtime is built with. */
module Errno {
  const ENOENT: int := 2
  const EIO: int := 5
  const ENOMEM: int := 12
  const EBUSY: int := 16
  const ENODEV: int := 19
  const EINVAL: int := 22
  const EFBIG: int := 27
  const ENODATA: int := 61
  const EBADMSG: int := 77
  const ETIMEDOUT: int := 116
  const EALREADY: int := 120
  const EMSGSIZE: int := 122
  const ENOTSUP: int := 134
  const ECANCELED: int := 140
}
