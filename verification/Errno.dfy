/** The error numbers of the kernel that the drivers return. */
module Errno {
  const ENOENT := -2
  const ECHILD := -10
  const EFAULT := -14
  const EEXIST := -17
  const ENODEV := -19
  const EINVAL := -22
  const ENOSPC := -28
  const EBADMSG := -74
  const EMSGSIZE := -90
  const EOPNOTSUPP := -95
  const ESHUTDOWN := -108
  const ETIMEDOUT := -110
}
