/** The Linux error numbers the driver returns, negated, to its callers. */
module Errno {
  const ENOENT := 2
  const EIO := 5
  const ENOMEM := 12
  const EFAULT := 14
  const EBUSY := 16
  const ENODEV := 19
  const EINVAL := 22
  const ERESTARTSYS := 512
}
