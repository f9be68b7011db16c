/** Error numbers as the driver returns them. */
module Errno {
  const EIO := 5
  const ENXIO := 6
  const ENOMEM := 12
  const EFAULT := 14
  const EBUSY := 16
  const EEXIST := 17
  const ENODEV := 19
  const EINVAL := 22
  const EAGAIN := 11
  const ENODATA := 61
  const ENOBUFS := 105
  const ETIMEDOUT := 110
  const ERESTARTSYS := 512
}
