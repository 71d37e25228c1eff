/** The error number that the sensor code returns, negated. */
module Errno {
  const EINVAL := 22
}
