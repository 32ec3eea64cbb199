/** The compile-time limits of rdma_pacer/pacer.h. */
module Limits {
  const MAX_FLOWS := 512
  const MAX_CLIENTS := 36
  const LINE_RATE_MB := 6000
}
