/** Status codes. */
module Statuses {
  type Status = nat

  const STATUS_SUCCESS: Status := 0
  const STATUS_NULL_ARG: Status := 0x00000001
  const STATUS_INVALID_ARG: Status := 0x00000002
  const STATUS_PRODUCER_BASE: Status := 0x15000000
  const STATUS_STOP_CALLBACK_CHAIN: Status := STATUS_PRODUCER_BASE + 0x01
  const STATUS_MAX_CALLBACK_CHAIN: Status := STATUS_PRODUCER_BASE + 0x02
  const STATUS_INVALID_PLATFORM_CALLBACKS_VERSION: Status := STATUS_PRODUCER_BASE + 0x03
}
