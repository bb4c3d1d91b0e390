/** The numbers that both sides of the guest-agent protocol share. */
module GuestProtocol {
  const PROTOCOL_VERSION := 2
  const MAX_PAYLOAD := 2 * 1024 * 1024
  const MAX_CLIPBOARD := 1024 * 1024
  const MAX_REQUEST_ID := 256
}
