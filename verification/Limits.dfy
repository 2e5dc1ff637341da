/** The sizes that every part of ChatServer shares. */
module Limits {
  const MSG_HEAD_SIZE := 4
  const MSG_MAX_LEN := 8192
  const QUEUE_MAX_SIZE := 1000
}
