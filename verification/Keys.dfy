/** Key codes, numbered as in the terminal library. */
module Keys {
  const KEY_DOWN := '\U{0102}'
  const KEY_UP := '\U{0103}'
  const KEY_LEFT := '\U{0104}'
  const KEY_RIGHT := '\U{0105}'
  const KEY_NPAGE := '\U{0152}'
  const KEY_PPAGE := '\U{0153}'
  // What a wait answers that ends without a key: a code that no screen knows.
  const ERR := '\U{10FFFF}'
  const KEY_ESC := '\U{001b}'
  const CTRL_C := '\U{0003}'
}
