/** Result codes of littlefs. */
module LfsCodes {
  const ERR_CORRUPT := -84
  const ERR_NOSPC := -28
}
