/** Addresses of blocks and chunks; NULL is the null pointer. */
module Memory {
  type Addr = int

  const NULL: Addr := 0
}
