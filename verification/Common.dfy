/** What all components of the allocator agree on. */
module Common {
  /** Bytes per page. */
  const PAGE_SIZE := 8192
}
