/** The bits of `es_bits`: Ethernet Segment ids up to 62, and the leaf mark. */
module EsBits {
  const MAX_ES_ID := 62

  /** The bit that is no segment: the copy came from a leaf. */
  const LEAF_BIT := 63
}
