module Digests {
  /** A keyed digest of a secret. */
  type Digest = string
}
