/**
 Limits of the feed format (`openvibes-vulns/src/feedfmt.rs`), and the size of the buffers its files
 are copied through.
 */
module FeedLimits {
  const MAX_ENVELOPE: nat := 1_048_576
  const MAX_FILES: nat := 64
  const BUFFER: nat := 65_536
}
