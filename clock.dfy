/** The clock value `LocalDateTime.now()` and `@CreationTimestamp` read. */
module Clock {
  /** A point in time; the model treats it as opaque. */
  type Timestamp = int
}
