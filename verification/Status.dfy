/** The status codes of include/lettuce/errors.h that the modelled calls return. */
module Status {
  const OK: nat := 0
  const INVALID_ARGUMENT: nat := 2
  const DENIED: nat := 3
  const NOT_FOUND: nat := 4
  const UNAVAILABLE: nat := 7
  const OVERFLOW: nat := 10
  const INVALID_STATE: nat := 12
  const INVALID_SERVICE: nat := 13
  const INACTIVE_SERVICE: nat := 14
  const DIFFERENT_LAYER: nat := 15
  const CAPABILITY_DENIED: nat := 16
  const INVALID_OPERATION: nat := 17
  const INVALID_RESOURCE: nat := 18
  const INVALID_TARGET_ENTRY: nat := 19
}
