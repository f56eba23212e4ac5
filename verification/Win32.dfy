/** The Windows error codes the broker distinguishes. */
module Win32 {
  type Error = nat

  const ERROR_SUCCESS: Error := 0
  const ERROR_FILE_NOT_FOUND: Error := 2
  const ERROR_PATH_NOT_FOUND: Error := 3
  const ERROR_ACCESS_DENIED: Error := 5
  const ERROR_INVALID_DATA: Error := 13
  const ERROR_NO_MORE_FILES: Error := 18
  const ERROR_NOT_READY: Error := 21
  const ERROR_SHARING_VIOLATION: Error := 32
  const ERROR_NOT_SUPPORTED: Error := 50
  const ERROR_BUSY: Error := 170
  const ERROR_ALREADY_EXISTS: Error := 183
  const ERROR_DIRECTORY: Error := 267
  const ERROR_INVALID_SID: Error := 1337
  const ERROR_TIMEOUT: Error := 1460
  const ERROR_NOT_ENOUGH_QUOTA: Error := 1816
  const ERROR_INVALID_STATE: Error := 5023
}
