/** Limits both transports share. */
module Limits {
  const MaxFilesPerSession := 10000

  /** Seconds without read progress after which a receive session has expired. */
  const SessionTimeout := 60
}
