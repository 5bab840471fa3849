/**
 * Key codes as both scripts read them: `cv2.waitKey(1) & 0xFF`.
 * waitKey yields -1 when no key was pressed, so "no key" reads as 255.
 */
module Keyboard {
  const NoKey: int := -1
  const KeyPause: int := 'p' as int
  const KeyQuit: int := 'q' as int
  const KeyReset: int := 'r' as int

  /** The low byte of a raw key code (Python's `& 0xFF`; Dafny's % is Euclidean, like the mask). */
  function KeyCode(raw: int): (k: int)
    ensures 0 <= k < 256
    ensures raw == NoKey ==> k == 255
    ensures 0 <= raw < 256 ==> k == raw
    ensures (raw - k) % 256 == 0
  {
    raw % 256
  }
}
