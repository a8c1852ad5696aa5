/**
 * The temporary files the two plist collectors extract entries into, and the
 * `ensure tempfile.close && tempfile.unlink` clause that is meant to remove
 * them.  Ruby's `Tempfile#close(unlink_now = false)` closes the handle and
 * ends with `unlink if unlink_now`, so without an argument its value is nil
 * and `&&` never evaluates `tempfile.unlink`.
 */
module TempFiles {

  /** A temporary file: whether its handle is open and whether it is still on disk. */
  datatype TempFile = TempFile(isOpen: bool, onDisk: bool)

  /** `Tempfile.new`: an open file on disk. */
  const NewTempFile := TempFile(true, true)

  /**
   * `Tempfile#close(unlink_now)`: the file afterwards, and whether the call's
   * value is truthy; without unlink_now the value is nil.
   */
  function Close(t: TempFile, unlinkNow: bool): (r: (TempFile, bool))
    ensures !r.0.isOpen
    ensures r.0.onDisk == (t.onDisk && !unlinkNow)
    ensures !unlinkNow ==> !r.1
  {
    if unlinkNow then (TempFile(false, false), true) else (t.(isOpen := false), false)
  }

  /** `Tempfile#unlink`: removes the file from disk. */
  function Unlink(t: TempFile): (r: TempFile)
    ensures !r.onDisk && r.isOpen == t.isOpen
  {
    t.(onDisk := false)
  }

  /** `tempfile.close && tempfile.unlink` as analyzer.rb writes it. */
  function CleanupAsWritten(t: TempFile): (r: TempFile)
    ensures !r.isOpen && r.onDisk == t.onDisk
  {
    var (closed, value) := Close(t, false);
    if value then Unlink(closed) else closed
  }

  /** The clean-up evidently intended: close the handle, then unlink the file. */
  function Cleanup(t: TempFile): (r: TempFile)
    ensures !r.isOpen && !r.onDisk
  {
    Unlink(Close(t, false).0)
  }

  /** The as-written clause leaves a fresh temporary file on disk; the intended one does not. */
  lemma CleanupAsWrittenLeaks()
    ensures CleanupAsWritten(NewTempFile) == TempFile(false, true)
    ensures Cleanup(NewTempFile) == TempFile(false, false)
  {
  }
}
