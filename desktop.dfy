/**
 * The top-level windows of the desktop, as `win32gui.EnumWindows` visits them.
 * The enumeration is an input: one record per window, in callback order.
 */
module Desktop {
  import opened Text

  datatype WindowRecord = WindowRecord(hwnd: int, visible: bool, pid: int, title: string)

  /** Every emulator window's title starts with this. */
  const LdPrefix := "LDPlayer-"

  predicate IsLdTitle(title: string)
  {
    StartsWith(title, LdPrefix)
  }
}
