/** What the routines read from the Windows console, as plain values: the
    answer of GetConsoleScreenBufferInfo, or None when that query fails. */
module Console {
  import opened Wrappers

  datatype Coord = Coord(x: int, y: int)

  datatype SmallRect = SmallRect(left: int, top: int, right: int, bottom: int)

  /** The fields of CONSOLE_SCREEN_BUFFER_INFO the routines use. */
  datatype ScreenBufferInfo = ScreenBufferInfo(window: SmallRect, cursorPosition: Coord)

  /** The width assumed when the console cannot be queried. */
  const DefaultColumns := 80

  /** The visible column count: the window's inclusive span, or 80. */
  function Columns(query: Option<ScreenBufferInfo>): int
  {
    match query
    case Some(info) => info.window.right - info.window.left + 1
    case None => DefaultColumns
  }

  /** The cursor printr starts from: the queried one, or whatever the
      uninitialised structure held when the query failed. */
  function StartCursor(query: Option<ScreenBufferInfo>, uninitialised: Coord): Coord
  {
    match query
    case Some(info) => info.cursorPosition
    case None => uninitialised
  }
}
