/** The shared half-open window contract (internal/platform/timewindow/window.go). */
module TimeWindow {

  /** Includes `from`, excludes `to`. */
  datatype Window = Window(from: int, to: int) {
    predicate Contains(instant: int) { from <= instant < to }
  }
}
