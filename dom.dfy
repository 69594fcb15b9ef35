/** The browser surfaces the hotspot engine reads and writes. */
module Dom {
  /** `window.innerWidth` and `window.innerHeight`, read when an event fires. */
  datatype Viewport = Viewport(innerWidth: real, innerHeight: real)
  {
    /** A window with a drawable area; the engine divides by both sides. */
    predicate HasArea() { innerWidth > 0.0 && innerHeight > 0.0 }
  }

  /** The pointer position of a `PointerEvent`, in window pixels. */
  datatype PointerEvent = PointerEvent(clientX: real, clientY: real)

  /** The inline `style.cursor` of the canvas; `Unset` is the empty initial value. */
  datatype Cursor = Unset | Pointer | Grab

  /** The canvas element the scene draws into; the engine changes only its cursor. */
  class Canvas {
    var cursor: Cursor

    constructor ()
      ensures cursor == Unset
    {
      cursor := Unset;
    }
  }
}
