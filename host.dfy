/**
 * The browser around the core: the single process-wide cursor style
 * (`document.body.style.cursor`) and the user-supplied callbacks the core
 * calls, recorded in call order.
 */
module Host {

  /** The cursor styles the core writes, plus the initial unset style. */
  datatype Cursor = Auto | Default | Pointer

  /** An opaque user-supplied callback such as a model's `onClick`. */
  datatype Handler = Handler(id: nat)

  class Host {
    var cursor: Cursor
    var invoked: seq<Handler>

    constructor ()
      ensures cursor == Auto && invoked == []
    {
      cursor, invoked := Auto, [];
    }
  }
}
