/**
 * Values the table model exchanges with the host list widget and with the
 * consumer. None of them is inspected by the model: they are stored and
 * passed through.
 */
module Toolkit {

  datatype Option<+T> = None | Some(value: T)

  /** An identity token: the fresh object a row or section is given at creation. */
  class Token {
    constructor ()
    {
    }
  }

  /** The host list widget the manager is bound to. */
  class TableView {
  }

  /** A view supplied by the consumer for a header or footer. */
  class View {
  }

  /**
   * A consumer closure that is only ever invoked for its side effects (cell
   * configuration, selection handling, cell construction). Its body is not
   * modelled; only which closure sits in which slot is.
   */
  class Closure {
  }

  /** A (section, row) position as the widget reports it. */
  datatype IndexPath = IndexPath(section: int, row: int)
}
