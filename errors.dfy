/** The failure paths of the extraction code, which Java signals by exceptions. */
module Errors {

  /** Why an extraction failed. Rows, cells and spans are numbered as the pages
      are read: rows from 1 (the detail-table row counter), cells and spans from 0. */
  datatype ExtractError =
    | MissingCell(row: nat, cell: nat)              // IndexOutOfBoundsException on the row's td list
    | MissingSpan(row: nat, cell: nat, span: nat)   // IndexOutOfBoundsException on a cell's span list
    | NullGroup(index: nat)                         // NullPointerException: no group stored under this index
    | NumberFormat(text: string)                    // NumberFormatException from Integer.parseInt

  datatype Result<T> = Ok(value: T) | Err(error: ExtractError)

  datatype Option<T> = None | Some(value: T)
}
