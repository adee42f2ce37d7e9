/** Option and Result values, and the failures the scraper's code raises.
    Every `throw` and every JavaScript TypeError the core can hit becomes an
    `Err` carrying one of the `Error` values below. */
module Results {

  datatype Option<+T> = None | Some(value: T)

  datatype Result<+T> = Ok(value: T) | Err(error: Error)

  /** Why a run of the scraper stops. */
  datatype Error =
    | MisalignedCalendars      // compare reads a day or slot the newer calendar lacks
    | MissingTableRows         // fromTable on a table with fewer than two rows
    | MissingScheduleLabel     // fromTable: a data row has more cells than the label row
    | MissingDatesTable        // fewer than two `table.tcontent` elements on the page
    | EmptySnapshot            // restore on a sheet whose last filled row is the header or none
    | RowWidthMismatch         // store: setValues on rows that are not all as wide as the header
    | InvalidRange             // store: more than 25 schedule names put the range's column past Z
    | NoSnapshot               // main.ts: `null.compare` when there is no stored calendar
    | External(reason: string) // a failure of fetch or XML parsing, which are not modelled
}
