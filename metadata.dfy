/** The per-attachment metadata row and what `dumpMedia` does with the row count. */
module Metadata {
  import opened Wrappers

  /**
    One row of the lookup. The minimal query selects only the content type,
    the stored file name and the display order; the remaining columns exist
    only in the full query and are read only when the backup is full.
  */
  datatype Row = Row(
    ct: string,
    fileName: Option<string>,
    displayOrder: int,
    dateReceived: Option<int>,
    msgBox: Option<int>,
    threadId: Option<int>,
    chatPartner: Option<string>)

  /** What happens to an attachment after its lookup. */
  datatype RowDecision =
    | Skip            // no row under an active filter: deselected, skipped without an error
    | ReportAndSkip   // any other count but one: logged as an error, skipped
    | Proceed         // exactly one row: exported

  /** A filter is active when either list was given, whether or not it yields a clause. */
  predicate FiltersActive(daterangelist: seq<string>, threads: seq<int>)
  {
    threads != [] || daterangelist != []
  }

  function Decide(rows: nat, filtersActive: bool): (d: RowDecision)
    ensures d == Proceed <==> rows == 1
    ensures d == Skip <==> rows == 0 && filtersActive
    ensures d == ReportAndSkip <==> rows != 1 && (rows != 0 || !filtersActive)
  {
    if rows == 0 && filtersActive then Skip
    else if rows != 1 then ReportAndSkip
    else Proceed
  }
}
