/** The single entity of the system: one point-of-sale transaction record,
    as the processor reads it and as it leaves it. */
module Records {
  import opened Wrappers

  /** A parsed point in time. Only `year` and `hour` are read by the system. */
  datatype Timestamp = Timestamp(year: int, month: int, day: int, hour: int, minute: int, second: int)

  /** The `date` column changes type in place: it holds the file's text until
      it is converted to timestamps (missing text and unparseable text both
      become a missing timestamp, NaT). */
  datatype DateCell = Unparsed(text: Option<string>) | Parsed(stamp: Option<Timestamp>)

  /** One row of the table. Every cell may be missing. `year`, `hour` and
      `totalAmount` are the derived columns; before the processor assigns
      them they hold whatever the row was read with (missing, for a file
      without such columns). Prices are whole rupees. */
  datatype Row = Row(
    date: DateCell,
    itemType: Option<string>,
    itemPrice: Option<int>,
    quantity: Option<int>,
    transactionType: Option<string>,
    timeOfSale: Option<string>,
    year: Option<int>,
    hour: Option<int>,
    totalAmount: Option<int>)

  /** A row as read from the raw input file, which has no derived columns. */
  function RawRow(date: Option<string>, itemType: Option<string>, itemPrice: Option<int>,
                  quantity: Option<int>, transactionType: Option<string>, timeOfSale: Option<string>): (r: Row)
  {
    Row(Unparsed(date), itemType, itemPrice, quantity, transactionType, timeOfSale, None, None, None)
  }
}
