/** The freezer inventory's data: one row per stored item, dates as
    instants, and the aging classification used by the stock cards and the
    recap. */
module Inventory {

  datatype Option<T> = None | Some(value: T)

  /** One row of the stock table (columns Nom, Catégorie, Nombre, Lieu,
      Date, Contenant). `date` is the text stored in the Date column. */
  datatype Row = Row(
    name: string,
    category: string,
    quantity: int,
    location: string,
    date: string,
    container: string)

  /** A row of the working table: its position in the full stock table
      (the `index` column that `reset_index()` keeps), the row itself, and
      its Date parsed to an instant in whole seconds (None when unparseable). */
  datatype Entry = Entry(index: nat, row: Row, stamp: Option<int>)

  /** The row built by the "Ajouter" form; `ts` is the formatted clock. */
  function NewRow(name: string, category: string, location: string, container: string,
                  quantity: int, ts: string): Row
  {
    Row(name, category, quantity, location, ts, container)
  }

  /** The "last added" marker for a row: name, underscore, date text. */
  function MarkerOf(name: string, date: string): string
  {
    name + "_" + date
  }

  /** Every row of the full table, tagged with its position and parsed date. */
  function Tagged(rows: seq<Row>, parse: string -> Option<int>): (r: seq<Entry>)
    ensures |r| == |rows|
    ensures forall k :: 0 <= k < |r| ==> r[k].index == k && r[k].row == rows[k]
    ensures forall k :: 0 <= k < |r| ==> r[k].stamp == parse(rows[k].date)
  {
    seq(|rows|, k requires 0 <= k < |rows| => Entry(k, rows[k], parse(rows[k].date)))
  }

  const SecondsPerDay: int := 86400
  const WarningDays: int := 90
  const StaleDays: int := 180

  /** Whole days elapsed from `t` to `now`, rounded down as Python's
      `timedelta.days` does (negative for a date in the future). */
  function AgeDays(now: int, t: int): (d: int)
    ensures d * SecondsPerDay <= now - t < (d + 1) * SecondsPerDay
  {
    (now - t) / SecondsPerDay
  }

  /** Aging status of an item: grey, orange or red stripe. */
  datatype Aging = Fresh | Warning | Stale

  /** Classifies an item by the age of its date; an unknown date is Fresh. */
  function Classify(now: int, stamp: Option<int>): (a: Aging)
    ensures a == Stale <==> stamp.Some? && AgeDays(now, stamp.value) >= StaleDays
    ensures a == Warning <==>
      stamp.Some? && WarningDays <= AgeDays(now, stamp.value) < StaleDays
    ensures a == Fresh <==> stamp.None? || AgeDays(now, stamp.value) < WarningDays
  {
    match stamp
    case None => Fresh
    case Some(t) =>
      var diff := AgeDays(now, t);
      if diff >= StaleDays then Stale
      else if diff >= WarningDays then Warning
      else Fresh
  }

  /** The age thresholds in seconds: an item added exactly 90 days ago is
      already in the warning band, one added 180 days ago is stale. */
  lemma ClassifyBoundaries(t: int)
    ensures Classify(t + 89 * SecondsPerDay, Some(t)) == Fresh
    ensures Classify(t + 90 * SecondsPerDay, Some(t)) == Warning
    ensures Classify(t + 180 * SecondsPerDay - 1, Some(t)) == Warning
    ensures Classify(t + 180 * SecondsPerDay, Some(t)) == Stale
  {
  }
}
