/** The entities shared by the loader, the model and the service. */
module Readings {
  import opened Wrappers

  /** The three monitored contaminants, in the order the model lays them out. */
  datatype Feature = Nickel | Cobalt | NH3

  /** The model's `features` array: the column order of every matrix and output vector. */
  const Features: seq<Feature> := [Nickel, Cobalt, NH3]

  /** A timestamp is the millisecond value of a JavaScript `Date`. */
  type Timestamp = int

  /** One row of the dataset after validation. */
  datatype Reading = Reading(timestamp: Timestamp, nickel: real, cobalt: real, nh3: real)
  {
    function Get(f: Feature): real
    {
      match f
      case Nickel => nickel
      case Cobalt => cobalt
      case NH3 => nh3
    }
  }

  /**
   * One CSV row as parsed, before validation: `None` is an Invalid Date for
   * the timestamp and NaN for a feature value.
   */
  datatype ParsedRow = ParsedRow(
    timestamp: Option<Timestamp>,
    nickel: Option<real>,
    cobalt: Option<real>,
    nh3: Option<real>)

  /** The loader's row filter: a valid date and three numbers. */
  predicate IsValidReading(row: ParsedRow)
  {
    && row.timestamp.Some?
    && row.nickel.Some?
    && row.cobalt.Some?
    && row.nh3.Some?
  }

  function ToReading(row: ParsedRow): (r: Reading)
    requires IsValidReading(row)
    ensures Some(r.timestamp) == row.timestamp
    ensures Some(r.nickel) == row.nickel && Some(r.cobalt) == row.cobalt && Some(r.nh3) == row.nh3
  {
    Reading(row.timestamp.value, row.nickel.value, row.cobalt.value, row.nh3.value)
  }

  /** The parsed row of a complete reading: a real date and three numbers. */
  function Complete(d: Reading): (row: ParsedRow)
    ensures IsValidReading(row)
    ensures ToReading(row) == d
  {
    ParsedRow(Some(d.timestamp), Some(d.nickel), Some(d.cobalt), Some(d.nh3))
  }

  /**
   * The filter accepts exactly the rows that come from a complete reading:
   * none of the date or the three values failed to parse.
   */
  lemma ValidIffComplete(row: ParsedRow)
    ensures IsValidReading(row) <==> exists d :: Complete(d) == row
  {
    if IsValidReading(row) {
      assert Complete(ToReading(row)) == row;
    }
  }
}
