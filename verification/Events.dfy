/** Earthquake rows as they travel from the silver files into the warehouse and the marts. */
module Events {
  import opened Options
  import opened IsoTime

  /** The columns that every layer carries along unchanged. */
  datatype Details = Details(
    latitude: Option<real>, longitude: Option<real>, depth: Option<real>,
    mag: Option<real>, magType: Option<string>,
    place: Option<string>, net: Option<string>, status: Option<string>, eventType: Option<string>,
    tsunami: Option<int>, url: Option<string>, detail: Option<string>, alert: Option<string>,
    sig: Option<int>, felt: Option<int>, mmi: Option<real>, nst: Option<int>,
    gap: Option<real>, magError: Option<real>)

  /** A silver row. */
  datatype Row = Row(
    id: string, time: DateTime, updated: DateTime, details: Details,
    country: Option<string>, riskClass: Option<string>,
    sourceWindowStart: int, sourceWindowEnd: int)

  predicate ValidRow(r: Row) {
    Valid(r.time) && Valid(r.updated)
  }

  predicate ValidRows(rows: seq<Row>) {
    forall i :: 0 <= i < |rows| ==> ValidRow(rows[i])
  }
}
