/** `writer/internal/batcher`: rows waiting for one bulk insert, with the records they came from. */
module Batcher {

  class Batch<Row, Record> {
    const maxSize: int
    const flushAfter: int
    var rows: seq<Row>
    var records: seq<Record>
    var since: int

    /** Every row stays paired with the record it was decoded from. */
    predicate Valid()
      reads this
    {
      |rows| == |records|
    }

    constructor (maxSize: int, flushAfter: int, now: int)
      ensures Valid() && rows == [] && since == now
      ensures this.maxSize == maxSize && this.flushAfter == flushAfter
    {
      this.maxSize, this.flushAfter := maxSize, flushAfter;
      rows, records, since := [], [], now;
    }

    method Add(row: Row, record: Record) returns (shouldFlush: bool)
      requires Valid()
      modifies this`rows, this`records
      ensures Valid()
      ensures rows == old(rows) + [row] && records == old(records) + [record]
      ensures shouldFlush <==> |old(rows)| + 1 >= maxSize
    {
      rows := rows + [row];
      records := records + [record];
      shouldFlush := |rows| >= maxSize;
    }

    predicate DueByTime(now: int)
      reads this
    {
      |rows| > 0 && now - since >= flushAfter
    }

    method Drain(now: int) returns (drained: seq<Row>, from: seq<Record>)
      requires Valid()
      modifies this`rows, this`records, this`since
      ensures Valid()
      ensures drained == old(rows) && from == old(records)
      ensures rows == [] && records == [] && since == now
      ensures !DueByTime(now + flushAfter)
    {
      drained, from := rows, records;
      rows, records := [], [];
      since := now;
    }
  }
}
