/** The idempotency keys of send requests: the table, and its three operations updating it in place. */
module Idempotency {

  datatype RowKey = RowKey(user: string, key: string)

  datatype Status = InProgress | Completed | Ambiguous

  datatype Response = Response(code: int, body: string)

  datatype Row = Row(hash: string, status: Status, response: Response)

  type Rows = map<RowKey, Row>

  /** The response columns of a row that has none yet read as zero and empty. */
  const NO_RESPONSE := Response(0, "")

  /** What a request finds under its key. */
  datatype Lookup = Absent | Mismatched | Busy | Cached(response: Response)

  function Find(rows: Rows, k: RowKey, hash: string): Lookup {
    if k !in rows then Absent
    else if rows[k].hash != hash then Mismatched
    else if rows[k].status.InProgress? then Busy
    else Cached(rows[k].response)
  }

  function Reserved(rows: Rows, k: RowKey, hash: string): Rows {
    rows[k := Row(hash, InProgress, NO_RESPONSE)]
  }

  function Recorded(rows: Rows, k: RowKey, status: Status, response: Response): Rows {
    if k in rows then rows[k := rows[k].(status := status, response := response)] else rows
  }

  function Released(rows: Rows, k: RowKey): Rows {
    rows - {k}
  }

  /** How the database may answer a transaction that inserts the key. */
  datatype Commit = Acknowledged | ReplyLost | Refused

  datatype Start = Proceed | Found(lookup: Lookup) | DatabaseError

  class Repository {
    var rows: Rows

    constructor ()
      ensures rows == map[]
    {
      rows := map[];
    }

    /** Reads the key, and reserves it for the caller when nobody holds it. */
    method StartIdempotentRequest(k: RowKey, hash: string, commit: Commit) returns (r: Start)
      modifies this
      ensures rows == if k in old(rows) || commit.Refused? then old(rows)
                      else old(rows)[k := Row(hash, InProgress, Response(0, ""))]
      ensures k !in old(rows) ==> r == if commit.Acknowledged? then Proceed else DatabaseError
      ensures k in old(rows) ==>
                var row := old(rows)[k];
                r == Found(if row.hash != hash then Mismatched
                           else if row.status.InProgress? then Busy else Cached(row.response))
    {
      var lookup := Find(rows, k, hash);
      if !lookup.Absent? {
        return Found(lookup);
      }
      if !commit.Refused? {
        rows := Reserved(rows, k, hash);
      }
      r := if commit.Acknowledged? then Proceed else DatabaseError;
    }

    method CompleteIdempotentRequest(k: RowKey, status: Status, response: Response, written: bool)
      modifies this
      ensures rows == if written && k in old(rows) then old(rows)[k := Row(old(rows)[k].hash, status, response)]
                      else old(rows)
    {
      if written && k in rows {
        rows := rows[k := rows[k].(status := status, response := response)];
      }
    }

    method ClearIdempotentRequest(k: RowKey, written: bool)
      modifies this
      ensures rows == if written then old(rows) - {k} else old(rows)
    {
      if written {
        rows := rows - {k};
      }
    }
  }
}
