/**
 * The stock manager: the older twin of the market manager. It accepts
 * replies by the same rule and keeps every parsed quote in a plain record
 * table, ticker to quotes, that nothing drains.
 */
module StockManager {
  import opened Wrappers
  import opened Text
  import opened Records
  import Market

  /**
   * `get_real_time_quotes` once the reply is in: a status other than 200
   * raises, then a body containing `FAILED` raises, and otherwise the body
   * is returned as it came.
   */
  method GetRealTimeQuotes(status: int, body: string) returns (r: Result<string, Market.FetchError>)
    ensures r == Market.AcceptResponse(status, body)
    ensures r.Ok? <==> status == 200 && !Contains(body, "FAILED")
    ensures r.Ok? ==> r.value == body
    ensures r == Err(Market.WrongText) <==> status == 200 && Contains(body, "FAILED")
  {
    if status != 200 {
      return Err(Market.WrongStatusCode);
    }
    if Contains(body, "FAILED") {
      return Err(Market.WrongText);
    }
    return Ok(body);
  }

  /** The record table: each ticker's quotes, oldest first. */
  type RecordTable = map<string, seq<Quote>>

  /** Every list is non-empty and holds only quotes of its own ticker. */
  predicate TableValid(t: RecordTable)
  {
    forall k :: k in t ==> |t[k]| > 0 && forall q :: q in t[k] ==> q.code == k
  }

  /**
   * `_update_real_time_quotes_record`: append the quote to its ticker's
   * list, or start the list when the ticker is new; other tickers keep
   * their lists.
   */
  function UpdateRecord(t: RecordTable, q: Quote): (r: RecordTable)
    ensures r.Keys == t.Keys + {q.code}
    ensures q.code in t ==> r[q.code] == t[q.code] + [q]
    ensures q.code !in t ==> r[q.code] == [q]
    ensures forall k :: k in t && k != q.code ==> r[k] == t[k]
    ensures TableValid(t) ==> TableValid(r)
  {
    if q.code in t then t[q.code := t[q.code] + [q]] else t[q.code := [q]]
  }

  /** The market manager's buffer records a quote exactly as this table does. */
  lemma BufferRecordAgrees(b: Market.Buffer, q: Quote)
    ensures Market.Record(b, q).lists == UpdateRecord(b.lists, q)
    ensures b.Valid() ==> TableValid(b.lists)
  {
  }
}
