/** The candle step: one history request per selected symbol over a fixed
    lookback window ending at the run's clock reading, skipping every response
    that does not report success with a non-empty result, and otherwise writing
    one output row per returned candle, tagged with its symbol, in result order. */
module Candles {
  import opened Wrappers

  const DaysBack: int := 14
  const SecondsPerDay: int := 24 * 60 * 60
  const Resolution: string := "1d"

  /** One candle of a history response; its values are written through unchanged. */
  datatype Candle = Candle(time: int, open: real, high: real, low: real, close: real, volume: real)

  /** A history response: a `success` flag and a `result` list, each possibly absent. */
  datatype Response = Response(success: Option<bool>, result: Option<seq<Candle>>)

  /** The query of one history request. */
  datatype Request = Request(symbol: string, resolution: string, start: int, end: int)

  /** One row of the output file; `time` is the ISO-8601 rendering of the candle's time. */
  datatype CandleRow = CandleRow(
    symbol: string, time: string, open: real, high: real, low: real, close: real, volume: real)

  /** `start_time`: DaysBack whole days before the end of the window. */
  function LookbackStart(endTime: int): (start: int)
    ensures start < endTime
    ensures (endTime - start) % SecondsPerDay == 0 && (endTime - start) / SecondsPerDay == DaysBack
  {
    endTime - DaysBack * SecondsPerDay
  }

  /** The request for `symbol` over the window ending at `endTime`. */
  function RequestFor(symbol: string, endTime: int): Request {
    Request(symbol, Resolution, LookbackStart(endTime), endTime)
  }

  /** A response is used only when it reports success and carries a non-empty result. */
  predicate Accepted(resp: Response) {
    resp.success == Some(true) && resp.result.Some? && resp.result.value != []
  }

  function RowOfCandle(symbol: string, c: Candle, isoformat: int -> string): CandleRow {
    CandleRow(symbol, isoformat(c.time), c.open, c.high, c.low, c.close, c.volume)
  }

  /** The rows written for the candles of one symbol. */
  function RowsOfCandles(symbol: string, cs: seq<Candle>, isoformat: int -> string): seq<CandleRow> {
    if cs == [] then [] else [RowOfCandle(symbol, cs[0], isoformat)] + RowsOfCandles(symbol, cs[1..], isoformat)
  }

  /** One row per candle, position by position, each tagged with the symbol. */
  lemma {:induction false} RowsOfCandlesAt(symbol: string, cs: seq<Candle>, isoformat: int -> string)
    ensures |RowsOfCandles(symbol, cs, isoformat)| == |cs|
    ensures forall k :: 0 <= k < |cs| ==>
              RowsOfCandles(symbol, cs, isoformat)[k] == RowOfCandle(symbol, cs[k], isoformat)
  {
    if cs != [] {
      RowsOfCandlesAt(symbol, cs[1..], isoformat);
    }
  }

  /** The rows written for one symbol's response: none unless it is accepted. */
  function RowsFor(symbol: string, resp: Response, isoformat: int -> string): seq<CandleRow> {
    if Accepted(resp) then RowsOfCandles(symbol, resp.result.value, isoformat) else []
  }

  /** Every response that is not accepted writes nothing and raises nothing; an
      accepted one writes one row per candle. A successful response with an empty
      result is skipped like a failed one. */
  lemma SkippedResponses(symbol: string, resp: Response, isoformat: int -> string)
    ensures !Accepted(resp) ==> RowsFor(symbol, resp, isoformat) == []
    ensures Accepted(resp) ==>
              RowsFor(symbol, resp, isoformat) == RowsOfCandles(symbol, resp.result.value, isoformat)
              && |RowsFor(symbol, resp, isoformat)| == |resp.result.value|
    ensures RowsFor(symbol, Response(Some(true), Some([])), isoformat) == []
  {
    if Accepted(resp) {
      RowsOfCandlesAt(symbol, resp.result.value, isoformat);
    }
  }

  /** Every row written for the symbols, in symbol order, given the exchange's
      answer `fetch` to each request. */
  function CandleRows(symbols: seq<string>, endTime: int, fetch: Request -> Response,
                      isoformat: int -> string): seq<CandleRow>
  {
    if symbols == [] then []
    else RowsFor(symbols[0], fetch(RequestFor(symbols[0], endTime)), isoformat)
           + CandleRows(symbols[1..], endTime, fetch, isoformat)
  }

  lemma {:induction false} CandleRowsConcat(a: seq<string>, b: seq<string>, endTime: int,
                                            fetch: Request -> Response, isoformat: int -> string)
    ensures CandleRows(a + b, endTime, fetch, isoformat)
              == CandleRows(a, endTime, fetch, isoformat) + CandleRows(b, endTime, fetch, isoformat)
  {
    if a == [] {
      assert a + b == b;
    } else {
      assert (a + b)[1..] == a[1..] + b;
      CandleRowsConcat(a[1..], b, endTime, fetch, isoformat);
    }
  }

  /** Every row carries one of the requested symbols, with a time rendered from
      a candle of that symbol's accepted response. */
  lemma {:induction false} CandleRowsTagged(symbols: seq<string>, endTime: int, fetch: Request -> Response,
                                            isoformat: int -> string, r: CandleRow)
    requires r in CandleRows(symbols, endTime, fetch, isoformat)
    ensures r.symbol in symbols
    ensures Accepted(fetch(RequestFor(r.symbol, endTime)))
    ensures exists c :: c in fetch(RequestFor(r.symbol, endTime)).result.value
                        && r == RowOfCandle(r.symbol, c, isoformat)
  {
    var s0 := symbols[0];
    var resp := fetch(RequestFor(s0, endTime));
    if r in RowsFor(s0, resp, isoformat) {
      var cs := resp.result.value;
      RowsOfCandlesAt(s0, cs, isoformat);
      var k :| 0 <= k < |cs| && RowsOfCandles(s0, cs, isoformat)[k] == r;
      assert cs[k] in cs;
    } else {
      CandleRowsTagged(symbols[1..], endTime, fetch, isoformat, r);
    }
  }

  /** One more symbol appends the rows written for its response. */
  lemma CandleRowsSnoc(symbols: seq<string>, k: nat, endTime: int, fetch: Request -> Response,
                       isoformat: int -> string)
    requires k < |symbols|
    ensures CandleRows(symbols[..k + 1], endTime, fetch, isoformat)
              == CandleRows(symbols[..k], endTime, fetch, isoformat)
                 + RowsFor(symbols[k], fetch(RequestFor(symbols[k], endTime)), isoformat)
  {
    assert symbols[..k + 1] == symbols[..k] + [symbols[k]];
    CandleRowsConcat(symbols[..k], [symbols[k]], endTime, fetch, isoformat);
    assert [symbols[k]][1..] == [];
  }

  /** The inner loop: the rows of one accepted response, appended candle by candle. */
  method WriteCandles(symbol: string, result: seq<Candle>, isoformat: int -> string, rowsIn: seq<CandleRow>)
    returns (rows: seq<CandleRow>)
    ensures rows == rowsIn + RowsOfCandles(symbol, result, isoformat)
  {
    rows := rowsIn;
    RowsOfCandlesAt(symbol, result, isoformat);
    ghost var written := RowsOfCandles(symbol, result, isoformat);
    for j := 0 to |result|
      invariant rows == rowsIn + written[..j]
    {
      var candle := result[j];
      rows := rows + [CandleRow(symbol, isoformat(candle.time), candle.open, candle.high,
                                candle.low, candle.close, candle.volume)];
      assert written[..j + 1] == written[..j] + [written[j]];
    }
    assert written[..|result|] == written;
  }

  /** Writing the candles: one request per symbol in order, and the rows of every
      accepted response appended candle by candle. */
  method FetchAndStoreCandles(symbols: seq<string>, endTime: int, fetch: Request -> Response,
                              isoformat: int -> string)
    returns (requests: seq<Request>, rows: seq<CandleRow>)
    ensures |requests| == |symbols|
    ensures forall k :: 0 <= k < |symbols| ==>
              requests[k] == Request(symbols[k], Resolution, endTime - DaysBack * SecondsPerDay, endTime)
    ensures rows == CandleRows(symbols, endTime, fetch, isoformat)
  {
    var startTime := endTime - DaysBack * 24 * 60 * 60;
    requests, rows := [], [];
    for k := 0 to |symbols|
      invariant |requests| == k
      invariant forall j :: 0 <= j < k ==> requests[j] == Request(symbols[j], Resolution, startTime, endTime)
      invariant rows == CandleRows(symbols[..k], endTime, fetch, isoformat)
    {
      var symbol := symbols[k];
      var request := Request(symbol, Resolution, startTime, endTime);
      assert request == RequestFor(symbol, endTime);
      var data := fetch(request);
      requests := requests + [request];
      CandleRowsSnoc(symbols, k, endTime, fetch, isoformat);
      if !(data.success == Some(true) && data.result.Some? && data.result.value != []) {
        continue;
      }
      rows := WriteCandles(symbol, data.result.value, isoformat, rows);
    }
    assert symbols[..|symbols|] == symbols;
  }
}
