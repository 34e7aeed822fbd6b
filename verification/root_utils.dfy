/**
 * The top-level helper module, an older copy of the common helpers written
 * statement by statement: the single-line parser under its response-parser
 * name, the bad-name loop, code prefixing and the trading-hours check with
 * the clock reading passed in. Each is proved to agree with its counterpart
 * in `CommonUtils` on every input.
 */
module RootUtils {
  import opened Wrappers
  import opened Text
  import opened Const
  import opened Records
  import opened Calendar
  import CommonUtils

  /**
   * The Optional-returning parser: stripped, split on `=` into exactly two
   * names, ticker checked, payload length checked, then 32 fields taken.
   */
  method ParseSinaResponseText(text: string) returns (r: Option<Quote>)
    ensures r == CommonUtils.ParseLine(text)
    ensures r.Some? ==> r.value.Valid() && StartsWithAny(r.value.code, CommonUtils.TickerPrefixes)
    ensures AllSpace(text) ==> r == None
  {
    var t := Strip(text);
    if |t| > 0 {
      var parts := Split(t, '=');
      if |parts| == 2 {
        var stockCode := Last(parts[0], 8);
        if StartsWithAny(stockCode, CommonUtils.TickerPrefixes) {
          var data := parts[1];
          if |data| > 3 {
            var pieces := Split(CommonUtils.Inner(data), ',');
            if |pieces| >= QuoteFieldCount {
              return Some(Quote(stockCode, pieces[..QuoteFieldCount]));
            }
          }
        }
      }
    }
    return None;
  }

  /** The keyword loop: true at the first keyword found in `name`, false after all three are missed. */
  method IsBadStock(name: string) returns (bad: bool)
    ensures bad <==> exists k :: 0 <= k < |BadStockNameContains| && Contains(name, BadStockNameContains[k])
    ensures bad == CommonUtils.IsBadStock(name)
  {
    CommonUtils.AnyKeywordInIff(BadStockNameContains, name);
    var i := 0;
    while i < |BadStockNameContains|
      invariant 0 <= i <= |BadStockNameContains|
      invariant forall k :: 0 <= k < i ==> !Contains(name, BadStockNameContains[k])
    {
      if Contains(name, BadStockNameContains[i]) {
        return true;
      }
      i := i + 1;
    }
    return false;
  }

  /** Zero-pad to six characters, then prefix `sh`, `bj` or `sz`, exactly as `CommonUtils.CodeWithPrefix`. */
  method CodeWithPrefix(code: string) returns (r: string)
    ensures r == CommonUtils.CodeWithPrefix(code)
    ensures r[2..] == ZFill(code, 6) && r[..2] in {"sh", "bj", "sz"}
  {
    var c := ZFill(code, 6);
    if StartsWithAny(c, ShanghaiPrefix) {
      c := "sh" + c;
    } else if StartsWithAny(c, BeijingPrefix) {
      c := "bj" + c;
    } else {
      c := "sz" + c;
    }
    return c;
  }

  /**
   * Whether the clock reading `now` is a trading moment; the clock is read
   * by the caller. Same rule as `CommonUtils.IsTradeTime`.
   */
  method IsTradeTime(now: DateTime, isWorkday: Date -> bool) returns (b: bool)
    requires ValidDateTime(now)
    ensures b == CommonUtils.IsTradeTime(now, isWorkday)
    ensures b <==>
      && isWorkday(now.date)
      && IsoWeekday(now.date) < 6
      && ((FirstOpeningTime < TimeOfDay(now) < FirstClosingTime) || (SecondOpeningTime < TimeOfDay(now) < SecondClosingTime))
  {
    if isWorkday(now.date) {
      if IsoWeekday(now.date) < 6 {
        var nowTime := TimeOfDay(now);
        if FirstOpeningTime < nowTime < FirstClosingTime {
          return true;
        }
        if SecondOpeningTime < nowTime < SecondClosingTime {
          return true;
        }
      }
    }
    return false;
  }
}
