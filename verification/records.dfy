/** The two record layouts of the collector: a real-time quote and a basic-info row. */
module Records {

  /** Number of positional feed fields a quote keeps after its ticker. */
  const QuoteFieldCount: nat := 32

  const LevelNames: seq<string> := ["one", "two", "three", "four", "five"]

  /** Column name of depth level `k` (1..5) of one side, e.g. `buy_two_price`. */
  function LevelColumn(side: string, k: nat, what: string): string
    requires 1 <= k <= 5
  {
    side + "_" + LevelNames[k - 1] + "_" + what
  }

  /** The ten depth columns of one side: level 1 apply, level 1 price, ..., level 5 price. */
  function DepthColumns(side: string): (r: seq<string>)
    ensures |r| == 10
  {
    seq(10, i requires 0 <= i < 10 => LevelColumn(side, i / 2 + 1, if i % 2 == 0 then "apply" else "price"))
  }

  /** Column names of a quote, ticker first; also the header of the per-day CSV files. */
  const QuoteFieldNames: seq<string> :=
    ["code", "name",
     "today_opening_price", "yesterday_closing_price", "current_price",
     "today_max_price", "today_min_price", "max_buy_price", "min_sell_price",
     "shares_of_traded", "amount_of_traded"]
    + DepthColumns("buy") + DepthColumns("sell")
    + ["date", "time"]

  /**
   * A quote snapshot: the ticker plus the feed's fields in wire order.
   * `fields[i]` is wire field `i + 1` and the column `QuoteFieldNames[i + 1]`.
   */
  datatype Quote = Quote(code: string, fields: seq<string>) {

    predicate Valid()
    {
      |fields| == QuoteFieldCount
    }

    /** `v` is this quote's value in the column called `name`. */
    predicate InColumn(name: string, v: string)
      requires Valid()
    {
      exists j :: 0 <= j < QuoteFieldCount && QuoteFieldNames[j + 1] == name && fields[j] == v
    }

    /** The stock's display name, the `name` column. */
    function Name(): (r: string)
      requires Valid()
      ensures InColumn("name", r)
    {
      assert QuoteFieldNames[0 + 1] == "name";
      fields[0]
    }

    /** Buy depth level `k` (1..5) as the values of its apply and price columns. */
    function BuyLevel(k: nat): (r: (string, string))
      requires Valid() && 1 <= k <= 5
      ensures InColumn(LevelColumn("buy", k, "apply"), r.0)
      ensures InColumn(LevelColumn("buy", k, "price"), r.1)
    {
      LevelColumns(k);
      assert QuoteFieldNames[(8 + 2 * k) + 1] == LevelColumn("buy", k, "apply");
      assert QuoteFieldNames[(9 + 2 * k) + 1] == LevelColumn("buy", k, "price");
      (fields[8 + 2 * k], fields[9 + 2 * k])
    }

    /** Sell depth level `k` (1..5) as the values of its apply and price columns. */
    function SellLevel(k: nat): (r: (string, string))
      requires Valid() && 1 <= k <= 5
      ensures InColumn(LevelColumn("sell", k, "apply"), r.0)
      ensures InColumn(LevelColumn("sell", k, "price"), r.1)
    {
      LevelColumns(k);
      assert QuoteFieldNames[(18 + 2 * k) + 1] == LevelColumn("sell", k, "apply");
      assert QuoteFieldNames[(19 + 2 * k) + 1] == LevelColumn("sell", k, "price");
      (fields[18 + 2 * k], fields[19 + 2 * k])
    }

    /** The quote's trading date, the `date` column. */
    function Date(): (r: string)
      requires Valid()
      ensures InColumn("date", r)
    {
      QuoteLayout();
      assert QuoteFieldNames[30 + 1] == "date";
      fields[30]
    }

    /** The quote's time of day, the `time` column. */
    function Time(): (r: string)
      requires Valid()
      ensures InColumn("time", r)
    {
      QuoteLayout();
      assert QuoteFieldNames[31 + 1] == "time";
      fields[31]
    }
  }

  /** Column names of a basic-info row. */
  const StockFieldNames: seq<string> := [
    "code", "name", "net_profit", "total_market_value", "circulating_market_value",
    "trade", "PER", "PBR", "ROE", "gross_margin", "net_margin", "bk_code"]

  /**
   * One basic-info row. The cache file stores the code as a number, without
   * its exchange prefix; the financial columns are kept as their text.
   */
  datatype Stock = Stock(
    code: nat,
    name: string,
    netProfit: string,
    totalMarketValue: string,
    circulatingMarketValue: string,
    trade: string,
    per: string,
    pbr: string,
    roe: string,
    grossMargin: string,
    netMargin: string,
    bkCode: string)

  /**
   * Wire fields 11-20 are the five buy levels and 21-30 the five sell levels,
   * each an (apply, price) pair: columns 9+2k, 10+2k and 19+2k, 20+2k.
   */
  lemma LevelColumns(k: nat)
    requires 1 <= k <= 5
    ensures QuoteFieldNames[9 + 2 * k] == LevelColumn("buy", k, "apply")
    ensures QuoteFieldNames[10 + 2 * k] == LevelColumn("buy", k, "price")
    ensures QuoteFieldNames[19 + 2 * k] == LevelColumn("sell", k, "apply")
    ensures QuoteFieldNames[20 + 2 * k] == LevelColumn("sell", k, "price")
  {
    var i := 2 * k - 2;
    assert i / 2 + 1 == k && (i + 1) / 2 + 1 == k && i % 2 == 0 && (i + 1) % 2 == 1;
    assert QuoteFieldNames[11 + i] == DepthColumns("buy")[i];
    assert QuoteFieldNames[12 + i] == DepthColumns("buy")[i + 1];
    assert QuoteFieldNames[21 + i] == DepthColumns("sell")[i];
    assert QuoteFieldNames[22 + i] == DepthColumns("sell")[i + 1];
  }

  /**
   * The quote layout: ticker, then 32 fields; the name is the first wire
   * field and date and time the last two.
   */
  lemma QuoteLayout()
    ensures |QuoteFieldNames| == QuoteFieldCount + 1
    ensures QuoteFieldNames[0] == "code" && QuoteFieldNames[1] == "name"
    ensures QuoteFieldNames[QuoteFieldCount - 1] == "date" && QuoteFieldNames[QuoteFieldCount] == "time"
  {
  }

  /** The basic-info layout: 12 columns, code first and name second. */
  lemma StockLayout()
    ensures |StockFieldNames| == 12
    ensures StockFieldNames[0] == "code" && StockFieldNames[1] == "name"
  {
  }
}
