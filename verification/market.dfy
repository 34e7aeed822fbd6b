/**
 * The market manager: the ticker universe built from basic-info rows, the
 * acceptance check on a quote reply, the request batches, and the buffer
 * of quotes per ticker that the fetch threads fill and the producer drains.
 */
module Market {
  import opened Wrappers
  import opened Text
  import opened Records
  import opened Batching
  import CommonUtils

  /** Fetch cycles between two drains of the buffer. */
  const MaxBufferSize: nat := 10

  /** Tickers per request. */
  const DefaultBatchSize: nat := 200

  // ---------------------------------------------------------------------
  // The ticker universe
  // ---------------------------------------------------------------------

  /** A basic-info row is kept unless its name marks a bad stock. */
  predicate Kept(row: Stock)
  {
    !CommonUtils.IsBadStock(row.name)
  }

  /** The ticker of a row: its numeric code printed, padded and prefixed. */
  function Ticker(row: Stock): string
  {
    CommonUtils.CodeWithPrefix(NatToString(row.code))
  }

  /** The keys of the elements of `xs` that `keep` accepts, in the order of `xs`. */
  function KeepMap<A, B>(xs: seq<A>, keep: A -> bool, key: A -> B): (r: seq<B>)
    ensures |r| <= |xs|
  {
    if |xs| == 0 then []
    else
      var last := xs[|xs| - 1];
      KeepMap(xs[..|xs| - 1], keep, key) + (if keep(last) then [key(last)] else [])
  }

  /** A value is produced exactly when some kept element maps to it. */
  lemma {:induction false} KeepMapMembership<A, B>(xs: seq<A>, keep: A -> bool, key: A -> B, c: B)
    ensures c in KeepMap(xs, keep, key) <==> exists i :: 0 <= i < |xs| && keep(xs[i]) && key(xs[i]) == c
  {
    if |xs| > 0 {
      var init := xs[..|xs| - 1];
      KeepMapMembership(init, keep, key, c);
      if c in KeepMap(xs, keep, key) && c !in KeepMap(init, keep, key) {
        assert keep(xs[|xs| - 1]) && key(xs[|xs| - 1]) == c;
      }
      if c in KeepMap(init, keep, key) {
        var i :| 0 <= i < |init| && keep(init[i]) && key(init[i]) == c;
        assert xs[i] == init[i];
      }
      if exists i :: 0 <= i < |xs| && keep(xs[i]) && key(xs[i]) == c {
        var i :| 0 <= i < |xs| && keep(xs[i]) && key(xs[i]) == c;
        if i < |init| {
          assert init[i] == xs[i];
        }
      }
    }
  }

  /** The tickers of the kept rows, in row order. */
  function GoodCodes(rows: seq<Stock>): (r: seq<string>)
    ensures |r| <= |rows|
  {
    KeepMap(rows, Kept, Ticker)
  }

  /** Every ticker of the universe is the ticker of a kept row, so it carries one of the three exchange markers. */
  lemma GoodCodesMarked(rows: seq<Stock>, c: string)
    requires c in GoodCodes(rows)
    ensures |c| >= 8 && c[..2] in ["sh", "bj", "sz"]
    ensures exists i :: 0 <= i < |rows| && Kept(rows[i]) && Ticker(rows[i]) == c
  {
    KeepMapMembership(rows, Kept, Ticker, c);
    var i :| 0 <= i < |rows| && Kept(rows[i]) && Ticker(rows[i]) == c;
    var z := ZFill(NatToString(rows[i].code), 6);
    assert c == CommonUtils.CodeWithPrefix(NatToString(rows[i].code));
  }

  /**
   * Indexes `rows` by `key`, skipping those `keep` refuses: the keys in row
   * order, and a table in which a later row with the same key replaces an
   * earlier one.
   */
  method IndexRows<A(==)>(rows: seq<A>, keep: A -> bool, key: A -> string) returns (codes: seq<string>, table: map<string, A>)
    ensures codes == KeepMap(rows, keep, key)
    ensures forall c :: c in table <==> c in codes
    ensures forall c :: c in table ==> LastKeptAt(rows, keep, key, c, table[c])
  {
    codes := [];
    table := map[];
    ghost var at: map<string, nat> := map[];
    var n := 0;
    while n < |rows|
      invariant 0 <= n <= |rows|
      invariant codes == KeepMap(rows[..n], keep, key)
      invariant forall c :: c in table <==> c in codes
      invariant at.Keys == table.Keys
      invariant forall c :: c in table ==>
        at[c] < n && rows[at[c]] == table[c] && keep(rows[at[c]]) && key(rows[at[c]]) == c
          && forall j :: at[c] < j < n && keep(rows[j]) ==> key(rows[j]) != c
    {
      assert rows[..n + 1][..n] == rows[..n];
      var row := rows[n];
      if keep(row) {
        var code := key(row);
        table := table[code := row];
        at := at[code := n];
        codes := codes + [code];
      }
      n := n + 1;
    }
    assert rows[..n] == rows;
    forall c | c in table
      ensures LastKeptAt(rows, keep, key, c, table[c])
    {
      assert rows[at[c]] == table[c];
    }
  }

  /** `row` is the last row of `rows` that is kept and has key `c`. */
  predicate LastKeptAt<A(==)>(rows: seq<A>, keep: A -> bool, key: A -> string, c: string, row: A)
  {
    exists i :: 0 <= i < |rows| && rows[i] == row && keep(row) && key(row) == c
      && forall j :: i < j < |rows| && keep(rows[j]) ==> key(rows[j]) != c
  }

  /**
   * The constructor's loop over the basic-info rows: a row whose name marks
   * a bad stock is skipped, every other row is listed under its ticker and
   * stored in the lookup table, and the count is the number listed.
   */
  method BuildUniverse(rows: seq<Stock>) returns (codes: seq<string>, stocks: map<string, Stock>, count: nat)
    ensures codes == GoodCodes(rows) && count == |codes|
    ensures forall c :: c in stocks <==> c in codes
    ensures forall c :: c in stocks ==> LastKeptAt(rows, Kept, Ticker, c, stocks[c])
  {
    codes, stocks := IndexRows(rows, Kept, Ticker);
    count := |codes|;
  }

  // ---------------------------------------------------------------------
  // Accepting a reply
  // ---------------------------------------------------------------------

  /** Why a reply was refused. */
  datatype FetchError = WrongStatusCode | WrongText

  /**
   * A reply is returned unchanged when its status is 200 and its body does
   * not contain `FAILED`; the status is checked first.
   */
  function AcceptResponse(status: int, body: string): (r: Result<string, FetchError>)
    ensures r.Ok? <==> status == 200 && forall i :: !OccursAt(body, "FAILED", i)
    ensures r.Ok? ==> r.value == body
    ensures r == Err(WrongStatusCode) <==> status != 200
  {
    ContainsIff(body, "FAILED");
    if status != 200 then Err(WrongStatusCode)
    else if Contains(body, "FAILED") then Err(WrongText)
    else Ok(body)
  }

  // ---------------------------------------------------------------------
  // Request batches
  // ---------------------------------------------------------------------

  /** `xs[lo:hi]` with Python's clamping of `hi` to the length. */
  function Slice<T>(xs: seq<T>, lo: nat, hi: nat): (r: seq<T>)
    requires lo <= |xs| && lo <= hi
    ensures |r| == (if hi < |xs| then hi else |xs|) - lo
  {
    if hi < |xs| then xs[lo..hi] else xs[lo..]
  }

  /** `xs[epoch:]`, empty once `epoch` is past the end. */
  function Tail<T>(xs: seq<T>, epoch: nat): seq<T>
  {
    if epoch < |xs| then xs[epoch..] else []
  }

  /** The batches of a suffix: the first slice, then the batches of what follows it. */
  lemma NextBatch<T>(xs: seq<T>, epoch: nat, size: nat)
    requires size > 0 && epoch < |xs|
    ensures Batches(Tail(xs, epoch), size) == [Slice(xs, epoch, epoch + size)] + Batches(Tail(xs, epoch + size), size)
  {
    if epoch + size < |xs| {
      assert xs[epoch..][size..] == xs[epoch + size..];
      assert xs[epoch..][..size] == xs[epoch..epoch + size];
    }
  }

  /** Appending the next slice moves the loop's frontier one batch on. */
  lemma BatchesOfSuffix<T>(xs: seq<T>, epoch: nat, size: nat, done: seq<seq<T>>)
    requires size > 0 && epoch < |xs|
    requires done + Batches(Tail(xs, epoch), size) == Batches(xs, size)
    ensures (done + [Slice(xs, epoch, epoch + size)]) + Batches(Tail(xs, epoch + size), size) == Batches(xs, size)
  {
    NextBatch(xs, epoch, size);
    var rest := Batches(Tail(xs, epoch + size), size);
    assert (done + [Slice(xs, epoch, epoch + size)]) + rest == done + ([Slice(xs, epoch, epoch + size)] + rest);
  }

  /**
   * The slicing loop: starting at 0 and stepping by the batch size, it cuts
   * the next run of at most `batchSize` codes; the batches are exactly the
   * partition of the codes into runs of `batchSize`.
   */
  method BatchSlices<T>(codes: seq<T>, batchSize: nat) returns (batches: seq<seq<T>>)
    requires batchSize > 0
    ensures batches == Batches(codes, batchSize)
    ensures Flatten(batches) == codes
    ensures |batches| == (|codes| + batchSize - 1) / batchSize
  {
    batches := [];
    var epoch: nat := 0;
    ghost var all := Batches(codes, batchSize);
    assert Tail(codes, 0) == codes;
    while epoch < |codes|
      invariant batches + Batches(Tail(codes, epoch), batchSize) == all
      decreases |codes| - epoch
    {
      BatchesOfSuffix(codes, epoch, batchSize, batches);
      batches := batches + [Slice(codes, epoch, epoch + batchSize)];
      epoch := epoch + batchSize;
    }
    assert Tail(codes, epoch) == [];
    assert batches + [] == batches;
    BatchesPartition(codes, batchSize);
    BatchCount(codes, batchSize);
  }

  // ---------------------------------------------------------------------
  // The quote buffer
  // ---------------------------------------------------------------------

  /** No element occurs twice. */
  predicate Distinct<T(==)>(s: seq<T>)
  {
    forall i, j :: 0 <= i < j < |s| ==> s[i] != s[j]
  }

  /**
   * The buffer dict: its keys in insertion order, which is the order a
   * drain visits them in, and the list of quotes under each key.
   */
  datatype Buffer = Buffer(order: seq<string>, lists: map<string, seq<Quote>>)
  {
    /** A faithful dict: each key listed once, and exactly the map's keys. */
    predicate WellFormed()
    {
      && Distinct(order)
      && (forall k :: k in lists ==> k in order)
      && (forall i :: 0 <= i < |order| ==> order[i] in lists)
    }

    /** Well formed, and each list non-empty and holding only quotes of its key. */
    predicate Valid()
    {
      && WellFormed()
      && (forall k :: k in lists ==> |lists[k]| > 0 && forall q :: q in lists[k] ==> q.code == k)
    }
  }

  const EmptyBuffer: Buffer := Buffer([], map[])

  /** The list under `k`, empty when `k` is absent. */
  function Get(b: Buffer, k: string): seq<Quote>
  {
    if k in b.lists then b.lists[k] else []
  }

  /**
   * Recording a quote appends it to its ticker's list, creating the list
   * (and the key, at the end of the order) when the ticker is new.
   */
  function Record(b: Buffer, q: Quote): (r: Buffer)
    ensures Get(r, q.code) == Get(b, q.code) + [q]
    ensures forall k :: k != q.code ==> Get(r, k) == Get(b, k)
    ensures b.WellFormed() ==> r.WellFormed()
    ensures b.Valid() ==> r.Valid()
    ensures b.WellFormed() && q.code in b.order ==> r.order == b.order
    ensures b.WellFormed() && q.code !in b.order ==> r.order == b.order + [q.code]
  {
    if q.code in b.lists then Buffer(b.order, b.lists[q.code := b.lists[q.code] + [q]])
    else Buffer(b.order + [q.code], b.lists[q.code := [q]])
  }

  /** The lists under `keys`, in that order. */
  function Lists(keys: seq<string>, b: Buffer): (r: seq<seq<Quote>>)
    ensures |r| == |keys|
    ensures forall i :: 0 <= i < |keys| ==> r[i] == Get(b, keys[i])
  {
    if |keys| == 0 then [] else [Get(b, keys[0])] + Lists(keys[1..], b)
  }

  /** The buffered lists in key insertion order. */
  function Groups(b: Buffer): seq<seq<Quote>>
  {
    Lists(b.order, b)
  }

  /** Every buffered quote, key by key. */
  function AllQuotes(b: Buffer): seq<Quote>
  {
    Flatten(Groups(b))
  }

  lemma ListsAppend(a: seq<string>, c: seq<string>, b: Buffer)
    ensures Lists(a + c, b) == Lists(a, b) + Lists(c, b)
  {
  }

  /** Lists under keys that a change does not touch are unchanged. */
  lemma ListsFrame(keys: seq<string>, b: Buffer, b': Buffer)
    requires forall i :: 0 <= i < |keys| ==> Get(b, keys[i]) == Get(b', keys[i])
    ensures Lists(keys, b) == Lists(keys, b')
  {
  }

  /**
   * Appending `q` under one key that occurs once in `keys` adds exactly `q`
   * to the concatenated lists.
   */
  lemma {:induction false} ListsGrowOne(keys: seq<string>, b: Buffer, b': Buffer, q: Quote)
    requires Distinct(keys) && q.code in keys
    requires Get(b', q.code) == Get(b, q.code) + [q]
    requires forall k :: k != q.code ==> Get(b', k) == Get(b, k)
    ensures multiset(Flatten(Lists(keys, b'))) == multiset(Flatten(Lists(keys, b))) + multiset{q}
  {
    var rest := keys[1..];
    if keys[0] == q.code {
      assert q.code !in rest;
      ListsFrame(rest, b, b');
    } else {
      assert q.code in rest;
      ListsGrowOne(rest, b, b', q);
    }
    assert Lists(keys, b') == [Get(b', keys[0])] + Lists(rest, b');
    assert Lists(keys, b) == [Get(b, keys[0])] + Lists(rest, b);
  }

  /** Recording adds exactly the recorded quote to the buffer's contents. */
  lemma RecordConserves(b: Buffer, q: Quote)
    requires b.Valid()
    ensures multiset(AllQuotes(Record(b, q))) == multiset(AllQuotes(b)) + multiset{q}
    ensures |AllQuotes(Record(b, q))| == |AllQuotes(b)| + 1
  {
    var r := Record(b, q);
    if q.code in b.order {
      ListsGrowOne(b.order, b, r, q);
    } else {
      ListsAppend(b.order, [q.code], r);
      ListsFrame(b.order, b, r);
      assert Lists([q.code], r) == [[q]];
      FlattenAppend(Lists(b.order, r), [[q]]);
      assert Flatten([[q]]) == [q];
    }
    assert |AllQuotes(r)| == |multiset(AllQuotes(r))|;
    assert |AllQuotes(b)| == |multiset(AllQuotes(b))|;
  }

  /** Recording quotes one after another, in order. */
  function RecordAll(b: Buffer, qs: seq<Quote>): Buffer
    decreases |qs|
  {
    if |qs| == 0 then b else RecordAll(Record(b, qs[0]), qs[1..])
  }

  /** The quotes of `qs` whose ticker is `k`, in order. */
  function OfCode(qs: seq<Quote>, k: string): (r: seq<Quote>)
    ensures forall q :: q in r ==> q in qs && q.code == k
  {
    if |qs| == 0 then []
    else if qs[0].code == k then [qs[0]] + OfCode(qs[1..], k)
    else OfCode(qs[1..], k)
  }

  /**
   * After recording `qs`, each ticker's list is its old list followed by
   * that ticker's quotes from `qs`, in their order; validity is kept.
   */
  lemma {:induction false} RecordAllGet(b: Buffer, qs: seq<Quote>, k: string)
    ensures Get(RecordAll(b, qs), k) == Get(b, k) + OfCode(qs, k)
    decreases |qs|
  {
    if |qs| > 0 {
      RecordAllGet(Record(b, qs[0]), qs[1..], k);
      if qs[0].code == k {
        assert Get(b, k) + [qs[0]] + OfCode(qs[1..], k) == Get(b, k) + ([qs[0]] + OfCode(qs[1..], k));
      }
    } else {
      assert Get(b, k) + [] == Get(b, k);
    }
  }

  /** Recording keeps the buffer a faithful dict, and keeps it valid. */
  lemma {:induction false} RecordAllValid(b: Buffer, qs: seq<Quote>)
    ensures b.WellFormed() ==> RecordAll(b, qs).WellFormed()
    ensures b.Valid() ==> RecordAll(b, qs).Valid()
    decreases |qs|
  {
    if |qs| > 0 {
      RecordAllValid(Record(b, qs[0]), qs[1..]);
    }
  }

  /** Recording a sequence of quotes adds exactly those quotes to the buffer's contents. */
  lemma {:induction false} RecordAllConserves(b: Buffer, qs: seq<Quote>)
    requires b.Valid()
    ensures multiset(AllQuotes(RecordAll(b, qs))) == multiset(AllQuotes(b)) + multiset(qs)
    decreases |qs|
  {
    if |qs| > 0 {
      assert multiset(qs) == multiset{qs[0]} + multiset(qs[1..]) by {
        assert qs == [qs[0]] + qs[1..];
      }
      var b' := Record(b, qs[0]);
      RecordConserves(b, qs[0]);
      RecordAllConserves(b', qs[1..]);
      assert RecordAll(b, qs) == RecordAll(b', qs[1..]);
    }
  }

  lemma {:induction false} RecordAllAppend(b: Buffer, a: seq<Quote>, c: seq<Quote>)
    ensures RecordAll(b, a + c) == RecordAll(RecordAll(b, a), c)
    decreases |a|
  {
    if |a| > 0 {
      assert (a + c)[0] == a[0];
      assert (a + c)[1..] == a[1..] + c;
      RecordAllAppend(Record(b, a[0]), a[1..], c);
    } else {
      assert a + c == c;
    }
  }

  /**
   * `_parse_and_update_buffer`: the reply is split into lines, and each line
   * that parses is recorded, in line order. Each ticker's list gains that
   * ticker's quotes from the reply, in order, and the buffer stays valid.
   */
  method ParseAndUpdateBuffer(b: Buffer, response: string) returns (r: Buffer)
    ensures r == RecordAll(b, CommonUtils.ParseResponse(response))
    ensures forall k :: Get(r, k) == Get(b, k) + OfCode(CommonUtils.ParseResponse(response), k)
    ensures b.WellFormed() ==> r.WellFormed()
    ensures b.Valid() ==> r.Valid()
  {
    var lines := Split(response, '\n');
    r := b;
    var i := 0;
    while i < |lines|
      invariant 0 <= i <= |lines|
      invariant r == RecordAll(b, CommonUtils.ParseLines(lines[..i]))
    {
      var quotes := CommonUtils.ParseLines([lines[i]]);
      RecordNextLine(b, lines, i);
      r := RecordAll(r, quotes);
      i := i + 1;
    }
    assert lines[..i] == lines;
    forall k {
      RecordAllGet(b, CommonUtils.ParseResponse(response), k);
    }
    RecordAllValid(b, CommonUtils.ParseResponse(response));
  }

  /** Recording the lines up to `i` and then line `i` records the lines up to `i + 1`. */
  lemma RecordNextLine(b: Buffer, lines: seq<string>, i: nat)
    requires i < |lines|
    ensures RecordAll(b, CommonUtils.ParseLines(lines[..i + 1]))
      == RecordAll(RecordAll(b, CommonUtils.ParseLines(lines[..i])), CommonUtils.ParseLines([lines[i]]))
  {
    assert lines[..i + 1] == lines[..i] + [lines[i]];
    CommonUtils.ParseLinesAppend(lines[..i], [lines[i]]);
    RecordAllAppend(b, CommonUtils.ParseLines(lines[..i]), CommonUtils.ParseLines([lines[i]]));
  }

  /** A line that does not parse leaves the buffer as if the line were absent. */
  lemma UnparseableLineIgnored(b: Buffer, before: seq<string>, line: string, after: seq<string>)
    requires CommonUtils.ParseLine(line).None?
    ensures RecordAll(b, CommonUtils.ParseLines(before + [line] + after)) == RecordAll(b, CommonUtils.ParseLines(before + after))
  {
    var skipped := before + [line] + after;
    assert skipped == before + ([line] + after);
    assert CommonUtils.ParseLines([line] + after) == CommonUtils.ParseLines(after);
    CommonUtils.ParseLinesAppend(before, [line] + after);
    CommonUtils.ParseLinesAppend(before, after);
  }

  // ---------------------------------------------------------------------
  // One fetch of every batch
  // ---------------------------------------------------------------------

  /** A reply as the network delivered it, after any retries. */
  datatype Reply = Reply(status: int, body: string)

  /** The quotes one batch contributes: all of its reply when accepted, none when the request raised. */
  function ReplyQuotes(reply: Reply): seq<Quote>
  {
    match AcceptResponse(reply.status, reply.body)
    case Ok(text) => CommonUtils.ParseResponse(text)
    case Err(_) => []
  }

  /** `f` applied to each element, the results concatenated. */
  function ConcatMap<A, B>(xs: seq<A>, f: A -> seq<B>): seq<B>
  {
    if |xs| == 0 then [] else f(xs[0]) + ConcatMap(xs[1..], f)
  }

  lemma {:induction false} ConcatMapSnoc<A, B>(xs: seq<A>, x: A, f: A -> seq<B>)
    ensures ConcatMap(xs + [x], f) == ConcatMap(xs, f) + f(x)
  {
    if |xs| == 0 {
      assert xs + [x] == [x];
      assert [x][1..] == [];
    } else {
      assert (xs + [x])[1..] == xs[1..] + [x];
      ConcatMapSnoc(xs[1..], x, f);
    }
  }

  /** The quotes of all batches, batch after batch. */
  function Fetched(batches: seq<seq<string>>, fetch: seq<string> -> Reply): seq<Quote>
  {
    ConcatMap(batches, batch => ReplyQuotes(fetch(batch)))
  }

  lemma FetchedSnoc(batches: seq<seq<string>>, batch: seq<string>, fetch: seq<string> -> Reply)
    ensures Fetched(batches + [batch], fetch) == Fetched(batches, fetch) + ReplyQuotes(fetch(batch))
  {
    ConcatMapSnoc(batches, batch, batch => ReplyQuotes(fetch(batch)));
  }

  /**
   * `fetch_all_stock_real_time_quotes` with the worker threads run one
   * after another in batch order: every batch is requested through
   * `fetch`, an accepted reply is parsed into the buffer and a refused one
   * is dropped, as the worker's exception ends only that worker.
   */
  method FetchAllStockRealTimeQuotes(b: Buffer, codes: seq<string>, batchSize: nat, fetch: seq<string> -> Reply)
    returns (r: Buffer)
    requires batchSize > 0
    ensures r == RecordAll(b, Fetched(Batches(codes, batchSize), fetch))
    ensures b.WellFormed() ==> r.WellFormed()
    ensures b.Valid() ==> r.Valid()
  {
    var batches := BatchSlices(codes, batchSize);
    r := b;
    var i := 0;
    while i < |batches|
      invariant 0 <= i <= |batches|
      invariant r == RecordAll(b, Fetched(batches[..i], fetch))
    {
      var reply := fetch(batches[i]);
      FetchedSnoc(batches[..i], batches[i], fetch);
      assert batches[..i + 1] == batches[..i] + [batches[i]];
      RecordAllAppend(b, Fetched(batches[..i], fetch), ReplyQuotes(reply));
      var accepted := AcceptResponse(reply.status, reply.body);
      if accepted.Ok? {
        r := ParseAndUpdateBuffer(r, accepted.value);
      }
      i := i + 1;
    }
    assert batches[..i] == batches;
    RecordAllValid(b, Fetched(batches, fetch));
  }
}
