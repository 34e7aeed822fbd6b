/**
 * The real-time quote producer: each turn of its loop checks the trading
 * gate, runs one fetch of every batch into the market buffer, counts the
 * fetch, and once the count reaches the buffer limit drains every buffered
 * list onto the queue, in key insertion order, and resets the count.
 */
module Producer {
  import opened Records
  import opened Calendar
  import opened Batching
  import opened Market
  import CommonUtils

  /** The loop's state: the fetch counter, the market buffer and the queue the consumers read. */
  datatype State = State(counter: nat, buffer: Buffer, queue: seq<seq<Quote>>)

  const Initial: State := State(0, EmptyBuffer, [])

  /** One fetch of every batch of `codes`, as `fetch_all_stock_real_time_quotes` runs it with the default batch size. */
  function Cycle(b: Buffer, codes: seq<string>, fetch: seq<string> -> Reply): Buffer
  {
    RecordAll(b, Fetched(Batches(codes, DefaultBatchSize), fetch))
  }

  /** Popping every key of the buffer onto the queue, in insertion order. */
  function Flush(b: Buffer, queue: seq<seq<Quote>>): seq<seq<Quote>>
  {
    queue + Groups(b)
  }

  /**
   * One turn of `async_produce`: nothing happens outside trading time;
   * otherwise the buffer takes one fetch cycle and the counter one step,
   * and reaching `MaxBufferSize` drains the buffer and resets the counter.
   */
  function Step(s: State, trading: bool, codes: seq<string>, fetch: seq<string> -> Reply): State
  {
    if !trading then s
    else
      var b := Cycle(s.buffer, codes, fetch);
      var counter := s.counter + 1;
      if counter >= MaxBufferSize then State(0, EmptyBuffer, Flush(b, s.queue))
      else State(counter, b, s.queue)
  }

  /** A non-empty list of quotes of one ticker. */
  predicate OneTicker(list: seq<Quote>)
  {
    |list| > 0 && forall q :: q in list ==> q.code == list[0].code
  }

  /** Every queued item is a non-empty list of quotes of one ticker. */
  predicate QueueWellFormed(queue: seq<seq<Quote>>)
  {
    forall i :: 0 <= i < |queue| ==> OneTicker(queue[i])
  }

  /** What holds at the head of the loop: the counter is below the limit, the buffer is valid, the queue well formed. */
  predicate Invariant(s: State)
  {
    s.counter < MaxBufferSize && s.buffer.Valid() && QueueWellFormed(s.queue)
  }

  /** Outside trading time the state is left exactly as it was. */
  lemma StepIdle(s: State, codes: seq<string>, fetch: seq<string> -> Reply)
    ensures Step(s, false, codes, fetch) == s
  {
  }

  /**
   * In trading time the counter advances by one, and is reset to 0 exactly
   * when it reaches the limit; the queue grows only then, by the drained
   * lists in key insertion order, and the buffer is left empty.
   */
  lemma StepTrading(s: State, codes: seq<string>, fetch: seq<string> -> Reply)
    ensures var r := Step(s, true, codes, fetch);
      && (r.counter == 0 <==> s.counter + 1 >= MaxBufferSize)
      && (r.counter != 0 ==> r.counter == s.counter + 1 && r.queue == s.queue && r.buffer == Cycle(s.buffer, codes, fetch))
      && (r.counter == 0 ==> r.buffer == EmptyBuffer && r.queue == s.queue + Groups(Cycle(s.buffer, codes, fetch)))
  {
  }

  /** The loop starts in a state that satisfies the invariant. */
  lemma InitialInvariant()
    ensures Invariant(Initial)
  {
  }

  /** The lists of a valid buffer, as the drain enqueues them, are each non-empty and of one ticker. */
  lemma GroupsWellFormed(b: Buffer)
    requires b.Valid()
    ensures QueueWellFormed(Groups(b))
  {
    var g := Groups(b);
    forall i: int | 0 <= i < |g|
      ensures OneTicker(g[i])
    {
      var k := b.order[i];
      assert g[i] == b.lists[k];
      assert g[i][0] in b.lists[k];
    }
  }

  lemma QueueAppendWellFormed(a: seq<seq<Quote>>, c: seq<seq<Quote>>)
    requires QueueWellFormed(a) && QueueWellFormed(c)
    ensures QueueWellFormed(a + c)
  {
    forall i | 0 <= i < |a + c|
      ensures OneTicker((a + c)[i])
    {
      if i < |a| {
        assert (a + c)[i] == a[i];
      } else {
        assert (a + c)[i] == c[i - |a|];
      }
    }
  }

  /** Each turn keeps the invariant, so the counter stays in [0, MaxBufferSize) at the head of the loop. */
  lemma StepKeepsInvariant(s: State, trading: bool, codes: seq<string>, fetch: seq<string> -> Reply)
    requires Invariant(s)
    ensures Invariant(Step(s, trading, codes, fetch))
  {
    if trading {
      var b := Cycle(s.buffer, codes, fetch);
      assert b.Valid() by {
        RecordAllValid(s.buffer, Fetched(Batches(codes, DefaultBatchSize), fetch));
      }
      if s.counter + 1 >= MaxBufferSize {
        GroupsWellFormed(b);
        QueueAppendWellFormed(s.queue, Groups(b));
        assert EmptyBuffer.Valid();
      }
    }
  }

  /**
   * No quote is lost or invented: what is queued plus what is buffered after
   * a turn is what was queued and buffered before, plus every quote the
   * turn's accepted replies carried.
   */
  lemma StepConserves(s: State, trading: bool, codes: seq<string>, fetch: seq<string> -> Reply)
    requires s.buffer.Valid()
    ensures var r := Step(s, trading, codes, fetch);
      multiset(Flatten(r.queue)) + multiset(AllQuotes(r.buffer))
        == multiset(Flatten(s.queue)) + multiset(AllQuotes(s.buffer))
          + (if trading then multiset(Fetched(Batches(codes, DefaultBatchSize), fetch)) else multiset{})
  {
    if trading {
      var fetched := Fetched(Batches(codes, DefaultBatchSize), fetch);
      var b := Cycle(s.buffer, codes, fetch);
      RecordAllConserves(s.buffer, fetched);
      if s.counter + 1 >= MaxBufferSize {
        FlattenAppend(s.queue, Groups(b));
        assert AllQuotes(EmptyBuffer) == [];
      }
    }
  }

  /** The queue only grows: a turn never takes back what was enqueued. */
  lemma QueueOnlyGrows(s: State, trading: bool, codes: seq<string>, fetch: seq<string> -> Reply)
    ensures s.queue <= Step(s, trading, codes, fetch).queue
  {
  }

  /** A drain enqueues each buffered list once, at the position of its key in insertion order. */
  lemma FlushEnqueuesEachKeyOnce(b: Buffer, queue: seq<seq<Quote>>, k: string)
    requires b.Valid() && k in b.lists
    ensures exists i :: 0 <= i < |b.order| && b.order[i] == k && Flush(b, queue)[|queue| + i] == b.lists[k]
    ensures forall i :: 0 <= i < |b.order| && b.order[i] != k ==> Flush(b, queue)[|queue| + i] == b.lists[b.order[i]]
    ensures |Flush(b, queue)| == |queue| + |b.order|
  {
    var i :| 0 <= i < |b.order| && b.order[i] == k;
    assert Flush(b, queue)[|queue| + i] == Groups(b)[i];
  }

  /** `rest` is `b` with the keys before position `i` popped. */
  ghost predicate PoppedUpTo(b: Buffer, i: nat, rest: Buffer)
  {
    && i <= |b.order|
    && rest.order == b.order[i..]
    && (forall k :: k in rest.lists <==> k in b.order[i..])
    && (forall k :: k in rest.lists ==> k in b.lists && rest.lists[k] == b.lists[k])
  }

  /** The lists of the keys before position `i` follow `queue`, in key order. */
  ghost predicate EnqueuedUpTo(b: Buffer, queue: seq<seq<Quote>>, i: nat, queue': seq<seq<Quote>>)
  {
    i <= |b.order| && queue' == queue + Lists(b.order[..i], b)
  }

  /** Popping the next key removes it and only it. */
  lemma PopStep(b: Buffer, i: nat, rest: Buffer)
    requires i < |b.order| && b.order[i] !in b.order[i + 1..]
    requires PoppedUpTo(b, i, rest)
    ensures b.order[i] in rest.lists && rest.lists[b.order[i]] == Get(b, b.order[i])
    ensures PoppedUpTo(b, i + 1, Buffer(rest.order[1..], rest.lists - {b.order[i]}))
  {
    var keys := b.order;
    var key := keys[i];
    assert keys[i..] == [key] + keys[i + 1..];
    var lists' := rest.lists - {key};
    forall k
      ensures k in lists' <==> k in keys[i + 1..]
    {
      assert k in keys[i..] <==> k == key || k in keys[i + 1..];
    }
  }

  /** In a list without repeats, no element recurs after its position. */
  lemma NotLater<T>(s: seq<T>, i: nat)
    requires Distinct(s) && i < |s|
    ensures s[i] !in s[i + 1..]
  {
    forall j | i + 1 <= j < |s|
      ensures s[j] != s[i]
    {
    }
  }

  /** Enqueueing the popped list extends the queue by the next key's list. */
  lemma EnqueueStep(b: Buffer, queue: seq<seq<Quote>>, i: nat, queue': seq<seq<Quote>>)
    requires i < |b.order|
    requires EnqueuedUpTo(b, queue, i, queue')
    ensures EnqueuedUpTo(b, queue, i + 1, queue' + [Get(b, b.order[i])])
  {
    ListsSnoc(b.order, i, b);
  }

  lemma ListsSnoc(keys: seq<string>, i: nat, b: Buffer)
    requires i < |keys|
    ensures Lists(keys[..i + 1], b) == Lists(keys[..i], b) + [Get(b, keys[i])]
  {
    assert keys[..i + 1] == keys[..i] + [keys[i]];
    ListsAppend(keys[..i], [keys[i]], b);
  }

  /**
   * The drain at the buffer limit: the keys are snapshotted first, then each
   * key's list is removed from the buffer and put on the queue in turn,
   * which leaves the buffer empty and appends its lists in key order.
   */
  method Drain(b: Buffer, queue: seq<seq<Quote>>) returns (rest: Buffer, queue': seq<seq<Quote>>)
    requires b.WellFormed()
    ensures rest == EmptyBuffer
    ensures queue' == Flush(b, queue)
  {
    var keys := b.order;
    rest := b;
    queue' := queue;
    var i := 0;
    assert keys[0..] == keys;
    while i < |keys|
      invariant PoppedUpTo(b, i, rest) && EnqueuedUpTo(b, queue, i, queue')
      decreases |keys| - i
    {
      var key := keys[i];
      NotLater(keys, i);
      PopStep(b, i, rest);
      EnqueueStep(b, queue, i, queue');
      var popped := rest.lists[key];
      rest := Buffer(rest.order[1..], rest.lists - {key});
      queue' := queue' + [popped];
      i := i + 1;
    }
    assert keys[..i] == keys;
    assert rest.lists == map[];
  }

  /**
   * One turn of `async_produce` with the clock reading and the calendar
   * as parameters: the gate decides whether this turn fetches at all.
   */
  method AsyncProduceTurn(s: State, now: DateTime, isWorkday: Date -> bool, codes: seq<string>, fetch: seq<string> -> Reply)
    returns (r: State)
    requires ValidDateTime(now) && s.buffer.WellFormed()
    ensures r == Step(s, CommonUtils.IsTradeTime(now, isWorkday), codes, fetch)
    ensures s.buffer.Valid() ==> r.buffer.Valid()
  {
    if CommonUtils.IsTradeTime(now, isWorkday) {
      var b := FetchAllStockRealTimeQuotes(s.buffer, codes, DefaultBatchSize, fetch);
      var counter := s.counter + 1;
      if counter >= MaxBufferSize {
        RecordAllValid(s.buffer, Fetched(Batches(codes, DefaultBatchSize), fetch));
        var rest, queue := Drain(b, s.queue);
        r := State(0, rest, queue);
      } else {
        r := State(counter, b, s.queue);
      }
    } else {
      r := s;
    }
  }
}
