/**
 * The pure helpers of the collector: the quote-line parser, its
 * whole-response form, the bad-name filter, exchange prefixing of codes and
 * the trading-hours gate.
 */
module CommonUtils {
  import opened Wrappers
  import opened Text
  import opened Const
  import opened Records
  import opened Calendar

  /** The exchange markers a ticker must start with. */
  const TickerPrefixes: seq<string> := ["sz", "sh", "bj"]

  /** The payload with one character dropped from each end (`data[1:-1]`). */
  function Inner(data: string): string
    requires |data| >= 2
  {
    data[1..|data| - 1]
  }

  /**
   * One line of the feed, `<prefix><ticker>="<f1>,<f2>,...";`, to a quote.
   * Each failure the source raises and catches (an `=` count other than one
   * breaking the two-name unpacking, a bad ticker, fewer than 32 fields
   * breaking the record's arity) and each early return (blank line, payload
   * of at most three characters) gives `None`. The steps are split into
   * stages below, one per check.
   */
  function ParseLine(text: string): (r: Option<Quote>)
    ensures r.Some? ==> r.value.Valid() && |r.value.code| <= 8 && StartsWithAny(r.value.code, TickerPrefixes)
  {
    ParseStripped(Strip(text))
  }

  /** A blank stripped line gives nothing; otherwise it is split on `=`. */
  function ParseStripped(t: string): (r: Option<Quote>)
    ensures r.Some? ==> r.value.Valid() && |r.value.code| <= 8 && StartsWithAny(r.value.code, TickerPrefixes)
  {
    if |t| == 0 then None else ParseHalves(Split(t, '='))
  }

  /** Unpacking the pieces into ticker part and payload fails unless there are exactly two. */
  function ParseHalves(parts: seq<string>): (r: Option<Quote>)
    ensures r.Some? ==> r.value.Valid() && |r.value.code| <= 8 && StartsWithAny(r.value.code, TickerPrefixes)
  {
    if |parts| != 2 then None else ParsePayload(Last(parts[0], 8), parts[1])
  }

  /** The ticker must carry an exchange marker, and the payload must be longer than `"";`. */
  function ParsePayload(code: string, data: string): (r: Option<Quote>)
    requires |code| <= 8
    ensures r.Some? ==> r.value.Valid() && r.value.code == code && StartsWithAny(code, TickerPrefixes)
  {
    if !StartsWithAny(code, TickerPrefixes) then None
    else if |data| <= 3 then None
    else ParseFields(code, Split(Inner(data), ','))
  }

  /** The record takes exactly 32 fields: fewer pieces fail, extra pieces are dropped. */
  function ParseFields(code: string, pieces: seq<string>): (r: Option<Quote>)
    ensures r.Some? <==> |pieces| >= QuoteFieldCount
    ensures r.Some? ==> r.value.Valid() && r.value.code == code
  {
    if |pieces| < QuoteFieldCount then None else Some(Quote(code, pieces[..QuoteFieldCount]))
  }

  /**
   * When a stripped line is accepted, stated without `split`: it is not
   * empty and holds exactly one `=`; the last eight characters before the
   * `=` start with `sz`, `sh` or `bj`; the payload after it is longer than
   * three characters; and the payload without its first and last character
   * holds at least 31 commas.
   */
  predicate AcceptedLine(t: string)
  {
    && |t| > 0
    && Count(t, '=') == 1
    && '=' in t
    && var i := IndexOf(t, '=');
       && StartsWithAny(Last(t[..i], 8), TickerPrefixes)
       && |t[i + 1..]| > 3
       && Count(Inner(t[i + 1..]), ',') >= QuoteFieldCount - 1
  }

  /** The payload stage, stated with comma counts. */
  lemma ParsePayloadIff(code: string, data: string)
    requires |code| <= 8
    ensures ParsePayload(code, data).Some? <==>
      StartsWithAny(code, TickerPrefixes) && |data| > 3 && Count(Inner(data), ',') >= QuoteFieldCount - 1
    ensures ParsePayload(code, data).Some? ==>
      ParsePayload(code, data).value == Quote(code, Split(Inner(data), ',')[..QuoteFieldCount])
  {
    if StartsWithAny(code, TickerPrefixes) && |data| > 3 {
      SplitCount(Inner(data), ',');
    }
  }

  /** A stripped line with exactly one `=` is cut there into ticker part and payload. */
  lemma ParseStrippedOneEquals(t: string)
    requires |t| > 0 && Count(t, '=') == 1
    ensures '=' in t
    ensures ParseStripped(t) == ParsePayload(Last(t[..IndexOf(t, '=')], 8), t[IndexOf(t, '=') + 1..])
  {
    SplitAtOnlySeparator(t, '=');
  }

  /**
   * The parser accepts exactly the lines whose stripped form is an
   * `AcceptedLine`; such a line is read as the payload stage reads the last
   * eight characters before its `=` and everything after it, which
   * `PayloadCharacterization` describes.
   */
  lemma ParseLineCharacterization(text: string)
    ensures ParseLine(text).Some? <==> AcceptedLine(Strip(text))
    ensures AcceptedLine(Strip(text)) ==>
      var t := Strip(text);
      var i := IndexOf(t, '=');
      ParseLine(text) == ParsePayload(Last(t[..i], 8), t[i + 1..])
  {
    ParseStrippedCharacterization(Strip(text));
  }

  /** `ParseLineCharacterization` for a line already stripped. */
  lemma {:induction false} ParseStrippedCharacterization(t: string)
    ensures ParseStripped(t).Some? <==> AcceptedLine(t)
    ensures AcceptedLine(t) ==>
      var i := IndexOf(t, '=');
      ParseStripped(t) == ParsePayload(Last(t[..i], 8), t[i + 1..])
  {
    if |t| > 0 && Count(t, '=') == 1 {
      ParseStrippedOneEquals(t);
      AcceptedLineIffPayload(t);
    } else {
      SplitCount(t, '=');
    }
  }

  /** With one `=`, a stripped line is accepted exactly when the payload stage accepts its two halves. */
  lemma {:induction false} AcceptedLineIffPayload(t: string)
    requires '=' in t
    ensures var i := IndexOf(t, '=');
      |t| > 0 && Count(t, '=') == 1 ==>
        (AcceptedLine(t) <==> ParsePayload(Last(t[..i], 8), t[i + 1..]).Some?)
  {
    var i := IndexOf(t, '=');
    PayloadCharacterization(Last(t[..i], 8), t[i + 1..]);
    if |t| > 0 && Count(t, '=') == 1 {
      AcceptedLineOneEquals(t);
    }
  }

  /** With one `=`, `AcceptedLine` is the payload stage's condition on the two halves. */
  lemma AcceptedLineOneEquals(t: string)
    requires |t| > 0 && Count(t, '=') == 1 && '=' in t
    ensures var i := IndexOf(t, '=');
      AcceptedLine(t) <==>
        && StartsWithAny(Last(t[..i], 8), TickerPrefixes)
        && |t[i + 1..]| > 3
        && Count(Inner(t[i + 1..]), ',') >= QuoteFieldCount - 1
  {
  }

  /** The payload stage accepts and keeps what `AcceptedLine` says, the pieces cut to 32. */
  lemma PayloadCharacterization(code: string, data: string)
    requires |code| <= 8
    ensures ParsePayload(code, data).Some? <==>
      StartsWithAny(code, TickerPrefixes) && |data| > 3 && Count(Inner(data), ',') >= QuoteFieldCount - 1
    ensures ParsePayload(code, data).Some? ==>
      && ParsePayload(code, data).value.code == code
      && |ParsePayload(code, data).value.fields| == QuoteFieldCount
      && ParsePayload(code, data).value.fields <= Split(Inner(data), ',')
  {
    ParsePayloadIff(code, data);
  }

  /** Blank and whitespace-only lines give no quote. */
  lemma ParseLineBlank(text: string)
    requires AllSpace(text)
    ensures ParseLine(text) == None
  {
  }

  /** A stripped line whose `=` count is not exactly one gives no quote. */
  lemma ParseLineNotOneEquals(text: string)
    requires Count(Strip(text), '=') != 1
    ensures ParseLine(text) == None
  {
    SplitCount(Strip(text), '=');
  }

  /** The wire form of a quote line: `<prefix><code>="<fields joined by commas>";`. */
  function RenderLine(prefix: string, code: string, fields: seq<string>): string
  {
    prefix + code + "=\"" + Join(fields, ',') + "\";"
  }

  /** What a rendered line must avoid for the parser to read it back. */
  predicate Renderable(prefix: string, code: string, fields: seq<string>)
  {
    && '=' !in prefix && '=' !in code
    && (|prefix| == 0 || !IsSpace(prefix[0]))
    && |code| == 8 && StartsWithAny(code, TickerPrefixes)
    && CleanFields(fields)
  }

  /** No field holds a comma or an `=`. */
  predicate CleanFields(fields: seq<string>)
  {
    forall i :: 0 <= i < |fields| ==> ',' !in fields[i] && '=' !in fields[i]
  }

  lemma CleanFieldsConcat(a: seq<string>, b: seq<string>)
    requires CleanFields(a) && CleanFields(b)
    ensures CleanFields(a + b)
  {
    forall i | 0 <= i < |a + b|
      ensures ',' !in (a + b)[i] && '=' !in (a + b)[i]
    {
      if i < |a| {
        assert (a + b)[i] == a[i];
      } else {
        assert (a + b)[i] == b[i - |a|];
      }
    }
  }

  /** A rendered line is cut at its one `=` into ticker part and payload. */
  lemma RenderedLineHalves(prefix: string, code: string, fields: seq<string>)
    requires Renderable(prefix, code, fields)
    ensures ParseLine(RenderLine(prefix, code, fields)) == ParsePayload(code, "\"" + Join(fields, ',') + "\";")
  {
    var head := prefix + code;
    var data := "\"" + Join(fields, ',') + "\";";
    assert RenderLine(prefix, code, fields) == head + "=" + data;
    assert !IsSpace(head[0]) by {
      if |prefix| == 0 {
        assert head[0] == code[0];
        var k :| 0 <= k < |TickerPrefixes| && StartsWith(code, TickerPrefixes[k]);
        assert code[0] == TickerPrefixes[k][0];
      }
    }
    JoinAvoids(fields, ',', '=');
    assert '=' !in head;
    assert '=' !in data;
    LineHalves(head, data);
    assert Last(head, 8) == code;
  }

  /** Dropping one character from each end of `"<joined>";` leaves the joined text and the closing quote. */
  lemma InnerOfQuoted(joined: string)
    ensures |"\"" + joined + "\";"| == |joined| + 3
    ensures Inner("\"" + joined + "\";") == joined + "\""
  {
    var data := "\"" + joined + "\";";
    assert data[1..|data| - 1] == joined + "\"";
  }

  /** Gluing a comma-free tail to the last of comma-free pieces keeps every piece comma-free. */
  lemma GlueLastAvoids(fields: seq<string>, tail: string)
    requires |fields| > 0 && ',' !in tail
    requires forall i :: 0 <= i < |fields| ==> ',' !in fields[i]
    ensures var pieces := fields[..|fields| - 1] + [fields[|fields| - 1] + tail];
      forall i :: 0 <= i < |pieces| ==> ',' !in pieces[i]
  {
    var n := |fields|;
    var pieces := fields[..n - 1] + [fields[n - 1] + tail];
    forall i | 0 <= i < |pieces|
      ensures ',' !in pieces[i]
    {
      if i < n - 1 {
        assert pieces[i] == fields[i];
      } else {
        assert pieces[i] == fields[n - 1] + tail;
        assert ',' !in fields[n - 1];
      }
    }
  }

  /** The payload of a rendered line splits into the fields, the closing quote glued to the last one. */
  lemma RenderedPayloadPieces(fields: seq<string>)
    requires |fields| >= QuoteFieldCount
    requires forall i :: 0 <= i < |fields| ==> ',' !in fields[i]
    ensures |"\"" + Join(fields, ',') + "\";"| > 3
    ensures Split(Inner("\"" + Join(fields, ',') + "\";"), ',')
      == fields[..|fields| - 1] + [fields[|fields| - 1] + "\""]
  {
    var joined := Join(fields, ',');
    JoinLength(fields, ',');
    InnerOfQuoted(joined);
    SplitGlued(fields, "\"");
  }

  /** Splitting comma-free fields joined and followed by a comma-free tail gives the fields, the tail glued to the last. */
  lemma SplitGlued(fields: seq<string>, tail: string)
    requires |fields| > 0 && ',' !in tail
    requires forall i :: 0 <= i < |fields| ==> ',' !in fields[i]
    ensures Split(Join(fields, ',') + tail, ',') == fields[..|fields| - 1] + [fields[|fields| - 1] + tail]
  {
    var pieces := fields[..|fields| - 1] + [fields[|fields| - 1] + tail];
    JoinAppendToLast(fields, ',', tail);
    GlueLastAvoids(fields, tail);
    SplitJoin(pieces, ',');
  }

  /**
   * Round trip: rendering a ticker and at least 32 fields and parsing the line
   * gives back the ticker and the first 32 fields. Because `data[1:-1]` drops
   * the opening quote and the `;` but not the closing quote, the closing quote
   * stays on the last piece: with exactly 32 fields the `time` field comes back
   * with a trailing `"`, with more it lands on a dropped piece.
   */
  lemma ParseRenderedLine(prefix: string, code: string, fields: seq<string>)
    requires Renderable(prefix, code, fields)
    requires |fields| >= QuoteFieldCount
    ensures |fields| > QuoteFieldCount ==>
      ParseLine(RenderLine(prefix, code, fields)) == Some(Quote(code, fields[..QuoteFieldCount]))
    ensures |fields| == QuoteFieldCount ==>
      ParseLine(RenderLine(prefix, code, fields))
        == Some(Quote(code, fields[..QuoteFieldCount - 1] + [fields[QuoteFieldCount - 1] + "\""]))
  {
    var n := |fields|;
    var data := "\"" + Join(fields, ',') + "\";";
    RenderedLineHalves(prefix, code, fields);
    RenderedPayloadPieces(fields);
    var pieces := fields[..n - 1] + [fields[n - 1] + "\""];
    assert ParseLine(RenderLine(prefix, code, fields)) == ParseFields(code, pieces);
    if n > QuoteFieldCount {
      assert pieces[..QuoteFieldCount] == fields[..QuoteFieldCount];
    } else {
      assert pieces[..QuoteFieldCount] == pieces;
    }
  }

  /**
   * The fields of the feed line the test suite parses: a Beijing stock's
   * quote with 39 payload fields, seven more than a quote keeps.
   */
  const SampleFields: seq<string> := SampleFields0 + SampleFields1 + SampleFields2 + SampleFields3

  const SampleFields0: seq<string> := [
    "盖世食品", "8.320", "8.290", "8.250", "8.320", "8.210", "8.210", "8.250", "32277", "265894.070"]
  const SampleFields1: seq<string> := [
    "867", "8.210", "3463", "8.200", "500", "8.190", "9611", "8.160", "614", "8.150"]
  const SampleFields2: seq<string> := [
    "5718", "8.250", "1720", "8.290", "58209", "8.300", "2100", "8.320", "4740", "8.340"]
  const SampleFields3: seq<string> := [
    "2023-04-13", "15:30:11", "00", "18.9312", "0.0000", "0", "10065940", "B", "T"]

  /** The test suite's line `var hq_str_bj836826="盖世食品,8.320,...,B,T";`, built from its fields. */
  const SampleLine: string := RenderLine("var hq_str_", "bj836826", SampleFields)

  /** The feed line the test suite parses yields ticker `bj836826` with its first 32 fields. */
  lemma ParseSampleLine()
    ensures ParseLine(SampleLine) == Some(Quote("bj836826", SampleFields[..QuoteFieldCount]))
  {
    SampleRenderable();
    assert |SampleFields| == 39;
    ParseRenderedLine("var hq_str_", "bj836826", SampleFields);
  }

  lemma SampleRenderable()
    ensures Renderable("var hq_str_", "bj836826", SampleFields)
  {
    assert StartsWith("bj836826", TickerPrefixes[2]);
    SampleFieldsClean();
  }

  lemma SampleFieldsClean()
    ensures CleanFields(SampleFields)
  {
    SampleFieldsHeadClean();
    SampleFieldsTailClean();
    CleanFieldsConcat(SampleFields0 + SampleFields1, SampleFields2 + SampleFields3);
    assert SampleFields == (SampleFields0 + SampleFields1) + (SampleFields2 + SampleFields3);
  }

  lemma SampleFieldsHeadClean()
    ensures CleanFields(SampleFields0 + SampleFields1)
  {
    assert CleanFields(SampleFields0);
    assert CleanFields(SampleFields1);
    CleanFieldsConcat(SampleFields0, SampleFields1);
  }

  lemma SampleFieldsTailClean()
    ensures CleanFields(SampleFields2 + SampleFields3)
  {
    assert CleanFields(SampleFields2);
    assert CleanFields(SampleFields3);
    CleanFieldsConcat(SampleFields2, SampleFields3);
  }

  /** The sample quote reads back its name, date and time from the right columns. */
  lemma SampleQuoteColumns()
    ensures var q := Quote("bj836826", SampleFields[..QuoteFieldCount]);
      q.Valid() && q.Name() == "盖世食品" && q.Date() == "2023-04-13" && q.Time() == "15:30:11"
  {
    var fs := SampleFields[..QuoteFieldCount];
    assert |SampleFields| == 39;
    assert fs[0] == SampleFields[0] && fs[30] == SampleFields[30] && fs[31] == SampleFields[31];
  }

  /** The lines the test suite rejects: `"bad string"`, which has no `=`, and the empty line. */
  lemma ParseLineRejectsTestLines()
    ensures ParseLine("bad string") == None
    ensures ParseLine("") == None
  {
    StripNoop("bad string");
    SplitOfPieceWithoutSep("bad string", '=');
  }

  /** A line of whitespace only gives no quote. */
  lemma ParseLineRejectsBlank()
    ensures ParseLine(" \t\r\n") == None
  {
    ParseLineBlank(" \t\r\n");
  }

  /** The feed's reply for a ticker without data, an empty payload `"";`, gives no quote. */
  lemma ParseLineRejectsEmptyPayload()
    ensures ParseLine("var hq_str_sz000001=\"\";") == None
  {
    var head, data := "var hq_str_sz000001", "\"\";";
    assert head + "=" + data == "var hq_str_sz000001=\"\";";
    assert head[0] == 'v' && data[2] == ';';
    LineHalves(head, data);
    assert |data| == 3;
  }

  /** A line `<head>=<data>` with one `=` and no blank at either end is read as its two halves. */
  lemma LineHalves(head: string, data: string)
    requires '=' !in head && '=' !in data
    requires |head| > 0 && !IsSpace(head[0])
    requires |data| > 0 && !IsSpace(data[|data| - 1])
    ensures ParseLine(head + "=" + data) == ParsePayload(Last(head, 8), data)
  {
    var line := head + "=" + data;
    assert line[0] == head[0] && line[|line| - 1] == data[|data| - 1];
    StripNoop(line);
    assert line == head + ['='] + data;
    SplitConsPiece(head, data, '=');
    SplitOfPieceWithoutSep(data, '=');
  }

  /** The quotes parsed from the lines, in line order; unparseable lines are skipped. */
  function ParseLines(lines: seq<string>): (r: seq<Quote>)
    ensures |r| <= |lines|
    ensures forall i :: 0 <= i < |r| ==> r[i].Valid()
  {
    if |lines| == 0 then []
    else
      var head := ParseLine(lines[0]);
      var rest := ParseLines(lines[1..]);
      if head.Some? then [head.value] + rest else rest
  }

  /** A whole response body to the quotes of its `\n`-separated lines, in line order. */
  function ParseResponse(response: string): (r: seq<Quote>)
    ensures |r| <= |Split(response, '\n')|
  {
    ParseLines(Split(response, '\n'))
  }

  /** Some line of `lines` parses to `q`. */
  predicate SomeLineParsesTo(lines: seq<string>, q: Quote)
  {
    exists i :: 0 <= i < |lines| && ParseLine(lines[i]) == Some(q)
  }

  /** A quote is in the parsed response exactly when some `\n`-separated line of the body parses to it. */
  lemma {:induction false} ParseResponseMembership(response: string, q: Quote)
    ensures q in ParseResponse(response) <==> SomeLineParsesTo(Split(response, '\n'), q)
  {
    ParseLinesMembership(Split(response, '\n'), q);
  }

  /** A body made of lines joined by `\n` parses to the quotes of those lines, in order. */
  lemma ParseResponseOfLines(lines: seq<string>)
    requires |lines| >= 1
    requires forall i :: 0 <= i < |lines| ==> '\n' !in lines[i]
    ensures ParseResponse(Join(lines, '\n')) == ParseLines(lines)
  {
    SplitJoin(lines, '\n');
  }

  /** Parsing distributes over concatenation of line sequences: order is kept, nothing is shared between lines. */
  lemma {:induction false} ParseLinesAppend(a: seq<string>, b: seq<string>)
    ensures ParseLines(a + b) == ParseLines(a) + ParseLines(b)
  {
    if |a| > 0 {
      assert (a + b)[1..] == a[1..] + b;
      ParseLinesAppend(a[1..], b);
      assert (a + b)[0] == a[0];
    } else {
      assert a + b == b;
    }
  }

  /** A quote is in the result exactly when some line parses to it. */
  lemma {:induction false} ParseLinesMembership(lines: seq<string>, q: Quote)
    ensures q in ParseLines(lines) <==> exists i :: 0 <= i < |lines| && ParseLine(lines[i]) == Some(q)
  {
    if |lines| > 0 {
      var tail := lines[1..];
      ParseLinesMembership(tail, q);
      var rest := ParseLines(tail);
      var head := if ParseLine(lines[0]).Some? then [ParseLine(lines[0]).value] else [];
      assert ParseLines(lines) == head + rest;
      if q in ParseLines(lines) {
        if q in head {
          assert ParseLine(lines[0]) == Some(q);
        } else {
          var j :| 0 <= j < |tail| && ParseLine(tail[j]) == Some(q);
          assert ParseLine(lines[j + 1]) == Some(q);
        }
      }
      if exists i :: 0 <= i < |lines| && ParseLine(lines[i]) == Some(q) {
        var i :| 0 <= i < |lines| && ParseLine(lines[i]) == Some(q);
        if i == 0 {
          assert q in head;
        } else {
          assert ParseLine(tail[i - 1]) == Some(q);
          assert q in rest;
        }
      }
    }
  }

  /** Scans the keywords in order and stops at the first that occurs in `name`. */
  function AnyKeywordIn(keywords: seq<string>, name: string): bool
  {
    |keywords| > 0 && (Contains(name, keywords[0]) || AnyKeywordIn(keywords[1..], name))
  }

  /** A delisted, special-treatment or newly listed name, recognised by its keywords. */
  predicate IsBadStock(name: string)
  {
    AnyKeywordIn(BadStockNameContains, name)
  }

  /** The keyword scan succeeds exactly when some keyword occurs in the name. */
  lemma {:induction false} AnyKeywordInIff(keywords: seq<string>, name: string)
    ensures AnyKeywordIn(keywords, name) <==> exists k :: 0 <= k < |keywords| && Contains(name, keywords[k])
  {
    if |keywords| > 0 {
      AnyKeywordInIff(keywords[1..], name);
      if exists k :: 0 <= k < |keywords| && Contains(name, keywords[k]) {
        var k :| 0 <= k < |keywords| && Contains(name, keywords[k]);
        if k > 0 {
          assert Contains(name, keywords[1..][k - 1]);
        }
      }
      if exists k :: 0 <= k < |keywords[1..]| && Contains(name, keywords[1..][k]) {
        var k :| 0 <= k < |keywords[1..]| && Contains(name, keywords[1..][k]);
        assert Contains(name, keywords[k + 1]);
      }
    }
  }

  /** A name is bad exactly when one of 退, ST, N occurs in it as a substring. */
  lemma IsBadStockIff(name: string)
    ensures IsBadStock(name) <==>
      exists k, i :: 0 <= k < |BadStockNameContains| && OccursAt(name, BadStockNameContains[k], i)
  {
    var b := BadStockNameContains;
    AnyKeywordInIff(b, name);
    if IsBadStock(name) {
      var k :| 0 <= k < |b| && Contains(name, b[k]);
      ContainsIff(name, b[k]);
      var i :| OccursAt(name, b[k], i);
    }
    if exists k, i :: 0 <= k < |b| && OccursAt(name, b[k], i) {
      var k, i :| 0 <= k < |b| && OccursAt(name, b[k], i);
      ContainsIff(name, b[k]);
    }
  }

  /** A name that contains a keyword contains the keyword's first character. */
  lemma ContainsFirstChar(name: string, sub: string)
    ensures Contains(name, sub) && |sub| > 0 ==> sub[0] in name
  {
    ContainsIff(name, sub);
    if Contains(name, sub) && |sub| > 0 {
      var i :| OccursAt(name, sub, i);
      assert name[i] == sub[0];
    }
  }

  /** The names the test suite checks. */
  lemma IsBadStockExamples()
    ensures IsBadStock("皇叔集团退")
    ensures IsBadStock("ST皇叔")
    ensures IsBadStock("N皇叔")
    ensures !IsBadStock("皇叔股份")
  {
    var b := BadStockNameContains;
    assert b[1..][0] == b[1] && b[1..][1..][0] == b[2] && b[1..][1..][1..] == [];
    assert StartsWith("皇叔集团退"[4..], b[0]);
    assert StartsWith("ST皇叔", b[1]);
    assert StartsWith("N皇叔", b[2]);
    ContainsFirstChar("皇叔股份", b[0]);
    ContainsFirstChar("皇叔股份", b[1]);
    ContainsFirstChar("皇叔股份", b[2]);
  }

  /**
   * A bare code to a ticker: zero-pad to six characters, then prefix `sh`
   * for a Shanghai code, `bj` for a Beijing code and `sz` otherwise.
   * Because no code has both kinds of prefix, the marker is `bj` exactly for
   * Beijing codes, whichever check runs first.
   */
  function CodeWithPrefix(code: string): (r: string)
    ensures |r| >= 8 && r[2..] == ZFill(code, 6)
    ensures r[..2] == "sh" <==> StartsWithAny(r[2..], ShanghaiPrefix)
    ensures r[..2] == "bj" <==> StartsWithAny(r[2..], BeijingPrefix)
    ensures r[..2] == "sz" <==> !StartsWithAny(r[2..], ShanghaiPrefix) && !StartsWithAny(r[2..], BeijingPrefix)
  {
    var z := ZFill(code, 6);
    PrefixesDisjoint(z);
    if StartsWithAny(z, ShanghaiPrefix) then "sh" + z
    else if StartsWithAny(z, BeijingPrefix) then "bj" + z
    else "sz" + z
  }

  /** The ticker of a numeric code below one million keeps six digits that denote the code. */
  lemma CodeWithPrefixOfNumber(n: nat)
    requires n < 1_000_000
    ensures var r := CodeWithPrefix(NatToString(n));
      |r| == 8 && AllDigits(r[2..]) && DigitsValue(r[2..]) == n
  {
    var s := NatToString(n);
    if |s| > 6 {
      assert DigitsValue(s) >= 1_000_000 by { LeadingDigitBound(s); }
    }
    var z := ZFill(s, 6);
    assert z == Zeros(6 - |s|) + s;
    ZerosValue(6 - |s|, s);
    assert CodeWithPrefix(s)[2..] == z;
  }

  /** A digit string of more than six digits without a leading zero denotes at least a million. */
  lemma {:induction false} LeadingDigitBound(s: string)
    requires AllDigits(s) && |s| > 6 && s[0] != '0'
    ensures DigitsValue(s) >= 1_000_000
  {
    LeadingDigitPower(s);
    Pow10AtLeastAMillion(|s| - 1);
  }

  lemma {:induction false} Pow10AtLeastAMillion(k: nat)
    requires k >= 6
    ensures Pow10(k) >= 1_000_000
  {
    if k > 6 {
      Pow10AtLeastAMillion(k - 1);
    }
  }

  function Pow10(k: nat): nat
  {
    if k == 0 then 1 else 10 * Pow10(k - 1)
  }

  lemma {:induction false} LeadingDigitPower(s: string)
    requires AllDigits(s) && |s| >= 1 && s[0] != '0'
    ensures DigitsValue(s) >= Pow10(|s| - 1)
  {
    if |s| > 1 {
      var p := s[..|s| - 1];
      assert p[0] == s[0];
      LeadingDigitPower(p);
    }
  }

  /** The codes the test suite checks. */
  lemma CodeWithPrefixExamples()
    ensures CodeWithPrefix("600345") == "sh600345"
    ensures CodeWithPrefix("800345") == "bj800345"
    ensures CodeWithPrefix("345") == "sz000345"
  {
    ShanghaiExample();
    BeijingExample();
    ShenzhenExample();
  }

  lemma ShanghaiExample()
    ensures CodeWithPrefix("600345") == "sh600345"
  {
    assert StartsWith("600345", ShanghaiPrefix[0]);
  }

  lemma BeijingExample()
    ensures CodeWithPrefix("800345") == "bj800345"
  {
    assert StartsWith("800345", BeijingPrefix[0]);
  }

  lemma ShenzhenExample()
    ensures CodeWithPrefix("345") == "sz000345"
  {
    var z := "000345";
    assert ZFill("345", 6) == z;
    assert forall i :: 0 <= i < |ShanghaiPrefix| ==> |ShanghaiPrefix[i]| > 0 && ShanghaiPrefix[i][0] != z[0];
    assert forall i :: 0 <= i < |BeijingPrefix| ==> |BeijingPrefix[i]| > 0 && BeijingPrefix[i][0] != z[0];
    FirstCharExcludes(z, ShanghaiPrefix);
    FirstCharExcludes(z, BeijingPrefix);
  }

  /** A string starts with none of the prefixes whose first character differs from its own. */
  lemma FirstCharExcludes(s: string, ps: seq<string>)
    requires |s| > 0
    requires forall i :: 0 <= i < |ps| ==> |ps[i]| > 0 && ps[i][0] != s[0]
    ensures !StartsWithAny(s, ps)
  {
  }

  /**
   * `is_trade_time(t)`: a workday by the holiday calendar `isWorkday`, Monday
   * to Friday, and strictly inside the morning or afternoon session.
   */
  predicate IsTradeTime(t: DateTime, isWorkday: Date -> bool)
    requires ValidDateTime(t)
  {
    if isWorkday(t.date) then
      if IsoWeekday(t.date) < 6 then
        var now := TimeOfDay(t);
        if FirstOpeningTime < now < FirstClosingTime then true
        else if SecondOpeningTime < now < SecondClosingTime then true
        else false
      else false
    else false
  }

  /** The two open sessions, as (opening, closing) times of day. */
  const Sessions: seq<(nat, nat)> := [(FirstOpeningTime, FirstClosingTime), (SecondOpeningTime, SecondClosingTime)]

  /** Trading time is exactly a calendar workday, Monday to Friday, strictly inside one of the sessions. */
  lemma IsTradeTimeIff(t: DateTime, isWorkday: Date -> bool)
    requires ValidDateTime(t)
    ensures IsTradeTime(t, isWorkday) <==>
      && isWorkday(t.date)
      && IsoWeekday(t.date) <= 5
      && exists k :: 0 <= k < |Sessions| && Sessions[k].0 < TimeOfDay(t) < Sessions[k].1
  {
    var now := TimeOfDay(t);
    if FirstOpeningTime < now < FirstClosingTime {
      assert Sessions[0].0 < now < Sessions[0].1;
    } else if SecondOpeningTime < now < SecondClosingTime {
      assert Sessions[1].0 < now < Sessions[1].1;
    }
  }

  /** No session boundary is itself a trading moment. */
  lemma SessionEndpointsExcluded(t: DateTime, isWorkday: Date -> bool)
    requires ValidDateTime(t)
    requires TimeOfDay(t) in {FirstOpeningTime, FirstClosingTime, SecondOpeningTime, SecondClosingTime}
    ensures !IsTradeTime(t, isWorkday)
  {
  }

  /** A Saturday or Sunday is never a trading day, even one the holiday calendar lists as a workday. */
  lemma WeekendNeverTrades(t: DateTime, isWorkday: Date -> bool)
    requires ValidDateTime(t) && IsoWeekday(t.date) >= 6
    ensures !IsTradeTime(t, isWorkday)
  {
  }

  /**
   * The moments the test suite checks, under any holiday calendar: Saturday
   * 2023-04-15 09:50:55 and Friday 2023-04-14 09:00:55 are not trading
   * moments, and Friday 2023-04-14 09:50:55 is one exactly when the calendar
   * lists that Friday as a workday.
   */
  lemma IsTradeTimeExamples(isWorkday: Date -> bool)
    ensures ValidDateTime(DateTime(Date(2023, 4, 15), 9, 50, 55, 0))
    ensures !IsTradeTime(DateTime(Date(2023, 4, 15), 9, 50, 55, 0), isWorkday)
    ensures ValidDateTime(DateTime(Date(2023, 4, 14), 9, 0, 55, 0))
    ensures !IsTradeTime(DateTime(Date(2023, 4, 14), 9, 0, 55, 0), isWorkday)
    ensures ValidDateTime(DateTime(Date(2023, 4, 14), 9, 50, 55, 0))
    ensures IsTradeTime(DateTime(Date(2023, 4, 14), 9, 50, 55, 0), isWorkday) == isWorkday(Date(2023, 4, 14))
  {
    AprilWeekdays();
  }
}
