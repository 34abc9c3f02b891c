/** What a later run reads back from the file `run` leaves: the fold over
    it counts exactly what its header states, and the scan for done ids
    finds every result written, so those questions are not asked again. */
module Resume {
  import opened Base
  import opened Text
  import opened Records
  import opened Store
  import opened Loaders
  import opened Tasks
  import opened Utils
  import opened Pipeline

  /** `json.loads` reads back what `json.dumps` wrote: a record line gives
      the record's dictionary and a header's JSON text the statistics
      dictionary. */
  ghost predicate ReadsBack(parse: JsonParser) {
    && (forall r :: parse(EncodeRecord(r)) == Success(RecordObject(r)))
    && (forall ts: Timestamp, c: nat, t: nat ::
          parse(HeaderJson(AccuracyText(c, t), ts, c, t)) == Success(HeaderObject(ts, c, t)))
  }

  /** A line the fold keeps and counts, and the scan reads without error. */
  predicate Keeps(l: string, parse: JsonParser) {
    l != "" && Strip(l) == l && NoNewline(l) && parse(l).Success? && "_meta_stats" !in parse(l).value
  }

  /** An encoder whose lines are kept and read back as the record's
      dictionary. */
  ghost predicate EncodesRecords(encode: Encoder, parse: JsonParser) {
    forall r :: Keeps(encode(r), parse) && parse(encode(r)) == Success(RecordObject(r))
  }

  lemma RecordEncoding(parse: JsonParser)
    requires ReadsBack(parse)
    ensures EncodesRecords(EncodeRecord, parse)
  {
    forall r ensures Keeps(EncodeRecord(r), parse) {
      EncodeRecordShape(r);
      assert EncodeRecord(r)[0] == '{';
    }
  }

  /** The ids of some records. */
  function IdsOf(rs: seq<ResultRecord>): set<string>
    decreases |rs|
  {
    if |rs| == 0 then {} else {rs[0].questionId} + IdsOf(rs[1..])
  }

  lemma {:induction false} IdsOfMembers(rs: seq<ResultRecord>, r: ResultRecord)
    requires r in rs
    ensures r.questionId in IdsOf(rs)
    decreases |rs|
  {
    if rs[0] != r {
      IdsOfMembers(rs[1..], r);
    }
  }

  /** An id no record has is not collected. */
  lemma {:induction false} IdsOfNone(rs: seq<ResultRecord>, id: string)
    requires forall k :: 0 <= k < |rs| ==> rs[k].questionId != id
    ensures id !in IdsOf(rs)
    decreases |rs|
  {
    if |rs| > 0 {
      assert forall k :: 0 <= k < |rs[1..]| ==> rs[1..][k] == rs[k + 1];
      IdsOfNone(rs[1..], id);
    }
  }

  // ---------------------------------------------------------------------
  // Counts

  lemma {:induction false} CorrectInBound(rs: seq<ResultRecord>)
    ensures CorrectIn(rs) <= |rs|
    decreases |rs|
  {
    if |rs| > 0 {
      CorrectInBound(rs[1..]);
    }
  }

  lemma {:induction false} WrittenBound(rs: seq<ResultRecord>)
    ensures |Written(rs)| <= |rs|
    decreases |rs|
  {
    if |rs| > 0 {
      WrittenBound(rs[1..]);
    }
  }

  /** A result that is not an error is among those written. */
  lemma {:induction false} WrittenMembers(rs: seq<ResultRecord>, r: ResultRecord)
    requires r in rs && r.judgeResult != "ERROR"
    ensures r in Written(rs)
    decreases |rs|
  {
    if rs[0] != r {
      WrittenMembers(rs[1..], r);
    }
  }

  /** Only results that are not errors are written. */
  lemma {:induction false} WrittenOnly(rs: seq<ResultRecord>, r: ResultRecord)
    requires r in Written(rs)
    ensures r in rs && r.judgeResult != "ERROR"
    decreases |rs|
  {
    if r != rs[0] || rs[0].judgeResult == "ERROR" {
      assert r in Written(rs[1..]);
      WrittenOnly(rs[1..], r);
    }
  }

  /** The final counts of a layout: at most as many correct as written,
      and below the bound whenever the kept and arriving ones are. */
  lemma FinalCounts(e: Existing, arrived: seq<ResultRecord>)
    requires e.correct <= e.total && e.total + |arrived| < CountBound
    ensures var w := Written(arrived);
      e.correct + CorrectIn(w) <= e.total + |w| < CountBound
  {
    CorrectInBound(Written(arrived));
    WrittenBound(arrived);
  }

  // ---------------------------------------------------------------------
  // The file as lines

  /** A layout whose header is one line followed by its break is the
      header line, the kept lines and the written lines, one per line. */
  lemma LaidOutJoin(e: Existing, arrived: seq<ResultRecord>, encode: Encoder, header: HeaderMaker, hline: string,
                    c: nat, t: nat)
    requires c == e.correct + CorrectIn(Written(arrived)) && t == e.total + |Written(arrived)|
    requires header(c, t) == hline + "\n"
    ensures LaidOut(e, arrived, encode, header)
         == JoinLines([hline] + e.lines + EncodeAll(Written(arrived), encode))
  {
    var w := Written(arrived);
    var ws := EncodeAll(w, encode);
    JoinLinesAppend([hline] + e.lines, ws);
    JoinLinesAppend([hline], e.lines);
    JoinLinesOne(hline);
    LaidOutIs(JoinLines([hline] + e.lines + ws), e, arrived, encode, header,
              e.correct + CorrectIn(w), e.total + |w|);
  }

  lemma AllOneLineParts(hline: string, lines: seq<string>, ws: seq<string>, parse: JsonParser)
    requires NoNewline(hline)
    requires forall k :: 0 <= k < |lines| ==> Keeps(lines[k], parse)
    requires forall k :: 0 <= k < |ws| ==> Keeps(ws[k], parse)
    ensures AllOneLine([hline] + lines + ws)
  {
    var ls := [hline] + lines + ws;
    forall k | 0 <= k < |ls| ensures NoNewline(ls[k]) {
      if 1 <= k < 1 + |lines| {
        assert ls[k] == lines[k - 1];
      } else if k >= 1 + |lines| {
        assert ls[k] == ws[k - 1 - |lines|];
      }
    }
  }

  lemma {:induction false} EncodedLines(rs: seq<ResultRecord>, encode: Encoder, parse: JsonParser)
    requires EncodesRecords(encode, parse)
    ensures |EncodeAll(rs, encode)| == |rs|
    ensures forall k :: 0 <= k < |rs| ==> EncodeAll(rs, encode)[k] == encode(rs[k])
    decreases |rs|
  {
    if |rs| > 0 {
      EncodedLines(rs[1..], encode, parse);
    }
  }

  lemma EncodedKept(rs: seq<ResultRecord>, encode: Encoder, parse: JsonParser)
    requires EncodesRecords(encode, parse)
    ensures forall k :: 0 <= k < |EncodeAll(rs, encode)| ==> Keeps(EncodeAll(rs, encode)[k], parse)
  {
    EncodedLines(rs, encode, parse);
  }

  lemma KeptLines(e: Existing, parse: JsonParser)
    requires KeptWell(e, parse)
    ensures forall k :: 0 <= k < |e.lines| ==> Keeps(e.lines[k], parse)
  {
  }

  // ---------------------------------------------------------------------
  // The fold over the file

  lemma {:induction false} FoldAppend(a: seq<string>, b: seq<string>, parse: JsonParser, acc: Existing)
    ensures FoldFrom(a + b, parse, acc) == FoldFrom(b, parse, FoldFrom(a, parse, acc))
    decreases |a|
  {
    if |a| > 0 {
      assert (a + b)[0] == a[0];
      assert (a + b)[1..] == a[1..] + b;
      var s := Strip(a[0]);
      var next :=
        if s == "" || parse(s).Failure? || "_meta_stats" in parse(s).value then acc
        else Existing(acc.lines + [s], acc.correct + (if IsCorrect(parse(s).value) then 1 else 0), acc.total + 1);
      FoldAppend(a[1..], b, parse, next);
    } else {
      assert a + b == b;
    }
  }

  /** Kept lines are kept and counted, in order. */
  lemma {:induction false} FoldKept(ls: seq<string>, parse: JsonParser, acc: Existing)
    requires forall k :: 0 <= k < |ls| ==> Keeps(ls[k], parse)
    ensures FoldFrom(ls, parse, acc)
         == Existing(acc.lines + ls, acc.correct + CountCorrect(ls, parse), acc.total + |ls|)
    decreases |ls|
  {
    if |ls| > 0 {
      var s := ls[0];
      assert Keeps(s, parse);
      var next := Existing(acc.lines + [s], acc.correct + (if ParsedCorrect(s, parse) then 1 else 0), acc.total + 1);
      assert forall k :: 0 <= k < |ls[1..]| ==> ls[1..][k] == ls[k + 1];
      FoldKept(ls[1..], parse, next);
      assert acc.lines + [s] + ls[1..] == acc.lines + ls;
    } else {
      assert acc.lines + ls == acc.lines;
    }
  }

  /** A line that is blank, does not parse or is a header is dropped. */
  lemma FoldDrops(l: string, parse: JsonParser, acc: Existing)
    requires Strip(l) == "" || parse(Strip(l)).Failure? || "_meta_stats" in parse(Strip(l)).value
    ensures FoldFrom([l], parse, acc) == acc
  {
    assert [l][1..] == [];
  }

  /** Encoded results are counted as correct exactly when judged so. */
  lemma {:induction false} CountEncoded(rs: seq<ResultRecord>, encode: Encoder, parse: JsonParser)
    requires EncodesRecords(encode, parse)
    ensures CountCorrect(EncodeAll(rs, encode), parse) == CorrectIn(rs)
    decreases |rs|
  {
    if |rs| > 0 {
      CountEncoded(rs[1..], encode, parse);
      var r := rs[0];
      assert EncodeAll(rs, encode)[1..] == EncodeAll(rs[1..], encode);
      assert ParsedCorrect(encode(r), parse) <==> r.judgeResult == "CORRECT";
    }
  }

  /** The header line of a file: one line, not blank, which reads back as a
      statistics dictionary naming no question. */
  predicate HeaderReads(hline: string, parse: JsonParser) {
    && NoNewline(hline) && Strip(hline) != ""
    && parse(Strip(hline)).Success?
    && "_meta_stats" in parse(Strip(hline)).value
    && "question_id" !in parse(Strip(hline)).value
  }

  /** The fold over a laid-out file keeps the kept lines and the written
      ones, and counts what the header states. */
  lemma RefoldLaidOut(e: Existing, arrived: seq<ResultRecord>, encode: Encoder, header: HeaderMaker,
                      hline: string, parse: JsonParser, c: nat, t: nat)
    requires KeptWell(e, parse) && EncodesRecords(encode, parse) && HeaderReads(hline, parse)
    requires c == e.correct + CorrectIn(Written(arrived)) && t == e.total + |Written(arrived)|
    requires header(c, t) == hline + "\n"
    ensures var w := Written(arrived);
      FoldFrom(FileLines(LaidOut(e, arrived, encode, header)), parse, Existing([], 0, 0))
        == Existing(e.lines + EncodeAll(w, encode), e.correct + CorrectIn(w), e.total + |w|)
  {
    var w := Written(arrived);
    var ws := EncodeAll(w, encode);
    LaidOutJoin(e, arrived, encode, header, hline, c, t);
    KeptLines(e, parse);
    EncodedKept(w, encode, parse);
    EncodedLines(w, encode, parse);
    AllOneLineParts(hline, e.lines, ws, parse);
    FileLinesOfJoin([hline] + e.lines + ws);
    var start := Existing([], 0, 0);
    FoldAppend([hline] + e.lines + ws, [""], parse, start);
    FoldAppend([hline] + e.lines, ws, parse, start);
    FoldAppend([hline], e.lines, parse, start);
    FoldDrops(hline, parse, start);
    FoldKept(e.lines, parse, start);
    var afterKept := Existing(e.lines, e.correct, e.total);
    assert [] + e.lines == e.lines;
    FoldKept(ws, parse, afterKept);
    CountEncoded(w, encode, parse);
    StripEmpty();
    FoldDrops("", parse, Existing(e.lines + ws, e.correct + CorrectIn(w), e.total + |w|));
  }

  lemma StripEmpty()
    ensures Strip("") == ""
  {
    assert StripLeft("") == "";
  }

  // ---------------------------------------------------------------------
  // The scan for done ids

  lemma {:induction false} DoneIdsAppend(a: seq<string>, b: seq<string>, parse: JsonParser, acc: set<string>)
    ensures DoneIdsFrom(a + b, parse, acc)
         == match DoneIdsFrom(a, parse, acc)
            case Failure(err) => Failure(err)
            case Success(v) => DoneIdsFrom(b, parse, v)
    decreases |a|
  {
    if |a| > 0 {
      assert (a + b)[0] == a[0];
      assert (a + b)[1..] == a[1..] + b;
      var s := Strip(a[0]);
      if s != "" && parse(s).Success? {
        var acc' := if "question_id" in parse(s).value then acc + {Records.PyStr(parse(s).value["question_id"])} else acc;
        DoneIdsAppend(a[1..], b, parse, acc');
      } else if s == "" {
        DoneIdsAppend(a[1..], b, parse, acc);
      }
    } else {
      assert a + b == b;
    }
  }

  /** Kept lines all read: the scan over them succeeds and adds to what it
      started from exactly the ids it finds when started from nothing. */
  lemma {:induction false} DoneIdsKept(ls: seq<string>, parse: JsonParser, acc: set<string>)
    requires forall k :: 0 <= k < |ls| ==> Keeps(ls[k], parse)
    ensures DoneIdsFrom(ls, parse, acc).Success? && DoneIdsFrom(ls, parse, {}).Success?
    ensures DoneIdsFrom(ls, parse, acc).value == acc + DoneIdsFrom(ls, parse, {}).value
    decreases |ls|
  {
    if |ls| > 0 {
      var s := ls[0];
      assert Keeps(s, parse);
      var obj := parse(s).value;
      var x: set<string> := if "question_id" in obj then {Records.PyStr(obj["question_id"])} else {};
      assert forall k :: 0 <= k < |ls[1..]| ==> ls[1..][k] == ls[k + 1];
      if "question_id" in obj {
        assert DoneIdsFrom(ls, parse, acc) == DoneIdsFrom(ls[1..], parse, acc + x);
        assert DoneIdsFrom(ls, parse, {}) == DoneIdsFrom(ls[1..], parse, {} + x);
      } else {
        assert acc + x == acc;
        assert DoneIdsFrom(ls, parse, acc) == DoneIdsFrom(ls[1..], parse, acc);
        assert DoneIdsFrom(ls, parse, {}) == DoneIdsFrom(ls[1..], parse, {});
      }
      assert {} + x == x;
      DoneIdsKept(ls[1..], parse, acc + x);
      DoneIdsKept(ls[1..], parse, x);
    } else {
      assert acc + {} == acc;
    }
  }

  /** The scan over written lines adds the id of each. */
  lemma {:induction false} DoneIdsEncoded(rs: seq<ResultRecord>, encode: Encoder, parse: JsonParser, acc: set<string>)
    requires EncodesRecords(encode, parse)
    ensures DoneIdsFrom(EncodeAll(rs, encode), parse, acc) == Success(acc + IdsOf(rs))
    decreases |rs|
  {
    if |rs| > 0 {
      var r := rs[0];
      var ls := EncodeAll(rs, encode);
      assert ls[0] == encode(r) && ls[1..] == EncodeAll(rs[1..], encode);
      assert Keeps(encode(r), parse) && parse(encode(r)) == Success(RecordObject(r));
      assert Strip(ls[0]) == encode(r);
      assert Records.PyStr(RecordObject(r)["question_id"]) == r.questionId;
      assert DoneIdsFrom(ls, parse, acc) == DoneIdsFrom(ls[1..], parse, acc + {r.questionId});
      DoneIdsEncoded(rs[1..], encode, parse, acc + {r.questionId});
      assert acc + {r.questionId} + IdsOf(rs[1..]) == acc + IdsOf(rs);
    } else {
      assert acc + IdsOf(rs) == acc;
    }
  }

  /** A line that reads and names no question adds nothing. */
  lemma DoneIdsHeader(hline: string, parse: JsonParser, acc: set<string>)
    requires HeaderReads(hline, parse)
    ensures DoneIdsFrom([hline], parse, acc) == Success(acc)
  {
    assert [hline][1..] == [];
  }

  lemma DoneIdsBlank(parse: JsonParser, acc: set<string>)
    ensures DoneIdsFrom([""], parse, acc) == Success(acc)
  {
    StripEmpty();
    assert [""][1..] == [];
  }

  /** The scan over a laid-out file succeeds and finds exactly the ids of
      the kept lines and of the written results. */
  lemma RescanLaidOut(e: Existing, arrived: seq<ResultRecord>, encode: Encoder, header: HeaderMaker,
                      hline: string, parse: JsonParser, c: nat, t: nat)
    requires KeptWell(e, parse) && EncodesRecords(encode, parse) && HeaderReads(hline, parse)
    requires c == e.correct + CorrectIn(Written(arrived)) && t == e.total + |Written(arrived)|
    requires header(c, t) == hline + "\n"
    ensures DoneIdsFrom(e.lines, parse, {}).Success?
    ensures DoneIdsFrom(FileLines(LaidOut(e, arrived, encode, header)), parse, {})
         == Success(DoneIdsFrom(e.lines, parse, {}).value + IdsOf(Written(arrived)))
  {
    var w := Written(arrived);
    var ws := EncodeAll(w, encode);
    LaidOutJoin(e, arrived, encode, header, hline, c, t);
    KeptLines(e, parse);
    EncodedKept(w, encode, parse);
    AllOneLineParts(hline, e.lines, ws, parse);
    FileLinesOfJoin([hline] + e.lines + ws);
    DoneIdsAppend([hline] + e.lines + ws, [""], parse, {});
    DoneIdsAppend([hline] + e.lines, ws, parse, {});
    DoneIdsAppend([hline], e.lines, parse, {});
    DoneIdsHeader(hline, parse, {});
    DoneIdsKept(e.lines, parse, {});
    var v := DoneIdsFrom(e.lines, parse, {}).value;
    DoneIdsEncoded(w, encode, parse, v);
    DoneIdsBlank(parse, v + IdsOf(w));
  }

  // ---------------------------------------------------------------------
  // The file `run` leaves

  /** A line that strips to a text reading back as a statistics
      dictionary is a header line. */
  lemma HeaderReadsOf(h: string, j: string, o: JsonObject, parse: JsonParser)
    requires NoNewline(h) && Strip(h) == j && j != "" && parse(j) == Success(o)
    requires "_meta_stats" in o && "question_id" !in o
    ensures HeaderReads(h, parse)
  {
  }

  /** Every header `make_header` writes below the count bound reads back as
      a statistics line. */
  lemma HeaderLineReads(ts: Timestamp, c: nat, t: nat, parse: JsonParser)
    requires ReadsBack(parse) && c <= t < CountBound
    ensures HeaderReads(HeaderLine(ts, c, t), parse)
  {
    HeaderShape(ts, c, t);
    var j := HeaderJson(AccuracyText(c, t), ts, c, t);
    HeaderJsonLength(AccuracyText(c, t), ts, c, t);
    assert parse(j) == Success(HeaderObject(ts, c, t));
    HeaderReadsOf(HeaderLine(ts, c, t), j, HeaderObject(ts, c, t), parse);
  }

  lemma HeaderAtLine(clock: nat -> Timestamp, c: nat, t: nat)
    requires c <= t < CountBound
    ensures HeaderAt(clock)(c, t) == HeaderLine(clock(t), c, t) + "\n"
  {
    HeaderShape(clock(t), c, t);
  }

  /** The header `run` writes last reads back as a statistics line. */
  lemma FinalHeaderReads(e: Existing, arrived: seq<ResultRecord>, clock: nat -> Timestamp, parse: JsonParser,
                         c: nat, t: nat)
    requires ReadsBack(parse)
    requires e.correct <= e.total && e.total + |arrived| < CountBound
    requires c == e.correct + CorrectIn(Written(arrived)) && t == e.total + |Written(arrived)|
    ensures HeaderAt(clock)(c, t) == HeaderLine(clock(t), c, t) + "\n"
    ensures HeaderReads(HeaderLine(clock(t), c, t), parse)
  {
    FinalCounts(e, arrived);
    HeaderAtLine(clock, c, t);
    HeaderLineReads(clock(t), c, t, parse);
  }

  /** A later run folding the file this run leaves keeps the kept lines and
      the written results and counts exactly what the last header states. */
  lemma RefoldResultsFile(e: Existing, arrived: seq<ResultRecord>, clock: nat -> Timestamp, parse: JsonParser)
    requires ReadsBack(parse) && KeptWell(e, parse)
    requires e.total + |arrived| < CountBound
    ensures var w := Written(arrived);
      FoldFrom(FileLines(ResultsFile(e, arrived, clock)), parse, Existing([], 0, 0))
        == Existing(e.lines + EncodeAll(w, EncodeRecord), e.correct + CorrectIn(w), e.total + |w|)
  {
    var w := Written(arrived);
    var t := e.total + |w|;
    var c := e.correct + CorrectIn(w);
    FinalHeaderReads(e, arrived, clock, parse, c, t);
    RecordEncoding(parse);
    RefoldLaidOut(e, arrived, EncodeRecord, HeaderAt(clock), HeaderLine(clock(t), c, t), parse, c, t);
  }

  /** A later run scanning the file this run leaves reads it without error
      and finds exactly the ids of the kept lines and of the results
      written: an ERROR result adds no id. */
  lemma RescanResultsFile(e: Existing, arrived: seq<ResultRecord>, clock: nat -> Timestamp, parse: JsonParser)
    requires ReadsBack(parse) && KeptWell(e, parse)
    requires e.total + |arrived| < CountBound
    ensures DoneIdsFrom(e.lines, parse, {}).Success?
    ensures DoneIdsFrom(FileLines(ResultsFile(e, arrived, clock)), parse, {})
         == Success(DoneIdsFrom(e.lines, parse, {}).value + IdsOf(Written(arrived)))
  {
    var w := Written(arrived);
    var t := e.total + |w|;
    var c := e.correct + CorrectIn(w);
    FinalHeaderReads(e, arrived, clock, parse, c, t);
    RecordEncoding(parse);
    RescanLaidOut(e, arrived, EncodeRecord, HeaderAt(clock), HeaderLine(clock(t), c, t), parse, c, t);
  }

  /** A question whose result was written is not pending when the run is
      repeated on the file it left: no row with its id is chosen again. */
  lemma WrittenNotPendingAgain(plan: Plan, count: Tokenizer, read: DocReader, complete: Completer,
                               order: seq<ResultRecord> -> seq<ResultRecord>, e: Existing,
                               clock: nat -> Timestamp, parse: JsonParser, i: nat,
                               rows: seq<Row>, numTasks: Option<int>)
    requires ReadsBack(parse) && KeptWell(e, parse) && Reorders(order)
    requires e.total + |plan.pending| < CountBound
    requires i < |plan.pending|
    requires Results(plan, count, read, complete)[i].judgeResult != "ERROR"
    ensures var results := Results(plan, count, read, complete);
      var done := DoneIdsFrom(FileLines(ResultsFile(e, order(results), clock)), parse, {});
      && done.Success?
      && RowId(plan.pending[i].1) in done.value
      && (PendingRows(rows, done.value, numTasks).Success? ==>
            forall y :: y in PendingRows(rows, done.value, numTasks).value ==> RowId(y.1) != RowId(plan.pending[i].1))
  {
    var results := Results(plan, count, read, complete);
    var arrived := order(results);
    var r := results[i];
    assert |arrived| == |results| by {
      assert |multiset(arrived)| == |multiset(results)|;
    }
    assert r in arrived by {
      assert r in multiset(results);
    }
    WrittenMembers(arrived, r);
    IdsOfMembers(Written(arrived), r);
    RescanResultsFile(e, arrived, clock, parse);
    var done := DoneIdsFrom(FileLines(ResultsFile(e, arrived, clock)), parse, {});
    assert r.questionId == RowId(plan.pending[i].1);
    PendingMeaning(rows, done.value, numTasks);
  }

  /** An id all of whose results are ERROR is missing from the written
      ones, in whatever order they arrive. */
  lemma ErrorsNotWritten(results: seq<ResultRecord>, arrived: seq<ResultRecord>, id: string)
    requires multiset(arrived) == multiset(results)
    requires forall j :: 0 <= j < |results| && results[j].questionId == id ==> results[j].judgeResult == "ERROR"
    ensures id !in IdsOf(Written(arrived))
  {
    var w := Written(arrived);
    forall k | 0 <= k < |w|
      ensures w[k].questionId != id
    {
      WrittenOnly(arrived, w[k]);
      assert w[k] in multiset(results);
    }
    IdsOfNone(w, id);
  }

  /** A question every result of which was an ERROR, and whose id no kept
      line holds, is pending again when the run is repeated on the file it
      left: every row with its id is chosen again. */
  lemma ErrorPendingAgain(plan: Plan, count: Tokenizer, read: DocReader, complete: Completer,
                          order: seq<ResultRecord> -> seq<ResultRecord>, e: Existing,
                          clock: nat -> Timestamp, parse: JsonParser, i: nat, rows: seq<Row>)
    requires ReadsBack(parse) && KeptWell(e, parse) && Reorders(order)
    requires e.total + |plan.pending| < CountBound
    requires i < |plan.pending|
    requires forall j :: 0 <= j < |plan.pending| && RowId(plan.pending[j].1) == RowId(plan.pending[i].1) ==>
               Results(plan, count, read, complete)[j].judgeResult == "ERROR"
    requires DoneIdsFrom(e.lines, parse, {}).Success?
    requires RowId(plan.pending[i].1) !in DoneIdsFrom(e.lines, parse, {}).value
    ensures var results := Results(plan, count, read, complete);
      var done := DoneIdsFrom(FileLines(ResultsFile(e, order(results), clock)), parse, {});
      && done.Success?
      && RowId(plan.pending[i].1) !in done.value
      && (PendingRows(rows, done.value, None).Success? ==>
            forall row :: row in rows && RowId(row) == RowId(plan.pending[i].1) ==>
              exists y :: y in PendingRows(rows, done.value, None).value && y.1 == row)
  {
    var results := Results(plan, count, read, complete);
    var arrived := order(results);
    var id := RowId(plan.pending[i].1);
    assert forall j :: 0 <= j < |results| && results[j].questionId == id ==> results[j].judgeResult == "ERROR" by {
      forall j | 0 <= j < |results| && results[j].questionId == id
        ensures results[j].judgeResult == "ERROR"
      {
        assert results[j].questionId == RowId(plan.pending[j].1);
      }
    }
    ErrorsNotWritten(results, arrived, id);
    assert |arrived| == |results| by {
      assert |multiset(arrived)| == |multiset(results)|;
    }
    RescanResultsFile(e, arrived, clock, parse);
    var done := DoneIdsFrom(FileLines(ResultsFile(e, arrived, clock)), parse, {});
    PendingMeaning(rows, done.value, None);
  }
}
