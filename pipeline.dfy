/** `run`: resuming from an existing results file, choosing the pending
    questions, rewriting the file with a fresh header, and appending each
    finished result while the header is kept current in place. */
module Pipeline {
  import opened Base
  import opened Text
  import opened Utils
  import opened Records
  import opened Store
  import opened Loaders
  import opened Tasks

  // ---------------------------------------------------------------------
  // Lines of the results file

  /** The pieces between line breaks. Iterating a file yields the same
      lines with their breaks; every use strips them, and the empty piece
      after a final break is blank, so both read alike. */
  function FileLines(content: string): (ls: seq<string>)
    ensures forall k :: 0 <= k < |ls| ==> NoNewline(ls[k])
  {
    Split(content, '\n')
  }

  /** Each line written with its break after it. */
  function JoinLines(ls: seq<string>): string {
    if |ls| == 0 then "" else ls[0] + "\n" + JoinLines(ls[1..])
  }

  predicate AllOneLine(ls: seq<string>) {
    forall k :: 0 <= k < |ls| ==> NoNewline(ls[k])
  }

  lemma {:induction false} JoinLinesAsJoin(ls: seq<string>)
    ensures JoinLines(ls) == Join(ls + [""], '\n')
    decreases |ls|
  {
    if |ls| > 0 {
      JoinLinesAsJoin(ls[1..]);
      assert (ls + [""])[1..] == ls[1..] + [""];
      assert (ls + [""])[0] == ls[0];
    }
  }

  /** Reading back lines written one per line gives those lines, then the
      empty piece after the last break. */
  lemma FileLinesOfJoin(ls: seq<string>)
    requires AllOneLine(ls)
    ensures FileLines(JoinLines(ls)) == ls + [""]
  {
    JoinLinesAsJoin(ls);
    SplitJoin(ls + [""], '\n');
  }

  lemma {:induction false} JoinLinesAppend(a: seq<string>, b: seq<string>)
    ensures JoinLines(a + b) == JoinLines(a) + JoinLines(b)
    decreases |a|
  {
    if |a| > 0 {
      assert (a + b)[1..] == a[1..] + b;
      JoinLinesAppend(a[1..], b);
    } else {
      assert a + b == b;
    }
  }

  lemma JoinLinesOne(l: string)
    ensures JoinLines([l]) == l + "\n"
  {
    assert [l][1..] == [];
  }

  lemma StripOneLine(s: string)
    requires NoNewline(s)
    ensures NoNewline(Strip(s))
  {
    StripLeftShape(s);
    StripRightShape(StripLeft(s));
  }

  /** A stripped text strips to itself. */
  lemma StripIdempotent(s: string)
    ensures Strip(Strip(s)) == Strip(s)
  {
    var l := StripLeft(s);
    StripLeftShape(s);
    StripRightShape(l);
    var r := StripRight(l);
    if r != [] {
      assert r[0] == l[0];
      StripKeepsTrimmed(r);
    }
  }

  // ---------------------------------------------------------------------
  // The ids already done

  /** The loop collecting `question_id` values from the rest of the file:
      blank lines are skipped, a line that does not parse raises. */
  function DoneIdsFrom(ls: seq<string>, parse: JsonParser, acc: set<string>): Result<set<string>>
    decreases |ls|
  {
    if |ls| == 0 then Success(acc)
    else
      var s := Strip(ls[0]);
      if s == "" then DoneIdsFrom(ls[1..], parse, acc)
      else
        var obj :- parse(s);
        DoneIdsFrom(ls[1..], parse, if "question_id" in obj then acc + {Records.PyStr(obj["question_id"])} else acc)
  }

  /** A line that is not blank. */
  predicate Nonblank(ls: seq<string>, i: int) {
    0 <= i < |ls| && Strip(ls[i]) != ""
  }

  /** The id a line records, if it parses and names one. */
  predicate LineNames(ls: seq<string>, parse: JsonParser, i: int, id: string) {
    && Nonblank(ls, i)
    && parse(Strip(ls[i])).Success?
    && "question_id" in parse(Strip(ls[i])).value
    && Records.PyStr(parse(Strip(ls[i])).value["question_id"]) == id
  }

  /** The scan fails exactly when a non-blank line does not parse; when it
      succeeds it holds exactly the ids the lines name. */
  lemma {:induction false} DoneIdsMeaning(ls: seq<string>, parse: JsonParser, acc: set<string>, id: string)
    ensures var r := DoneIdsFrom(ls, parse, acc);
      && (r.Failure? <==> exists i :: Nonblank(ls, i) && parse(Strip(ls[i])).Failure?)
      && (r.Success? ==> (id in r.value <==> id in acc || exists i :: LineNames(ls, parse, i, id)))
    decreases |ls|
  {
    if |ls| > 0 {
      var s := Strip(ls[0]);
      var tail := ls[1..];
      assert forall i :: 0 <= i < |tail| ==> tail[i] == ls[i + 1];
      var acc' := acc;
      if s != "" && parse(s).Success? && "question_id" in parse(s).value {
        acc' := acc + {Records.PyStr(parse(s).value["question_id"])};
      }
      if s == "" || parse(s).Success? {
        DoneIdsMeaning(tail, parse, acc', id);
        ShiftLines(ls, parse, id);
      }
    }
  }

  lemma ShiftLines(ls: seq<string>, parse: JsonParser, id: string)
    requires |ls| > 0
    ensures (exists i :: Nonblank(ls, i) && parse(Strip(ls[i])).Failure?)
        <==> (Nonblank(ls, 0) && parse(Strip(ls[0])).Failure?)
             || exists i :: Nonblank(ls[1..], i) && parse(Strip(ls[1..][i])).Failure?
    ensures (exists i :: LineNames(ls, parse, i, id))
        <==> LineNames(ls, parse, 0, id) || exists i :: LineNames(ls[1..], parse, i, id)
  {
    var tail := ls[1..];
    if exists i :: Nonblank(ls, i) && parse(Strip(ls[i])).Failure? {
      var i :| Nonblank(ls, i) && parse(Strip(ls[i])).Failure?;
      if i > 0 {
        assert tail[i - 1] == ls[i];
        assert Nonblank(tail, i - 1);
      }
    }
    if exists i :: Nonblank(tail, i) && parse(Strip(tail[i])).Failure? {
      var i :| Nonblank(tail, i) && parse(Strip(tail[i])).Failure?;
      assert tail[i] == ls[i + 1];
      assert Nonblank(ls, i + 1);
    }
    if exists i :: LineNames(ls, parse, i, id) {
      var i :| LineNames(ls, parse, i, id);
      if i > 0 {
        assert tail[i - 1] == ls[i];
        assert LineNames(tail, parse, i - 1, id);
      }
    }
    if exists i :: LineNames(tail, parse, i, id) {
      var i :| LineNames(tail, parse, i, id);
      assert tail[i] == ls[i + 1];
      assert LineNames(ls, parse, i + 1, id);
    }
  }

  /** The scan of the existing file; a missing file has no ids. */
  method ScanDoneIds(file: ResultFile, parse: JsonParser) returns (r: Result<set<string>>)
    requires file.Valid()
    ensures r == if file.present then DoneIdsFrom(FileLines(file.content), parse, {}) else Success({})
  {
    if !file.present {
      return Success({});
    }
    var ls := FileLines(file.content);
    var done: set<string> := {};
    var i := 0;
    while i < |ls|
      invariant 0 <= i <= |ls|
      invariant DoneIdsFrom(ls, parse, {}) == DoneIdsFrom(ls[i..], parse, done)
    {
      assert ls[i..][1..] == ls[i + 1..];
      var s := Strip(ls[i]);
      if s != "" {
        var obj := parse(s);
        if obj.Failure? {
          return Failure(obj.error);
        }
        if "question_id" in obj.value {
          done := done + {Records.PyStr(obj.value["question_id"])};
        }
      }
      i := i + 1;
    }
    r := Success(done);
  }

  // ---------------------------------------------------------------------
  // The lines kept from the existing file

  datatype Existing = Existing(lines: seq<string>, correct: nat, total: nat)

  predicate IsCorrect(obj: JsonObject) {
    "judge_result" in obj && obj["judge_result"] == JStr("CORRECT")
  }

  /** The loop over the rest of the file: blank lines, lines that do not
      parse and the statistics header are dropped; every other line is
      kept stripped and counted. */
  function FoldFrom(ls: seq<string>, parse: JsonParser, acc: Existing): Existing
    decreases |ls|
  {
    if |ls| == 0 then acc
    else
      var s := Strip(ls[0]);
      var next :=
        if s == "" || parse(s).Failure? || "_meta_stats" in parse(s).value then acc
        else Existing(acc.lines + [s], acc.correct + (if IsCorrect(parse(s).value) then 1 else 0), acc.total + 1);
      FoldFrom(ls[1..], parse, next)
  }

  /** A line that parses to a record judged correct. */
  predicate ParsedCorrect(l: string, parse: JsonParser) {
    parse(l).Success? && IsCorrect(parse(l).value)
  }

  /** How many of the lines parse to a record judged correct. */
  function CountCorrect(ls: seq<string>, parse: JsonParser): (n: nat)
    ensures n <= |ls|
    decreases |ls|
  {
    if |ls| == 0 then 0
    else (if ParsedCorrect(ls[0], parse) then 1 else 0) + CountCorrect(ls[1..], parse)
  }

  lemma {:induction false} CountCorrectAppend(a: seq<string>, b: seq<string>, parse: JsonParser)
    ensures CountCorrect(a + b, parse) == CountCorrect(a, parse) + CountCorrect(b, parse)
    decreases |a|
  {
    if |a| > 0 {
      assert (a + b)[1..] == a[1..] + b;
      CountCorrectAppend(a[1..], b, parse);
    } else {
      assert a + b == b;
    }
  }

  /** What the kept lines are: stripped, one line each, a record that
      parses and is not a header; one counted for each, and one counted as
      correct for each that is judged correct. */
  predicate KeptWell(e: Existing, parse: JsonParser) {
    && e.total == |e.lines| && e.correct == CountCorrect(e.lines, parse) && e.correct <= e.total
    && forall k :: 0 <= k < |e.lines| ==>
         var l := e.lines[k];
         && l != "" && Strip(l) == l && NoNewline(l)
         && parse(l).Success? && "_meta_stats" !in parse(l).value
  }

  lemma {:induction false} FoldKeepsWell(ls: seq<string>, parse: JsonParser, acc: Existing)
    requires AllOneLine(ls)
    requires KeptWell(acc, parse)
    ensures KeptWell(FoldFrom(ls, parse, acc), parse)
    decreases |ls|
  {
    if |ls| > 0 {
      var s := Strip(ls[0]);
      StripIdempotent(ls[0]);
      StripOneLine(ls[0]);
      var next :=
        if s == "" || parse(s).Failure? || "_meta_stats" in parse(s).value then acc
        else Existing(acc.lines + [s], acc.correct + (if IsCorrect(parse(s).value) then 1 else 0), acc.total + 1);
      if next != acc {
        CountCorrectAppend(acc.lines, [s], parse);
        assert CountCorrect([s], parse) == if ParsedCorrect(s, parse) then 1 else 0;
      }
      assert KeptWell(next, parse);
      FoldKeepsWell(ls[1..], parse, next);
    }
  }

  /** The fold keeps, in file order, exactly the lines that are records. */
  lemma {:induction false} FoldKeepsRecords(ls: seq<string>, parse: JsonParser, acc: Existing)
    ensures FoldFrom(ls, parse, acc).lines == acc.lines + RecordLines(ls, parse)
    decreases |ls|
  {
    if |ls| > 0 {
      var s := Strip(ls[0]);
      var next :=
        if s == "" || parse(s).Failure? || "_meta_stats" in parse(s).value then acc
        else Existing(acc.lines + [s], acc.correct + (if IsCorrect(parse(s).value) then 1 else 0), acc.total + 1);
      FoldKeepsRecords(ls[1..], parse, next);
      if next != acc {
        assert acc.lines + [s] + RecordLines(ls[1..], parse) == acc.lines + ([s] + RecordLines(ls[1..], parse));
      }
    }
  }

  /** The stripped lines that parse and are not a statistics header. */
  function RecordLines(ls: seq<string>, parse: JsonParser): seq<string>
    decreases |ls|
  {
    if |ls| == 0 then []
    else
      var s := Strip(ls[0]);
      (if s == "" || parse(s).Failure? || "_meta_stats" in parse(s).value then [] else [s])
      + RecordLines(ls[1..], parse)
  }

  /** The fold over the existing file; a missing file keeps nothing. */
  method FoldExisting(file: ResultFile, parse: JsonParser) returns (e: Existing)
    requires file.Valid()
    ensures e == if file.present then FoldFrom(FileLines(file.content), parse, Existing([], 0, 0))
                 else Existing([], 0, 0)
  {
    e := Existing([], 0, 0);
    if !file.present {
      return;
    }
    var ls := FileLines(file.content);
    var lines: seq<string> := [];
    var correct: nat := 0;
    var total: nat := 0;
    var i := 0;
    while i < |ls|
      invariant 0 <= i <= |ls|
      invariant FoldFrom(ls, parse, Existing([], 0, 0)) == FoldFrom(ls[i..], parse, Existing(lines, correct, total))
    {
      assert ls[i..][1..] == ls[i + 1..];
      var s := Strip(ls[i]);
      if s != "" {
        var obj := parse(s);
        if obj.Success? && "_meta_stats" !in obj.value {
          lines := lines + [s];
          total := total + 1;
          if IsCorrect(obj.value) {
            correct := correct + 1;
          }
        }
      }
      i := i + 1;
    }
    e := Existing(lines, correct, total);
  }

  // ---------------------------------------------------------------------
  // Choosing the pending questions

  /** `str(r.get("question_id", "0") or "0")`: a missing, empty or `None`
      id sorts as 0. */
  function SortKeyText(row: Row): string {
    if "question_id" !in row then "0"
    else match row["question_id"]
      case CText(s) => if s == "" then "0" else s
      case CNone => "0"
      case CList(items) => if |items| == 0 then "0" else RowText(row, "question_id", "0")
  }

  /** The sort key of a row, `int(...)` of its key text. */
  predicate KeyOf(x: (int, Row)) {
    ParseInt(SortKeyText(x.1)) == Success(x.0)
  }

  /** Every row paired with its sort key; `sorted` computes the keys in
      list order, so the first key that is not a number raises. */
  function Keyed(rows: seq<Row>): Result<seq<(int, Row)>>
    decreases |rows|
  {
    if |rows| == 0 then Success([])
    else
      var k :- ParseInt(SortKeyText(rows[0]));
      var rest :- Keyed(rows[1..]);
      Success([(k, rows[0])] + rest)
  }

  /** Keying fails exactly when some key is not a number, and otherwise
      pairs each row, in place, with its key. */
  lemma {:induction false} KeyedMeaning(rows: seq<Row>)
    ensures Keyed(rows).Failure? <==> exists i :: 0 <= i < |rows| && ParseInt(SortKeyText(rows[i])).Failure?
    ensures Keyed(rows).Success? ==>
      && |Keyed(rows).value| == |rows|
      && forall i :: 0 <= i < |rows| ==> Keyed(rows).value[i].1 == rows[i] && KeyOf(Keyed(rows).value[i])
    decreases |rows|
  {
    if |rows| > 0 {
      KeyedMeaning(rows[1..]);
      var tail := rows[1..];
      assert forall i :: 1 <= i < |rows| ==> rows[i] == tail[i - 1];
      if exists i :: 0 <= i < |rows| && ParseInt(SortKeyText(rows[i])).Failure? {
        var i :| 0 <= i < |rows| && ParseInt(SortKeyText(rows[i])).Failure?;
        if i > 0 {
          assert ParseInt(SortKeyText(tail[i - 1])).Failure?;
        }
      }
    }
  }

  predicate SortedByKey(s: seq<(int, Row)>) {
    forall i, j :: 0 <= i < j < |s| ==> s[i].0 <= s[j].0
  }

  /** The entries with key `k`, in order. */
  function WithKey(s: seq<(int, Row)>, k: int): seq<(int, Row)>
    decreases |s|
  {
    if |s| == 0 then []
    else WithKey(s[..|s| - 1], k) + (if s[|s| - 1].0 == k then [s[|s| - 1]] else [])
  }

  /** `x` placed after every entry whose key is not above its own. */
  function Insert(t: seq<(int, Row)>, x: (int, Row)): seq<(int, Row)>
    decreases |t|
  {
    if |t| == 0 || t[|t| - 1].0 <= x.0 then t + [x]
    else Insert(t[..|t| - 1], x) + [t[|t| - 1]]
  }

  /** `sorted(..., key=...)`: a stable sort by key. */
  function SortByKey(s: seq<(int, Row)>): seq<(int, Row)>
    decreases |s|
  {
    if |s| == 0 then [] else Insert(SortByKey(s[..|s| - 1]), s[|s| - 1])
  }

  lemma {:induction false} InsertPermutes(t: seq<(int, Row)>, x: (int, Row))
    ensures multiset(Insert(t, x)) == multiset(t) + multiset{x}
    decreases |t|
  {
    if |t| > 0 && t[|t| - 1].0 > x.0 {
      var last := t[|t| - 1];
      InsertPermutes(t[..|t| - 1], x);
      assert t == t[..|t| - 1] + [last];
    }
  }

  lemma {:induction false} InsertSorted(t: seq<(int, Row)>, x: (int, Row))
    requires SortedByKey(t)
    ensures SortedByKey(Insert(t, x))
    decreases |t|
  {
    if |t| > 0 && t[|t| - 1].0 > x.0 {
      var last := t[|t| - 1];
      var front := t[..|t| - 1];
      InsertSorted(front, x);
      InsertPermutes(front, x);
      var u := Insert(front, x);
      forall i | 0 <= i < |u| ensures u[i].0 <= last.0 {
        assert u[i] in multiset(u);
        if u[i] != x {
          assert u[i] in front;
        }
      }
      assert Insert(t, x) == u + [last];
    }
  }

  lemma WithKeySnoc(s: seq<(int, Row)>, y: (int, Row), k: int)
    ensures WithKey(s + [y], k) == WithKey(s, k) + (if y.0 == k then [y] else [])
  {
    assert (s + [y])[..|s|] == s;
  }

  lemma {:induction false} InsertStable(t: seq<(int, Row)>, x: (int, Row), k: int)
    ensures WithKey(Insert(t, x), k) == WithKey(t, k) + (if x.0 == k then [x] else [])
    decreases |t|
  {
    if |t| == 0 || t[|t| - 1].0 <= x.0 {
      WithKeySnoc(t, x, k);
    } else {
      var last := t[|t| - 1];
      var front := t[..|t| - 1];
      InsertStable(front, x, k);
      WithKeySnoc(Insert(front, x), last, k);
      assert t == front + [last];
      WithKeySnoc(front, last, k);
    }
  }

  /** The sort orders by key, ... */
  lemma {:induction false} SortSorted(s: seq<(int, Row)>)
    ensures SortedByKey(SortByKey(s))
    decreases |s|
  {
    if |s| > 0 {
      SortSorted(s[..|s| - 1]);
      InsertSorted(SortByKey(s[..|s| - 1]), s[|s| - 1]);
    }
  }

  /** ... loses and adds nothing, ... */
  lemma {:induction false} SortPermutes(s: seq<(int, Row)>)
    ensures multiset(SortByKey(s)) == multiset(s)
    decreases |s|
  {
    if |s| > 0 {
      SortPermutes(s[..|s| - 1]);
      InsertPermutes(SortByKey(s[..|s| - 1]), s[|s| - 1]);
      assert s == s[..|s| - 1] + [s[|s| - 1]];
    }
  }

  /** ... and keeps the entries of each key in their first order. */
  lemma {:induction false} SortStable(s: seq<(int, Row)>, k: int)
    ensures WithKey(SortByKey(s), k) == WithKey(s, k)
    decreases |s|
  {
    if |s| > 0 {
      SortStable(s[..|s| - 1], k);
      InsertStable(SortByKey(s[..|s| - 1]), s[|s| - 1], k);
    }
  }

  /** The id a row is matched against the done ids by. */
  function RowId(row: Row): string {
    Strip(RowText(row, "question_id", ""))
  }

  /** The rows whose id is not done yet, in order. */
  function NotDone(s: seq<(int, Row)>, done: set<string>): seq<(int, Row)>
    decreases |s|
  {
    if |s| == 0 then []
    else (if RowId(s[0].1) in done then [] else [s[0]]) + NotDone(s[1..], done)
  }

  /** Filtering keeps exactly the entries that are not done, ... */
  lemma {:induction false} NotDoneMembers(s: seq<(int, Row)>, done: set<string>)
    ensures forall y :: y in NotDone(s, done) <==> y in s && RowId(y.1) !in done
    decreases |s|
  {
    if |s| > 0 {
      NotDoneMembers(s[1..], done);
      assert forall y :: y in s <==> y == s[0] || y in s[1..];
    }
  }

  lemma SortedTail(s: seq<(int, Row)>)
    requires |s| > 0 && SortedByKey(s)
    ensures SortedByKey(s[1..])
    ensures forall y :: y in s[1..] ==> s[0].0 <= y.0
  {
    forall i, j | 0 <= i < j < |s| - 1 ensures s[1..][i].0 <= s[1..][j].0 {
      assert s[1..][i] == s[i + 1] && s[1..][j] == s[j + 1];
    }
    forall y | y in s[1..] ensures s[0].0 <= y.0 {
      var m :| 0 <= m < |s| - 1 && s[1..][m] == y;
      assert s[1..][m] == s[m + 1];
    }
  }

  lemma SortedCons(x: (int, Row), rest: seq<(int, Row)>)
    requires SortedByKey(rest) && forall y :: y in rest ==> x.0 <= y.0
    ensures SortedByKey([x] + rest)
  {
    var r := [x] + rest;
    forall i, j | 0 <= i < j < |r| ensures r[i].0 <= r[j].0 {
      assert r[j] == rest[j - 1];
      if i > 0 {
        assert r[i] == rest[i - 1];
      }
    }
  }

  /** ... and their order. */
  lemma {:induction false} NotDoneSorted(s: seq<(int, Row)>, done: set<string>)
    requires SortedByKey(s)
    ensures SortedByKey(NotDone(s, done))
    decreases |s|
  {
    if |s| > 0 {
      SortedTail(s);
      NotDoneSorted(s[1..], done);
      NotDoneMembers(s[1..], done);
      if RowId(s[0].1) !in done {
        SortedCons(s[0], NotDone(s[1..], done));
      }
    }
  }

  /** `s[:n]`, where a negative bound counts from the end. */
  function TakePy<T>(s: seq<T>, n: int): seq<T> {
    if n >= |s| then s
    else if n >= 0 then s[..n]
    else if |s| + n > 0 then s[..|s| + n]
    else []
  }

  /** The slice is a prefix: all of it for a large bound, the first `n`
      for a bound within the list, all but the last `-n` for a negative
      one, nothing for a very negative one. */
  lemma TakePyMeaning<T>(s: seq<T>, n: int)
    ensures TakePy(s, n) <= s
    ensures n >= |s| ==> TakePy(s, n) == s
    ensures 0 <= n <= |s| ==> |TakePy(s, n)| == n
    ensures -|s| <= n < 0 ==> |TakePy(s, n)| == |s| + n
    ensures n <= -|s| ==> TakePy(s, n) == []
  {
  }

  /** The pending rows with their keys: sorted, not done, cut to
      `num_tasks` when it is given. */
  function PendingRows(rows: seq<Row>, done: set<string>, numTasks: Option<int>): Result<seq<(int, Row)>> {
    var keyed :- Keyed(rows);
    var open := NotDone(SortByKey(keyed), done);
    Success(if numTasks.Some? then TakePy(open, numTasks.value) else open)
  }

  /** Sorted and filtered, the questions not done: in key order, each
      with its own key, and every question not done among them. */
  lemma OpenMeaning(rows: seq<Row>, done: set<string>)
    requires Keyed(rows).Success?
    ensures var open := NotDone(SortByKey(Keyed(rows).value), done);
      && SortedByKey(open)
      && (forall y :: y in open ==> KeyOf(y) && y.1 in rows && RowId(y.1) !in done)
      && (forall row :: row in rows && RowId(row) !in done ==> exists y :: y in open && y.1 == row)
  {
    KeyedMeaning(rows);
    var keyed := Keyed(rows).value;
    var sorted := SortByKey(keyed);
    SortSorted(keyed);
    SortPermutes(keyed);
    NotDoneSorted(sorted, done);
    NotDoneMembers(sorted, done);
    forall y | y in sorted ensures y in keyed {
      assert y in multiset(sorted);
    }
    forall y | y in keyed ensures y in sorted && KeyOf(y) && y.1 in rows {
      assert y in multiset(keyed);
      var i :| 0 <= i < |keyed| && keyed[i] == y;
    }
    forall row | row in rows && RowId(row) !in done
      ensures exists y :: y in NotDone(sorted, done) && y.1 == row
    {
      var i :| 0 <= i < |rows| && rows[i] == row;
      assert keyed[i] in keyed;
    }
  }

  /** A prefix of a sorted list is sorted and holds some of its entries. */
  lemma PrefixKeeps(s: seq<(int, Row)>, p: seq<(int, Row)>)
    requires p <= s && SortedByKey(s)
    ensures SortedByKey(p) && forall y :: y in p ==> y in s
  {
    forall i, j | 0 <= i < j < |p| ensures p[i].0 <= p[j].0 {
      assert p[i] == s[i] && p[j] == s[j];
    }
    forall y | y in p ensures y in s {
      var i :| 0 <= i < |p| && p[i] == y;
      assert s[i] == y;
    }
  }

  /** Choosing fails exactly when some id is not a number. Otherwise the
      rows chosen are in key order, each with its own key, come from the
      questions, are not done, and, without `num_tasks`, are every question
      not done; with it, they are the first of those. */
  lemma PendingMeaning(rows: seq<Row>, done: set<string>, numTasks: Option<int>)
    ensures var r := PendingRows(rows, done, numTasks);
      && (r.Failure? <==> exists i :: 0 <= i < |rows| && ParseInt(SortKeyText(rows[i])).Failure?)
      && (r.Success? ==>
           && SortedByKey(r.value)
           && (forall y :: y in r.value ==> KeyOf(y) && y.1 in rows && RowId(y.1) !in done)
           && r.value <= PendingRows(rows, done, None).value
           && (numTasks.None? ==> forall row :: row in rows && RowId(row) !in done ==>
                 exists y :: y in r.value && y.1 == row))
  {
    KeyedMeaning(rows);
    if Keyed(rows).Success? {
      var open := NotDone(SortByKey(Keyed(rows).value), done);
      OpenMeaning(rows, done);
      if numTasks.Some? {
        TakePyMeaning(open, numTasks.value);
        PrefixKeeps(open, TakePy(open, numTasks.value));
      }
    }
  }

  // ---------------------------------------------------------------------
  // Rewriting the file

  /** Mode "w", then the header and each kept line with its break. */
  method RewriteFile(file: ResultFile, header: string, lines: seq<string>)
    modifies file
    ensures file.Valid() && file.present
    ensures file.content == header + JoinLines(lines) && file.pos == |file.content|
  {
    file.Truncate();
    OverwriteAtEnd("", header);
    file.Write(header);
    var i := 0;
    while i < |lines|
      invariant 0 <= i <= |lines|
      invariant file.Valid() && file.present
      invariant file.content == header + JoinLines(lines[..i]) && file.pos == |file.content|
    {
      OverwriteAtEnd(file.content, lines[i] + "\n");
      file.Write(lines[i] + "\n");
      JoinLinesAppend(lines[..i], [lines[i]]);
      JoinLinesOne(lines[i]);
      assert lines[..i + 1] == lines[..i] + [lines[i]];
      i := i + 1;
    }
    assert lines[..|lines|] == lines;
  }

  // ---------------------------------------------------------------------
  // Draining the finished tasks

  /** How results and the header are written: `json.dumps` of a record,
      and `make_header(correct, total)`, which reads the clock each time it
      is called. */
  type Encoder = ResultRecord -> string
  type HeaderMaker = (nat, nat) -> string

  /** Every header that fits is the same width. */
  ghost predicate FixedWidth(header: HeaderMaker, width: nat) {
    forall c: nat, t: nat :: c <= t < CountBound ==> |header(c, t)| == width
  }

  /** The file and the counters while results arrive. */
  datatype Drained = Drained(content: string, pos: nat, correct: nat, total: nat, failed: nat)

  predicate CursorInFile(d: Drained) {
    d.pos <= |d.content|
  }

  /** One finished task: an error is counted and not written; any other
      result is counted, appended at the cursor, and the header at the
      start of the file is rewritten with the new counts, the cursor left
      after the result. */
  function DrainStep(d: Drained, r: ResultRecord, encode: Encoder, header: HeaderMaker): (e: Drained)
    requires CursorInFile(d)
    ensures CursorInFile(e)
  {
    if r.judgeResult == "ERROR" then d.(failed := d.failed + 1)
    else
      var correct := d.correct + (if r.judgeResult == "CORRECT" then 1 else 0);
      var total := d.total + 1;
      var line := encode(r) + "\n";
      var written := Overwrite(d.content, d.pos, line);
      Drained(Overwrite(written, 0, header(correct, total)), d.pos + |line|, correct, total, d.failed)
  }

  function DrainFrom(d: Drained, rs: seq<ResultRecord>, encode: Encoder, header: HeaderMaker): (e: Drained)
    requires CursorInFile(d)
    ensures CursorInFile(e)
    decreases |rs|
  {
    if |rs| == 0 then d else DrainFrom(DrainStep(d, rs[0], encode, header), rs[1..], encode, header)
  }

  /** The `async for` over finished tasks in the order they finish. */
  method Drain(file: ResultFile, results: seq<ResultRecord>, correct0: nat, total0: nat,
               encode: Encoder, header: HeaderMaker)
    returns (correct: nat, total: nat, failed: nat)
    requires file.Valid() && file.present
    modifies file
    ensures file.Valid() && file.present
    ensures var d := DrainFrom(Drained(old(file.content), old(file.pos), correct0, total0, 0), results, encode, header);
      file.content == d.content && file.pos == d.pos
      && correct == d.correct && total == d.total && failed == d.failed
  {
    ghost var start := Drained(file.content, file.pos, correct0, total0, 0);
    correct, total, failed := correct0, total0, 0;
    var i := 0;
    while i < |results|
      invariant 0 <= i <= |results|
      invariant file.Valid() && file.present
      invariant DrainFrom(start, results, encode, header)
             == DrainFrom(Drained(file.content, file.pos, correct, total, failed), results[i..], encode, header)
    {
      assert results[i..][1..] == results[i + 1..];
      var r := results[i];
      if r.judgeResult == "ERROR" {
        failed := failed + 1;
      } else {
        total := total + 1;
        if r.judgeResult == "CORRECT" {
          correct := correct + 1;
        }
        file.Write(encode(r) + "\n");
        var current := file.Tell();
        file.Seek(0);
        file.Write(header(correct, total));
        file.Seek(current);
      }
      i := i + 1;
    }
  }

  /** The results that are written: all but the errors. */
  function Written(rs: seq<ResultRecord>): seq<ResultRecord>
    decreases |rs|
  {
    if |rs| == 0 then []
    else (if rs[0].judgeResult == "ERROR" then [] else [rs[0]]) + Written(rs[1..])
  }

  function CorrectIn(rs: seq<ResultRecord>): nat
    decreases |rs|
  {
    if |rs| == 0 then 0
    else (if rs[0].judgeResult == "CORRECT" then 1 else 0) + CorrectIn(rs[1..])
  }

  function EncodeAll(rs: seq<ResultRecord>, encode: Encoder): seq<string>
    decreases |rs|
  {
    if |rs| == 0 then [] else [encode(rs[0])] + EncodeAll(rs[1..], encode)
  }

  /** Each result that is not an error is counted once, a correct one
      also as correct; each error is counted as failed. */
  lemma {:induction false} DrainCounts(d: Drained, rs: seq<ResultRecord>, encode: Encoder, header: HeaderMaker)
    requires CursorInFile(d)
    ensures var e := DrainFrom(d, rs, encode, header);
      && e.total == d.total + |Written(rs)|
      && e.correct == d.correct + CorrectIn(Written(rs))
      && e.failed == d.failed + |rs| - |Written(rs)|
    decreases |rs|
  {
    if |rs| > 0 {
      var d1 := DrainStep(d, rs[0], encode, header);
      DrainCounts(d1, rs[1..], encode, header);
      assert DrainFrom(d, rs, encode, header) == DrainFrom(d1, rs[1..], encode, header);
      if rs[0].judgeResult != "ERROR" {
        var w1 := Written(rs[1..]);
        assert Written(rs) == [rs[0]] + w1;
        assert ([rs[0]] + w1)[1..] == w1;
        assert CorrectIn([rs[0]] + w1) == (if rs[0].judgeResult == "CORRECT" then 1 else 0) + CorrectIn(w1);
      } else {
        assert [] + Written(rs[1..]) == Written(rs[1..]);
        assert Written(rs) == Written(rs[1..]);
      }
    }
  }

  /** A file that is a header and a body, with the cursor at its end, ends
      up as the header for the final counts, the same body, then one line
      per result that is not an error, in arrival order; errors are only
      counted. Headers keep their width while the counts stay below 10^47,
      so rewriting one never reaches the body. */
  lemma {:induction false} DrainLayout(body: string, correct0: nat, total0: nat, failed0: nat,
                                       rs: seq<ResultRecord>, encode: Encoder, header: HeaderMaker, width: nat)
    requires FixedWidth(header, width)
    requires correct0 <= total0 && total0 + |rs| < CountBound
    ensures var content := header(correct0, total0) + body;
      var d := DrainFrom(Drained(content, |content|, correct0, total0, failed0), rs, encode, header);
      && d.content == header(d.correct, d.total) + body + JoinLines(EncodeAll(Written(rs), encode))
      && d.pos == |d.content|
    decreases |rs|
  {
    var content := header(correct0, total0) + body;
    var d0 := Drained(content, |content|, correct0, total0, failed0);
    var d := DrainFrom(d0, rs, encode, header);
    if |rs| == 0 {
      assert body + JoinLines([]) == body;
    } else {
      var r := rs[0];
      var w1 := Written(rs[1..]);
      if r.judgeResult == "ERROR" {
        var d1 := Drained(content, |content|, correct0, total0, failed0 + 1);
        assert d == DrainFrom(d1, rs[1..], encode, header);
        DrainLayout(body, correct0, total0, failed0 + 1, rs[1..], encode, header, width);
        assert Written(rs) == w1;
      } else {
        var line := encode(r) + "\n";
        var c1 := correct0 + (if r.judgeResult == "CORRECT" then 1 else 0);
        var t1 := total0 + 1;
        var h1 := header(c1, t1);
        var d1 := Drained(h1 + (body + line), |h1 + (body + line)|, c1, t1, failed0);
        DrainStepAppends(header(correct0, total0), body, correct0, total0, failed0, r, encode, header);
        DrainLayout(body + line, c1, t1, failed0, rs[1..], encode, header, width);
        var j := JoinLines(EncodeAll(w1, encode));
        assert d == DrainFrom(d1, rs[1..], encode, header);
        WrittenLinesCons(rs, encode);
        Regroup(header(d.correct, d.total), body, line, j);
      }
    }
  }

  lemma CorrectInCons(rs: seq<ResultRecord>)
    requires |rs| > 0 && rs[0].judgeResult != "ERROR"
    ensures |Written(rs)| == 1 + |Written(rs[1..])|
    ensures CorrectIn(Written(rs)) == (if rs[0].judgeResult == "CORRECT" then 1 else 0) + CorrectIn(Written(rs[1..]))
  {
    var w1 := Written(rs[1..]);
    assert Written(rs) == [rs[0]] + w1;
    assert ([rs[0]] + w1)[1..] == w1;
  }

  lemma Regroup(h: string, body: string, line: string, j: string)
    ensures h + (body + line) + j == h + body + (line + j)
  {
  }

  /** The lines written for results that start with one that is not an
      error: its line, then the rest. */
  lemma WrittenLinesCons(rs: seq<ResultRecord>, encode: Encoder)
    requires |rs| > 0 && rs[0].judgeResult != "ERROR"
    ensures JoinLines(EncodeAll(Written(rs), encode))
         == encode(rs[0]) + "\n" + JoinLines(EncodeAll(Written(rs[1..]), encode))
  {
    var w1 := Written(rs[1..]);
    assert Written(rs) == [rs[0]] + w1;
    assert ([rs[0]] + w1)[1..] == w1;
    assert EncodeAll([rs[0]] + w1, encode) == [encode(rs[0])] + EncodeAll(w1, encode);
    JoinLinesAppend([encode(rs[0])], EncodeAll(w1, encode));
    JoinLinesOne(encode(rs[0]));
  }

  /** One result that is not an error, written to a file laid out as a
      header and a body: its line follows the body and the header for the
      new counts replaces the old one, when the two are as wide. */
  lemma DrainStepAppends(h: string, body: string, correct: nat, total: nat, failed: nat,
                         r: ResultRecord, encode: Encoder, header: HeaderMaker)
    requires r.judgeResult != "ERROR"
    requires |header(correct + (if r.judgeResult == "CORRECT" then 1 else 0), total + 1)| == |h|
    ensures var c1 := correct + (if r.judgeResult == "CORRECT" then 1 else 0);
      var h1 := header(c1, total + 1);
      var line := encode(r) + "\n";
      DrainStep(Drained(h + body, |h + body|, correct, total, failed), r, encode, header)
        == Drained(h1 + (body + line), |h1 + (body + line)|, c1, total + 1, failed)
  {
    var line := encode(r) + "\n";
    var c1 := correct + (if r.judgeResult == "CORRECT" then 1 else 0);
    OverwriteAtEnd(h + body, line);
    assert h + body + line == h + (body + line);
    OverwriteSameWidth(h, body + line, header(c1, total + 1));
  }

  /** A header for the counts after the results are drained, the kept
      lines, then the lines of the results that are not errors. */
  function LaidOut(e: Existing, arrived: seq<ResultRecord>, encode: Encoder, header: HeaderMaker): string {
    var w := Written(arrived);
    header(e.correct + CorrectIn(w), e.total + |w|) + JoinLines(e.lines) + JoinLines(EncodeAll(w, encode))
  }

  lemma LaidOutIs(x: string, e: Existing, arrived: seq<ResultRecord>, encode: Encoder, header: HeaderMaker,
                  correct: nat, total: nat)
    requires correct == e.correct + CorrectIn(Written(arrived)) && total == e.total + |Written(arrived)|
    requires x == header(correct, total) + JoinLines(e.lines) + JoinLines(EncodeAll(Written(arrived), encode))
    ensures x == LaidOut(e, arrived, encode, header)
  {
  }

  /** With nothing arriving the layout is the header and the kept lines. */
  lemma LaidOutEmpty(e: Existing, encode: Encoder, header: HeaderMaker)
    ensures LaidOut(e, [], encode, header) == header(e.correct, e.total) + JoinLines(e.lines)
  {
    assert JoinLines(e.lines) + JoinLines([]) == JoinLines(e.lines);
  }

  // ---------------------------------------------------------------------
  // run

  /** `make_header` with the clock it reads: the time it is called at is
      indexed by the total it is called with, which grows by one with each
      result written. */
  function HeaderAt(clock: nat -> Timestamp): HeaderMaker {
    (c: nat, t: nat) => MakeHeader(clock(t), c, t)
  }

  /** Every header with counts below 10^47 is 201 characters wide. */
  lemma HeaderAtWidth(clock: nat -> Timestamp)
    ensures FixedWidth(HeaderAt(clock), 201)
  {
    forall c: nat, t: nat | c <= t < CountBound ensures |HeaderAt(clock)(c, t)| == 201 {
      HeaderShape(clock(t), c, t);
    }
  }

  /** What `run` settles before it writes anything. */
  datatype Plan = Plan(modelCfg: ModelConfig, judgeCfg: ModelConfig, pending: seq<(int, Row)>)

  function ModelMissing(path: string, modelId: string): Error {
    Error("SystemExit", "--model-id not found in " + path + ": " + modelId)
  }

  function JudgeMissing(path: string): Error {
    Error("SystemExit", "Judge model " + DefaultJudgeModelId + " not found in " + path)
  }

  /** The models, the two configurations, the done ids and the pending rows,
      or the error that ends the run before the file is touched. */
  function Prepare(modelsPath: string, modelsDoc: Option<YamlValue>, env: map<string, string>, modelId: string,
                   questions: seq<CsvRow>, numTasks: Option<int>, present: bool, content: string,
                   parse: JsonParser): Result<Plan>
  {
    var models :- LoadModelsYaml(modelsPath, modelsDoc, env);
    if modelId !in models then Failure(ModelMissing(modelsPath, modelId))
    else if DefaultJudgeModelId !in models then Failure(JudgeMissing(modelsPath))
    else
      var done :- if present then DoneIdsFrom(FileLines(content), parse, {}) else Success({});
      var pending :- PendingRows(LoadQuestions(questions), done, numTasks);
      Success(Plan(models[modelId], models[DefaultJudgeModelId], pending))
  }

  /** The record each pending task returns, in the order of the rows. */
  function Results(plan: Plan, count: Tokenizer, read: DocReader, complete: Completer): seq<ResultRecord> {
    seq(|plan.pending|, i requires 0 <= i < |plan.pending| =>
      ProcessOneQuestion(plan.pending[i].1, plan.modelCfg, plan.judgeCfg, count, read,
                         DefaultContextLength, DefaultRetries, complete))
  }

  /** The lines kept from the file as it was, and their counts. */
  function ExistingOf(present: bool, content: string, parse: JsonParser): Existing {
    if present then FoldFrom(FileLines(content), parse, Existing([], 0, 0)) else Existing([], 0, 0)
  }

  /** The file `run` leaves: the header for the final counts, the kept
      lines, then one line per result that is not an error, in the order
      the results arrived. */
  function ResultsFile(e: Existing, arrived: seq<ResultRecord>, clock: nat -> Timestamp): string {
    LaidOut(e, arrived, EncodeRecord, HeaderAt(clock))
  }

  /** How `run` ends: it returns an exit code, or raises. */
  datatype Outcome = Exit(code: int) | Raised(error: Error)

  /** Any reordering of the results. */
  ghost predicate Reorders(order: seq<ResultRecord> -> seq<ResultRecord>) {
    forall s :: multiset(order(s)) == multiset(s)
  }

  /** Nothing arrives when nothing was started. */
  lemma ReorderEmpty(order: seq<ResultRecord> -> seq<ResultRecord>)
    requires Reorders(order)
    ensures order([]) == []
  {
    assert |order([])| == |multiset(order([]))|;
  }

  /** `run`. The models file, the questions, the environment, the existing
      results file and everything IO-bound are inputs; the results arrive
      in the order `order` gives. A run that raises leaves the file as it
      was; one that finds nothing to do and no file leaves none; any other
      run leaves the header for the final counts, the kept lines and the
      lines of the results that are not errors. */
  method Run(modelsPath: string, modelsDoc: Option<YamlValue>, env: map<string, string>, modelId: string,
             questions: seq<CsvRow>, numTasks: Option<int>, file: ResultFile, parse: JsonParser,
             count: Tokenizer, read: DocReader, complete: Completer, clock: nat -> Timestamp,
             order: seq<ResultRecord> -> seq<ResultRecord>)
    returns (r: Outcome)
    requires file.Valid() && Reorders(order)
    modifies file
    ensures file.Valid()
    ensures var plan := Prepare(modelsPath, modelsDoc, env, modelId, questions, numTasks,
                                old(file.present), old(file.content), parse);
      && (plan.Failure? ==> r == Raised(plan.error) && unchanged(file))
      && (plan.Success? ==> r == Exit(0))
      && (plan.Success? && plan.value.pending == [] && !old(file.present) ==> unchanged(file))
      && (plan.Success? && (plan.value.pending != [] || old(file.present)) ==>
            var e := ExistingOf(old(file.present), old(file.content), parse);
            && file.present
            && (e.total + |plan.value.pending| < CountBound ==>
                  file.content == ResultsFile(e, order(Results(plan.value, count, read, complete)), clock)))
  {
    ghost var plan := Prepare(modelsPath, modelsDoc, env, modelId, questions, numTasks, file.present, file.content, parse);
    var models := LoadModels(modelsPath, modelsDoc, env);
    if models.Failure? {
      return Raised(models.error);
    }
    if modelId !in models.value {
      return Raised(ModelMissing(modelsPath, modelId));
    }
    if DefaultJudgeModelId !in models.value {
      return Raised(JudgeMissing(modelsPath));
    }
    var modelCfg := models.value[modelId];
    var judgeCfg := models.value[DefaultJudgeModelId];
    var done := ScanDoneIds(file, parse);
    if done.Failure? {
      return Raised(done.error);
    }
    var pending := PendingRows(LoadQuestions(questions), done.value, numTasks);
    if pending.Failure? {
      return Raised(pending.error);
    }
    assert plan == Success(Plan(modelCfg, judgeCfg, pending.value));
    if |pending.value| == 0 && !file.present {
      return Exit(0);
    }
    var e := StartResults(file, parse, clock);
    var results := Results(Plan(modelCfg, judgeCfg, pending.value), count, read, complete);
    var arrived := order(results);
    assert |arrived| == |pending.value| by {
      assert |multiset(arrived)| == |multiset(results)|;
    }
    if |pending.value| == 0 {
      assert arrived == [] by {
        ReorderEmpty(order);
      }
      LaidOutEmpty(e, EncodeRecord, HeaderAt(clock));
      return Exit(0);
    }
    HeaderAtWidth(clock);
    AppendResults(file, e, arrived, EncodeRecord, HeaderAt(clock));
    r := Exit(0);
  }

  /** The fold over the file as it was and the rewrite that follows: the
      file then holds the header for the kept counts and the kept lines,
      with the cursor at its end. */
  method StartResults(file: ResultFile, parse: JsonParser, clock: nat -> Timestamp) returns (e: Existing)
    requires file.Valid()
    modifies file
    ensures e == ExistingOf(old(file.present), old(file.content), parse)
    ensures KeptWell(e, parse)
    ensures file.Valid() && file.present
    ensures file.content == HeaderAt(clock)(e.correct, e.total) + JoinLines(e.lines)
    ensures file.pos == |file.content|
  {
    ExistingCounts(file.present, file.content, parse);
    e := FoldExisting(file, parse);
    RewriteFile(file, HeaderAt(clock)(e.correct, e.total), e.lines);
  }

  /** The drain into a file that holds a header and the kept lines, for
      any encoder and any header maker whose headers keep one width. */
  method AppendResults(file: ResultFile, e: Existing, arrived: seq<ResultRecord>,
                       encode: Encoder, header: HeaderMaker)
    requires file.Valid() && file.present && e.correct <= e.total
    requires FixedWidth(header, 201)
    requires file.content == header(e.correct, e.total) + JoinLines(e.lines)
    modifies file
    ensures file.Valid() && file.present
    ensures e.total + |arrived| < CountBound ==> file.content == LaidOut(e, arrived, encode, header)
  {
    file.SeekEnd();
    var correct, total, failed := Drain(file, arrived, e.correct, e.total, encode, header);
    if e.total + |arrived| < CountBound {
      RunLayout(e, arrived, encode, header);
    }
  }

  /** The kept lines are counted, and no more of them correct than there
      are. */
  lemma ExistingCounts(present: bool, content: string, parse: JsonParser)
    ensures KeptWell(ExistingOf(present, content, parse), parse)
  {
    if present {
      FoldKeepsWell(FileLines(content), parse, Existing([], 0, 0));
    }
  }

  /** Draining into the rewritten file gives the header for the final
      counts, the kept lines and the lines written. */
  lemma RunLayout(e: Existing, arrived: seq<ResultRecord>, encode: Encoder, header: HeaderMaker)
    requires e.correct <= e.total && e.total + |arrived| < CountBound
    requires FixedWidth(header, 201)
    ensures var content := header(e.correct, e.total) + JoinLines(e.lines);
      DrainFrom(Drained(content, |content|, e.correct, e.total, 0), arrived, encode, header).content
        == LaidOut(e, arrived, encode, header)
  {
    var body := JoinLines(e.lines);
    var content := header(e.correct, e.total) + body;
    var d0 := Drained(content, |content|, e.correct, e.total, 0);
    var d := DrainFrom(d0, arrived, encode, header);
    var w := Written(arrived);
    var j := JoinLines(EncodeAll(w, encode));
    assert d.content == header(d.correct, d.total) + body + j by {
      DrainLayout(body, e.correct, e.total, 0, arrived, encode, header, 201);
    }
    assert d.correct == e.correct + CorrectIn(w) && d.total == e.total + |w| by {
      DrainCounts(d0, arrived, encode, header);
    }
    LaidOutIs(d.content, e, arrived, encode, header, d.correct, d.total);
  }
}
