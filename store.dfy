/** The results file: its text, the cursor the program writes at, and the
    fixed-width statistics header kept on its first line. */
module Store {
  import opened Base
  import opened Text
  import opened Records

  /** Writing `s` at position `p` of `c`: the text before `p` is kept, the
      next |s| characters are replaced, and the file grows when `s` runs
      past its end. */
  function Overwrite(c: string, p: nat, s: string): (r: string)
    requires p <= |c|
    ensures |r| == Max(|c|, p + |s|)
  {
    c[..p] + s + (if p + |s| < |c| then c[p + |s|..] else "")
  }

  /** Writing at the end appends. */
  lemma OverwriteAtEnd(c: string, s: string)
    ensures Overwrite(c, |c|, s) == c + s
  {
    assert c[..|c|] == c;
  }

  /** Writing a text of the same width over the start of the file replaces
      exactly that text and keeps everything after it. */
  lemma OverwriteSameWidth(h: string, b: string, h': string)
    requires |h'| == |h|
    ensures Overwrite(h + b, 0, h') == h' + b
  {
    var c := h + b;
    if |h'| < |c| {
      assert c[|h'|..] == b;
    } else {
      assert b == [];
    }
    assert c[..0] == [];
  }

  /** `open(path, ...)` on the results file, with the cursor of the open
      handle. A file that does not exist reads as empty. */
  class ResultFile {
    var present: bool
    var content: string
    var pos: nat

    predicate Valid()
      reads this
    {
      pos <= |content| && (!present ==> content == "")
    }

    constructor (present: bool, content: string)
      ensures this.present == present
      ensures this.content == (if present then content else "")
      ensures pos == 0
      ensures Valid()
    {
      this.present := present;
      this.content := if present then content else "";
      this.pos := 0;
    }

    /** Mode "w": the file is created or emptied. */
    method Truncate()
      modifies this
      ensures present && content == "" && pos == 0
      ensures Valid()
    {
      present := true;
      content := "";
      pos := 0;
    }

    /** `f.write(s)` at the cursor, which then moves past `s`. */
    method Write(s: string)
      requires Valid() && present
      modifies this
      ensures present
      ensures content == Overwrite(old(content), old(pos), s)
      ensures pos == old(pos) + |s|
      ensures Valid()
    {
      content := Overwrite(content, pos, s);
      pos := pos + |s|;
    }

    /** `f.seek(p)`. */
    method Seek(p: nat)
      requires Valid() && p <= |content|
      modifies this
      ensures present == old(present) && content == old(content)
      ensures pos == p
      ensures Valid()
    {
      pos := p;
    }

    /** `f.seek(0, 2)`: the cursor moves to the end. */
    method SeekEnd()
      requires Valid()
      modifies this
      ensures present == old(present) && content == old(content)
      ensures pos == |content|
      ensures Valid()
    {
      pos := |content|;
    }

    /** `f.tell()`. */
    method Tell() returns (p: nat)
      ensures p == pos
    {
      p := pos;
    }
  }

  // ---------------------------------------------------------------------
  // The statistics header

  /** `correct / total * 100` in hundredths, rounded to the nearest with
      ties to the even neighbour; 0 when nothing has been counted. */
  function Hundredths(correct: nat, total: nat): nat {
    if total == 0 then 0
    else
      var q := 10000 * correct / total;
      var rem := 10000 * correct % total;
      if 2 * rem > total || (2 * rem == total && q % 2 == 1) then q + 1 else q
  }

  function Abs(x: int): nat {
    if x < 0 then -x else x
  }

  /** The hundredths shown are the nearest to the exact percentage (within
      half a hundredth), an exact tie goes to the even neighbour, and a
      share of at most one is at most 100.00. */
  lemma HundredthsNearest(correct: nat, total: nat)
    ensures var h := Hundredths(correct, total);
      && (total > 0 ==> 2 * Abs(h * total - 10000 * correct) <= total)
      && (total > 0 && 2 * Abs(h * total - 10000 * correct) == total ==> h % 2 == 0)
      && (total == 0 ==> h == 0)
      && (correct <= total ==> h <= 10000)
  {
    if total > 0 {
      var x := 10000 * correct;
      var q := x / total;
      var rem := x % total;
      assert x == q * total + rem;
      RoundingError(q, rem, total, x, Hundredths(correct, total));
      QuotientBound(correct, total, q, rem);
    }
  }

  lemma RoundingError(q: nat, rem: nat, total: nat, x: nat, h: nat)
    requires total > 0 && rem < total && x == q * total + rem
    requires h == if 2 * rem > total || (2 * rem == total && q % 2 == 1) then q + 1 else q
    ensures 2 * Abs(h * total - x) <= total
    ensures 2 * Abs(h * total - x) == total ==> h % 2 == 0
  {
    if h == q + 1 {
      assert h * total == q * total + total;
      assert h * total - x == total - rem;
    } else {
      assert x - h * total == rem;
    }
  }

  lemma MulMonotone(a: nat, b: nat, t: nat)
    requires a <= b
    ensures a * t <= b * t
  {
    assert b * t - a * t == (b - a) * t;
  }

  lemma QuotientBound(correct: nat, total: nat, q: nat, rem: nat)
    requires 0 < total && rem < total
    requires 10000 * correct == q * total + rem
    ensures correct <= total ==> q < 10000 || (q == 10000 && rem == 0)
  {
    if correct <= total {
      MulMonotone(correct, total, 10000);
      assert q * total + rem <= 10000 * total;
      if q > 10000 {
        MulMonotone(10001, q, total);
      }
    }
  }

  /** `f"{acc:.2f}%"` for the accuracy in percent. */
  function AccuracyText(correct: nat, total: nat): string {
    var h := Hundredths(correct, total);
    NatToString(h / 100) + "." + [DigitChar(h % 100 / 10), DigitChar(h % 10)] + "%"
  }

  predicate StampChar(c: char) {
    IsDigit(c) || c == '.' || c == '%' || c == '-' || c == ':' || c == ' '
  }

  predicate StampText(s: string) {
    forall i :: 0 <= i < |s| ==> StampChar(s[i])
  }

  /** An accuracy never exceeds "100.00%": at most seven characters, all
      digits, a point and the percent sign. */
  lemma AccuracyTextShape(correct: nat, total: nat)
    requires correct <= total
    ensures |AccuracyText(correct, total)| <= 7
    ensures StampText(AccuracyText(correct, total))
  {
    var h := Hundredths(correct, total);
    HundredthsNearest(correct, total);
    NatToStringLength(h / 100, 3);
  }

  /** The time of day as `strftime("%Y-%m-%d %H:%M:%S")` writes it. */
  type Timestamp = s: string | |s| == 19 && StampText(s) witness "1970-01-01 00:00:00"

  /** `json.dumps` of the statistics dictionary. */
  function HeaderJson(accuracy: string, updatedAt: string, correct: nat, total: nat): string {
    "{\"_meta_stats\": true, \"accuracy\": \"" + accuracy
    + "\", \"correct\": " + NatToString(correct)
    + ", \"total\": " + NatToString(total)
    + ", \"updated_at\": \"" + updatedAt + "\"}"
  }

  /** `f"{s:<w}"`: padded with spaces to at least `w` characters. */
  function PadRight(s: string, w: nat): (r: string)
    ensures |r| == Max(|s|, w)
    ensures r[..|s|] == s && AllSpace(r[|s|..])
  {
    if |s| >= w then s else s + seq(w - |s|, _ => ' ')
  }

  /** `make_header(correct, total)`. */
  function MakeHeader(updatedAt: Timestamp, correct: nat, total: nat): string {
    PadRight(HeaderJson(AccuracyText(correct, total), updatedAt, correct, total), 200) + "\n"
  }

  /** The dictionary `json.loads` reads back from the header line. */
  function HeaderObject(updatedAt: Timestamp, correct: nat, total: nat): (o: JsonObject)
    ensures "_meta_stats" in o && "question_id" !in o && "judge_result" !in o
  {
    map["_meta_stats" := JBool(true),
        "accuracy" := JStr(AccuracyText(correct, total)),
        "correct" := JInt(correct),
        "total" := JInt(total),
        "updated_at" := JStr(updatedAt)]
  }

  lemma HeaderJsonLength(accuracy: string, updatedAt: string, correct: nat, total: nat)
    ensures |HeaderJson(accuracy, updatedAt, correct, total)|
         == 79 + |accuracy| + |updatedAt| + |NatToString(correct)| + |NatToString(total)|
  {
  }

  lemma StampNoNewline(s: string)
    requires StampText(s)
    ensures NoNewline(s)
  {
  }

  lemma HeaderJsonOneLine(accuracy: string, updatedAt: string, correct: nat, total: nat)
    requires StampText(accuracy) && StampText(updatedAt)
    ensures NoNewline(HeaderJson(accuracy, updatedAt, correct, total))
  {
    var c := NatToString(correct);
    var t := NatToString(total);
    var p0 := "{\"_meta_stats\": true, \"accuracy\": \"";
    var p1 := "\", \"correct\": ";
    var p2 := ", \"total\": ";
    var p3 := ", \"updated_at\": \"";
    var p4 := "\"}";
    assert NoNewline(p0) && NoNewline(p1) && NoNewline(p2) && NoNewline(p3) && NoNewline(p4);
    assert NoNewline(c) && NoNewline(t);
  }

  /** The first 200 characters of a header: the padded JSON text. */
  function HeaderLine(updatedAt: Timestamp, correct: nat, total: nat): string {
    PadRight(HeaderJson(AccuracyText(correct, total), updatedAt, correct, total), 200)
  }

  /** Counts below 10^47 have at most 47 digits. */
  const CountBound: nat := 100000000000000000000000000000000000000000000000

  lemma CountBoundDigits()
    ensures CountBound == Pow10(47)
  {
    assert Pow10(5) == 100000;
    assert Pow10(2) == 100;
    Pow10Add(5, 5);
    Pow10Add(10, 10);
    Pow10Add(20, 20);
    Pow10Add(40, 5);
    Pow10Add(45, 2);
  }

  /** While the counts have fewer than 48 digits the header is exactly 201
      characters, so rewriting it never reaches the first result line; its
      line holds no break and strips back to the JSON text. */
  lemma HeaderShape(updatedAt: Timestamp, correct: nat, total: nat)
    requires correct <= total < CountBound
    ensures MakeHeader(updatedAt, correct, total) == HeaderLine(updatedAt, correct, total) + "\n"
    ensures |MakeHeader(updatedAt, correct, total)| == 201
    ensures NoNewline(HeaderLine(updatedAt, correct, total))
    ensures Strip(HeaderLine(updatedAt, correct, total))
         == HeaderJson(AccuracyText(correct, total), updatedAt, correct, total)
  {
    var acc := AccuracyText(correct, total);
    AccuracyTextShape(correct, total);
    HeaderJsonFits(acc, updatedAt, correct, total);
    HeaderJsonOneLine(acc, updatedAt, correct, total);
    PaddedShape(HeaderJson(acc, updatedAt, correct, total));
  }

  lemma HeaderJsonFits(accuracy: string, updatedAt: Timestamp, correct: nat, total: nat)
    requires |accuracy| <= 7 && correct <= total < CountBound
    ensures |HeaderJson(accuracy, updatedAt, correct, total)| <= 200
  {
    HeaderJsonLength(accuracy, updatedAt, correct, total);
    CountBoundDigits();
    NatToStringLength(total, 47);
    NatToStringLength(correct, 47);
  }

  /** A one-line object text padded to 200 characters keeps its line and
      strips back to itself. */
  lemma PaddedShape(j: string)
    requires 2 <= |j| <= 200 && NoNewline(j) && j[0] == '{' && j[|j| - 1] == '}'
    ensures |PadRight(j, 200)| == 200
    ensures NoNewline(PadRight(j, 200))
    ensures Strip(PadRight(j, 200)) == j
  {
    var line := PadRight(j, 200);
    var pad := line[|j|..];
    assert line == j + pad;
    forall k | 0 <= k < |line| ensures line[k] != '\n' {
      if k >= |j| {
        assert line[k] == pad[k - |j|];
        assert IsSpace(pad[k - |j|]);
      }
    }
    StripKeepsTrimmed(j);
    StripIgnoresSurroundingSpace("", j, pad);
    assert "" + j + pad == line;
  }
}
