/** Result records and the JSON text they are stored as: one object per
    line, written the way `json.dumps(result, ensure_ascii=False)` writes
    it (keys in insertion order, ", " and ": " as separators). */
module Records {
  import opened Base
  import opened Text

  /** The optional last key of a record. */
  datatype Extra = NoExtra | SkippedReason(reason: string) | ErrorText(error: string)

  /** The dictionary `process_one_question` returns. */
  datatype ResultRecord = ResultRecord(
    questionId: string,
    question: string,
    goldAnswer: string,
    llmAnswer: string,
    judgeResult: string,
    promptToken: int,
    completionToken: int,
    extra: Extra)

  /** A JSON value as `json.loads` hands it back. `JNested` is any other
      value (a list, an object or a float such as `3.0`), carried as the
      text Python's `str` gives for it (`"3.0"` for that float). */
  datatype JsonValue = JStr(s: string) | JInt(i: int) | JBool(b: bool) | JNull | JNested(text: string)

  type JsonObject = map<string, JsonValue>

  /** `json.loads` on one stripped line; its failure is the decode error. */
  type JsonParser = string -> Result<JsonObject>

  /** Python's `str(v)` on a decoded value. */
  function PyStr(v: JsonValue): string {
    match v
    case JStr(s) => s
    case JInt(i) => IntToString(i)
    case JBool(b) => if b then "True" else "False"
    case JNull => "None"
    case JNested(t) => t
  }

  // ---------------------------------------------------------------------
  // String escaping with ensure_ascii=False

  const HexDigits := "0123456789abcdef"

  /** How one character appears inside a JSON string literal: the quote,
      the backslash and the control characters are escaped, everything
      else (non-ASCII included) is written as is. */
  function EscapeChar(c: char): (r: string)
    ensures 1 <= |r| <= 6
  {
    if c == '"' then "\\\""
    else if c == '\\' then "\\\\"
    else if c == '\n' then "\\n"
    else if c == '\r' then "\\r"
    else if c == '\t' then "\\t"
    else if c == '\U{8}' then "\\b"
    else if c == '\U{C}' then "\\f"
    else if c < ' ' then "\\u00" + [HexDigits[c as int / 16], HexDigits[c as int % 16]]
    else [c]
  }

  function Escape(s: string): string {
    if |s| == 0 then "" else EscapeChar(s[0]) + Escape(s[1..])
  }

  function JsonString(s: string): string {
    "\"" + Escape(s) + "\""
  }

  /** A character that may stand for itself inside a JSON string literal. */
  predicate Plain(c: char) {
    c != '"' && c != '\\' && c >= ' '
  }

  /** The escaped text holds only plain characters besides its escapes: no
      control character and so no line break. */
  lemma {:induction false} EscapeIsPlainOrEscaped(s: string)
    ensures forall k :: 0 <= k < |Escape(s)| ==> Escape(s)[k] >= ' '
  {
    if |s| > 0 {
      EscapeIsPlainOrEscaped(s[1..]);
      var e := EscapeChar(s[0]);
      var t := Escape(s[1..]);
      assert forall k :: 0 <= k < |e| ==> e[k] >= ' ';
      assert Escape(s) == e + t;
      forall k | 0 <= k < |e + t| ensures (e + t)[k] >= ' ' {
        if k >= |e| {
          assert (e + t)[k] == t[k - |e|];
        }
      }
    }
  }

  function HexValue(c: char): Option<nat> {
    if '0' <= c <= '9' then Some(c as int - '0' as int)
    else if 'a' <= c <= 'f' then Some(c as int - 'a' as int + 10)
    else if 'A' <= c <= 'F' then Some(c as int - 'A' as int + 10)
    else None
  }

  /** The code written by four hexadecimal digits. */
  function Hex4(t: string): Option<nat>
    requires |t| == 4
  {
    match (HexValue(t[0]), HexValue(t[1]), HexValue(t[2]), HexValue(t[3]))
    case (Some(a), Some(b), Some(c), Some(d)) => Some(((a * 16 + b) * 16 + c) * 16 + d)
    case _ => None
  }

  /** The body of a JSON string literal read back into the text it stands
      for; `None` when it is not a well-formed body. Surrogate escapes are
      refused (they are never written here). */
  function Unescape(t: string): Option<string>
    decreases |t|
  {
    if |t| == 0 then Some("")
    else if t[0] == '\\' then
      if |t| < 2 then None
      else
        var c :=
          if t[1] == '"' then Some('"')
          else if t[1] == '\\' then Some('\\')
          else if t[1] == '/' then Some('/')
          else if t[1] == 'n' then Some('\n')
          else if t[1] == 'r' then Some('\r')
          else if t[1] == 't' then Some('\t')
          else if t[1] == 'b' then Some('\U{8}')
          else if t[1] == 'f' then Some('\U{C}')
          else None;
        if c.Some? then
          match Unescape(t[2..])
          case Some(u) => Some([c.value] + u)
          case None => None
        else if t[1] == 'u' && |t| >= 6 then
          match Hex4(t[2..6])
          case Some(n) =>
            if n < 0xD800 || 0xE000 <= n < 0x11_0000 then
              match Unescape(t[6..])
              case Some(u) => Some([n as char] + u)
              case None => None
            else None
          case None => None
        else None
    else if !Plain(t[0]) then None
    else
      match Unescape(t[1..])
      case Some(u) => Some([t[0]] + u)
      case None => None
  }

  lemma EscapeCharUnescape(c: char, rest: string)
    ensures Unescape(EscapeChar(c) + rest)
         == match Unescape(rest)
            case Some(u) => Some([c] + u)
            case None => None
  {
    var e := EscapeChar(c);
    var t := e + rest;
    if c < ' ' && c != '\n' && c != '\r' && c != '\t' && c != '\U{8}' && c != '\U{C}' {
      ControlUnescape(c, rest);
    } else if |e| == 2 {
      assert t[2..] == rest;
    } else {
      assert t[1..] == rest;
    }
  }

  lemma ControlUnescape(c: char, rest: string)
    requires c < ' '
    ensures var t := "\\u00" + [HexDigits[c as int / 16], HexDigits[c as int % 16]] + rest;
      Unescape(t) == match Unescape(rest)
                     case Some(u) => Some([c] + u)
                     case None => None
  {
    var n := c as int;
    var t := "\\u00" + [HexDigits[n / 16], HexDigits[n % 16]] + rest;
    assert t[0] == '\\' && t[1] == 'u';
    assert t[2..6] == ['0', '0', HexDigits[n / 16], HexDigits[n % 16]];
    assert HexValue(HexDigits[n / 16]) == Some(n / 16);
    assert HexValue(HexDigits[n % 16]) == Some(n % 16);
    assert Hex4(t[2..6]) == Some(n);
    assert t[6..] == rest;
  }

  /** Reading an escaped text back gives the text: escaping loses nothing. */
  lemma {:induction false} UnescapeEscape(s: string)
    ensures Unescape(Escape(s)) == Some(s)
  {
    if |s| > 0 {
      UnescapeEscape(s[1..]);
      EscapeCharUnescape(s[0], Escape(s[1..]));
      assert [s[0]] + s[1..] == s;
    }
  }

  /** Two texts with the same escaped form are the same text. */
  lemma EscapeInjective(s: string, t: string)
    requires Escape(s) == Escape(t)
    ensures s == t
  {
    UnescapeEscape(s);
    UnescapeEscape(t);
  }

  // ---------------------------------------------------------------------
  // Record lines

  /** A value a record stores: text or a whole number. */
  datatype Field = FStr(s: string) | FInt(i: int)

  function EncodeField(f: Field): string {
    match f
    case FStr(s) => JsonString(s)
    case FInt(i) => IntToString(i)
  }

  /** The record's keys and values in the order the dictionary holds them. */
  function Fields(r: ResultRecord): (fs: seq<(string, Field)>)
    ensures |fs| == if r.extra.NoExtra? then 7 else 8
  {
    [("question_id", FStr(r.questionId)),
     ("question", FStr(r.question)),
     ("gold_answer", FStr(r.goldAnswer)),
     ("llm_answer", FStr(r.llmAnswer)),
     ("judge_result", FStr(r.judgeResult)),
     ("prompt_token", FInt(r.promptToken)),
     ("completion_token", FInt(r.completionToken))]
    + match r.extra
      case NoExtra => []
      case SkippedReason(s) => [("skipped_reason", FStr(s))]
      case ErrorText(s) => [("error", FStr(s))]
  }

  function EncodeMembers(fs: seq<(string, Field)>): string {
    if |fs| == 0 then ""
    else
      var m := JsonString(fs[0].0) + ": " + EncodeField(fs[0].1);
      if |fs| == 1 then m else m + ", " + EncodeMembers(fs[1..])
  }

  /** The line `json.dumps(result, ensure_ascii=False)` writes. */
  function EncodeRecord(r: ResultRecord): string {
    "{" + EncodeMembers(Fields(r)) + "}"
  }

  /** The dictionary `json.loads` reads back from a record line. */
  function RecordObject(r: ResultRecord): (o: JsonObject)
    ensures "question_id" in o && o["question_id"] == JStr(r.questionId)
    ensures "judge_result" in o && o["judge_result"] == JStr(r.judgeResult)
    ensures "_meta_stats" !in o
  {
    var base := map[
      "question_id" := JStr(r.questionId),
      "question" := JStr(r.question),
      "gold_answer" := JStr(r.goldAnswer),
      "llm_answer" := JStr(r.llmAnswer),
      "judge_result" := JStr(r.judgeResult),
      "prompt_token" := JInt(r.promptToken),
      "completion_token" := JInt(r.completionToken)];
    match r.extra
    case NoExtra => base
    case SkippedReason(s) => base["skipped_reason" := JStr(s)]
    case ErrorText(s) => base["error" := JStr(s)]
  }

  predicate NoNewline(s: string) {
    '\n' !in s
  }

  lemma EncodeFieldOneLine(f: Field)
    ensures NoNewline(EncodeField(f))
  {
    match f
    case FStr(s) =>
      EscapeIsPlainOrEscaped(s);
    case FInt(i) =>
      var t := IntToString(i);
      if i < 0 {
        assert t == "-" + NatToString(-i);
        assert forall k :: 1 <= k < |t| ==> t[k] == NatToString(-i)[k - 1];
      }
  }

  lemma {:induction false} EncodeMembersOneLine(fs: seq<(string, Field)>)
    ensures NoNewline(EncodeMembers(fs))
  {
    if |fs| > 0 {
      EncodeFieldOneLine(FStr(fs[0].0));
      EncodeFieldOneLine(fs[0].1);
      var m := JsonString(fs[0].0) + ": " + EncodeField(fs[0].1);
      if |fs| > 1 {
        EncodeMembersOneLine(fs[1..]);
      }
    }
  }

  /** A record is written on one line, and reading the line back with
      surrounding whitespace stripped gives the same text. */
  lemma EncodeRecordShape(r: ResultRecord)
    ensures NoNewline(EncodeRecord(r))
    ensures Strip(EncodeRecord(r)) == EncodeRecord(r)
  {
    ObjectLineShape(Fields(r));
  }

  lemma ObjectLineShape(fs: seq<(string, Field)>)
    ensures var e := "{" + EncodeMembers(fs) + "}";
      NoNewline(e) && Strip(e) == e
  {
    var m := EncodeMembers(fs);
    EncodeMembersOneLine(fs);
    var e := "{" + m + "}";
    assert e[0] == '{' && e[|e| - 1] == '}';
    StripKeepsTrimmed(e);
  }
}
