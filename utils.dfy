/** The model-call layer: endpoint configuration, `${NAME}` expansion in
    configuration values, and one chat-completion call with bounded
    retries over a streamed response. */
module Utils {
  import opened Base
  import opened Text

  /** A value read from the YAML model configuration. Values the model
      does not look inside (floats, dates, ...) carry their Python type
      name, the text `str` gives for them, their truth value and what
      `int()` gives for them; lists and mappings carry their `str` text. */
  datatype YamlValue =
    | YStr(s: string)
    | YInt(i: int)
    | YBool(b: bool)
    | YNull
    | YList(items: seq<YamlValue>, text: string)
    | YMap(entries: map<string, YamlValue>, text: string)
    | YOther(typeName: string, text: string, truthy: bool, asInt: Result<int>)

  /** One model endpoint.  The temperature is kept as the configuration
      text it was read from; `extraBody` holds provider-specific request
      options, present only when the configuration gave a mapping. */
  datatype ModelConfig = ModelConfig(
    modelId: string,
    temperature: string,
    baseUrl: string,
    apiKey: string,
    extraBody: Option<map<string, YamlValue>>,
    maxTokens: int)

  /** Token counters reported by the provider for one exchange. */
  datatype Usage = Usage(promptTokens: int, completionTokens: int)

  /** What one successful call returns: the response text and its usage. */
  datatype Completion = Completion(content: string, usage: Usage)

  /** The tokenizer: the number of tokens of a text, or the error it raises. */
  type Tokenizer = string -> Result<nat>

  /** A chat-completion call `(config, prompt, max_tokens, retries)`; the
      outcome `CallChatCompletion` computes from the attempts it makes. */
  type Completer = (ModelConfig, string, int, int) -> Result<Completion>

  // ---------------------------------------------------------------------
  // `${NAME}` expansion: the pattern \$\{([A-Z0-9_]+)\}

  predicate IsNameChar(c: char) {
    'A' <= c <= 'Z' || '0' <= c <= '9' || c == '_'
  }

  /** Length of the longest run of name characters starting at `i`. */
  function NameRun(s: string, i: nat): (n: nat)
    requires i <= |s|
    ensures i + n <= |s|
    ensures forall k :: i <= k < i + n ==> IsNameChar(s[k])
    ensures i + n == |s| || !IsNameChar(s[i + n])
    decreases |s| - i
  {
    if i < |s| && IsNameChar(s[i]) then 1 + NameRun(s, i + 1) else 0
  }

  /** A reference `${NAME}` starts at position `i`. */
  predicate RefAt(s: string, i: nat) {
    && i + 2 <= |s|
    && s[i] == '$' && s[i + 1] == '{'
    && NameRun(s, i + 2) > 0
    && i + 2 + NameRun(s, i + 2) < |s|
    && s[i + 2 + NameRun(s, i + 2)] == '}'
  }

  function RefName(s: string, i: nat): string
    requires RefAt(s, i)
  {
    s[i + 2..i + 2 + NameRun(s, i + 2)]
  }

  /** The position just after the closing brace of the reference at `i`. */
  function RefEnd(s: string, i: nat): (e: nat)
    requires RefAt(s, i)
    ensures i + 4 <= e <= |s|
  {
    i + 3 + NameRun(s, i + 2)
  }

  /** `os.environ.get(name)` is truthy: set and not empty. */
  predicate IsSet(env: map<string, string>, name: string) {
    name in env && env[name] != ""
  }

  function Prepend(prefix: string, r: Result<string>): (r': Result<string>)
    ensures r'.Success? == r.Success?
  {
    match r
    case Success(v) => Success(prefix + v)
    case Failure(e) => Failure(e)
  }

  /** `expand_env_vars(s[i..])` against the environment `env`: every
      reference is replaced by the variable's value, left to right; the
      first reference to a variable that is unset or empty raises. */
  function ExpandFrom(s: string, env: map<string, string>, i: nat): Result<string>
    requires i <= |s|
    decreases |s| - i
  {
    if i == |s| then Success("")
    else if RefAt(s, i) then
      var name := RefName(s, i);
      if IsSet(env, name) then Prepend(env[name], ExpandFrom(s, env, RefEnd(s, i)))
      else Failure(Error("RuntimeError", "Env var " + name + " not set"))
    else Prepend([s[i]], ExpandFrom(s, env, i + 1))
  }

  function ExpandEnvVars(s: string, env: map<string, string>): Result<string> {
    ExpandFrom(s, env, 0)
  }

  /** Inside a reference there is no `$`, so no other reference starts there. */
  lemma NoRefInsideRef(s: string, i: nat, j: nat)
    requires RefAt(s, i) && i < j < RefEnd(s, i)
    ensures !RefAt(s, j)
  {
    if j > i + 1 && j < RefEnd(s, i) - 1 {
      assert IsNameChar(s[j]);
    }
  }

  /** Expansion fails exactly when some reference names a variable that is
      unset or empty. */
  lemma {:induction false} ExpandFailsIffUnset(s: string, env: map<string, string>, i: nat)
    requires i <= |s|
    ensures ExpandFrom(s, env, i).Failure?
        <==> exists j :: i <= j < |s| && RefAt(s, j) && !IsSet(env, RefName(s, j))
    decreases |s| - i
  {
    if i < |s| {
      if RefAt(s, i) {
        if IsSet(env, RefName(s, i)) {
          var e := RefEnd(s, i);
          ExpandFailsIffUnset(s, env, e);
          forall j | i <= j < e
            ensures !(RefAt(s, j) && !IsSet(env, RefName(s, j)))
          {
            if j > i { NoRefInsideRef(s, i, j); }
          }
        }
      } else {
        ExpandFailsIffUnset(s, env, i + 1);
      }
    }
  }

  /** Text without references passes through unchanged. */
  lemma {:induction false} ExpandLiteral(s: string, env: map<string, string>, i: nat, j: nat)
    requires i <= j <= |s|
    requires forall k :: i <= k < j ==> !RefAt(s, k)
    ensures ExpandFrom(s, env, i) == Prepend(s[i..j], ExpandFrom(s, env, j))
    decreases j - i
  {
    if i < j {
      ExpandLiteral(s, env, i + 1, j);
      assert [s[i]] + s[i + 1..j] == s[i..j];
      match ExpandFrom(s, env, j)
      case Success(v) => assert [s[i]] + (s[i + 1..j] + v) == s[i..j] + v;
      case Failure(_) =>
    } else {
      match ExpandFrom(s, env, j)
      case Success(v) => assert s[i..j] + v == v;
      case Failure(_) =>
    }
  }

  /** A string with no reference in it is returned unchanged. */
  lemma ExpandWithoutRefs(s: string, env: map<string, string>)
    requires forall k :: 0 <= k < |s| ==> !RefAt(s, k)
    ensures ExpandEnvVars(s, env) == Success(s)
  {
    ExpandLiteral(s, env, 0, |s|);
    assert s[0..|s|] + "" == s;
  }

  /** A set reference is replaced by its value; the text around it is kept. */
  lemma ExpandOneRef(pre: string, name: string, post: string, env: map<string, string>)
    requires forall k :: 0 <= k < |pre| ==> pre[k] != '$'
    requires |name| > 0 && forall k :: 0 <= k < |name| ==> IsNameChar(name[k])
    requires IsSet(env, name)
    ensures ExpandEnvVars(pre + "${" + name + "}" + post, env)
         == Prepend(pre + env[name], ExpandEnvVars(post, env))
  {
    var s := pre + "${" + name + "}" + post;
    var p := |pre|;
    RefIn(pre, name, post);
    ExpandLiteral(s, env, 0, p);
    assert s[0..p] == pre;
    ExpandShift(post, s, env, 0, RefEnd(s, p));
    match ExpandFrom(post, env, 0)
    case Success(v) => assert pre + (env[name] + v) == pre + env[name] + v;
    case Failure(_) =>
  }

  /** Where a reference sits in a string built around it. */
  lemma RefIn(pre: string, name: string, post: string)
    requires |name| > 0 && forall k :: 0 <= k < |name| ==> IsNameChar(name[k])
    ensures var s := pre + "${" + name + "}" + post;
      && RefAt(s, |pre|) && RefName(s, |pre|) == name
      && RefEnd(s, |pre|) == |pre| + |name| + 3
      && s[RefEnd(s, |pre|)..] == post
  {
    var s := pre + "${" + name + "}" + post;
    var p := |pre|;
    assert s[p] == '$' && s[p + 1] == '{';
    forall k | 0 <= k < |name| ensures s[p + 2 + k] == name[k] { }
    assert s[p + 2 + |name|] == '}';
    NameRunExact(s, p + 2, |name|);
    assert s[p + 2..p + 2 + |name|] == name;
    assert s[p + |name| + 3..] == post;
  }

  lemma NameRunExact(s: string, i: nat, n: nat)
    requires i + n < |s|
    requires forall k :: i <= k < i + n ==> IsNameChar(s[k])
    requires !IsNameChar(s[i + n])
    ensures NameRun(s, i) == n
  {
  }

  /** Expanding a suffix of `s` is expanding that suffix on its own. */
  lemma {:induction false} ExpandShift(t: string, s: string, env: map<string, string>, i: nat, off: nat)
    requires off <= |s| && s[off..] == t && i <= |t|
    ensures ExpandFrom(s, env, off + i) == ExpandFrom(t, env, i)
    decreases |t| - i
  {
    if i < |t| {
      RefAtShift(t, s, off, i);
      if RefAt(t, i) {
        ExpandShift(t, s, env, RefEnd(t, i), off);
      } else {
        assert s[off + i] == t[i];
        ExpandShift(t, s, env, i + 1, off);
      }
    }
  }

  lemma RefAtShift(t: string, s: string, off: nat, i: nat)
    requires off <= |s| && s[off..] == t && i < |t|
    ensures RefAt(s, off + i) == RefAt(t, i)
    ensures RefAt(t, i) ==> RefName(s, off + i) == RefName(t, i)
    ensures RefAt(t, i) ==> RefEnd(s, off + i) == off + RefEnd(t, i)
  {
    assert |s| == off + |t|;
    if i + 2 <= |t| {
      NameRunShift(t, s, off, i + 2);
      assert s[off + i] == t[i] && s[off + i + 1] == t[i + 1];
      var n := NameRun(t, i + 2);
      if i + 2 + n < |t| {
        assert s[off + i + 2 + n] == t[i + 2 + n];
      }
      if RefAt(t, i) {
        assert s[off + i + 2..off + i + 2 + n] == t[i + 2..i + 2 + n];
      }
    }
  }

  lemma {:induction false} NameRunShift(t: string, s: string, off: nat, k: nat)
    requires off <= |s| && s[off..] == t && k <= |t|
    ensures NameRun(s, off + k) == NameRun(t, k)
    decreases |t| - k
  {
    if k < |t| {
      NameRunShift(t, s, off, k + 1);
    }
  }

  // ---------------------------------------------------------------------
  // Folding a streamed response

  /** The usage object of a chunk; a field the provider left out is None. */
  datatype UsageReport = UsageReport(promptTokens: Option<int>, completionTokens: Option<int>)

  /** One streamed chunk: `delta` is the first choice's delta content (None
      when the chunk has no choices or the content is None). */
  datatype Chunk = Chunk(delta: Option<string>, usage: Option<UsageReport>)

  /** `x or 0` on an optional counter. */
  function OrZero(x: Option<int>): int {
    match x
    case Some(v) => v
    case None => 0
  }

  function ToUsage(u: UsageReport): (r: Usage)
    ensures u.promptTokens.None? ==> r.promptTokens == 0
    ensures u.completionTokens.None? ==> r.completionTokens == 0
  {
    Usage(OrZero(u.promptTokens), OrZero(u.completionTokens))
  }

  predicate HasText(c: Chunk) {
    c.delta.Some? && c.delta.value != ""
  }

  /** The non-empty delta contents, in arrival order. */
  function Deltas(chunks: seq<Chunk>): (r: seq<string>)
    ensures |r| <= |chunks|
    ensures forall k :: 0 <= k < |r| ==> r[k] != ""
  {
    if chunks == [] then []
    else
      var last := chunks[|chunks| - 1];
      Deltas(chunks[..|chunks| - 1]) + (if HasText(last) then [last.delta.value] else [])
  }

  /** `"".join(parts)`. */
  function Concat(parts: seq<string>): string {
    if parts == [] then "" else Concat(parts[..|parts| - 1]) + parts[|parts| - 1]
  }

  /** The usage of the last chunk that carries one; {0, 0} if none does. */
  function StreamUsage(chunks: seq<Chunk>): Usage {
    if chunks == [] then Usage(0, 0)
    else if chunks[|chunks| - 1].usage.Some? then ToUsage(chunks[|chunks| - 1].usage.value)
    else StreamUsage(chunks[..|chunks| - 1])
  }

  /** The completion a fully received stream yields. */
  function StreamCompletion(chunks: seq<Chunk>): Completion {
    Completion(Concat(Deltas(chunks)), StreamUsage(chunks))
  }

  lemma {:induction false} DeltasAppend(a: seq<Chunk>, b: seq<Chunk>)
    ensures Deltas(a + b) == Deltas(a) + Deltas(b)
    decreases |b|
  {
    if b != [] {
      var b' := b[..|b| - 1];
      assert (a + b)[..|a + b| - 1] == a + b';
      DeltasAppend(a, b');
    } else {
      assert a + b == a;
    }
  }

  lemma {:induction false} ConcatAppend(p: seq<string>, q: seq<string>)
    ensures Concat(p + q) == Concat(p) + Concat(q)
    decreases |q|
  {
    if q != [] {
      assert (p + q)[..|p + q| - 1] == p + q[..|q| - 1];
      ConcatAppend(p, q[..|q| - 1]);
    } else {
      assert p + q == p;
    }
  }

  /** The response text of a stream is the texts of its parts, joined in
      the order they arrived. */
  lemma StreamTextAppend(a: seq<Chunk>, b: seq<Chunk>)
    ensures StreamCompletion(a + b).content
         == StreamCompletion(a).content + StreamCompletion(b).content
  {
    DeltasAppend(a, b);
    ConcatAppend(Deltas(a), Deltas(b));
  }

  predicate CarriesUsage(chunks: seq<Chunk>) {
    exists k :: 0 <= k < |chunks| && chunks[k].usage.Some?
  }

  /** Usage is overwritten, never summed: a later usage-bearing part of the
      stream decides it alone. */
  lemma {:induction false} StreamUsageLastWins(a: seq<Chunk>, b: seq<Chunk>)
    ensures StreamUsage(a + b) == if CarriesUsage(b) then StreamUsage(b) else StreamUsage(a)
    decreases |b|
  {
    if b == [] {
      assert a + b == a;
    } else {
      var b' := b[..|b| - 1];
      assert (a + b)[..|a + b| - 1] == a + b';
      assert (a + b)[|a + b| - 1] == b[|b| - 1];
      StreamUsageLastWins(a, b');
      if b[|b| - 1].usage.None? {
        if CarriesUsage(b) {
          var k :| 0 <= k < |b| && b[k].usage.Some?;
          assert b'[k].usage.Some?;
        }
        if CarriesUsage(b') {
          var k :| 0 <= k < |b'| && b'[k].usage.Some?;
          assert b[k].usage.Some?;
        }
      }
    }
  }

  /** With no usage-bearing chunk the usage stays {0, 0}. */
  lemma {:induction false} StreamUsageWithoutReport(chunks: seq<Chunk>)
    requires !CarriesUsage(chunks)
    ensures StreamUsage(chunks) == Usage(0, 0)
    decreases |chunks|
  {
    if chunks != [] {
      assert chunks[|chunks| - 1].usage.None?;
      var p := chunks[..|chunks| - 1];
      assert forall k :: 0 <= k < |p| ==> p[k] == chunks[k];
      StreamUsageWithoutReport(p);
    }
  }

  /** One attempt's stream loop: text parts are collected, the usage is
      overwritten by every chunk that carries one. */
  method AccumulateStream(chunks: seq<Chunk>) returns (c: Completion)
    ensures c == StreamCompletion(chunks)
  {
    var parts: seq<string> := [];
    var usage := Usage(0, 0);
    var i := 0;
    while i < |chunks|
      invariant 0 <= i <= |chunks|
      invariant parts == Deltas(chunks[..i])
      invariant usage == StreamUsage(chunks[..i])
    {
      var chunk := chunks[i];
      assert chunks[..i + 1][..i] == chunks[..i];
      if chunk.delta.Some? && chunk.delta.value != "" {
        parts := parts + [chunk.delta.value];
      }
      if chunk.usage.Some? {
        usage := Usage(OrZero(chunk.usage.value.promptTokens),
                       OrZero(chunk.usage.value.completionTokens));
      }
      i := i + 1;
    }
    assert chunks[..i] == chunks;
    var content := "";
    var k := 0;
    while k < |parts|
      invariant 0 <= k <= |parts|
      invariant content == Concat(parts[..k])
    {
      assert parts[..k + 1][..k] == parts[..k];
      content := content + parts[k];
      k := k + 1;
    }
    assert parts[..k] == parts;
    c := Completion(content, usage);
  }

  // ---------------------------------------------------------------------
  // The retry loop

  /** How one attempt ends: an exception (raised when opening the stream
      or while reading it), or a stream received in full. */
  datatype Attempt = Failed(error: Error) | Streamed(chunks: seq<Chunk>)

  function Pow2(k: nat): (r: nat)
    ensures r >= 1
  {
    if k == 0 then 1 else 2 * Pow2(k - 1)
  }

  /** The sleep after failed attempt number `attempt` (zero-based), in
      milliseconds: `min(8.0, 0.5 * 2**attempt)` seconds. */
  function BackoffMs(attempt: nat): (ms: nat)
    ensures 500 <= ms <= 8000
  {
    Min(8000, 500 * Pow2(attempt))
  }

  /** The first `n` sleeps of the schedule. */
  function Backoffs(n: nat): (r: seq<nat>)
    ensures |r| == n
    ensures forall i :: 0 <= i < n ==> r[i] == BackoffMs(i)
  {
    seq(n, i requires 0 <= i < n => BackoffMs(i))
  }

  /** The index of the first attempt below `retries` that streams, if any. */
  function FirstStreamed(outcome: nat -> Attempt, retries: int, from: nat): (r: Option<nat>)
    ensures r.Some? ==> from <= r.value < retries && outcome(r.value).Streamed?
    ensures r.Some? ==> forall j :: from <= j < r.value ==> outcome(j).Failed?
    ensures r.None? ==> forall j :: from <= j < retries ==> outcome(j).Failed?
    decreases retries - from
  {
    if from >= retries then None
    else if outcome(from).Streamed? then Some(from)
    else FirstStreamed(outcome, retries, from + 1)
  }

  /** `str(last_err)`: the message of the last failed attempt; `None` when
      no attempt was made. */
  function LastErrorText(outcome: nat -> Attempt, retries: int): string {
    if retries <= 0 then "None"
    else match outcome(retries - 1)
      case Failed(e) => e.message
      case Streamed(_) => ""
  }

  function ExhaustedError(outcome: nat -> Attempt, retries: int): Error {
    Error("RuntimeError",
          "Chat completion failed after " + IntToString(retries) + " retries: "
          + LastErrorText(outcome, retries))
  }

  /** `call_chat_completion` with attempt `k` ending as `outcome(k)`.
      `sleeps` lists the backoff delays slept, in milliseconds. */
  method CallChatCompletion(retries: int, outcome: nat -> Attempt)
    returns (r: Result<Completion>, sleeps: seq<nat>)
    ensures r.Success? <==> exists k :: 0 <= k < retries && outcome(k).Streamed?
    ensures match FirstStreamed(outcome, retries, 0)
      case Some(k) => r == Success(StreamCompletion(outcome(k).chunks)) && sleeps == Backoffs(k)
      case None => r == Failure(ExhaustedError(outcome, retries))
                   && sleeps == Backoffs(if retries > 0 then retries - 1 else 0)
  {
    sleeps := [];
    var attempt: nat := 0;
    while attempt < retries
      invariant 0 <= attempt <= Max(retries, 0)
      invariant forall j :: 0 <= j < attempt ==> outcome(j).Failed?
      invariant sleeps == Backoffs(if attempt < retries || attempt == 0 then attempt else attempt - 1)
    {
      match outcome(attempt)
      case Streamed(chunks) =>
        var c := AccumulateStream(chunks);
        assert FirstStreamed(outcome, retries, attempt) == Some(attempt);
        FirstStreamedSkips(outcome, retries, 0, attempt);
        return Success(c), sleeps;
      case Failed(e) =>
        if attempt < retries - 1 {
          sleeps := sleeps + [BackoffMs(attempt)];
        }
        attempt := attempt + 1;
    }
    FirstStreamedSkips(outcome, retries, 0, attempt);
    r := Failure(ExhaustedError(outcome, retries));
  }

  /** Skipping failed attempts does not change which attempt streams first. */
  lemma {:induction false} FirstStreamedSkips(outcome: nat -> Attempt, retries: int, from: nat, to: nat)
    requires from <= to
    requires forall j :: from <= j < to ==> outcome(j).Failed?
    ensures FirstStreamed(outcome, retries, from) == FirstStreamed(outcome, retries, to)
    decreases (to as int) - (from as int)
  {
    if from < to {
      FirstStreamedSkips(outcome, retries, from + 1, to);
    }
  }

  /** Only attempts below `retries` matter: at most `retries` are made. */
  lemma {:induction false} FirstStreamedLooksBelowRetries(a: nat -> Attempt, b: nat -> Attempt, retries: int, from: nat)
    requires forall k :: 0 <= k < retries ==> a(k) == b(k)
    ensures FirstStreamed(a, retries, from) == FirstStreamed(b, retries, from)
    decreases retries - from
  {
    if from < retries {
      FirstStreamedLooksBelowRetries(a, b, retries, from + 1);
    }
  }

  /** The schedule doubles from 500 ms and is capped at 8000 ms from the
      fifth attempt on: 500, 1000, 2000, 4000, 8000, 8000, ... */
  lemma {:induction false} BackoffSchedule(attempt: nat)
    ensures attempt <= 4 ==> BackoffMs(attempt) == 500 * Pow2(attempt)
    ensures attempt >= 4 ==> BackoffMs(attempt) == 8000
  {
    if attempt > 4 {
      Pow2Grows(4, attempt);
    }
    if attempt <= 4 {
      assert Pow2(4) == 16;
      Pow2Grows(attempt, 4);
    }
  }

  lemma {:induction false} Pow2Grows(a: nat, b: nat)
    requires a <= b
    ensures Pow2(a) <= Pow2(b)
    decreases b - a
  {
    if a < b {
      Pow2Grows(a, b - 1);
    }
  }
}
