/** Loading the inputs of a run: the model configuration file, the
    question table and the documents of one question. Parsing YAML and
    CSV and reading files happen outside; what they produce is given. */
module Loaders {
  import opened Base
  import opened Text
  import opened Utils

  // ---------------------------------------------------------------------
  // Python's view of configuration values

  function TypeName(v: YamlValue): string {
    match v
    case YStr(_) => "str"
    case YInt(_) => "int"
    case YBool(_) => "bool"
    case YNull => "NoneType"
    case YList(_, _) => "list"
    case YMap(_, _) => "dict"
    case YOther(t, _, _, _) => t
  }

  /** `bool(v)`. */
  predicate Truthy(v: YamlValue) {
    match v
    case YStr(s) => s != ""
    case YInt(i) => i != 0
    case YBool(b) => b
    case YNull => false
    case YList(items, _) => items != []
    case YMap(entries, _) => entries != map[]
    case YOther(_, _, t, _) => t
  }

  /** `str(v)`. */
  function PyStr(v: YamlValue): string {
    match v
    case YStr(s) => s
    case YInt(i) => IntToString(i)
    case YBool(b) => if b then "True" else "False"
    case YNull => "None"
    case YList(_, t) => t
    case YMap(_, t) => t
    case YOther(_, t, _, _) => t
  }

  /** `int(v)`: text is parsed, a bool counts as 0 or 1, and a value of
      another type raises TypeError. */
  function PyInt(v: YamlValue): Result<int> {
    match v
    case YStr(s) => ParseInt(s)
    case YInt(i) => Success(i)
    case YBool(b) => Success(if b then 1 else 0)
    case YOther(_, _, _, n) => n
    case _ => Failure(Error("TypeError",
        "int() argument must be a string, a bytes-like object or a real number, not '"
        + TypeName(v) + "'"))
  }

  /** `d.get(key, default)`. */
  function Get(d: map<string, YamlValue>, key: string, default: YamlValue): YamlValue {
    if key in d then d[key] else default
  }

  /** `str(d.get(key, "")).strip()`. */
  function Setting(d: map<string, YamlValue>, key: string): string {
    Strip(PyStr(Get(d, key, YStr(""))))
  }

  // ---------------------------------------------------------------------
  // load_models_yaml

  /** What one entry of the `models` list contributes. */
  datatype Entry = Skip | Model(name: string, config: ModelConfig)

  /** The name an entry is registered under; "" for an entry that is
      skipped (not a mapping, or no non-blank name). */
  function EntryName(m: YamlValue): string {
    if m.YMap? then Setting(m.entries, "name") else ""
  }

  function MissingSetting(key: string, name: string, path: string): Error {
    Error("RuntimeError", "Missing " + key + " for model " + name + " in " + path + ".")
  }

  /** One iteration of the loop over the `models` list. */
  function LoadEntry(m: YamlValue, path: string, env: map<string, string>): Result<Entry>
  {
    if !m.YMap? then Success(Skip)
    else
      var d := m.entries;
      var name := Setting(d, "name");
      if name == "" then Success(Skip)
      else
        var apiKey := Setting(d, "api_key");
        if apiKey == "" then Failure(MissingSetting("api_key", name, path))
        else
          var baseUrl := Setting(d, "base_url");
          if baseUrl == "" then Failure(MissingSetting("base_url", name, path))
          else
            var temperature := PyStr(Get(d, "temperature", YOther("float", "1.0", true, Success(1))));
            var key :- ExpandEnvVars(apiKey, env);
            var extra := Get(d, "extra_body", YNull);
            var maxTokens :- PyInt(Get(d, "max_tokens", YInt(2048)));
            Success(Model(name, ModelConfig(name, temperature, baseUrl, key,
                                            if extra.YMap? then Some(extra.entries) else None,
                                            maxTokens)))
  }

  /** An entry is skipped exactly when it has no usable name; otherwise it
      is loaded under that name with its settings, or raises for the first
      missing one. */
  lemma LoadEntryMeaning(m: YamlValue, path: string, env: map<string, string>)
    ensures var r := LoadEntry(m, path, env);
      && (r.Success? && r.value.Skip? <==> EntryName(m) == "")
      && (r.Success? && r.value.Model? ==>
            var d := m.entries;
            && r.value.name == EntryName(m) == r.value.config.modelId
            && Setting(d, "api_key") != "" && Setting(d, "base_url") != ""
            && r.value.config.baseUrl == Setting(d, "base_url")
            && ExpandEnvVars(Setting(d, "api_key"), env) == Success(r.value.config.apiKey)
            && PyInt(Get(d, "max_tokens", YInt(2048))) == Success(r.value.config.maxTokens))
      && (EntryName(m) != "" && Setting(m.entries, "api_key") == "" ==>
            r == Failure(MissingSetting("api_key", EntryName(m), path)))
      && (EntryName(m) != "" && Setting(m.entries, "api_key") != "" && Setting(m.entries, "base_url") == "" ==>
            r == Failure(MissingSetting("base_url", EntryName(m), path)))
  {
  }

  /** The loop over the rest of the `models` list, from the dictionary
      built so far. */
  function FoldModels(items: seq<YamlValue>, path: string, env: map<string, string>,
                      acc: map<string, ModelConfig>): Result<map<string, ModelConfig>>
    decreases |items|
  {
    if |items| == 0 then Success(acc)
    else
      var e :- LoadEntry(items[0], path, env);
      FoldModels(items[1..], path, env, if e.Model? then acc[e.name := e.config] else acc)
  }

  /** `load_models_yaml(path)`, given the parsed document (`None` when the
      file does not exist; an empty file reads as `YNull`). */
  function LoadModelsYaml(path: string, doc: Option<YamlValue>, env: map<string, string>)
    : Result<map<string, ModelConfig>>
  {
    if doc.None? then Failure(Error("FileNotFoundError", path + " not found."))
    else if !Truthy(doc.value) then Success(map[])
    else if !doc.value.YMap? then
      Failure(Error("AttributeError", "'" + TypeName(doc.value) + "' object has no attribute 'get'"))
    else
      var models := Get(doc.value.entries, "models", YList([], "[]"));
      if !models.YList? then Failure(Error("RuntimeError", "Invalid models list in " + path + "."))
      else FoldModels(models.items, path, env, map[])
  }

  /** The loader, entry by entry. */
  method LoadModels(path: string, doc: Option<YamlValue>, env: map<string, string>)
    returns (r: Result<map<string, ModelConfig>>)
    ensures r == LoadModelsYaml(path, doc, env)
  {
    if doc.None? {
      return Failure(Error("FileNotFoundError", path + " not found."));
    }
    var data := doc.value;
    if !Truthy(data) {
      return Success(map[]);
    }
    if !data.YMap? {
      return Failure(Error("AttributeError", "'" + TypeName(data) + "' object has no attribute 'get'"));
    }
    var models := Get(data.entries, "models", YList([], "[]"));
    if !models.YList? {
      return Failure(Error("RuntimeError", "Invalid models list in " + path + "."));
    }
    var items := models.items;
    var out: map<string, ModelConfig> := map[];
    var i := 0;
    while i < |items|
      invariant 0 <= i <= |items|
      invariant FoldModels(items, path, env, map[]) == FoldModels(items[i..], path, env, out)
    {
      assert items[i..][1..] == items[i + 1..];
      var e := LoadEntry(items[i], path, env);
      if e.Failure? {
        return Failure(e.error);
      }
      if e.value.Model? {
        out := out[e.value.name := e.value.config];
      }
      i := i + 1;
    }
    r := Success(out);
  }

  /** Every loaded model is registered under its own, non-blank, stripped
      name and has a non-blank base URL. */
  lemma {:induction false} LoadedModelsWellNamed(items: seq<YamlValue>, path: string, env: map<string, string>,
                                                 acc: map<string, ModelConfig>)
    requires forall n :: n in acc ==> acc[n].modelId == n && n != "" && acc[n].baseUrl != ""
    requires FoldModels(items, path, env, acc).Success?
    ensures var out := FoldModels(items, path, env, acc).value;
      forall n :: n in out ==> out[n].modelId == n && n != "" && out[n].baseUrl != ""
    decreases |items|
  {
    if |items| > 0 {
      var e := LoadEntry(items[0], path, env).value;
      LoadedModelsWellNamed(items[1..], path, env, if e.Model? then acc[e.name := e.config] else acc);
    }
  }

  /** Loading fails exactly when one of the entries fails. */
  lemma {:induction false} LoadFailsIffBadEntry(items: seq<YamlValue>, path: string, env: map<string, string>,
                                                acc: map<string, ModelConfig>)
    ensures FoldModels(items, path, env, acc).Failure?
        <==> exists i :: 0 <= i < |items| && LoadEntry(items[i], path, env).Failure?
    decreases |items|
  {
    if |items| > 0 {
      var e := LoadEntry(items[0], path, env);
      if e.Success? {
        var tail := items[1..];
        LoadFailsIffBadEntry(tail, path, env, if e.value.Model? then acc[e.value.name := e.value.config] else acc);
        assert forall i :: 0 <= i < |tail| ==> tail[i] == items[i + 1];
        if exists i :: 0 <= i < |items| && LoadEntry(items[i], path, env).Failure? {
          var i :| 0 <= i < |items| && LoadEntry(items[i], path, env).Failure?;
          assert LoadEntry(tail[i - 1], path, env).Failure?;
        }
      }
    }
  }

  /** A failing entry after entries that load raises its own error. */
  lemma {:induction false} LoadFailsWithFirstError(items: seq<YamlValue>, path: string, env: map<string, string>,
                                                   acc: map<string, ModelConfig>, i: nat)
    requires i < |items| && LoadEntry(items[i], path, env).Failure?
    requires forall j :: 0 <= j < i ==> LoadEntry(items[j], path, env).Success?
    ensures FoldModels(items, path, env, acc) == Failure(LoadEntry(items[i], path, env).error)
    decreases i
  {
    if i > 0 {
      var e := LoadEntry(items[0], path, env).value;
      var tail := items[1..];
      assert forall j :: 0 <= j < |tail| ==> tail[j] == items[j + 1];
      LoadFailsWithFirstError(tail, path, env, if e.Model? then acc[e.name := e.config] else acc, i - 1);
    }
  }

  /** A name is loaded exactly when it was there before or some entry
      carries it. */
  lemma {:induction false} LoadedNames(items: seq<YamlValue>, path: string, env: map<string, string>,
                                       acc: map<string, ModelConfig>, n: string)
    requires FoldModels(items, path, env, acc).Success?
    ensures n in FoldModels(items, path, env, acc).value
        <==> n in acc || exists i :: 0 <= i < |items| && n != "" && EntryName(items[i]) == n
    decreases |items|
  {
    if |items| > 0 {
      var e := LoadEntry(items[0], path, env).value;
      var tail := items[1..];
      LoadedNames(tail, path, env, if e.Model? then acc[e.name := e.config] else acc, n);
      assert forall i :: 0 <= i < |tail| ==> tail[i] == items[i + 1];
      if exists i :: 0 <= i < |items| && n != "" && EntryName(items[i]) == n {
        var i :| 0 <= i < |items| && n != "" && EntryName(items[i]) == n;
        if i > 0 {
          assert EntryName(tail[i - 1]) == n;
        }
      }
    }
  }

  /** A later entry with the same name replaces an earlier one: the model
      loaded under a name is the one from the last entry carrying it. */
  lemma {:induction false} LastEntryWins(items: seq<YamlValue>, path: string, env: map<string, string>,
                                         acc: map<string, ModelConfig>, i: nat)
    requires FoldModels(items, path, env, acc).Success?
    requires i < |items| && EntryName(items[i]) != ""
    requires forall j :: i < j < |items| ==> EntryName(items[j]) != EntryName(items[i])
    ensures var n := EntryName(items[i]);
      var out := FoldModels(items, path, env, acc).value;
      n in out && LoadEntry(items[i], path, env) == Success(Model(n, out[n]))
    decreases i
  {
    var e := LoadEntry(items[0], path, env).value;
    var acc' := if e.Model? then acc[e.name := e.config] else acc;
    var tail := items[1..];
    assert FoldModels(items, path, env, acc) == FoldModels(tail, path, env, acc');
    if i > 0 {
      assert tail[i - 1] == items[i];
      assert forall j :: i - 1 < j < |tail| ==> tail[j] == items[j + 1];
      LastEntryWins(tail, path, env, acc', i - 1);
    } else {
      LoadEntryMeaning(items[0], path, env);
      assert e.Model? && acc'[e.name] == e.config;
      assert forall j :: 0 <= j < |tail| ==> tail[j] == items[j + 1];
      LoadedNameKept(tail, path, env, acc', e.name);
    }
  }

  /** A name no later entry carries keeps the configuration it has. */
  lemma {:induction false} LoadedNameKept(items: seq<YamlValue>, path: string, env: map<string, string>,
                                          acc: map<string, ModelConfig>, n: string)
    requires FoldModels(items, path, env, acc).Success?
    requires n in acc
    requires forall j :: 0 <= j < |items| ==> EntryName(items[j]) != n
    ensures var out := FoldModels(items, path, env, acc).value;
      n in out && out[n] == acc[n]
    decreases |items|
  {
    if |items| > 0 {
      var e := LoadEntry(items[0], path, env).value;
      LoadEntryMeaning(items[0], path, env);
      assert EntryName(items[0]) != n;
      var acc' := if e.Model? then acc[e.name := e.config] else acc;
      assert acc'[n] == acc[n];
      var tail := items[1..];
      assert forall j :: 0 <= j < |tail| ==> tail[j] == items[j + 1];
      assert FoldModels(items, path, env, acc) == FoldModels(tail, path, env, acc');
      LoadedNameKept(tail, path, env, acc', n);
    }
  }

  // ---------------------------------------------------------------------
  // load_questions

  /** A table cell after loading: text, a missing value (`None`), or the
      list the file-name cell is split into. */
  datatype Cell = CText(s: string) | CNone | CList(items: seq<string>)

  /** One row as `csv.DictReader` gives it: a short row has `None` for its
      missing cells. */
  type CsvRow = map<string, Option<string>>

  type Row = map<string, Cell>

  const FilenamesKey := "data_source_filenames"

  /** One row of `load_questions`: the file-name cell, when it holds text,
      becomes the list of its `;`-separated pieces; the rest is kept. */
  function LoadRow(row: CsvRow): (r: Row)
    ensures r.Keys == row.Keys
    ensures forall k :: k in row && k != FilenamesKey ==>
      r[k] == if row[k].Some? then CText(row[k].value) else CNone
  {
    map k | k in row ::
      if row[k].None? then CNone
      else if k == FilenamesKey then CList(Split(row[k].value, ';'))
      else CText(row[k].value)
  }

  /** The file-name list joins back to the cell it came from, and no name
      in it holds a separator. */
  lemma LoadRowFilenames(row: CsvRow)
    requires FilenamesKey in row && row[FilenamesKey].Some?
    ensures var c := LoadRow(row)[FilenamesKey];
      && c.CList? && |c.items| >= 1
      && Join(c.items, ';') == row[FilenamesKey].value
      && forall k :: 0 <= k < |c.items| ==> ';' !in c.items[k]
  {
    JoinSplit(row[FilenamesKey].value, ';');
  }

  /** `load_questions`: every row, in file order. */
  function LoadQuestions(rows: seq<CsvRow>): (r: seq<Row>)
    ensures |r| == |rows|
    ensures forall i :: 0 <= i < |rows| ==> r[i] == LoadRow(rows[i])
  {
    seq(|rows|, i requires 0 <= i < |rows| => LoadRow(rows[i]))
  }

  /** `str(row.get(key, default))`. A list cell is written the way Python
      writes a list of plain names. */
  function RowText(row: Row, key: string, default: string): string {
    if key !in row then default
    else match row[key]
      case CText(s) => s
      case CNone => "None"
      case CList(items) => "[" + ListItems(items) + "]"
  }

  /** The items of a list as Python writes them, each quoted, separated by
      a comma and a space. */
  function ListItems(items: seq<string>): string {
    if |items| == 0 then ""
    else if |items| == 1 then "'" + items[0] + "'"
    else "'" + items[0] + "', " + ListItems(items[1..])
  }

  /** `row.get("data_source_filenames", [])`, with anything but a list
      read as no files. */
  function RowFilenames(row: Row): seq<string> {
    if FilenamesKey in row && row[FilenamesKey].CList? then row[FilenamesKey].items else []
  }

  // ---------------------------------------------------------------------
  // load_document_set

  /** Reading `root / category / set id / file name`: missing, its text
      (undecodable bytes already replaced), or the error the read raises. */
  datatype DocRead = DocMissing | DocText(text: string) | DocError(error: Error)

  type DocReader = (string, string, string) -> DocRead

  /** The texts of the files that exist, in list order; the first read
      that raises ends it. */
  function DocumentSet(category: string, setId: string, filenames: seq<string>, read: DocReader)
    : (r: Result<seq<string>>)
    ensures r.Success? ==> |r.value| <= |filenames|
    decreases |filenames|
  {
    if |filenames| == 0 then Success([])
    else
      match read(category, setId, filenames[0])
      case DocError(e) => Failure(e)
      case DocMissing => DocumentSet(category, setId, filenames[1..], read)
      case DocText(t) =>
        var rest :- DocumentSet(category, setId, filenames[1..], read);
        Success([t] + rest)
  }

  /** `texts` followed by what a later read gives, or that read's error. */
  function After(texts: seq<string>, r: Result<seq<string>>): Result<seq<string>> {
    match r
    case Success(ts) => Success(texts + ts)
    case Failure(e) => Failure(e)
  }

  /** `load_document_set`. */
  method LoadDocumentSet(category: string, setId: string, filenames: seq<string>, read: DocReader)
    returns (r: Result<seq<string>>)
    ensures r == DocumentSet(category, setId, filenames, read)
  {
    var texts: seq<string> := [];
    var i := 0;
    assert filenames[0..] == filenames;
    var whole := DocumentSet(category, setId, filenames, read);
    if whole.Success? {
      assert [] + whole.value == whole.value;
    }
    while i < |filenames|
      invariant 0 <= i <= |filenames|
      invariant DocumentSet(category, setId, filenames, read)
             == After(texts, DocumentSet(category, setId, filenames[i..], read))
    {
      assert filenames[i..][1..] == filenames[i + 1..];
      var d := read(category, setId, filenames[i]);
      if d.DocError? {
        return Failure(d.error);
      }
      if d.DocText? {
        var rest := DocumentSet(category, setId, filenames[i + 1..], read);
        if rest.Success? {
          assert texts + ([d.text] + rest.value) == (texts + [d.text]) + rest.value;
        }
        texts := texts + [d.text];
      }
      i := i + 1;
    }
    assert texts + [] == texts;
    r := Success(texts);
  }

  /** Every text returned is the text of one of the listed files, and
      every listed file that reads as text is returned; a read error on
      any listed file makes the whole load fail. */
  lemma {:induction false} DocumentSetContents(category: string, setId: string, filenames: seq<string>,
                                               read: DocReader)
    ensures var r := DocumentSet(category, setId, filenames, read);
      && (r.Failure? <==> exists i :: 0 <= i < |filenames| && read(category, setId, filenames[i]).DocError?)
      && (r.Success? ==>
            (forall t :: t in r.value <==>
               exists i :: 0 <= i < |filenames| && read(category, setId, filenames[i]) == DocText(t)))
    decreases |filenames|
  {
    if |filenames| > 0 {
      var tail := filenames[1..];
      DocumentSetContents(category, setId, tail, read);
      assert forall i :: 0 <= i < |tail| ==> tail[i] == filenames[i + 1];
      var here := read(category, setId, filenames[0]);
      var r := DocumentSet(category, setId, filenames, read);
      if r.Success? {
        forall t | exists i :: 0 <= i < |filenames| && read(category, setId, filenames[i]) == DocText(t)
          ensures t in r.value
        {
          var i :| 0 <= i < |filenames| && read(category, setId, filenames[i]) == DocText(t);
          if i > 0 {
            assert read(category, setId, tail[i - 1]) == DocText(t);
          }
        }
      }
      if exists i :: 0 <= i < |filenames| && read(category, setId, filenames[i]).DocError? {
        var i :| 0 <= i < |filenames| && read(category, setId, filenames[i]).DocError?;
        if i > 0 {
          assert read(category, setId, tail[i - 1]).DocError?;
        }
      }
    }
  }
}
