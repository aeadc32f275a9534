/** Reading an inventory back from JSON and writing it (migration-kit/scripts/contracts.py:300-375,
    511-637, 691-703). */
module Inventory {
  import opened Wrappers

  /** What a reader makes of a value: something, or a refusal. */
  datatype Read<+T> = Accept(value: T) | Refuse
  {
    predicate IsFailure() {
      Refuse?
    }

    function PropagateFailure<U>(): Read<U>
      requires Refuse?
    {
      Refuse
    }

    function Extract(): T
      requires Accept?
    {
      value
    }
  }

  datatype Json =
    | Null
    | Bool(b: bool)
    | Int(n: int)
    | Float(repr: string)
    | Str(s: string)
    | List(items: seq<Json>)
    | Dict(fields: map<string, Json>)

  type Fields = map<string, Json>

  // ----- Readers -----

  /** obj.get(key): an absent field reads like a null. */
  function Get(obj: Fields, key: string): Json {
    if key in obj then obj[key] else Null
  }

  function GetOr(obj: Fields, key: string, default: Json): Json {
    if key in obj then obj[key] else default
  }

  function RequireDict(v: Json): Read<Fields> {
    if v.Dict? then Accept(v.fields) else Refuse
  }

  function RequireList(v: Json): Read<seq<Json>> {
    if v.List? then Accept(v.items) else Refuse
  }

  function RequireStr(v: Json): Read<string> {
    if v.Str? && v.s != "" then Accept(v.s) else Refuse
  }

  function RequireStrPresent(v: Json): Read<string> {
    if v.Str? then Accept(v.s) else Refuse
  }

  function OptStr(v: Json): Read<Option<string>> {
    match v
    case Null => Accept(None)
    case Str(s) => Accept(Some(s))
    case _ => Refuse
  }

  /** An integer, which a boolean is not. */
  function RequireInt(v: Json): Read<int> {
    if v.Int? then Accept(v.n) else Refuse
  }

  function RequireLiteral(v: Json, allowed: seq<string>): Read<string> {
    if v.Str? && v.s in allowed then Accept(v.s) else Refuse
  }

  function Strings(items: seq<Json>): Read<seq<string>>
    decreases |items|
  {
    if items == [] then Accept([])
    else if !items[0].Str? then Refuse
    else
      var rest :- Strings(items[1..]);
      Accept([items[0].s] + rest)
  }

  function StrList(v: Json): Read<seq<string>> {
    var items :- RequireList(v);
    Strings(items)
  }

  function StrMap(v: Json): Read<map<string, string>> {
    var fields :- RequireDict(v);
    if forall k :: k in fields ==> fields[k].Str? then Accept(map k | k in fields :: fields[k].s) else Refuse
  }

  datatype Value = Scalar(text: string) | Many(texts: seq<string>)

  function ReadValue(v: Json): Read<Value> {
    match v
    case Str(s) => Accept(Scalar(s))
    case List(items) =>
      var texts :- Strings(items);
      Accept(Many(texts))
    case _ => Refuse
  }

  function FrontMatter(v: Json): Read<map<string, Value>> {
    var fields :- RequireDict(v);
    if forall k :: k in fields ==> ReadValue(fields[k]).Accept?
    then Accept(map k | k in fields :: ReadValue(fields[k]).value) else Refuse
  }

  /** A subagent's tools: absent, one string, or a list. */
  function Tools(v: Json): Read<Option<Value>> {
    if v.Null? then Accept(None)
    else
      var value :- ReadValue(v);
      Accept(Some(value))
  }

  // ----- Items -----

  datatype File = File(path: string, content: string, encoding: string)

  datatype Data =
    | ClaudeMd(body: string, frontmatter: map<string, Value>)
    | Subagent(body: string, description: Option<string>, tools: Option<Value>)
    | Skill(content: string, frontmatter: map<string, Value>)
    | Command(body: string, frontmatter: map<string, Value>)
    | LocalTool(entrypoint: string)
    | McpServer(transport: string, mcpCommand: Option<string>, args: seq<string>, env: map<string, string>,
                url: Option<string>)
    | Hook(event: string, command: string, intent: string, source: string, matcher: Option<string>,
           fileName: Option<string>, scriptPath: Option<string>, requirements: seq<string>)
    | Openclaw(config: Fields)

  datatype Item = Item(
    id: string, name: string, path: string, summary: string, files: seq<File>, refs: seq<string>, data: Data)

  datatype Inventory = Inventory(
    root: string, version: int, items: seq<Item>, unknowns: seq<string>, warnings: seq<string>)

  const ENCODINGS := ["utf8", "base64"]
  const SERVER_TYPES := ["local", "remote"]
  const INTENTS := ["guard", "passive"]
  const HOOK_SOURCES := ["bundled", "inline", "unresolved"]
  const NO_ITEMS := List([])
  const NO_FIELDS := Dict(map[])

  function ParseFile(v: Json): Read<File> {
    var obj :- RequireDict(v);
    var path :- RequireStr(Get(obj, "path"));
    var content :- RequireStrPresent(Get(obj, "content"));
    var given :- RequireStr(Get(obj, "encoding"));
    var encoding :- RequireLiteral(Str(given), ENCODINGS);
    Accept(File(path, content, encoding))
  }

  function ParseFiles(items: seq<Json>): Read<seq<File>>
    decreases |items|
  {
    if items == [] then Accept([])
    else
      var first :- ParseFile(items[0]);
      var rest :- ParseFiles(items[1..]);
      Accept([first] + rest)
  }

  function ParseServer(obj: Fields): Read<Data> {
    var transport :- RequireLiteral(Get(obj, "transport"), SERVER_TYPES);
    var command :- OptStr(Get(obj, "command"));
    var args :- StrList(GetOr(obj, "args", NO_ITEMS));
    var env :- StrMap(GetOr(obj, "env", NO_FIELDS));
    var url :- OptStr(Get(obj, "url"));
    Accept(McpServer(transport, command, args, env, url))
  }

  function ParseHook(obj: Fields): Read<Data> {
    var event :- RequireStr(Get(obj, "event"));
    var command :- RequireStr(Get(obj, "command"));
    var intent :- RequireLiteral(Get(obj, "intent"), INTENTS);
    var source :- RequireLiteral(Get(obj, "source"), HOOK_SOURCES);
    var matcher :- OptStr(Get(obj, "matcher"));
    var fileName :- OptStr(Get(obj, "file_name"));
    var scriptPath :- OptStr(Get(obj, "script_path"));
    var requirements :- StrList(GetOr(obj, "requirements", NO_ITEMS));
    Accept(Hook(event, command, intent, source, matcher, fileName, scriptPath, requirements))
  }

  function ParseSubagent(obj: Fields): Read<Data> {
    var body :- RequireStr(Get(obj, "body"));
    var description :- OptStr(Get(obj, "description"));
    var tools :- Tools(Get(obj, "tools"));
    Accept(Subagent(body, description, tools))
  }

  /** Items of three kinds are a required text and frontmatter. */
  function ParseText(obj: Fields, key: string): Read<(string, map<string, Value>)> {
    var text :- RequireStr(Get(obj, key));
    var frontmatter :- FrontMatter(GetOr(obj, "frontmatter", NO_FIELDS));
    Accept((text, frontmatter))
  }

  function ParseData(kind: string, obj: Fields): Read<Data> {
    if kind == "claude_md" then
      var t :- ParseText(obj, "body"); Accept(ClaudeMd(t.0, t.1))
    else if kind == "subagent" then ParseSubagent(obj)
    else if kind == "skill" then
      var t :- ParseText(obj, "content"); Accept(Skill(t.0, t.1))
    else if kind == "command" then
      var t :- ParseText(obj, "body"); Accept(Command(t.0, t.1))
    else if kind == "local_tool" then
      var entrypoint :- RequireStr(Get(obj, "entrypoint")); Accept(LocalTool(entrypoint))
    else if kind == "mcp_server" then ParseServer(obj)
    else if kind == "hook" then ParseHook(obj)
    else if kind == "openclaw" then
      var config :- RequireDict(GetOr(obj, "config", NO_FIELDS)); Accept(Openclaw(config))
    else Refuse
  }

  function ParseItem(v: Json): Read<Item> {
    var obj :- RequireDict(v);
    var kind :- RequireStr(Get(obj, "kind"));
    var id :- RequireStr(Get(obj, "id"));
    var name :- RequireStr(Get(obj, "name"));
    var path :- RequireStr(Get(obj, "path"));
    var summary :- OptStr(Get(obj, "summary"));
    var listed :- RequireList(GetOr(obj, "files", NO_ITEMS));
    var files :- ParseFiles(listed);
    var refs :- StrList(GetOr(obj, "redacted_refs", NO_ITEMS));
    var fields :- RequireDict(GetOr(obj, "data", NO_FIELDS));
    var data :- ParseData(kind, fields);
    Accept(Item(id, name, path, if summary.Some? then summary.value else "", files, refs, data))
  }

  function ParseItems(items: seq<Json>): Read<seq<Item>>
    decreases |items|
  {
    if items == [] then Accept([])
    else
      var first :- ParseItem(items[0]);
      var rest :- ParseItems(items[1..]);
      Accept([first] + rest)
  }

  function ParseInventory(v: Json): Read<Inventory> {
    var obj :- RequireDict(v);
    var listed :- RequireList(GetOr(obj, "items", NO_ITEMS));
    var items :- ParseItems(listed);
    var root :- RequireStr(Get(obj, "source_root"));
    var version :- RequireInt(GetOr(obj, "schema_version", Int(1)));
    var unknowns :- StrList(GetOr(obj, "unknowns", NO_ITEMS));
    var warnings :- StrList(GetOr(obj, "warnings", NO_ITEMS));
    Accept(Inventory(root, version, items, unknowns, warnings))
  }

  // ----- to_jsonable -----

  /** On a JSON value: rebuilds it all the way down. */
  function Rebuilt(v: Json): Json {
    match v
    case List(items) => List(seq(|items|, i requires 0 <= i < |items| => Rebuilt(items[i])))
    case Dict(fields) => Dict(map k | k in fields :: Rebuilt(fields[k]))
    case _ => v
  }

  function OfStrings(texts: seq<string>): Json {
    List(seq(|texts|, i requires 0 <= i < |texts| => Str(texts[i])))
  }

  function OfOption(text: Option<string>): Json {
    match text
    case None => Null
    case Some(s) => Str(s)
  }

  function OfValue(value: Value): Json {
    match value
    case Scalar(text) => Str(text)
    case Many(texts) => OfStrings(texts)
  }

  function OfFrontMatter(fm: map<string, Value>): Json {
    Dict(map k | k in fm :: OfValue(fm[k]))
  }

  function OfFile(f: File): Json {
    Dict(map["path" := Str(f.path), "content" := Str(f.content), "encoding" := Str(f.encoding)])
  }

  function OfFiles(files: seq<File>): seq<Json> {
    seq(|files|, i requires 0 <= i < |files| => OfFile(files[i]))
  }

  function KindOf(d: Data): string {
    match d
    case ClaudeMd(_, _) => "claude_md"
    case Subagent(_, _, _) => "subagent"
    case Skill(_, _) => "skill"
    case Command(_, _) => "command"
    case LocalTool(_) => "local_tool"
    case McpServer(_, _, _, _, _) => "mcp_server"
    case Hook(_, _, _, _, _, _, _, _) => "hook"
    case Openclaw(_) => "openclaw"
  }

  function OfData(d: Data): Json {
    match d
    case ClaudeMd(body, fm) => Dict(map["body" := Str(body), "frontmatter" := OfFrontMatter(fm)])
    case Subagent(body, description, tools) =>
      Dict(map["body" := Str(body), "description" := OfOption(description),
               "tools" := if tools.Some? then OfValue(tools.value) else Null])
    case Skill(content, fm) => Dict(map["content" := Str(content), "frontmatter" := OfFrontMatter(fm)])
    case Command(body, fm) => Dict(map["body" := Str(body), "frontmatter" := OfFrontMatter(fm)])
    case LocalTool(entrypoint) => Dict(map["entrypoint" := Str(entrypoint)])
    case McpServer(transport, command, args, env, url) =>
      Dict(map["transport" := Str(transport), "command" := OfOption(command), "args" := OfStrings(args),
               "env" := Dict(map k | k in env :: Str(env[k])), "url" := OfOption(url)])
    case Hook(event, command, intent, source, matcher, fileName, scriptPath, requirements) =>
      Dict(map["event" := Str(event), "command" := Str(command), "intent" := Str(intent), "source" := Str(source),
               "matcher" := OfOption(matcher), "file_name" := OfOption(fileName),
               "script_path" := OfOption(scriptPath), "requirements" := OfStrings(requirements)])
    case Openclaw(config) => Dict(map["config" := Rebuilt(Dict(config))])
  }

  function OfItem(item: Item): Json {
    Dict(map["id" := Str(item.id), "name" := Str(item.name), "path" := Str(item.path),
             "summary" := Str(item.summary),
             "files" := List(OfFiles(item.files)),
             "redacted_refs" := OfStrings(item.refs), "data" := OfData(item.data), "kind" := Str(KindOf(item.data))])
  }

  function OfItems(items: seq<Item>): seq<Json> {
    seq(|items|, i requires 0 <= i < |items| => OfItem(items[i]))
  }

  function OfInventory(inv: Inventory): Json {
    Dict(map["source_root" := Str(inv.root), "schema_version" := Int(inv.version),
             "items" := List(OfItems(inv.items)),
             "unknowns" := OfStrings(inv.unknowns), "warnings" := OfStrings(inv.warnings)])
  }

  // ----- What can be read -----

  predicate WellData(d: Data) {
    match d
    case ClaudeMd(body, _) => body != ""
    case Subagent(body, _, _) => body != ""
    case Skill(content, _) => content != ""
    case Command(body, _) => body != ""
    case LocalTool(entrypoint) => entrypoint != ""
    case McpServer(transport, _, _, _, _) => transport in SERVER_TYPES
    case Hook(event, command, intent, source, _, _, _, _) =>
      event != "" && command != "" && intent in INTENTS && source in HOOK_SOURCES
    case Openclaw(_) => true
  }

  predicate WellFile(f: File) {
    f.path != "" && f.encoding in ENCODINGS
  }

  predicate WellItem(item: Item) {
    item.id != "" && item.name != "" && item.path != "" && (forall f :: f in item.files ==> WellFile(f))
    && WellData(item.data)
  }

  predicate WellFormed(inv: Inventory) {
    inv.root != "" && forall item :: item in inv.items ==> WellItem(item)
  }

  lemma {:induction false} RebuiltIsSame(v: Json)
    ensures Rebuilt(v) == v
  {
    match v
    case List(items) =>
      forall i | 0 <= i < |items| ensures Rebuilt(items[i]) == items[i] {
        RebuiltIsSame(items[i]);
      }
    case Dict(fields) =>
      forall k | k in fields ensures Rebuilt(fields[k]) == fields[k] {
        RebuiltIsSame(fields[k]);
      }
    case _ =>
  }

  lemma {:induction false} StringsBack(texts: seq<string>)
    ensures Strings(OfStrings(texts).items) == Accept(texts)
    decreases |texts|
  {
    if texts != [] {
      assert OfStrings(texts).items[1..] == OfStrings(texts[1..]).items;
      StringsBack(texts[1..]);
      assert texts == [texts[0]] + texts[1..];
    }
  }

  lemma {:induction false} ValueBack(value: Value)
    ensures ReadValue(OfValue(value)) == Accept(value)
  {
    if value.Many? {
      StringsBack(value.texts);
    }
  }

  lemma {:induction false} FrontMatterBack(fm: map<string, Value>)
    ensures FrontMatter(OfFrontMatter(fm)) == Accept(fm)
  {
    var fields := OfFrontMatter(fm).fields;
    forall k | k in fm ensures ReadValue(fields[k]) == Accept(fm[k]) {
      ValueBack(fm[k]);
    }
    assert fm == map k | k in fields :: ReadValue(fields[k]).value;
  }

  lemma {:induction false} StrMapBack(env: map<string, string>)
    ensures StrMap(Dict(map k | k in env :: Str(env[k]))) == Accept(env)
  {
    var fields := map k | k in env :: Str(env[k]);
    assert env == map k | k in fields :: fields[k].s;
  }

  lemma {:induction false} ServerBack(d: Data)
    requires d.McpServer? && WellData(d)
    ensures ParseServer(OfData(d).fields) == Accept(d)
  {
    var obj := OfData(d).fields;
    StringsBack(d.args);
    StrMapBack(d.env);
    assert Get(obj, "transport") == Str(d.transport);
    assert Get(obj, "command") == OfOption(d.mcpCommand);
    assert GetOr(obj, "args", NO_ITEMS) == OfStrings(d.args);
    assert GetOr(obj, "env", NO_FIELDS) == Dict(map k | k in d.env :: Str(d.env[k]));
    assert Get(obj, "url") == OfOption(d.url);
  }

  /** The fields that a hook is written with. */
  lemma {:induction false} HookFields(d: Data, obj: Fields)
    requires d.Hook? && obj == OfData(d).fields
    ensures Get(obj, "event") == Str(d.event) && Get(obj, "command") == Str(d.command)
    ensures Get(obj, "intent") == Str(d.intent) && Get(obj, "source") == Str(d.source)
    ensures Get(obj, "matcher") == OfOption(d.matcher) && Get(obj, "file_name") == OfOption(d.fileName)
    ensures Get(obj, "script_path") == OfOption(d.scriptPath)
    ensures GetOr(obj, "requirements", NO_ITEMS) == OfStrings(d.requirements)
  {
  }

  lemma {:induction false} HookRead(d: Data, obj: Fields, requirements: Json)
    requires d.Hook? && WellData(d)
    requires Get(obj, "event") == Str(d.event) && Get(obj, "command") == Str(d.command)
    requires Get(obj, "intent") == Str(d.intent) && Get(obj, "source") == Str(d.source)
    requires Get(obj, "matcher") == OfOption(d.matcher) && Get(obj, "file_name") == OfOption(d.fileName)
    requires Get(obj, "script_path") == OfOption(d.scriptPath)
    requires GetOr(obj, "requirements", NO_ITEMS) == requirements && StrList(requirements) == Accept(d.requirements)
    ensures ParseHook(obj) == Accept(d)
  {
  }

  lemma {:induction false} HookBack(d: Data)
    requires d.Hook? && WellData(d)
    ensures ParseHook(OfData(d).fields) == Accept(d)
  {
    StringsBack(d.requirements);
    HookFields(d, OfData(d).fields);
    HookRead(d, OfData(d).fields, OfStrings(d.requirements));
  }

  lemma {:induction false} DataBack(d: Data)
    requires WellData(d)
    ensures ParseData(KindOf(d), OfData(d).fields) == Accept(d)
  {
    match d
    case ClaudeMd(_, fm) => FrontMatterBack(fm);
    case Subagent(_, _, tools) =>
      if tools.Some? {
        ValueBack(tools.value);
      }
    case Skill(_, fm) => FrontMatterBack(fm);
    case Command(_, fm) => FrontMatterBack(fm);
    case LocalTool(_) =>
    case McpServer(_, _, _, _, _) => ServerBack(d);
    case Hook(_, _, _, _, _, _, _, _) => HookBack(d);
    case Openclaw(config) => RebuiltIsSame(Dict(config));
  }

  lemma {:induction false} FilesBack(files: seq<File>)
    requires forall f :: f in files ==> WellFile(f)
    ensures ParseFiles(OfFiles(files)) == Accept(files)
    decreases |files|
  {
    if files != [] {
      var all := OfFiles(files);
      var tail := files[1..];
      assert files[0] in files;
      FilesBack(tail);
      assert all[1..] == OfFiles(tail);
      assert files == [files[0]] + tail;
    }
  }

  /** The fields that an item is written with. */
  lemma {:induction false} ItemFields(item: Item, obj: Fields)
    requires obj == OfItem(item).fields
    ensures Get(obj, "kind") == Str(KindOf(item.data)) && Get(obj, "id") == Str(item.id)
    ensures Get(obj, "name") == Str(item.name) && Get(obj, "path") == Str(item.path)
    ensures Get(obj, "summary") == Str(item.summary)
    ensures GetOr(obj, "redacted_refs", NO_ITEMS) == OfStrings(item.refs)
    ensures GetOr(obj, "data", NO_FIELDS) == OfData(item.data)
    ensures GetOr(obj, "files", NO_ITEMS)
         == List(OfFiles(item.files))
  {
  }

  lemma {:induction false} ItemRead(item: Item, obj: Fields, files: seq<Json>, data: Json, refs: Json)
    requires item.id != "" && item.name != "" && item.path != "" && KindOf(item.data) != ""
    requires Get(obj, "kind") == Str(KindOf(item.data)) && Get(obj, "id") == Str(item.id)
    requires Get(obj, "name") == Str(item.name) && Get(obj, "path") == Str(item.path)
    requires Get(obj, "summary") == Str(item.summary)
    requires GetOr(obj, "redacted_refs", NO_ITEMS) == refs && StrList(refs) == Accept(item.refs)
    requires GetOr(obj, "data", NO_FIELDS) == data && data.Dict?
    requires ParseData(KindOf(item.data), data.fields) == Accept(item.data)
    requires GetOr(obj, "files", NO_ITEMS) == List(files) && ParseFiles(files) == Accept(item.files)
    ensures ParseItem(Dict(obj)) == Accept(item)
  {
  }

  lemma {:induction false} ItemBack(item: Item)
    requires WellItem(item)
    ensures ParseItem(OfItem(item)) == Accept(item)
  {
    var obj := OfItem(item).fields;
    FilesBack(item.files);
    StringsBack(item.refs);
    DataBack(item.data);
    ItemFields(item, obj);
    ItemRead(item, obj, OfFiles(item.files), OfData(item.data), OfStrings(item.refs));
  }

  lemma {:induction false} ReadOnto(first: Json, item: Item, rest: seq<Json>, items: seq<Item>)
    requires ParseItem(first) == Accept(item) && ParseItems(rest) == Accept(items)
    ensures ParseItems([first] + rest) == Accept([item] + items)
  {
    assert ([first] + rest)[1..] == rest;
  }

  lemma {:induction false} ItemsBack(items: seq<Item>)
    requires forall item :: item in items ==> WellItem(item)
    ensures ParseItems(OfItems(items)) == Accept(items)
    decreases |items|
  {
    if items != [] {
      var tail := items[1..];
      assert items[0] in items;
      ItemBack(items[0]);
      ItemsBack(tail);
      ReadOnto(OfItem(items[0]), items[0], OfItems(tail), tail);
      assert OfItems(items) == [OfItem(items[0])] + OfItems(tail);
      assert items == [items[0]] + tail;
    }
  }

  /** Writing and reading back gives the inventory, for every inventory that can be read at all. */
  lemma {:induction false} WriteThenRead(inv: Inventory)
    requires WellFormed(inv)
    ensures ParseInventory(OfInventory(inv)) == Accept(inv)
  {
    var obj := OfInventory(inv).fields;
    var items := OfItems(inv.items);
    ItemsBack(inv.items);
    StringsBack(inv.unknowns);
    StringsBack(inv.warnings);
  }

  lemma {:induction false} ReadFilesAreWell(items: seq<Json>)
    requires ParseFiles(items).Accept?
    ensures forall f :: f in ParseFiles(items).value ==> WellFile(f)
    decreases |items|
  {
    if items != [] {
      ReadFilesAreWell(items[1..]);
    }
  }

  lemma {:induction false} ReadDataIsWell(kind: string, obj: Fields)
    requires ParseData(kind, obj).Accept?
    ensures WellData(ParseData(kind, obj).value)
    ensures KindOf(ParseData(kind, obj).value) == kind
  {
  }

  lemma {:induction false} ReadItemIsWell(v: Json)
    requires ParseItem(v).Accept?
    ensures WellItem(ParseItem(v).value)
  {
    var obj := v.fields;
    ReadFilesAreWell(GetOr(obj, "files", NO_ITEMS).items);
    ReadDataIsWell(Get(obj, "kind").s, GetOr(obj, "data", NO_FIELDS).fields);
  }

  lemma {:induction false} ReadItemsAreWell(items: seq<Json>)
    requires ParseItems(items).Accept?
    ensures forall item :: item in ParseItems(items).value ==> WellItem(item)
    decreases |items|
  {
    if items != [] {
      ReadItemIsWell(items[0]);
      ReadItemsAreWell(items[1..]);
    }
  }

  /** Every value that is read, written and read again gives the same inventory. */
  lemma {:induction false} ReadWriteRead(v: Json)
    requires ParseInventory(v).Accept?
    ensures WellFormed(ParseInventory(v).value)
    ensures ParseInventory(OfInventory(ParseInventory(v).value)) == ParseInventory(v)
  {
    ReadItemsAreWell(GetOr(v.fields, "items", NO_ITEMS).items);
    WriteThenRead(ParseInventory(v).value);
  }

  /** An inventory comes back from what is written of it exactly when it can be read from anything. */
  lemma {:induction false} ReadableExactlyWhen(inv: Inventory)
    ensures ParseInventory(OfInventory(inv)) == Accept(inv) <==> WellFormed(inv)
    ensures WellFormed(inv) <==> exists v :: ParseInventory(v) == Accept(inv)
  {
    if WellFormed(inv) {
      WriteThenRead(inv);
    }
    if v :| ParseInventory(v) == Accept(inv) {
      ReadWriteRead(v);
    }
  }

  // ----- The loops of the readers -----

  lemma {:induction false} StringsAppend(items: seq<Json>, item: Json)
    ensures Strings(items + [item])
         == if Strings(items).Accept? && item.Str? then Accept(Strings(items).value + [item.s]) else Refuse
    decreases |items|
  {
    if items == [] {
      var one := [item];
      assert items + [item] == one && one[1..] == items;
      assert Strings(items) == Accept([]);
      if item.Str? {
        assert [item.s] + [] == [] + [item.s];
      }
    } else {
      assert (items + [item])[1..] == items[1..] + [item];
      StringsAppend(items[1..], item);
      if Strings(items).Accept? && item.Str? {
        var h, t, u := [items[0].s], Strings(items[1..]).value, [item.s];
        assert h + (t + u) == (h + t) + u;
      }
    }
  }

  lemma {:induction false} NotAllStrings(items: seq<Json>, i: nat)
    requires i < |items| && !items[i].Str?
    ensures Strings(items).Refuse?
    decreases |items|
  {
    if i > 0 {
      NotAllStrings(items[1..], i - 1);
    }
  }

  method ReadStrList(v: Json) returns (r: Read<seq<string>>)
    ensures r == StrList(v)
  {
    var items :- RequireList(v);
    var out: seq<string> := [];
    for i := 0 to |items|
      invariant Strings(items[..i]) == Accept(out)
    {
      StringsAppend(items[..i], items[i]);
      assert items[..i + 1] == items[..i] + [items[i]];
      if !items[i].Str? {
        NotAllStrings(items, i);
        return Refuse;
      }
      out := out + [items[i].s];
    }
    assert items[..|items|] == items;
    return Accept(out);
  }

  method ReadStrMap(v: Json) returns (r: Read<map<string, string>>)
    ensures r == StrMap(v)
  {
    var fields :- RequireDict(v);
    var out: map<string, string>, left := map[], fields.Keys;
    while left != {}
      invariant left <= fields.Keys && out.Keys == fields.Keys - left
      invariant forall k :: k in out ==> fields[k].Str? && out[k] == fields[k].s
      decreases left
    {
      var key :| key in left;
      if !fields[key].Str? {
        return Refuse;
      }
      out := out[key := fields[key].s];
      left := left - {key};
    }
    assert out == map k | k in fields :: fields[k].s;
    return Accept(out);
  }

  method ReadFrontMatter(v: Json) returns (r: Read<map<string, Value>>)
    ensures r == FrontMatter(v)
  {
    var fields :- RequireDict(v);
    var out: map<string, Value>, left := map[], fields.Keys;
    while left != {}
      invariant left <= fields.Keys && out.Keys == fields.Keys - left
      invariant forall k :: k in out ==> ReadValue(fields[k]) == Accept(out[k])
      decreases left
    {
      var key :| key in left;
      match fields[key] {
        case Str(s) =>
          out := out[key := Scalar(s)];
        case List(items) =>
          var texts := ReadStrList(fields[key]);
          if texts.Refuse? {
            return Refuse;
          }
          out := out[key := Many(texts.value)];
        case _ =>
          return Refuse;
      }
      left := left - {key};
    }
    assert out == map k | k in fields :: ReadValue(fields[k]).value;
    return Accept(out);
  }
}
