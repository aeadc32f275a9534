/** Which JSON describes an inventory, and which inventory it describes
    (migration-kit/scripts/contracts.py:300-375, 511-637). */
module InventoryLaws {
  import opened Wrappers
  import opened Inventory

  // ----- Fields -----

  /** A required string, not empty. */
  predicate HasName(obj: Fields, key: string, s: string) {
    key in obj && obj[key] == Str(s) && s != ""
  }

  /** An optional string: absent or null, or there. */
  predicate MayHave(obj: Fields, key: string, o: Option<string>) {
    match o
    case None => key !in obj || obj[key] == Null
    case Some(s) => key in obj && obj[key] == Str(s)
  }

  predicate IsTexts(v: Json, texts: seq<string>) {
    v.List? && |v.items| == |texts| && forall i :: 0 <= i < |texts| ==> v.items[i] == Str(texts[i])
  }

  /** A list of strings, empty where absent. */
  predicate HasTexts(obj: Fields, key: string, texts: seq<string>) {
    if key in obj then IsTexts(obj[key], texts) else texts == []
  }

  predicate IsValue(v: Json, value: Value) {
    match value
    case Scalar(text) => v == Str(text)
    case Many(texts) => IsTexts(v, texts)
  }

  /** A map to strings, empty where absent. */
  predicate HasMap(obj: Fields, key: string, m: map<string, string>) {
    if key in obj then
      obj[key].Dict? && obj[key].fields.Keys == m.Keys && forall k :: k in m ==> obj[key].fields[k] == Str(m[k])
    else m == map[]
  }

  predicate HasFrontMatter(obj: Fields, key: string, fm: map<string, Value>) {
    if key in obj then
      obj[key].Dict? && obj[key].fields.Keys == fm.Keys && forall k :: k in fm ==> IsValue(obj[key].fields[k], fm[k])
    else fm == map[]
  }

  predicate OneOf(obj: Fields, key: string, s: string, allowed: set<string>) {
    key in obj && obj[key] == Str(s) && s in allowed
  }

  // ----- Items -----

  predicate IsFile(v: Json, f: File) {
    && v.Dict? && HasName(v.fields, "path", f.path)
    && "content" in v.fields && v.fields["content"] == Str(f.content)
    && OneOf(v.fields, "encoding", f.encoding, {"utf8", "base64"})
  }

  predicate IsData(obj: Fields, kind: string, d: Data) {
    match d
    case ClaudeMd(body, fm) => kind == "claude_md" && HasName(obj, "body", body) && HasFrontMatter(obj, "frontmatter", fm)
    case Subagent(body, description, tools) =>
      && kind == "subagent" && HasName(obj, "body", body) && MayHave(obj, "description", description)
      && if tools.Some? then "tools" in obj && IsValue(obj["tools"], tools.value)
         else "tools" !in obj || obj["tools"] == Null
    case Skill(content, fm) => kind == "skill" && HasName(obj, "content", content) && HasFrontMatter(obj, "frontmatter", fm)
    case Command(body, fm) => kind == "command" && HasName(obj, "body", body) && HasFrontMatter(obj, "frontmatter", fm)
    case LocalTool(entrypoint) => kind == "local_tool" && HasName(obj, "entrypoint", entrypoint)
    case McpServer(transport, command, args, env, url) =>
      && kind == "mcp_server" && OneOf(obj, "transport", transport, {"local", "remote"})
      && MayHave(obj, "command", command) && HasTexts(obj, "args", args) && HasMap(obj, "env", env)
      && MayHave(obj, "url", url)
    case Hook(event, command, intent, source, matcher, fileName, scriptPath, requirements) =>
      && kind == "hook" && HasName(obj, "event", event) && HasName(obj, "command", command)
      && OneOf(obj, "intent", intent, {"guard", "passive"})
      && OneOf(obj, "source", source, {"bundled", "inline", "unresolved"})
      && MayHave(obj, "matcher", matcher) && MayHave(obj, "file_name", fileName)
      && MayHave(obj, "script_path", scriptPath) && HasTexts(obj, "requirements", requirements)
    case Openclaw(config) =>
      kind == "openclaw" && if "config" in obj then obj["config"] == Dict(config) else config == map[]
  }

  /** A summary that is absent or null is the empty text. */
  predicate HasSummary(obj: Fields, summary: string) {
    MayHave(obj, "summary", Some(summary)) || (summary == "" && MayHave(obj, "summary", None))
  }

  predicate HasFiles(obj: Fields, files: seq<File>) {
    if "files" in obj then
      && obj["files"].List? && |obj["files"].items| == |files|
      && forall i :: 0 <= i < |files| ==> IsFile(obj["files"].items[i], files[i])
    else files == []
  }

  ghost predicate IsItem(v: Json, item: Item) {
    && v.Dict?
    && HasName(v.fields, "id", item.id) && HasName(v.fields, "name", item.name) && HasName(v.fields, "path", item.path)
    && HasSummary(v.fields, item.summary) && HasFiles(v.fields, item.files)
    && HasTexts(v.fields, "redacted_refs", item.refs)
    && exists kind :: HasName(v.fields, "kind", kind)
                      && if "data" in v.fields then v.fields["data"].Dict? && IsData(v.fields["data"].fields, kind, item.data)
                         else IsData(map[], kind, item.data)
  }

  ghost predicate IsInventory(v: Json, inv: Inventory) {
    && v.Dict? && HasName(v.fields, "source_root", inv.root)
    && (if "schema_version" in v.fields then v.fields["schema_version"] == Int(inv.version) else inv.version == 1)
    && (if "items" in v.fields then
          && v.fields["items"].List? && |v.fields["items"].items| == |inv.items|
          && forall i :: 0 <= i < |inv.items| ==> IsItem(v.fields["items"].items[i], inv.items[i])
        else inv.items == [])
    && HasTexts(v.fields, "unknowns", inv.unknowns) && HasTexts(v.fields, "warnings", inv.warnings)
  }

  // ----- The readers accept exactly those -----

  lemma {:induction false} StringsExactly(items: seq<Json>, texts: seq<string>)
    ensures Strings(items) == Accept(texts) <==> IsTexts(List(items), texts)
    decreases |items|
  {
    if items != [] && texts != [] {
      StringsExactly(items[1..], texts[1..]);
      assert texts == [texts[0]] + texts[1..];
      assert forall i :: 1 <= i < |items| ==> items[i] == items[1..][i - 1];
      assert forall i :: 1 <= i < |texts| ==> texts[i] == texts[1..][i - 1];
      if IsTexts(List(items[1..]), texts[1..]) && items[0] == Str(texts[0]) {
        forall i | 0 <= i < |texts| ensures items[i] == Str(texts[i]) {
          if i > 0 {
            assert items[1..][i - 1] == Str(texts[1..][i - 1]);
          }
        }
      }
    }
  }

  lemma {:induction false} TextsExactly(obj: Fields, key: string, texts: seq<string>)
    ensures StrList(GetOr(obj, key, NO_ITEMS)) == Accept(texts) <==> HasTexts(obj, key, texts)
  {
    var v := GetOr(obj, key, NO_ITEMS);
    if v.List? {
      StringsExactly(v.items, texts);
    }
  }

  lemma {:induction false} MapExactly(obj: Fields, key: string, m: map<string, string>)
    ensures StrMap(GetOr(obj, key, NO_FIELDS)) == Accept(m) <==> HasMap(obj, key, m)
  {
    var v := GetOr(obj, key, NO_FIELDS);
    if v.Dict? && HasMap(obj, key, m) {
      assert (map k | k in v.fields :: v.fields[k].s) == m;
    }
  }

  lemma {:induction false} ValueExactly(v: Json, value: Value)
    ensures ReadValue(v) == Accept(value) <==> IsValue(v, value)
  {
    if v.List? && value.Many? {
      StringsExactly(v.items, value.texts);
    }
  }

  lemma {:induction false} FrontMatterExactly(obj: Fields, key: string, fm: map<string, Value>)
    ensures FrontMatter(GetOr(obj, key, NO_FIELDS)) == Accept(fm) <==> HasFrontMatter(obj, key, fm)
  {
    var v := GetOr(obj, key, NO_FIELDS);
    if v.Dict? {
      if FrontMatter(v) == Accept(fm) {
        forall k | k in fm ensures IsValue(v.fields[k], fm[k]) {
          ValueExactly(v.fields[k], fm[k]);
        }
      }
      if HasFrontMatter(obj, key, fm) {
        forall k | k in v.fields ensures ReadValue(v.fields[k]) == Accept(fm[k]) {
          ValueExactly(v.fields[k], fm[k]);
        }
        assert (map k | k in v.fields :: ReadValue(v.fields[k]).value) == fm;
      }
    }
  }

  lemma {:induction false} NameExactly(obj: Fields, key: string, s: string)
    ensures RequireStr(Get(obj, key)) == Accept(s) <==> HasName(obj, key, s)
  {
  }

  lemma {:induction false} MayExactly(obj: Fields, key: string, o: Option<string>)
    ensures OptStr(Get(obj, key)) == Accept(o) <==> MayHave(obj, key, o)
  {
  }

  lemma {:induction false} ChoiceExactly(obj: Fields, key: string, s: string, allowed: seq<string>)
    ensures RequireLiteral(Get(obj, key), allowed) == Accept(s) <==> OneOf(obj, key, s, set x | x in allowed)
  {
  }

  lemma {:induction false} ChoicesAre()
    ensures (set x | x in ENCODINGS) == {"utf8", "base64"}
    ensures (set x | x in SERVER_TYPES) == {"local", "remote"}
    ensures (set x | x in INTENTS) == {"guard", "passive"}
    ensures (set x | x in HOOK_SOURCES) == {"bundled", "inline", "unresolved"}
  {
  }

  lemma {:induction false} FileExactly(v: Json, f: File)
    ensures ParseFile(v) == Accept(f) <==> IsFile(v, f)
  {
    if v.Dict? {
      var obj := v.fields;
      NameExactly(obj, "path", f.path);
      ChoicesAre();
      ChoiceExactly(obj, "encoding", f.encoding, ENCODINGS);
      assert OneOf(obj, "encoding", f.encoding, {"utf8", "base64"}) ==> f.encoding != "";
    }
  }

  lemma {:induction false} FilesExactly(items: seq<Json>, files: seq<File>)
    ensures ParseFiles(items) == Accept(files) <==>
            |items| == |files| && forall i :: 0 <= i < |files| ==> IsFile(items[i], files[i])
    decreases |items|
  {
    if items != [] && files != [] {
      FileExactly(items[0], files[0]);
      FilesExactly(items[1..], files[1..]);
      assert files == [files[0]] + files[1..];
      assert forall i :: 1 <= i < |items| ==> items[i] == items[1..][i - 1];
      assert forall i :: 1 <= i < |files| ==> files[i] == files[1..][i - 1];
    }
  }

  lemma {:induction false} ServerExactly(obj: Fields, d: Data)
    ensures ParseServer(obj) == Accept(d) <==> IsData(obj, "mcp_server", d)
  {
    if d.McpServer? {
      ChoicesAre();
      ChoiceExactly(obj, "transport", d.transport, SERVER_TYPES);
      MayExactly(obj, "command", d.mcpCommand);
      TextsExactly(obj, "args", d.args);
      MapExactly(obj, "env", d.env);
      MayExactly(obj, "url", d.url);
    }
  }

  lemma {:induction false} HookNamesExactly(obj: Fields, d: Data)
    requires d.Hook?
    ensures RequireStr(Get(obj, "event")) == Accept(d.event) <==> HasName(obj, "event", d.event)
    ensures RequireStr(Get(obj, "command")) == Accept(d.command) <==> HasName(obj, "command", d.command)
    ensures RequireLiteral(Get(obj, "intent"), INTENTS) == Accept(d.intent)
       <==> OneOf(obj, "intent", d.intent, {"guard", "passive"})
    ensures RequireLiteral(Get(obj, "source"), HOOK_SOURCES) == Accept(d.source)
       <==> OneOf(obj, "source", d.source, {"bundled", "inline", "unresolved"})
  {
    ChoicesAre();
    ChoiceExactly(obj, "intent", d.intent, INTENTS);
    ChoiceExactly(obj, "source", d.source, HOOK_SOURCES);
  }

  lemma {:induction false} HookExactly(obj: Fields, d: Data)
    ensures ParseHook(obj) == Accept(d) <==> IsData(obj, "hook", d)
  {
    if d.Hook? {
      HookNamesExactly(obj, d);
      MayExactly(obj, "matcher", d.matcher);
      MayExactly(obj, "file_name", d.fileName);
      MayExactly(obj, "script_path", d.scriptPath);
      TextsExactly(obj, "requirements", d.requirements);
    }
  }

  lemma {:induction false} SubagentExactly(obj: Fields, d: Data)
    ensures ParseSubagent(obj) == Accept(d) <==> IsData(obj, "subagent", d)
  {
    if d.Subagent? {
      NameExactly(obj, "body", d.body);
      MayExactly(obj, "description", d.description);
      if d.tools.Some? {
        ValueExactly(Get(obj, "tools"), d.tools.value);
      }
    }
  }

  lemma {:induction false} TextExactly(obj: Fields, key: string, text: string, fm: map<string, Value>)
    ensures ParseText(obj, key) == Accept((text, fm)) <==> HasName(obj, key, text) && HasFrontMatter(obj, "frontmatter", fm)
  {
    NameExactly(obj, key, text);
    FrontMatterExactly(obj, "frontmatter", fm);
  }

  lemma {:induction false} DataExactly(kind: string, obj: Fields, d: Data)
    ensures ParseData(kind, obj) == Accept(d) <==> IsData(obj, kind, d)
  {
    match d
    case ClaudeMd(body, fm) => TextExactly(obj, "body", body, fm);
    case Skill(content, fm) => TextExactly(obj, "content", content, fm);
    case Command(body, fm) => TextExactly(obj, "body", body, fm);
    case _ =>
    if kind == "mcp_server" {
      ServerExactly(obj, d);
    } else if kind == "hook" {
      HookExactly(obj, d);
    } else if kind == "subagent" {
      SubagentExactly(obj, d);
    }
  }

  lemma {:induction false} ItemExactly(v: Json, item: Item)
    ensures ParseItem(v) == Accept(item) <==> IsItem(v, item)
  {
    if v.Dict? {
      var obj := v.fields;
      NameExactly(obj, "id", item.id);
      NameExactly(obj, "name", item.name);
      NameExactly(obj, "path", item.path);
      var listed, data := GetOr(obj, "files", NO_ITEMS), GetOr(obj, "data", NO_FIELDS);
      if listed.List? {
        FilesExactly(listed.items, item.files);
      }
      TextsExactly(obj, "redacted_refs", item.refs);
      var kind := RequireStr(Get(obj, "kind"));
      if kind.Accept? && data.Dict? {
        NameExactly(obj, "kind", kind.value);
        DataExactly(kind.value, data.fields, item.data);
      }
    }
  }

  lemma {:induction false} ItemsExactly(vs: seq<Json>, items: seq<Item>)
    ensures ParseItems(vs) == Accept(items) <==>
            |vs| == |items| && forall i :: 0 <= i < |items| ==> IsItem(vs[i], items[i])
    decreases |vs|
  {
    if vs != [] && items != [] {
      ItemExactly(vs[0], items[0]);
      ItemsExactly(vs[1..], items[1..]);
      assert items == [items[0]] + items[1..];
      assert forall i :: 1 <= i < |vs| ==> vs[i] == vs[1..][i - 1];
      assert forall i :: 1 <= i < |items| ==> items[i] == items[1..][i - 1];
    }
  }

  /** A JSON value is read as an inventory exactly when its fields have the types and the values that
      the inventory's own have, and those that are absent may be and have their defaults. */
  lemma {:induction false} InventoryExactlyWhen(v: Json, inv: Inventory)
    ensures ParseInventory(v) == Accept(inv) <==> IsInventory(v, inv)
  {
    if v.Dict? {
      var obj := v.fields;
      var listed := GetOr(obj, "items", NO_ITEMS);
      if listed.List? {
        ItemsExactly(listed.items, inv.items);
      }
      NameExactly(obj, "source_root", inv.root);
      TextsExactly(obj, "unknowns", inv.unknowns);
      TextsExactly(obj, "warnings", inv.warnings);
    }
  }
}
