/** The language of a tool call (src/stats.ts:6-23, 94-100): the first
    truthy of the `file_path`, `path` and `dir_path` arguments, when it is a
    string, is mapped by the lower-cased text after its last '.' through
    the extension table `EXTENSION_MAP`. */
module Languages {
  import opened Wrappers
  import opened Text
  import opened Sessions

  /** `EXTENSION_MAP`. */
  const ExtensionMap: map<string, string> := map[
    "ts" := "TypeScript", "tsx" := "TypeScript",
    "js" := "JavaScript", "jsx" := "JavaScript",
    "py" := "Python",
    "rs" := "Rust",
    "go" := "Go",
    "rb" := "Ruby",
    "java" := "Java",
    "cpp" := "C++", "cc" := "C++", "hpp" := "C++", "c" := "C",
    "md" := "Markdown",
    "html" := "HTML", "css" := "CSS",
    "sh" := "Shell", "bash" := "Shell", "zsh" := "Shell",
    "json" := "JSON", "yaml" := "YAML", "yml" := "YAML",
    "sql" := "SQL",
    "swift" := "Swift",
    "kt" := "Kotlin",
    "php" := "PHP"
  ]

  /** JavaScript truthiness of an argument value. */
  predicate Truthy(v: ArgValue) {
    match v
    case Absent => false
    case Text(s) => s != ""
    case NonText(t) => t
  }

  /** `call.args?.file_path || call.args?.path || call.args?.dir_path`. */
  function PathArg(call: ToolCall): (v: ArgValue)
    ensures Truthy(v) <==> Truthy(call.filePath) || Truthy(call.path) || Truthy(call.dirPath)
  {
    if Truthy(call.filePath) then call.filePath
    else if Truthy(call.path) then call.path
    else call.dirPath
  }

  /** `filePath.split('.').pop()?.toLowerCase()`: the lower-cased text after
      the last '.', or the whole path when it has none. */
  function Extension(path: string): string {
    var parts := Split(path, '.');
    ToLower(parts[|parts| - 1])
  }

  /** The language counted for a tool call, if any. A string path whose
      extension is not a key of the table (including the empty extension
      of a path ending in '.') counts for no language. */
  function LanguageOf(call: ToolCall): (lang: Option<string>)
    ensures lang.Some? ==> lang.value in ExtensionMap.Values
  {
    var fp := PathArg(call);
    if Truthy(fp) && fp.Text? then
      var ext := Extension(fp.s);
      if ext != "" && ext in ExtensionMap then Some(ExtensionMap[ext]) else None
    else None
  }

  /** A language is counted exactly when the first truthy path argument is a
      string whose extension is a key of the table. */
  lemma LanguageOfKey(call: ToolCall)
    ensures LanguageOf(call).Some? <==>
      PathArg(call).Text? && PathArg(call).s != "" && Extension(PathArg(call).s) in ExtensionMap
    ensures LanguageOf(call).Some? ==> LanguageOf(call).value == ExtensionMap[Extension(PathArg(call).s)]
  {
    assert "" !in ExtensionMap;
  }

  // ---------------------------------------------------------------------
  // The table lookup as written

  /** The properties every plain object inherits from `Object.prototype`;
      indexing `EXTENSION_MAP` by one of these names finds the inherited
      value, a function or (for `__proto__`) an object, which is truthy.
      The extension is lower-cased before the lookup, so only the names
      that lower-casing leaves unchanged can be reached (`LowerCaseMembers`). */
  const PrototypeMembers: set<string> :=
    {"constructor", "__proto__"} + PrototypeMethods + LegacyAccessors

  const PrototypeMethods: set<string> := {
    "hasOwnProperty", "isPrototypeOf", "propertyIsEnumerable", "toLocaleString", "toString", "valueOf"
  }

  const LegacyAccessors: set<string> := {
    "__defineGetter__", "__defineSetter__", "__lookupGetter__", "__lookupSetter__"
  }

  /** What `EXTENSION_MAP[ext]` evaluates to. */
  datatype Lookup = Own(language: string) | Inherited(member: string) | Undefined

  function LookupAsWritten(ext: string): Lookup {
    if ext in ExtensionMap then Own(ExtensionMap[ext])
    else if ext in PrototypeMembers then Inherited(ext)
    else Undefined
  }

  /** Of the inherited names, only "constructor" and "__proto__" are their
      own lower-case form, so only they can be the extension looked up. */
  lemma LowerCaseMembers()
    ensures forall m :: m in PrototypeMembers && ToLower(m) == m ==>
      m == "constructor" || m == "__proto__"
    ensures ToLower("constructor") == "constructor" && ToLower("__proto__") == "__proto__"
  {
    MethodsCapitalised();
    AccessorsCapitalised();
  }

  lemma MethodsCapitalised()
    ensures forall m :: m in PrototypeMethods ==> ToLower(m) != m
  {
    HasUpper("hasOwnProperty", 3);
    HasUpper("isPrototypeOf", 2);
    HasUpper("propertyIsEnumerable", 8);
    HasUpper("toLocaleString", 2);
    HasUpper("toString", 2);
    HasUpper("valueOf", 5);
  }

  lemma AccessorsCapitalised()
    ensures forall m :: m in LegacyAccessors ==> ToLower(m) != m
  {
    HasUpper("__defineGetter__", 8);
    HasUpper("__defineSetter__", 8);
    HasUpper("__lookupGetter__", 8);
    HasUpper("__lookupSetter__", 8);
  }

  /** A name with a capital letter is not its own lower-case form. */
  lemma HasUpper(m: string, i: nat)
    requires i < |m| && 'A' <= m[i] <= 'Z'
    ensures ToLower(m) != m
  {
    assert ToLower(m)[i] != m[i];
  }

  /** The key under which src/stats.ts:97-99 bumps `languageCounts`: the
      test `ext && EXTENSION_MAP[ext]` passes for an inherited member too. */
  function LanguageKeyAsWritten(call: ToolCall): Option<Lookup> {
    var fp := PathArg(call);
    if Truthy(fp) && fp.Text? then
      var ext := Extension(fp.s);
      if ext != "" && !LookupAsWritten(ext).Undefined? then Some(LookupAsWritten(ext)) else None
    else None
  }

  /** The lookup as written and the own-key lookup agree on every extension
      except the inherited member names. */
  lemma AsWrittenAgrees(call: ToolCall)
    ensures var fp := PathArg(call);
      !(fp.Text? && Extension(fp.s) in PrototypeMembers) ==>
        (LanguageKeyAsWritten(call).Some? <==> LanguageOf(call).Some?)
        && (LanguageOf(call).Some? ==> LanguageKeyAsWritten(call).value == Own(LanguageOf(call).value))
  {
    assert "" !in ExtensionMap;
  }

  /** The text after the last '.' of `stem.last` is `last`. */
  lemma ExtensionOfSuffix(stem: string, last: string)
    requires '.' !in last
    ensures Extension(stem + "." + last) == ToLower(last)
  {
    SplitLast(stem, '.', last);
  }

  /** "constructor" is an inherited member name that lower-casing leaves as
      it is and that the table does not list. */
  lemma ConstructorIsInherited()
    ensures '.' !in "constructor" && ToLower("constructor") == "constructor"
    ensures "constructor" in PrototypeMembers && "constructor" !in ExtensionMap
  {
  }

  /** A file whose extension is an inherited member name, such as
      `notes.constructor`, is counted under that member as if it were a
      language; the own-key lookup counts it for no language. */
  lemma InheritedMemberCounted(call: ToolCall, stem: string, member: string)
    requires '.' !in member && ToLower(member) == member
    requires member in PrototypeMembers && member !in ExtensionMap
    requires call.filePath == Text(stem + "." + member)
    ensures LanguageKeyAsWritten(call) == Some(Inherited(member))
    ensures LanguageOf(call) == None
  {
    ExtensionOfSuffix(stem, member);
    assert member != "";
  }
}
