/** The editor's choice of syntax highlighting for a file name
    (`getLanguageFromFileName` in frontend/src/components/CodeEditor.js). */
module EditorLanguage {
  import opened Strings

  /** A language name, or `Inherited(key)`: the member `key` that the
      `languageMap` object literal inherits from `Object.prototype` (the
      function `Object` for "constructor", the prototype itself for
      "__proto__"). Either is truthy, so the `|| 'javascript'` fallback
      does not apply to it. */
  datatype Language = JavaScript | TypeScript | Html | Css | Json | Markdown | Inherited(key: string)

  /** The `languageMap` object: lower-case extension to language. */
  const LanguageTable: map<string, Language> := map[
    "js" := JavaScript, "jsx" := JavaScript,
    "ts" := TypeScript, "tsx" := TypeScript,
    "html" := Html, "css" := Css, "json" := Json, "md" := Markdown]

  /** The members of `Object.prototype` whose names are all lower case, so
      that a lowered extension can name them. */
  const InheritedKeys: set<string> := {"constructor", "__proto__"}

  /** `fileName.split('.').pop().toLowerCase()` */
  function Extension(fileName: string): string {
    var parts := Split(fileName, '.');
    ToLower(parts[|parts| - 1])
  }

  /** `languageMap[extension] || 'javascript'`: the table entry for the
      extension, the inherited member for an inherited key, and JavaScript
      for any other extension. */
  function LanguageOf(fileName: string): (lang: Language)
    ensures lang == TypeScript <==> Extension(fileName) in {"ts", "tsx"}
    ensures lang == Html <==> Extension(fileName) == "html"
    ensures lang == Css <==> Extension(fileName) == "css"
    ensures lang == Json <==> Extension(fileName) == "json"
    ensures lang == Markdown <==> Extension(fileName) == "md"
    ensures lang.Inherited? <==> Extension(fileName) in InheritedKeys
    ensures lang.Inherited? ==> lang.key == Extension(fileName)
    ensures lang == JavaScript <==> Extension(fileName) !in {"ts", "tsx", "html", "css", "json", "md", "constructor", "__proto__"}
  {
    var ext := Extension(fileName);
    if ext in LanguageTable then LanguageTable[ext]
    else if ext in InheritedKeys then Inherited(ext)
    else JavaScript
  }

  /** A file whose extension is an inherited key gets the inherited member,
      not the JavaScript fallback. */
  lemma InheritedExtension(base: string, word: string)
    requires LowerWord(word) && word in InheritedKeys
    ensures LanguageOf(base + "." + word) == Inherited(word)
  {
    WordExtension(base, word);
  }

  /** A file whose name ends in ".constructor" gets the inherited function
      `Object`. */
  lemma ConstructorExtension(base: string)
    ensures LanguageOf(base + "." + "constructor") == Inherited("constructor")
  {
    assert LowerWord("constructor");
    InheritedExtension(base, "constructor");
  }

  /** A file whose name ends in ".__proto__" gets the inherited
      `Object.prototype`. */
  lemma ProtoExtension(base: string)
    ensures LanguageOf(base + "." + "__proto__") == Inherited("__proto__")
  {
    assert LowerWord("__proto__");
    InheritedExtension(base, "__proto__");
  }

  /** A word of lower-case letters and underscores after the last dot is
      the extension as it stands. */
  lemma WordExtension(base: string, word: string)
    requires LowerWord(word)
    ensures Extension(base + "." + word) == word
  {
    var name := base + "." + word;
    LowerWordLetters(word);
    assert Free(word, '.');
    ToLowerOfUnshifted(word);
    LastIndexOfUnique(name, '.', |base|);
    assert name[|base| + 1..] == word;
    ExtensionAfterLastDot(name);
  }

  /** Only lower-case letters and underscores. */
  predicate LowerWord(s: string) {
    |s| == 0 || ((s[0] == '_' || 'a' <= s[0] <= 'z') && LowerWord(s[1..]))
  }

  lemma {:induction false} LowerWordLetters(s: string)
    requires LowerWord(s)
    ensures forall i | 0 <= i < |s| :: s[i] == '_' || 'a' <= s[i] <= 'z'
  {
    if |s| > 0 {
      LowerWordLetters(s[1..]);
      assert forall i | 1 <= i < |s| :: s[i] == s[1..][i - 1];
    }
  }

  /** The extension is the lower-cased text after the last dot; a name
      without a dot is its own extension. */
  lemma ExtensionAfterLastDot(fileName: string)
    ensures Extension(fileName) == ToLower(fileName[LastIndexOf(fileName, '.') + 1..])
    ensures Free(fileName, '.') ==> Extension(fileName) == ToLower(fileName)
  {
    SplitLast(fileName, '.');
    if Free(fileName, '.') {
      LastIndexOfUnique(fileName, '.', -1);
      assert fileName[0..] == fileName;
    }
  }

  /** Lower-casing a name changes neither its extension nor its language. */
  lemma LanguageIgnoresCase(fileName: string)
    ensures Extension(ToLower(fileName)) == Extension(fileName)
    ensures LanguageOf(ToLower(fileName)) == LanguageOf(fileName)
  {
    ExtensionIgnoresCase(fileName);
  }

  lemma ExtensionIgnoresCase(fileName: string)
    ensures Extension(ToLower(fileName)) == Extension(fileName)
  {
    var tail := fileName[LastIndexOf(fileName, '.') + 1..];
    LoweredExtension(fileName);
    ToLowerIdempotent(tail);
    ExtensionAfterLastDot(fileName);
  }

  /** The extension of a lowered name is the lowered tail after the
      original's last dot. */
  lemma LoweredExtension(fileName: string)
    ensures Extension(ToLower(fileName)) == ToLower(ToLower(fileName[LastIndexOf(fileName, '.') + 1..]))
  {
    var lowered := ToLower(fileName);
    var i := LastIndexOf(fileName, '.');
    var t := fileName[i + 1..];
    LastDotOfLowered(fileName);
    assert Extension(lowered) == ToLower(lowered[i + 1..]) by { ExtensionAfterLastDot(lowered); }
    assert lowered[i + 1..] == ToLower(t) by { ToLowerSuffix(fileName, i + 1); }
  }

  /** Lower-casing moves no dot. */
  lemma LastDotOfLowered(s: string)
    ensures LastIndexOf(ToLower(s), '.') == LastIndexOf(s, '.')
  {
    var i := LastIndexOf(s, '.');
    var lowered := ToLower(s);
    forall j | 0 <= j < |s|
      ensures lowered[j] == '.' <==> s[j] == '.'
    {
      assert lowered[j] == LowerChar(s[j]);
    }
    LastIndexOfUnique(lowered, '.', i);
  }
}
