/**
 * The interface strings of the plugin in English and Chinese, and the
 * lookup `t`: unknown languages and missing or empty strings fall back to
 * English, and `{name}` placeholders are filled from the parameters.
 */
module I18n {
  import opened Wrappers
  import opened JsStrings

  /** The keys of the `Translations` interface. */
  datatype Key =
    | ViewTitle
    | RefreshButtonAriaLabel
    | SortLabel
    | SortFrequency
    | SortAlphabetical
    | GroupLabel
    | GroupNone
    | GroupFolder
    | TemplateLabel
    | SearchPlaceholder
    | SelectAllButtonText
    | SelectAllButtonAriaLabel
    | DeselectAllButtonText
    | DeselectAllButtonAriaLabel
    | GenerateSelectedButtonText
    | GenerateSelectedButtonAriaLabel
    | GenerateSelectedButtonDisabledText
    | EmptyMessageNoLinks
    | EmptyMessageNoSearchResults
    | FolderRootName
    | FolderNameTemplate
    | ReferencedInHeader
    | NoticeScanning
    | NoticeScanComplete
    | NoticeNoLinksSelected
    | NoticeNoTemplateSelected
    | NoticeCouldNotLoadTemplates
    | NoticeStartingGeneration
    | NoticeBatchGenerationComplete
    | NoticeGeneratingFor
    | NoticeAlreadyExists
    | NoticeSuccessfullyCreated
    | NoticeFailedToGenerate
    | NoticeErrorScanningVault

  const AllKeys: set<Key> := {
    ViewTitle, RefreshButtonAriaLabel, SortLabel, SortFrequency, SortAlphabetical,
    GroupLabel, GroupNone, GroupFolder, TemplateLabel, SearchPlaceholder,
    SelectAllButtonText, SelectAllButtonAriaLabel, DeselectAllButtonText,
    DeselectAllButtonAriaLabel, GenerateSelectedButtonText, GenerateSelectedButtonAriaLabel,
    GenerateSelectedButtonDisabledText, EmptyMessageNoLinks, EmptyMessageNoSearchResults,
    FolderRootName, FolderNameTemplate, ReferencedInHeader, NoticeScanning,
    NoticeScanComplete, NoticeNoLinksSelected, NoticeNoTemplateSelected,
    NoticeCouldNotLoadTemplates, NoticeStartingGeneration, NoticeBatchGenerationComplete,
    NoticeGeneratingFor, NoticeAlreadyExists, NoticeSuccessfullyCreated,
    NoticeFailedToGenerate, NoticeErrorScanningVault
  }

  /**
   * The headings the interface groups its keys under; the notices are told
   * apart by whether they take a parameter.
   */
  datatype Section = Toolbar | Content | PlainNotice | ParameterNotice

  function SectionOf(key: Key): Section {
    match key
    case ViewTitle | RefreshButtonAriaLabel | SortLabel | SortFrequency | SortAlphabetical
       | GroupLabel | GroupNone | GroupFolder | TemplateLabel | SearchPlaceholder
       | SelectAllButtonText | SelectAllButtonAriaLabel | DeselectAllButtonText
       | DeselectAllButtonAriaLabel | GenerateSelectedButtonText | GenerateSelectedButtonAriaLabel
       | GenerateSelectedButtonDisabledText => Toolbar
    case EmptyMessageNoLinks | EmptyMessageNoSearchResults | FolderRootName | FolderNameTemplate
       | ReferencedInHeader => Content
    case NoticeScanning | NoticeNoLinksSelected | NoticeNoTemplateSelected
       | NoticeCouldNotLoadTemplates | NoticeBatchGenerationComplete | NoticeErrorScanningVault => PlainNotice
    case NoticeScanComplete | NoticeStartingGeneration | NoticeGeneratingFor | NoticeAlreadyExists
       | NoticeSuccessfullyCreated | NoticeFailedToGenerate => ParameterNotice
  }

  /** The `en` strings, section by section; none of them is empty. */
  function English(key: Key): (s: string)
    ensures |s| > 0
  {
    match SectionOf(key)
    case Toolbar => EnglishToolbar(key)
    case Content => EnglishContent(key)
    case PlainNotice => EnglishPlainNotice(key)
    case ParameterNotice => EnglishParameterNotice(key)
  }

  function EnglishToolbar(key: Key): (s: string)
    requires SectionOf(key) == Toolbar
    ensures |s| > 0
  {
    match key
    case ViewTitle => "Knowledge Curator"
    case RefreshButtonAriaLabel => "Refresh links"
    case SortLabel => "Sort:"
    case SortFrequency => "Frequency"
    case SortAlphabetical => "Alphabetical"
    case GroupLabel => "Group:"
    case GroupNone => "None"
    case GroupFolder => "Folder"
    case TemplateLabel => "Template:"
    case SearchPlaceholder => "Search links..."
    case SelectAllButtonText => "Select All"
    case SelectAllButtonAriaLabel => "Select all visible links"
    case DeselectAllButtonText => "Deselect All"
    case DeselectAllButtonAriaLabel => "Deselect all links"
    case GenerateSelectedButtonText => "Generate Selected"
    case GenerateSelectedButtonAriaLabel => "Generate content for selected links"
    case GenerateSelectedButtonDisabledText => "Generate Selected"
  }

  function EnglishContent(key: Key): (s: string)
    requires SectionOf(key) == Content
    ensures |s| > 0
  {
    match key
    case EmptyMessageNoLinks => "No unresolved links found."
    case EmptyMessageNoSearchResults => "No links match your search."
    case FolderRootName => "Vault Root"
    case FolderNameTemplate => "📂 {name} ({count})"
    case ReferencedInHeader => "Referenced in:"
  }

  function EnglishPlainNotice(key: Key): (s: string)
    requires SectionOf(key) == PlainNotice
    ensures |s| > 0
  {
    match key
    case NoticeScanning => "Scanning for unresolved links..."
    case NoticeNoLinksSelected => "No links selected."
    case NoticeNoTemplateSelected => "No template selected. Please select a template to generate content."
    case NoticeCouldNotLoadTemplates => "Could not load templates. Check settings and console."
    case NoticeBatchGenerationComplete => "Batch generation complete."
    case NoticeErrorScanningVault => "Error scanning vault. Check console for details."
  }

  function EnglishParameterNotice(key: Key): (s: string)
    requires SectionOf(key) == ParameterNotice
    ensures |s| > 0
  {
    match key
    case NoticeScanComplete => "Scan complete. Found {count} unresolved links."
    case NoticeStartingGeneration => "Starting generation for {count} link(s) using template: {templateName}..."
    case NoticeGeneratingFor => "Generating for \"[[{title}]]\"..."
    case NoticeAlreadyExists => "Note \"[[{title}]]\" already exists. Skipping."
    case NoticeSuccessfullyCreated => "Successfully created \"[[{title}]]\"."
    case NoticeFailedToGenerate => "Failed to generate for \"[[{title}]]\". See console."
  }

  /** The `zh` strings; none of them is empty. */
  function Chinese(key: Key): (s: string)
    ensures |s| > 0
  {
    match key
    case ViewTitle => "知识策展人"
    case RefreshButtonAriaLabel => "刷新链接"
    case SortLabel => "排序："
    case SortFrequency => "按频次"
    case SortAlphabetical => "按字母"
    case GroupLabel => "分组："
    case GroupNone => "无"
    case GroupFolder => "按文件夹"
    case TemplateLabel => "模板："
    case SearchPlaceholder => "搜索链接..."
    case SelectAllButtonText => "全选"
    case SelectAllButtonAriaLabel => "选择所有可见链接"
    case DeselectAllButtonText => "取消全选"
    case DeselectAllButtonAriaLabel => "取消选择所有链接"
    case GenerateSelectedButtonText => "生成所选"
    case GenerateSelectedButtonAriaLabel => "为所选链接生成内容"
    case GenerateSelectedButtonDisabledText => "生成所选"
    case EmptyMessageNoLinks => "未找到悬空链接。"
    case EmptyMessageNoSearchResults => "没有与搜索匹配的链接。"
    case FolderRootName => "仓库根目录"
    case FolderNameTemplate => "📂 {name} ({count})"
    case ReferencedInHeader => "引用来源："
    case NoticeScanning => "正在扫描悬空链接..."
    case NoticeScanComplete => "扫描完成。找到 {count} 个悬空链接。"
    case NoticeNoLinksSelected => "未选择链接。"
    case NoticeNoTemplateSelected => "未选择模板。请选择一个模板以生成内容。"
    case NoticeCouldNotLoadTemplates => "无法加载模板。请检查设置和控制台。"
    case NoticeStartingGeneration => "正在使用模板 {templateName} 为 {count} 个链接开始生成..."
    case NoticeBatchGenerationComplete => "批量生成完成。"
    case NoticeGeneratingFor => "正在为 \"[[{title}]]\" 生成..."
    case NoticeAlreadyExists => "笔记 \"[[{title}]]\" 已存在。已跳过。"
    case NoticeSuccessfullyCreated => "成功创建 \"[[{title}]]\"。"
    case NoticeFailedToGenerate => "为 \"[[{title}]]\" 生成失败。请查看控制台。"
    case NoticeErrorScanningVault => "扫描仓库时出错。请查看控制台了解详情。"
  }

  /** One language's strings; a key outside the map is a missing string. */
  type Table = map<Key, string>

  /** The `translations` record, keyed by language code. */
  const Translations: map<string, Table> := map[
    "en" := map k | k in AllKeys :: English(k),
    "zh" := map k | k in AllKeys :: Chinese(k)
  ]

  /**
   * English has every key with a non-empty string: the English fallback
   * then answers at once instead of calling itself forever.
   */
  ghost predicate EnglishComplete(translations: map<string, Table>) {
    "en" in translations && forall k :: k in translations["en"] && translations["en"][k] != ""
  }

  /** The string `t` starts from: the language's own when present and non-empty, else English. */
  function StoredString(translations: map<string, Table>, lang: string, key: Key): (s: string)
    requires EnglishComplete(translations)
    ensures s != ""
  {
    if lang in translations && key in translations[lang] && translations[lang][key] != "" then
      translations[lang][key]
    else
      translations["en"][key]
  }

  function Placeholder(name: string): string {
    "{" + name + "}"
  }

  /** The parameters applied one after the other, each to every occurrence of its placeholder. */
  function Interpolate(str: string, params: seq<(string, string)>): string {
    if params == [] then str
    else
      var (name, value) := params[|params| - 1];
      ReplaceAll(Interpolate(str, params[..|params| - 1]), Placeholder(name), value)
  }

  /** What `t(lang, key, params)` returns. */
  function Translate(translations: map<string, Table>, lang: string, key: Key,
                     params: Option<seq<(string, string)>>): string
    requires EnglishComplete(translations)
  {
    match params
    case None => StoredString(translations, lang, key)
    case Some(ps) => Interpolate(StoredString(translations, lang, key), ps)
  }

  /**
   * `t`: the parameters come in the enumeration order of the record's
   * keys, each already converted to its string.
   */
  method T(translations: map<string, Table>, lang: string, key: Key, params: Option<seq<(string, string)>>)
    returns (str: string)
    requires EnglishComplete(translations)
    ensures str == Translate(translations, lang, key, params)
    decreases if lang == "en" then 0 else 1
  {
    if lang !in translations {
      str := T(translations, "en", key, params);
      return;
    }
    var translationSet := translations[lang];
    if key !in translationSet || translationSet[key] == "" {
      str := T(translations, "en", key, params);
      return;
    }
    str := translationSet[key];
    if params.Some? {
      var ps := params.value;
      for i := 0 to |ps|
        invariant str == Interpolate(translationSet[key], ps[..i])
      {
        assert ps[..i + 1][..i] == ps[..i];
        str := ReplaceAll(str, Placeholder(ps[i].0), ps[i].1);
      }
      assert ps[..|ps|] == ps;
    }
  }

  // ---------------------------------------------------------------------
  // The tables

  /** Every key is one of the keys of the interface. */
  lemma KeyListed(key: Key)
    ensures key in AllKeys
  {
    match key
    case ViewTitle =>
    case RefreshButtonAriaLabel =>
    case SortLabel =>
    case SortFrequency =>
    case SortAlphabetical =>
    case GroupLabel =>
    case GroupNone =>
    case GroupFolder =>
    case TemplateLabel =>
    case SearchPlaceholder =>
    case SelectAllButtonText =>
    case SelectAllButtonAriaLabel =>
    case DeselectAllButtonText =>
    case DeselectAllButtonAriaLabel =>
    case GenerateSelectedButtonText =>
    case GenerateSelectedButtonAriaLabel =>
    case GenerateSelectedButtonDisabledText =>
    case EmptyMessageNoLinks =>
    case EmptyMessageNoSearchResults =>
    case FolderRootName =>
    case FolderNameTemplate =>
    case ReferencedInHeader =>
    case NoticeScanning =>
    case NoticeScanComplete =>
    case NoticeNoLinksSelected =>
    case NoticeNoTemplateSelected =>
    case NoticeCouldNotLoadTemplates =>
    case NoticeStartingGeneration =>
    case NoticeBatchGenerationComplete =>
    case NoticeGeneratingFor =>
    case NoticeAlreadyExists =>
    case NoticeSuccessfullyCreated =>
    case NoticeFailedToGenerate =>
    case NoticeErrorScanningVault =>
  }

  /** Both tables give every key a non-empty string. */
  lemma TablesComplete(key: Key)
    ensures key in Translations["en"] && Translations["en"][key] == English(key) && English(key) != ""
    ensures key in Translations["zh"] && Translations["zh"][key] == Chinese(key) && Chinese(key) != ""
  {
    KeyListed(key);
  }

  /** So the plugin's own tables meet the requirement of `t`. */
  lemma TranslationsEnglishComplete()
    ensures EnglishComplete(Translations)
  {
    forall k ensures k in Translations["en"] && Translations["en"][k] != "" {
      TablesComplete(k);
    }
  }

  /** With the plugin's tables, `zh` reads Chinese and every other language English. */
  lemma StoredStringOfTranslations(lang: string, key: Key)
    ensures EnglishComplete(Translations)
    ensures StoredString(Translations, lang, key) == if lang == "zh" then Chinese(key) else English(key)
  {
    TranslationsEnglishComplete();
    TablesComplete(key);
  }

  // ---------------------------------------------------------------------
  // The fallbacks

  /** An unknown language answers as English does. */
  lemma UnknownLanguageIsEnglish(translations: map<string, Table>, lang: string, key: Key,
                                 params: Option<seq<(string, string)>>)
    requires EnglishComplete(translations) && lang !in translations
    ensures Translate(translations, lang, key, params) == Translate(translations, "en", key, params)
  {
  }

  /** A missing or empty string in a known language answers as English does. */
  lemma MissingStringIsEnglish(translations: map<string, Table>, lang: string, key: Key,
                               params: Option<seq<(string, string)>>)
    requires EnglishComplete(translations) && lang in translations
    requires key !in translations[lang] || translations[lang][key] == ""
    ensures Translate(translations, lang, key, params) == Translate(translations, "en", key, params)
  {
  }

  /** Without parameters, or with none in the record, the stored string comes back unchanged. */
  lemma WithoutParamsIsStored(translations: map<string, Table>, lang: string, key: Key)
    requires EnglishComplete(translations)
    ensures Translate(translations, lang, key, None) == StoredString(translations, lang, key)
    ensures Translate(translations, lang, key, Some([])) == StoredString(translations, lang, key)
  {
  }

  // ---------------------------------------------------------------------
  // Interpolation

  /** A name between braces with no brace in the name is a placeholder. */
  lemma PlaceholderShape(name: string)
    requires '{' !in name && '}' !in name
    ensures IsPlaceholder(Placeholder(name))
  {
    var q := Placeholder(name);
    forall k | 0 < k < |q| - 1 ensures q[k] != '{' && q[k] != '}' {
      assert q[k] == name[k - 1];
    }
  }

  /** Parameters whose placeholders do not occur leave the text as it is. */
  lemma {:induction false} InterpolateAbsent(str: string, params: seq<(string, string)>)
    requires forall i :: 0 <= i < |params| ==> !Occurs(Placeholder(params[i].0), str)
    ensures Interpolate(str, params) == str
  {
    if params != [] {
      InterpolateAbsent(str, params[..|params| - 1]);
      ReplaceAllNoMatch(str, Placeholder(params[|params| - 1].0), params[|params| - 1].1);
    }
  }

  /**
   * A placeholder none of the parameters names is left verbatim; the text
   * around it is interpolated as if it were not there.
   */
  lemma {:induction false} UnknownPlaceholderKept(a: string, name: string, b: string,
                                                  params: seq<(string, string)>)
    requires '{' !in name && '}' !in name
    requires forall i :: 0 <= i < |params| ==>
      params[i].0 != name && '{' !in params[i].0 && '}' !in params[i].0
    ensures Interpolate(a + Placeholder(name) + b, params)
         == Interpolate(a, params) + Placeholder(name) + Interpolate(b, params)
  {
    if params != [] {
      var init := params[..|params| - 1];
      var (n, v) := params[|params| - 1];
      UnknownPlaceholderKept(a, name, b, init);
      PlaceholderShape(name);
      PlaceholderShape(n);
      assert Placeholder(n) != Placeholder(name) by {
        assert Placeholder(n)[1..|Placeholder(n)| - 1] == n;
        assert Placeholder(name)[1..|Placeholder(name)| - 1] == name;
      }
      ReplaceAllKeepsOtherPlaceholder(Interpolate(a, init), Placeholder(name), Interpolate(b, init),
                                      Placeholder(n), v);
    }
  }

  /**
   * One parameter fills every occurrence of its placeholder: text made of
   * brace-free pieces around the placeholders becomes the same pieces
   * around the value.
   */
  lemma FillsEveryOccurrence(segs: seq<string>, name: string, value: string)
    requires |segs| > 0 && forall i :: 0 <= i < |segs| ==> '{' !in segs[i]
    ensures Interpolate(Join(segs, Placeholder(name)), [(name, value)]) == Join(segs, value)
  {
    ReplaceAllJoin(segs, Placeholder(name), value);
  }

  /**
   * The parameters are applied one after the other to the text produced so
   * far, so a value holding another parameter's placeholder is filled in
   * turn.
   */
  lemma LaterParameterFillsEarlierValue()
    ensures Interpolate("{title}", [("title", "{count}"), ("count", "3")]) == "3"
  {
    var ps := [("title", "{count}"), ("count", "3")];
    assert ps[..1] == [("title", "{count}")];
    assert ps[..1][..0] == [];
    ReplaceAllAtFront("{title}", [], "{count}");
    ReplaceAllAtFront("{count}", [], "3");
    assert "{title}" + [] == "{title}";
    assert "{count}" + [] == "{count}";
    assert "3" + [] == "3";
  }

  /** A single placeholder between brace-free text is replaced by its value. */
  lemma FillsOnePlaceholder(a: string, name: string, b: string, value: string)
    requires '{' !in a && '{' !in b
    ensures Interpolate(a + Placeholder(name) + b, [(name, value)]) == a + value + b
  {
    var segs := [a, b];
    assert Join(segs, Placeholder(name)) == a + Placeholder(name) + b;
    FillsEveryOccurrence(segs, name, value);
  }

  /** The Chinese scan notice is brace-free text around one `{count}` placeholder. */
  lemma ScanCompleteShapeChinese()
    ensures Chinese(NoticeScanComplete) == "扫描完成。找到 " + Placeholder("count") + " 个悬空链接。"
    ensures '{' !in "扫描完成。找到 " && '{' !in " 个悬空链接。"
  {
  }

  /** A language without a table reads the English string. */
  lemma FrenchReadsEnglish()
    ensures EnglishComplete(Translations)
    ensures Translate(Translations, "fr", SortLabel, None) == "Sort:"
  {
    StoredStringOfTranslations("fr", SortLabel);
  }

  /** The Chinese scan notice with a count of five. */
  lemma ScanCompleteNoticeChinese()
    ensures EnglishComplete(Translations)
    ensures Translate(Translations, "zh", NoticeScanComplete, Some([("count", "5")]))
         == "扫描完成。找到 5 个悬空链接。"
  {
    StoredStringOfTranslations("zh", NoticeScanComplete);
    ScanCompleteShapeChinese();
    FillsOnePlaceholder("扫描完成。找到 ", "count", " 个悬空链接。", "5");
  }

  // ---------------------------------------------------------------------
  // The interpolation as written

  /**
   * The interpolation as the plugin writes it: each value goes through the
   * `$` patterns of `String.prototype.replace`.
   */
  function InterpolateAsWritten(str: string, params: seq<(string, string)>): string {
    if params == [] then str
    else
      var (name, value) := params[|params| - 1];
      ReplaceAllAsWritten(InterpolateAsWritten(str, params[..|params| - 1]), Placeholder(name), value)
  }

  /** What `t(lang, key, params)` returns as the plugin writes it. */
  function TranslateAsWritten(translations: map<string, Table>, lang: string, key: Key,
                              params: Option<seq<(string, string)>>): string
    requires EnglishComplete(translations)
  {
    match params
    case None => StoredString(translations, lang, key)
    case Some(ps) => InterpolateAsWritten(StoredString(translations, lang, key), ps)
  }

  /** Values without `$` are inserted literally by the interpolation as written too. */
  lemma {:induction false} InterpolateAgreesWithoutDollar(str: string, params: seq<(string, string)>)
    requires forall i :: 0 <= i < |params| ==> '$' !in params[i].1
    ensures InterpolateAsWritten(str, params) == Interpolate(str, params)
  {
    if params != [] {
      var init, last := params[..|params| - 1], params[|params| - 1];
      assert forall i :: 0 <= i < |init| ==> init[i] == params[i];
      InterpolateAgreesWithoutDollar(str, init);
      AsWrittenWithoutDollar(Interpolate(str, init), Placeholder(last.0), last.1);
    }
  }

  /**
   * When no parameter value holds `$`, `t` as written returns `Translate`,
   * so every property proved of `Translate` holds of the plugin's `t`.
   */
  lemma TranslateAgreesWithoutDollar(translations: map<string, Table>, lang: string, key: Key,
                                     params: Option<seq<(string, string)>>)
    requires EnglishComplete(translations)
    requires params.Some? ==> forall i :: 0 <= i < |params.value| ==> '$' !in params.value[i].1
    ensures TranslateAsWritten(translations, lang, key, params) == Translate(translations, lang, key, params)
  {
    if params.Some? {
      InterpolateAgreesWithoutDollar(StoredString(translations, lang, key), params.value);
    }
  }

  /** The generating notice is brace-free text around one `{title}` placeholder. */
  lemma GeneratingForShape()
    ensures English(NoticeGeneratingFor) == "Generating for \"[[" + Placeholder("title") + "]]\"..."
    ensures '{' !in "Generating for \"[[" && '{' !in "]]\"..."
  {
  }

  /**
   * A `$&` value leaves a placeholder standing between brace-free text as
   * written; inserted literally, the value takes its place.
   */
  lemma DollarValueKeepsPlaceholder(a: string, name: string, b: string)
    requires '{' !in a && '{' !in b
    ensures InterpolateAsWritten(a + Placeholder(name) + b, [(name, "$&")]) == a + Placeholder(name) + b
    ensures Interpolate(a + Placeholder(name) + b, [(name, "$&")]) == a + "$&" + b
  {
    assert [(name, "$&")][..0] == [];
    DollarAmpersandKeepsMatch(a, Placeholder(name), b);
    DollarAmpersandLiteral(a, Placeholder(name), b);
  }

  /**
   * A note titled `$&` is announced with the placeholder itself as written,
   * and with its title once values are inserted literally.
   */
  lemma DollarTitleInNotice()
    ensures InterpolateAsWritten(English(NoticeGeneratingFor), [("title", "$&")]) == English(NoticeGeneratingFor)
    ensures Interpolate(English(NoticeGeneratingFor), [("title", "$&")]) == "Generating for \"[[" + "$&" + "]]\"..."
  {
    GeneratingForShape();
    DollarValueKeepsPlaceholder("Generating for \"[[", "title", "]]\"...");
  }
}
