/**
 * The data side of `GeneratorService`: the template list offered to the
 * view, and the building and checking of the prompt sent to the model.
 * The call to the API service is a parameter.
 */
module GeneratorService {
  import opened Wrappers
  import opened JsStrings
  import opened Settings

  /** An entry of the template drop-down: the prompt doubles as its identifier. */
  datatype TemplateOption = TemplateOption(name: string, path: string)

  function OptionOf(t: PromptTemplate): TemplateOption {
    TemplateOption(t.name, t.prompt)
  }

  /** `getAvailableTemplates`: the templates of the settings, projected one by one. */
  function GetAvailableTemplates(templates: seq<PromptTemplate>): (options: seq<TemplateOption>)
    ensures |options| == |templates|
    ensures forall i :: 0 <= i < |templates| ==>
      options[i].name == templates[i].name && options[i].path == templates[i].prompt
  {
    if templates == [] then []
    else GetAvailableTemplates(templates[..|templates| - 1]) + [OptionOf(templates[|templates| - 1])]
  }

  /** The list of options follows the list of templates: appending a template appends its option. */
  lemma {:induction false} AvailableTemplatesAppend(a: seq<PromptTemplate>, b: seq<PromptTemplate>)
    ensures GetAvailableTemplates(a + b) == GetAvailableTemplates(a) + GetAvailableTemplates(b)
  {
    if b != [] {
      var init := b[..|b| - 1];
      assert (a + b)[..|a + b| - 1] == a + init;
      AvailableTemplatesAppend(a, init);
    } else {
      assert a + b == a;
    }
  }

  /**
   * A path names a template: it is the prompt of a template, and two
   * options share a path exactly when their templates share a prompt.
   */
  lemma PathsArePrompts(templates: seq<PromptTemplate>, path: string)
    ensures (exists o :: o in GetAvailableTemplates(templates) && o.path == path)
        <==> (exists t :: t in templates && t.prompt == path)
    ensures forall i, j :: 0 <= i < |templates| && 0 <= j < |templates| ==>
      (GetAvailableTemplates(templates)[i].path == GetAvailableTemplates(templates)[j].path
       <==> templates[i].prompt == templates[j].prompt)
  {
    var options := GetAvailableTemplates(templates);
    if o :| o in options && o.path == path {
      var i :| 0 <= i < |options| && options[i] == o;
      assert templates[i] in templates;
    }
    if t :| t in templates && t.prompt == path {
      var i :| 0 <= i < |templates| && templates[i] == t;
      assert options[i] in options;
    }
  }

  // ---------------------------------------------------------------------
  // The prompt

  const TitlePlaceholder := "{{title}}"

  /** The prompt sent for `title`: every `{{title}}` replaced by the title, literally. */
  function RenderPrompt(selectedPrompt: string, title: string): string {
    ReplaceAll(selectedPrompt, TitlePlaceholder, title)
  }

  /**
   * Every `{{title}}` is replaced: a template made of brace-free pieces
   * around the placeholders becomes the same pieces around the title.
   */
  lemma RenderFillsEveryTitle(segs: seq<string>, title: string)
    requires |segs| > 0 && forall i :: 0 <= i < |segs| ==> '{' !in segs[i]
    ensures RenderPrompt(Join(segs, TitlePlaceholder), title) == Join(segs, title)
  {
    ReplaceAllJoin(segs, TitlePlaceholder, title);
  }

  /** A template without `{{title}}` is sent as it is. */
  lemma RenderWithoutTitle(selectedPrompt: string, title: string)
    requires !Occurs(TitlePlaceholder, selectedPrompt)
    ensures RenderPrompt(selectedPrompt, title) == selectedPrompt
  {
    ReplaceAllNoMatch(selectedPrompt, TitlePlaceholder, title);
  }

  /**
   * The rendering as the service writes it: the title is the replacement
   * string of `String.prototype.replace`, so its `$` patterns are expanded.
   */
  function RenderPromptAsWritten(selectedPrompt: string, title: string): string {
    ReplaceAllAsWritten(selectedPrompt, TitlePlaceholder, title)
  }

  /** For a title without `$` the two renderings agree. */
  lemma AsWrittenAgreesWithoutDollar(selectedPrompt: string, title: string)
    requires '$' !in title
    ensures RenderPromptAsWritten(selectedPrompt, title) == RenderPrompt(selectedPrompt, title)
  {
    AsWrittenWithoutDollar(selectedPrompt, TitlePlaceholder, title);
  }

  /**
   * A note titled `$&` gets a prompt that still holds `{{title}}` as
   * written; inserted literally, the title appears in its place.
   */
  lemma DollarTitleRendering(a: string, b: string)
    requires '{' !in a && '{' !in b
    ensures RenderPromptAsWritten(a + TitlePlaceholder + b, "$&") == a + TitlePlaceholder + b
    ensures RenderPrompt(a + TitlePlaceholder + b, "$&") == a + "$&" + b
  {
    DollarAmpersandKeepsMatch(a, TitlePlaceholder, b);
    DollarAmpersandLiteral(a, TitlePlaceholder, b);
  }

  const DefaultIntro := "Please provide a comprehensive summary of the topic: "

  /** The opening of the default prompt, word by word. */
  lemma DefaultIntroWords()
    ensures DefaultIntro == "Please provide a comprehensive " + "summary of the topic: "
  {
  }

  /** The default prompt is brace-free text, `{{title}}` and a full stop. */
  lemma DefaultPromptShape()
    ensures DefaultTemplate.prompt == DefaultIntro + TitlePlaceholder + "."
    ensures '{' !in DefaultIntro && '{' !in "."
  {
    DefaultIntroWords();
    assert '{' !in "Please provide a comprehensive " && '{' !in "summary of the topic: ";
  }

  /**
   * The default settings offer one option, the summary template, and its
   * prompt asks for a summary of the note's title, whatever the title.
   */
  lemma DefaultTemplateRendering(title: string)
    ensures GetAvailableTemplates(DefaultSettings.promptTemplates)
         == [TemplateOption("Default Summary", DefaultTemplate.prompt)]
    ensures RenderPrompt(DefaultTemplate.prompt, title) == DefaultIntro + title + "."
  {
    DefaultPromptShape();
    ReplaceAllOnce(DefaultIntro, TitlePlaceholder, ".", title);
  }

  // ---------------------------------------------------------------------
  // Generation

  /**
   * How the call to the API service settles: with the generated text, by
   * throwing an `Error` with a message, or by throwing anything else.
   */
  datatype ApiOutcome = Generated(content: string) | ThrewError(message: string) | ThrewOther

  const NoPromptMessage := "Prompt template is not provided. Please select a template."

  function FailureMessage(title: string, message: string): string {
    "Failed to generate content for \"" + title + "\": " + message
  }

  function UnknownFailureMessage(title: string): string {
    "An unknown error occurred while generating content for \"" + title + "\"."
  }

  /** How the outcome of the API call becomes the result: text as it is, failures as messages naming the title. */
  function Settle(title: string, outcome: ApiOutcome): (r: Result<string, string>)
    ensures r.Success? <==> outcome.Generated?
    ensures r.Success? ==> outcome == Generated(r.value)
  {
    match outcome
    case Generated(content) => Success(content)
    case ThrewError(message) => Failure(FailureMessage(title, message))
    case ThrewOther => Failure(UnknownFailureMessage(title))
  }

  /**
   * `generateForNoteTitle`, with the title inserted literally: an empty
   * template is refused before the API is called; otherwise the rendered
   * prompt goes to `generateContent`, whose text is returned as it is and
   * whose failure becomes an error about the title.
   */
  function GenerateForNoteTitle(title: string, selectedPrompt: string,
                                generateContent: string -> ApiOutcome): (r: Result<string, string>)
    ensures selectedPrompt == "" ==> r == Failure(NoPromptMessage)
    ensures r.Success? <==> selectedPrompt != "" && generateContent(RenderPrompt(selectedPrompt, title)).Generated?
    ensures r.Success? ==> generateContent(RenderPrompt(selectedPrompt, title)) == Generated(r.value)
  {
    if selectedPrompt == "" then Failure(NoPromptMessage)
    else Settle(title, generateContent(RenderPrompt(selectedPrompt, title)))
  }

  /** `generateForNoteTitle` as the service writes it: the prompt sent has the title's `$` patterns expanded. */
  function GenerateForNoteTitleAsWritten(title: string, selectedPrompt: string,
                                         generateContent: string -> ApiOutcome): (r: Result<string, string>)
    ensures selectedPrompt == "" ==> r == Failure(NoPromptMessage)
    ensures r.Success? <==> selectedPrompt != "" && generateContent(RenderPromptAsWritten(selectedPrompt, title)).Generated?
    ensures r.Success? ==> generateContent(RenderPromptAsWritten(selectedPrompt, title)) == Generated(r.value)
  {
    if selectedPrompt == "" then Failure(NoPromptMessage)
    else Settle(title, generateContent(RenderPromptAsWritten(selectedPrompt, title)))
  }

  /**
   * For a title without `$` the service as written sends the literally
   * rendered prompt, so it returns what `GenerateForNoteTitle` returns.
   */
  lemma GenerateAgreesWithoutDollar(title: string, selectedPrompt: string, generateContent: string -> ApiOutcome)
    requires '$' !in title
    ensures GenerateForNoteTitleAsWritten(title, selectedPrompt, generateContent)
         == GenerateForNoteTitle(title, selectedPrompt, generateContent)
  {
    AsWrittenAgreesWithoutDollar(selectedPrompt, title);
  }

  /**
   * Whenever the API call fails, the error names the title, and carries the
   * message of an `Error`.
   */
  lemma FailureNamesTitle(title: string, selectedPrompt: string, generateContent: string -> ApiOutcome)
    requires selectedPrompt != ""
    ensures var r := GenerateForNoteTitle(title, selectedPrompt, generateContent);
      r.Failure? ==> Occurs(title, r.error)
    ensures var outcome := generateContent(RenderPrompt(selectedPrompt, title));
      outcome.ThrewError? ==> Occurs(outcome.message, GenerateForNoteTitle(title, selectedPrompt, generateContent).error)
  {
    var outcome := generateContent(RenderPrompt(selectedPrompt, title));
    match outcome
    case Generated(_) =>
    case ThrewError(message) =>
      OccursInside("Failed to generate content for \"", title, "\": " + message);
      assert FailureMessage(title, message) == "Failed to generate content for \"" + title + ("\": " + message);
      OccursInside("Failed to generate content for \"" + title + "\": ", message, []);
      assert FailureMessage(title, message) == "Failed to generate content for \"" + title + "\": " + message + [];
    case ThrewOther =>
      OccursInside("An unknown error occurred while generating content for \"", title, "\".");
  }
}
