/** The plugin's settings record and its defaults. */
module Settings {

  /** A named prompt; `{{title}}` in the prompt stands for the note's title. */
  datatype PromptTemplate = PromptTemplate(name: string, prompt: string)

  /** The settings record; `language` is one of the codes "en" and "zh". */
  datatype KnowledgeCuratorSettings = KnowledgeCuratorSettings(
    apiEndpoint: string,
    apiKey: string,
    modelName: string,
    promptTemplates: seq<PromptTemplate>,
    defaultNewNotePath: string,
    language: string)

  const DefaultTemplate := PromptTemplate(
    "Default Summary",
    "Please provide a comprehensive summary of the topic: {{title}}.")

  /** No endpoint or key, one summary template, notes at the vault root, English. */
  const DefaultSettings := KnowledgeCuratorSettings(
    "", "", "gpt-3.5-turbo", [DefaultTemplate], "", "en")
}
