/** The word record shared by the backend's pydantic models and the pages' TypeScript interfaces. */
module Words {

  /** An example sentence; `en` marks the target word as `**word**`. */
  datatype Example = Example(en: string, zh: string)

  datatype Word = Word(word: string, phonetic: string, meaning: string, examples: seq<Example>)
}
