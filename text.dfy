/** Text: a translatable string whose key and language are always kept upper-case. */
module Texts {
  import opened Strings

  /** The state of a Text at one moment: what the loaders store and return. */
  datatype TextValue = TextValue(key: string, value: string, language: string)

  /** A snapshot with an upper-case key and language, as every Text has. */
  predicate Normalised(t: TextValue)
  {
    IsUpperCase(t.key) && IsUpperCase(t.language)
  }

  class Text {
    var key: string
    var text: string
    var language: string

    ghost predicate Valid()
      reads this
    {
      Normalised(Value())
    }

    /** Text(key, text): the key upper-cased, the language "EN". */
    constructor (key: string, text: string)
      ensures Valid()
      ensures this.key == Upper(key) && this.text == text && language == "EN"
    {
      this.key := Upper(key);
      this.text := text;
      language := "EN";
      UpperIsUpperCase(key);
    }

    /** Text(key, text, language): as the two-argument constructor, then setLanguage(language). */
    constructor WithLanguage(key: string, text: string, language: string)
      ensures Valid()
      ensures this.key == Upper(key) && this.text == text && this.language == Upper(language)
    {
      this.key := Upper(key);
      this.text := text;
      this.language := Upper(language);
      UpperIsUpperCase(key);
      UpperIsUpperCase(language);
    }

    function GetKey(): string
      reads this
    {
      key
    }

    method SetKey(key: string)
      requires Valid()
      modifies this`key
      ensures Valid()
      ensures this.key == Upper(key)
    {
      this.key := Upper(key);
      UpperIsUpperCase(key);
    }

    function GetLanguage(): string
      reads this
    {
      language
    }

    method SetLanguage(language: string)
      requires Valid()
      modifies this`language
      ensures Valid()
      ensures this.language == Upper(language)
    {
      this.language := Upper(language);
      UpperIsUpperCase(language);
    }

    /** getText, which the loaders call getValue. */
    function GetText(): string
      reads this
    {
      text
    }

    /** setText, which the loaders call setValue. */
    method SetText(text: string)
      modifies this`text
      ensures GetText() == text && ToString() == text
    {
      this.text := text;
    }

    /** toString is the text itself. */
    function ToString(): string
      reads this
    {
      GetText()
    }

    function Value(): TextValue
      reads this
    {
      TextValue(key, text, language)
    }
  }

  /** Whatever the arguments, a new Text's key and language are upper-case. */
  lemma NewTextsAreNormalised(key: string, text: string, language: string)
    ensures Normalised(TextValue(Upper(key), text, "EN"))
    ensures Normalised(TextValue(Upper(key), text, Upper(language)))
  {
    UpperIsUpperCase(key);
    UpperIsUpperCase(language);
  }
}
