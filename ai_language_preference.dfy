/** AiLanguagePreferenceService: the runtime AI language, one mutable cell initialised
    from a configuration string. */
module LanguagePreference {
  import opened Wrappers
  import opened JavaText

  datatype AiLanguage = PL | EN

  /** The enum constant names, as AiLanguage.valueOf matches them. */
  function LanguageName(l: AiLanguage): string {
    match l
    case PL => "PL"
    case EN => "EN"
  }

  /** AiLanguage.values(), in declaration order. */
  function SupportedLanguages(): (ls: seq<AiLanguage>)
    ensures PL in ls && EN in ls
    ensures |ls| == 2 && ls[0] != ls[1]
    ensures ls[0] == PL
  {
    [PL, EN]
  }

  /** parseLanguage: valueOf(value.trim().toUpperCase()); a null value (the
      NullPointerException) or a text naming no constant gives EN. */
  function ParseLanguage(raw: Option<string>): (l: AiLanguage)
    ensures l == PL <==> raw.Some? && ToUpper(Trim(raw.value)) == LanguageName(PL)
    ensures l == EN ==> raw.None? || ToUpper(Trim(raw.value)) != LanguageName(PL)
  {
    match raw
    case None => EN
    case Some(value) =>
      var name := ToUpper(Trim(value));
      if name == "PL" then PL
      else if name == "EN" then EN
      else EN
  }

  /** Every constant is recognised by its name in either case and with any padding that
      trim removes. */
  lemma ParseLanguageReadsNames(l: AiLanguage, pre: string, post: string)
    requires forall i :: 0 <= i < |pre| ==> IsTrimmable(pre[i])
    requires forall i :: 0 <= i < |post| ==> IsTrimmable(post[i])
    ensures ParseLanguage(Some(pre + LanguageName(l) + post)) == l
    ensures ParseLanguage(Some(pre + ToLower(LanguageName(l)) + post)) == l
  {
    var name := LanguageName(l);
    assert IsUpperWord(name);
    UpperOfLower(name);
    TrimPadded(pre, name, post);
    assert ToLower(name)[0] == LowerChar(name[0]) && ToLower(name)[1] == LowerChar(name[1]);
    TrimPadded(pre, ToLower(name), post);
  }

  /** Test values: "PL" gives PL, "not-a-language" and null give EN. */
  lemma ParseLanguageExamples()
    ensures ParseLanguage(Some("PL")) == PL
    ensures ParseLanguage(Some("not-a-language")) == EN
    ensures ParseLanguage(None) == EN
  {
    ParseLanguageReadsNames(PL, "", "");
    assert "" + "PL" + "" == "PL";
    var s := "not-a-language";
    assert IsTrimmed(s);
    TrimOfTrimmed(s);
    assert |ToUpper(s)| != 2;
  }

  class AiLanguagePreferenceService {
    /** The AtomicReference's value. */
    var currentLanguage: AiLanguage

    /** The configured default, read through parseLanguage. */
    constructor(defaultLanguageRaw: Option<string>)
      ensures currentLanguage == ParseLanguage(defaultLanguageRaw)
    {
      currentLanguage := ParseLanguage(defaultLanguageRaw);
    }

    method GetCurrentLanguage() returns (l: AiLanguage)
      ensures l == currentLanguage
    {
      l := currentLanguage;
    }

    /** setCurrentLanguage: stores the language and returns it. */
    method SetCurrentLanguage(language: AiLanguage) returns (updated: AiLanguage)
      modifies this
      ensures currentLanguage == language
      ensures updated == language
    {
      currentLanguage := language;
      updated := language;
    }

    method GetSupportedLanguages() returns (ls: seq<AiLanguage>)
      ensures ls == SupportedLanguages()
    {
      ls := [PL, EN];
    }
  }

  /** Every language is supported, exactly once. */
  lemma AllLanguagesSupported(l: AiLanguage)
    ensures multiset(SupportedLanguages())[l] == 1
  {
    var ls := SupportedLanguages();
    assert ls == [PL] + [EN];
  }

  /** A set followed by a get returns what was set, and a get without a set returns the
      parsed default. */
  method SetThenGet(defaultLanguageRaw: Option<string>, language: AiLanguage)
    returns (initial: AiLanguage, afterSet: AiLanguage)
    ensures initial == ParseLanguage(defaultLanguageRaw)
    ensures afterSet == language
  {
    var service := new AiLanguagePreferenceService(defaultLanguageRaw);
    initial := service.GetCurrentLanguage();
    var updated := service.SetCurrentLanguage(language);
    afterSet := service.GetCurrentLanguage();
  }
}
