/** AiSettingsController: reads and updates the AI language, and validates free-form
    questions before handing them to the assistant service (which is not modelled: an
    accepted question is returned as the call that would be made). */
module SettingsController {
  import opened Wrappers
  import opened JavaTime
  import opened JavaText
  import opened ActivityEvents
  import opened LanguagePreference

  const LanguageNull: string := "language cannot be null"
  const UserIdNull: string := "userId cannot be null"
  const QuestionBlank: string := "question cannot be blank"
  const QuestionTooLong: string := "question is too long"
  const MaxQuestionLength: nat := 800

  /** The response map: language, supportedLanguages, updatedAt (Instant.now()). */
  datatype Settings = Settings(language: AiLanguage, supportedLanguages: seq<AiLanguage>, updatedAt: Instant)

  /** What askAi does: fail with IllegalArgumentException's message, or call
      askQuestion(userId, question). */
  datatype AskDecision = Rejected(message: string) | Forwarded(userId: Uuid, question: string)

  /** askAi's checks, in order: the user id, then a null or blank question, then a
      length over 800 UTF-16 units measured before trimming; an accepted question is
      passed on trimmed. */
  function AskAi(userId: Option<Uuid>, question: Option<string>): (d: AskDecision)
    ensures d == Rejected(UserIdNull) <==> userId.None?
    ensures d == Rejected(QuestionBlank) <==> userId.Some? && (question.None? || IsBlank(question.value))
    ensures d == Rejected(QuestionTooLong) <==>
              userId.Some? && question.Some? && !IsBlank(question.value)
              && Utf16Length(question.value) > MaxQuestionLength
    ensures d.Forwarded? <==>
              userId.Some? && question.Some? && !IsBlank(question.value)
              && Utf16Length(question.value) <= MaxQuestionLength
    ensures d.Forwarded? ==> d.userId == userId.value && d.question == Trim(question.value)
  {
    if userId.None? then Rejected(UserIdNull)
    else if question.None? || IsBlank(question.value) then Rejected(QuestionBlank)
    else if Utf16Length(question.value) > MaxQuestionLength then Rejected(QuestionTooLong)
    else Forwarded(userId.value, Trim(question.value))
  }

  /** A forwarded question has no padding left and is at most 800 chars long. */
  lemma ForwardedQuestionIsTrimmedAndShort(userId: Option<Uuid>, question: Option<string>)
    ensures var d := AskAi(userId, question);
            d.Forwarded? ==> IsTrimmed(d.question) && |d.question| <= MaxQuestionLength
  {
    var d := AskAi(userId, question);
    if d.Forwarded? {
      var q := question.value;
      TrimIsSplit(q);
      var a :| TrimSplit(q, d.question, a);
    }
  }

  /** The length is measured before trimming: "a" followed by 800 spaces is too long,
      although it would be sent as "a". */
  lemma LengthCountsPadding(u: Uuid)
    ensures var q := "a" + seq(800, _ => ' ');
            AskAi(Some(u), Some(q)) == Rejected(QuestionTooLong) && Trim(q) == "a"
  {
    var pad := seq(800, _ => ' ');
    var q := "a" + pad;
    Utf16LengthOfBmp(q);
    assert q[0] == 'a' && !IsJavaWhitespace(q[0]);
    TrimPadded([], "a", pad);
    assert [] + "a" + pad == q;
  }

  /** isBlank and trim disagree on control chars: a question holding only U+0000 is not
      blank, so it passes the checks and is sent as the empty question. */
  lemma ControlCharQuestionSentEmpty(u: Uuid)
    ensures AskAi(Some(u), Some("\0")) == Forwarded(u, "")
  {
    var q := "\0";
    assert !IsJavaWhitespace(q[0]);
    assert !IsBlank(q);
    TrimPadded(q, "", "");
    assert q + "" + "" == q;
  }

  class AiSettingsController {
    const languagePreferenceService: AiLanguagePreferenceService

    constructor(languagePreferenceService: AiLanguagePreferenceService)
      ensures this.languagePreferenceService == languagePreferenceService
    {
      this.languagePreferenceService := languagePreferenceService;
    }

    /** getSettings: the current language, all supported languages and the time. */
    method GetSettings(now: Instant) returns (s: Settings)
      ensures s == Settings(languagePreferenceService.currentLanguage, SupportedLanguages(), now)
    {
      var language := languagePreferenceService.GetCurrentLanguage();
      var supported := languagePreferenceService.GetSupportedLanguages();
      s := Settings(language, supported, now);
    }

    /** updateSettings: a null language is an error and changes nothing; otherwise the
        language is stored and echoed with the supported list. */
    method UpdateSettings(language: Option<AiLanguage>, now: Instant) returns (r: Result<Settings, string>)
      modifies languagePreferenceService
      ensures language.None? ==> r == Failure(LanguageNull)
      ensures language.None? ==> languagePreferenceService.currentLanguage == old(languagePreferenceService.currentLanguage)
      ensures language.Some? ==> languagePreferenceService.currentLanguage == language.value
      ensures language.Some? ==> r == Success(Settings(language.value, SupportedLanguages(), now))
    {
      if language.None? {
        return Failure(LanguageNull);
      }
      var updated := languagePreferenceService.SetCurrentLanguage(language.value);
      var supported := languagePreferenceService.GetSupportedLanguages();
      r := Success(Settings(updated, supported, now));
    }
  }

  /** Updating then reading the settings shows the new language; a rejected update shows
      the old one. */
  method UpdateThenRead(service: AiLanguagePreferenceService, language: Option<AiLanguage>, now: Instant)
    returns (before: AiLanguage, after: Settings)
    modifies service
    ensures language.Some? ==> after.language == language.value
    ensures language.None? ==> after.language == before
  {
    var controller := new AiSettingsController(service);
    before := service.GetCurrentLanguage();
    var r := controller.UpdateSettings(language, now);
    after := controller.GetSettings(now);
  }
}
