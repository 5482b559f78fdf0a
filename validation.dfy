/**
 * `validateFragmentContent`: the client-side gate every fragment passes
 * before it is created or updated. The verdict is "" (accepted) or the
 * message shown to the user.
 */
module Validation {
  import opened MediaTypes
  import opened Files
  import Strings
  import Json

  const EmptyContentMessage: string := "Content cannot be empty"
  const InvalidJsonMessage: string := "Invalid JSON format"

  /**
   * Blank text with no file is refused whatever the type; otherwise JSON
   * typed text with no file must parse; everything else is accepted.
   */
  function ValidateFragmentContent(t: MediaType, content: string, file: WebFile?): (verdict: string)
    ensures verdict == "" || verdict == EmptyContentMessage || verdict == InvalidJsonMessage
    ensures verdict == EmptyContentMessage <==> file == null && Strings.IsBlank(content)
    ensures verdict == InvalidJsonMessage <==>
              file == null && t == ApplicationJson && !Strings.IsBlank(content) && !Json.IsJson(content)
  {
    Strings.BlankIffTrimEmpty(content);
    if Strings.Trim(content) == "" && file == null then EmptyContentMessage
    else if t == ApplicationJson && file == null && !Json.IsJson(content) then InvalidJsonMessage
    else ""
  }

  /** A verdict is an acceptance exactly when neither rule fires. */
  lemma AcceptedIff(t: MediaType, content: string, file: WebFile?)
    ensures ValidateFragmentContent(t, content, file) == "" <==>
              file != null || (!Strings.IsBlank(content) && (t != ApplicationJson || Json.IsJson(content)))
  {
  }

  /** With a file attached, the text is irrelevant: every type is accepted. */
  lemma FileMakesContentIrrelevant(t: MediaType, content: string, file: WebFile)
    ensures ValidateFragmentContent(t, content, file) == ""
  {
  }

  /**
   * The blank rule comes first: blank JSON text is reported as empty, although
   * it would also fail to parse.
   */
  lemma BlankRuleHasPriority(content: string)
    requires Strings.IsBlank(content)
    ensures ValidateFragmentContent(ApplicationJson, content, null) == EmptyContentMessage
    ensures !Json.IsJson(content)
  {
    if Json.IsJson(content) {
      Json.JsonIsNotBlank(content);
    }
  }

  /** No HTML, Markdown or image check exists: non-blank text of any other type passes. */
  lemma NonJsonTextAccepted(t: MediaType, content: string)
    requires t != ApplicationJson && !Strings.IsBlank(content)
    ensures ValidateFragmentContent(t, content, null) == ""
  {
  }

  /** Every JSON text is accepted as `application/json` content. */
  lemma JsonTextAccepted(content: string)
    requires Json.IsJson(content)
    ensures ValidateFragmentContent(ApplicationJson, content, null) == ""
  {
    Json.JsonIsNotBlank(content);
  }

  /** `{"a":1}` is accepted and `{bad` refused as `application/json` text. */
  lemma JsonExamples()
    ensures ValidateFragmentContent(ApplicationJson, "{\"a\":1}", null) == ""
    ensures ValidateFragmentContent(ApplicationJson, "{bad", null) == InvalidJsonMessage
  {
    Json.SmallObjectIsJson();
    JsonTextAccepted("{\"a\":1}");
    Json.UnquotedKeyIsNotJson();
    assert !Strings.IsBlank("{bad") by {
      assert !Strings.IsWhitespace("{bad"[0]);
    }
  }
}
