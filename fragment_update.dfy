/**
 * `useFragmentUpdate`: editing an existing fragment. Save validates the edited
 * text (never with a file) and issues the update only on acceptance; a
 * successful update leaves edit mode, clears every cached format of the
 * fragment and refetches it. `updatesIssued` lists the update requests sent.
 */
module FragmentUpdate {
  import opened Wrappers
  import opened MediaTypes
  import Json
  import Validation
  import ContentCache

  const UnexpectedValidationMessage: string := "An unexpected error occurred during validation"

  /**
   * `formatContentForEdit`: JSON text is re-printed with `stringify` (the
   * two-space `JSON.stringify` of the parsed value); text that does not parse,
   * and every other type, is left as it is.
   */
  function FormatContentForEdit(content: string, fragmentType: string, stringify: string -> string): (shown: string)
    ensures shown != content ==> fragmentType == "application/json" && Json.IsJson(content)
    ensures fragmentType == "application/json" && Json.IsJson(content) ==> shown == stringify(content)
  {
    if fragmentType == "application/json" then
      if Json.IsJson(content) then stringify(content) else content
    else content
  }

  /** Only `application/json` content is ever reformatted. */
  lemma FormatLeavesOtherTypes(content: string, fragmentType: string, stringify: string -> string)
    requires fragmentType != "application/json"
    ensures FormatContentForEdit(content, fragmentType, stringify) == content
  {
  }

  /** JSON-typed content that does not parse is shown unchanged. */
  lemma FormatKeepsUnparseable(content: string, stringify: string -> string)
    requires !Json.IsJson(content)
    ensures FormatContentForEdit(content, "application/json", stringify) == content
  {
  }

  /**
   * Content the validator accepts stays acceptable after formatting for the
   * editor, provided the printer emits JSON for JSON input.
   */
  lemma FormattedContentStillAccepted(t: MediaType, content: string, stringify: string -> string)
    requires Validation.ValidateFragmentContent(t, content, null) == ""
    requires forall x | Json.IsJson(x) :: Json.IsJson(stringify(x))
    ensures Validation.ValidateFragmentContent(t, FormatContentForEdit(content, Name(t), stringify), null) == ""
  {
    if t == ApplicationJson {
      Json.JsonIsNotBlank(stringify(content));
    } else {
      assert Name(t) != "application/json" by { NameRoundTrip(t); }
    }
  }

  class FragmentEditor {
    const fragmentId: string
    const fragmentType: MediaType
    const cache: ContentCache.FragmentContentCache
    var isEditing: bool
    var editedContent: string
    var validationError: Option<string>
    var updatesIssued: seq<string>

    constructor (fragmentId: string, fragmentType: MediaType, cache: ContentCache.FragmentContentCache)
      ensures this.fragmentId == fragmentId && this.fragmentType == fragmentType && this.cache == cache
      ensures !isEditing && editedContent == "" && validationError == None && updatesIssued == []
    {
      this.fragmentId := fragmentId;
      this.fragmentType := fragmentType;
      this.cache := cache;
      isEditing := false;
      editedContent := "";
      validationError := None;
      updatesIssued := [];
    }

    /** `setIsEditing` */
    method SetEditing(editing: bool)
      modifies this`isEditing
      ensures isEditing == editing
    {
      isEditing := editing;
    }

    /** `setEditedContent` */
    method SetEditedContent(content: string)
      modifies this`editedContent
      ensures editedContent == content
    {
      editedContent := content;
    }

    /**
     * `handleSaveClick`. `validatorRaised` stands for the validator call
     * throwing, which the catch turns into the generic message.
     */
    method HandleSaveClick(validatorRaised: bool)
      modifies this`validationError, this`updatesIssued
      ensures validatorRaised ==>
                validationError == Some(UnexpectedValidationMessage) && updatesIssued == old(updatesIssued)
      ensures !validatorRaised ==>
                var verdict := Validation.ValidateFragmentContent(fragmentType, editedContent, null);
                && (verdict != "" ==> validationError == Some(verdict) && updatesIssued == old(updatesIssued))
                && (verdict == "" ==> validationError == None && updatesIssued == old(updatesIssued) + [editedContent])
    {
      if validatorRaised {
        validationError := Some(UnexpectedValidationMessage);
      } else {
        var validationMsg := Validation.ValidateFragmentContent(fragmentType, editedContent, null);
        if validationMsg != "" {
          validationError := Some(validationMsg);
        } else {
          validationError := None;
          updatesIssued := updatesIssued + [editedContent];
        }
      }
    }

    /**
     * The update mutation's `onSuccess`: leave edit mode, clear every cached
     * format of the fragment, then refetch the current view format. Because
     * the cache was cleared first, a signed-in refetch always goes to the
     * network.
     */
    method OnUpdateSuccess(signedIn: bool, viewFormat: string, now: int,
                           outcome: ContentCache.FetchOutcome, completedAt: int)
      returns (result: ContentCache.QueryResult, request: Option<string>)
      modifies this`isEditing, cache
      ensures !isEditing
      ensures signedIn ==>
                var key := ContentCache.GetCacheKey(fragmentId, viewFormat);
                var cleared := ContentCache.WithoutFragment(old(cache.entries), fragmentId);
                && request == Some(ContentCache.Endpoint(fragmentId, viewFormat))
                && match outcome
                   case Fetched(body) =>
                     result == ContentCache.Served(body)
                     && cache.entries == cleared[key := ContentCache.CacheEntry(body, completedAt)]
                   case FetchFailed =>
                     result == ContentCache.Rejected
                     && cache.entries == cleared[key := ContentCache.CacheEntry(ContentCache.ErrorPlaceholder, completedAt)]
      ensures !signedIn ==>
                result == ContentCache.NoData && request == None
                && cache.entries == ContentCache.WithoutFragment(old(cache.entries), fragmentId)
    {
      isEditing := false;
      cache.ClearAllCachedFormatsForFragment(fragmentId);
      ContentCache.ClearedFragmentMisses(cache.entries, fragmentId, viewFormat, now);
      result, request := cache.Query(signedIn, fragmentId, viewFormat, now, outcome, completedAt);
    }
  }
}
