/** `utils/helpers.ts`: which types the editor accepts, and the download link. */
module Helpers {
  import opened Wrappers
  import opened MediaTypes
  import Strings
  import ContentCache

  /** `isEditableType`: membership of the MIME string in the text group. */
  predicate IsEditableType(fragmentType: string): (editable: bool)
    ensures editable <==> Parse(fragmentType).Some? && Parse(fragmentType).value in TextTypes
  {
    assert Names(TextTypes) == ["text/plain", "text/markdown", "text/html", "application/json"];
    fragmentType in Names(TextTypes)
  }

  /** Exactly four MIME strings are editable. */
  lemma EditableTypesAreTheTextTypes(fragmentType: string)
    ensures IsEditableType(fragmentType) <==>
              fragmentType in ["text/plain", "text/markdown", "text/html", "application/json"]
  {
    assert Names(TextTypes) == ["text/plain", "text/markdown", "text/html", "application/json"];
  }

  /** For a fragment type, editable means belonging to the text group. */
  lemma EditableIffTextGroup(t: MediaType)
    ensures IsEditableType(Name(t)) <==> t in TextTypes
  {
    EditableTypesAreTheTextTypes(Name(t));
    if IsEditableType(Name(t)) {
      var k :| 0 <= k < |TextTypes| && Names(TextTypes)[k] == Name(t);
      NameInjective(TextTypes[k], t);
    }
  }

  /** The anchor `downloadFragmentContent` creates and clicks. */
  datatype DownloadLink = DownloadLink(href: string, filename: string)

  /** The extension of the download: the subtype of the shown format. */
  function DownloadExtension(currentType: string, viewFormat: string): string {
    Strings.Render(Strings.SecondSegment(if viewFormat == "original" then currentType else viewFormat))
  }

  /** `downloadFragmentContent`: nothing for empty data, else a link named `fragment-<id>.<extension>`. */
  function DownloadFragmentContent(fragmentId: string, fragmentData: string, currentType: string, viewFormat: string)
    : (link: Option<DownloadLink>)
    ensures link == None <==> fragmentData == ""
    ensures link.Some? ==> link.value.href == fragmentData
    ensures link.Some? ==> Strings.StartsWith(link.value.filename, "fragment-" + fragmentId + ".")
  {
    if fragmentData == "" then None
    else Some(DownloadLink(fragmentData, "fragment-" + fragmentId + "." + DownloadExtension(currentType, viewFormat)))
  }

  /** A download happens exactly for non-empty data, and links to that data. */
  lemma DownloadIffData(fragmentId: string, fragmentData: string, currentType: string, viewFormat: string)
    ensures DownloadFragmentContent(fragmentId, fragmentData, currentType, viewFormat).Some? <==> fragmentData != ""
    ensures fragmentData != "" ==> DownloadFragmentContent(fragmentId, fragmentData, currentType, viewFormat).value.href == fragmentData
  {
  }

  /** Downloading the original names the file after the fragment's own subtype. */
  lemma OriginalDownloadUsesSubtype(fragmentId: string, fragmentData: string, top: string, sub: string)
    requires fragmentData != "" && '/' !in top && '/' !in sub
    ensures DownloadFragmentContent(fragmentId, fragmentData, top + "/" + sub, "original")
              == Some(DownloadLink(fragmentData, "fragment-" + fragmentId + "." + sub))
  {
    Strings.SecondSegmentOfMime(top, sub, "");
    assert top + "/" + sub + "" == top + "/" + sub;
  }

  /** A converted download is named after the endpoint the conversion was fetched from. */
  lemma ConvertedDownloadMatchesEndpoint(fragmentId: string, fragmentData: string, currentType: string, viewFormat: string)
    requires fragmentData != "" && viewFormat != "original"
    ensures DownloadFragmentContent(fragmentId, fragmentData, currentType, viewFormat).value.filename
              == "fragment-" + ContentCache.Endpoint(fragmentId, viewFormat)
  {
  }
}
