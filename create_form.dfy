/**
 * The dashboard's create-fragment form: the selected type, the typed text,
 * the attached file and the error line, and the handlers that change them.
 * `submissions` lists the create requests issued, in order; `revoked` records
 * the object URLs released by the file-effect cleanup.
 */
module CreateForm {
  import opened Wrappers
  import opened MediaTypes
  import opened Files
  import Strings
  import Json
  import Validation

  /** The payload of one create request. */
  datatype Submission = Submission(fragmentType: MediaType, content: string, file: WebFile?)

  function InvalidFileTypeMessage(t: MediaType): string {
    "Invalid file type. Expected " + Name(t)
  }

  function InvalidDropMessage(t: MediaType): string {
    "Please drop a valid " + Name(t) + " file"
  }

  function InvalidSelectionMessage(t: MediaType): string {
    "Please select a valid " + Name(t) + " file"
  }

  /** The "Image Formats" test of the type menu: an `image/` MIME type. */
  predicate IsImageType(t: MediaType) {
    Strings.StartsWith(Name(t), "image/")
  }

  /**
   * `isTextType`: the form shows a text area for these types and a drop zone
   * for the rest, which are exactly the image types.
   */
  function IsTextType(t: MediaType): (text: bool)
    ensures text <==> !IsImageType(t)
  {
    GroupsFollowPrefixes(t);
    Strings.StartsWith(Name(t), "text/") || t == ApplicationJson
  }

  /** The text area is shown exactly for the text group. */
  lemma TextTypeIffTextGroup(t: MediaType)
    ensures IsTextType(t) <==> t in TextTypes
  {
    GroupsFollowPrefixes(t);
  }

  /** The types of `ts` that `keep` accepts, in order. */
  function FilterTypes(ts: seq<MediaType>, keep: MediaType -> bool): seq<MediaType> {
    if ts == [] then [] else (if keep(ts[0]) then [ts[0]] else []) + FilterTypes(ts[1..], keep)
  }

  /** The "Text Formats" items of the type menu. */
  function TextMenuItems(): seq<MediaType> {
    FilterTypes(ValidFragmentTypes, IsTextType)
  }

  /** The "Image Formats" items of the type menu. */
  function ImageMenuItems(): seq<MediaType> {
    FilterTypes(ValidFragmentTypes, IsImageType)
  }

  /** Filtering a concatenation filters each part. */
  lemma {:induction false} FilterAppend(a: seq<MediaType>, b: seq<MediaType>, keep: MediaType -> bool)
    ensures FilterTypes(a + b, keep) == FilterTypes(a, keep) + FilterTypes(b, keep)
    decreases |a|
  {
    if a == [] {
      assert a + b == b;
    } else {
      var head := if keep(a[0]) then [a[0]] else [];
      assert (a + b)[0] == a[0];
      assert (a + b)[1..] == a[1..] + b;
      FilterAppend(a[1..], b, keep);
      assert FilterTypes(a + b, keep) == head + (FilterTypes(a[1..], keep) + FilterTypes(b, keep));
      assert FilterTypes(a, keep) == head + FilterTypes(a[1..], keep);
    }
  }

  /** A filter that accepts every element returns the whole sequence. */
  lemma {:induction false} FilterKeepsAll(ts: seq<MediaType>, keep: MediaType -> bool)
    requires forall k | 0 <= k < |ts| :: keep(ts[k])
    ensures FilterTypes(ts, keep) == ts
    decreases |ts|
  {
    if ts != [] {
      assert forall k | 0 <= k < |ts[1..]| :: ts[1..][k] == ts[k + 1];
      FilterKeepsAll(ts[1..], keep);
    }
  }

  /** A filter that accepts no element returns nothing. */
  lemma {:induction false} FilterDropsAll(ts: seq<MediaType>, keep: MediaType -> bool)
    requires forall k | 0 <= k < |ts| :: !keep(ts[k])
    ensures FilterTypes(ts, keep) == []
    decreases |ts|
  {
    if ts != [] {
      assert forall k | 0 <= k < |ts[1..]| :: ts[1..][k] == ts[k + 1];
      FilterDropsAll(ts[1..], keep);
    }
  }

  /** The "Text Formats" section lists exactly the text group, in order. */
  lemma TextMenuIsTextGroup()
    ensures TextMenuItems() == TextTypes
  {
    assert ValidFragmentTypes == TextTypes + ImageTypes;
    FilterAppend(TextTypes, ImageTypes, IsTextType);
    GroupsPartitionValidTypes();
    forall k | 0 <= k < |TextTypes| ensures IsTextType(TextTypes[k]) {
      TextTypeIffTextGroup(TextTypes[k]);
    }
    forall k | 0 <= k < |ImageTypes| ensures !IsTextType(ImageTypes[k]) {
      TextTypeIffTextGroup(ImageTypes[k]);
    }
    FilterKeepsAll(TextTypes, IsTextType);
    FilterDropsAll(ImageTypes, IsTextType);
  }

  /** The "Image Formats" section lists exactly the image group, in order. */
  lemma ImageMenuIsImageGroup()
    ensures ImageMenuItems() == ImageTypes
  {
    assert ValidFragmentTypes == TextTypes + ImageTypes;
    FilterAppend(TextTypes, ImageTypes, IsImageType);
    GroupsPartitionValidTypes();
    forall k | 0 <= k < |TextTypes| ensures !IsImageType(TextTypes[k]) {
      GroupsFollowPrefixes(TextTypes[k]);
    }
    forall k | 0 <= k < |ImageTypes| ensures IsImageType(ImageTypes[k]) {
      GroupsFollowPrefixes(ImageTypes[k]);
    }
    FilterDropsAll(TextTypes, IsImageType);
    FilterKeepsAll(ImageTypes, IsImageType);
  }

  class CreateFragmentForm {
    var selectedType: MediaType
    var content: string
    var error: string
    var file: WebFile?
    var submissions: seq<Submission>
    var revoked: set<string>

    constructor ()
      ensures selectedType == TextPlain && content == "" && error == "" && file == null
      ensures submissions == [] && revoked == {}
    {
      selectedType := TextPlain;
      content := "";
      error := "";
      file := null;
      submissions := [];
      revoked := {};
    }

    function HeldPreview(): set<string>
      reads this, file
    {
      if file == null then {} else PreviewUrls(file.preview)
    }

    /** `validateContent`: the form's own copy of the validator, reading the attached file. */
    function ValidateContent(t: MediaType, text: string): (verdict: string)
      reads this
      ensures verdict == Validation.ValidateFragmentContent(t, text, file)
    {
      if Strings.Trim(text) == "" && file == null then "Content cannot be empty"
      else if t == ApplicationJson && file == null && !Json.IsJson(text) then "Invalid JSON format"
      else ""
    }

    /** `handleSubmit`: a refusal becomes the error line; an acceptance clears it and issues the request. */
    method HandleSubmit()
      modifies this`error, this`submissions
      ensures var verdict := Validation.ValidateFragmentContent(selectedType, content, file);
        && (verdict != "" ==> error == verdict && submissions == old(submissions))
        && (verdict == "" ==> error == "" && submissions == old(submissions) + [Submission(selectedType, content, file)])
    {
      var validationError := ValidateContent(selectedType, content);
      if validationError != "" {
        error := validationError;
        return;
      }
      error := "";
      submissions := submissions + [Submission(selectedType, content, file)];
    }

    /**
     * `handleFileSelection`: a file of another type only sets the error line;
     * a matching one gets a preview when it is an image, becomes the attached
     * file and clears the error; the replaced file's preview is revoked.
     */
    method HandleFileSelection(selectedFile: WebFile, objectUrl: string)
      modifies this`file, this`error, this`revoked, selectedFile`preview
      ensures selectedFile.mimeType != Name(selectedType) ==>
                && error == InvalidFileTypeMessage(selectedType)
                && file == old(file) && revoked == old(revoked)
                && selectedFile.preview == old(selectedFile.preview)
      ensures selectedFile.mimeType == Name(selectedType) ==>
                && file == selectedFile && error == ""
                && selectedFile.preview ==
                     (if Strings.StartsWith(selectedFile.mimeType, "image/") then Some(objectUrl)
                      else old(selectedFile.preview))
                && revoked == old(revoked) + (if old(file) != selectedFile then old(HeldPreview()) else {})
    {
      if selectedFile.mimeType != Name(selectedType) {
        error := InvalidFileTypeMessage(selectedType);
        return;
      }
      var released := if file != selectedFile then HeldPreview() else {};
      if Strings.StartsWith(selectedFile.mimeType, "image/") {
        selectedFile.preview := Some(objectUrl);
      }
      file := selectedFile;
      error := "";
      revoked := revoked + released;
    }

    /** `handleDrop`: only a dropped file of the selected type is taken; anything else sets the drop error. */
    method HandleDrop(dropped: WebFile?, objectUrl: string)
      modifies this`file, this`error, this`revoked, dropped
      ensures dropped == null || dropped.mimeType != Name(selectedType) ==>
                && error == InvalidDropMessage(selectedType)
                && file == old(file) && revoked == old(revoked)
                && (dropped != null ==> dropped.preview == old(dropped.preview))
      ensures dropped != null && dropped.mimeType == Name(selectedType) ==>
                && file == dropped && error == ""
                && dropped.preview ==
                     (if Strings.StartsWith(dropped.mimeType, "image/") then Some(objectUrl) else old(dropped.preview))
                && revoked == old(revoked) + (if old(file) != dropped then old(HeldPreview()) else {})
    {
      if dropped != null && dropped.mimeType == Name(selectedType) {
        HandleFileSelection(dropped, objectUrl);
      } else {
        error := InvalidDropMessage(selectedType);
      }
    }

    /** The file input's change handler: no file does nothing; a file of another type sets the selection error. */
    method HandleInputChange(chosen: WebFile?, objectUrl: string)
      modifies this`file, this`error, this`revoked, chosen
      ensures chosen == null ==> error == old(error) && file == old(file) && revoked == old(revoked)
      ensures chosen != null && chosen.mimeType != Name(selectedType) ==>
                && error == InvalidSelectionMessage(selectedType)
                && file == old(file) && revoked == old(revoked)
                && chosen.preview == old(chosen.preview)
      ensures chosen != null && chosen.mimeType == Name(selectedType) ==>
                && file == chosen && error == ""
                && chosen.preview ==
                     (if Strings.StartsWith(chosen.mimeType, "image/") then Some(objectUrl) else old(chosen.preview))
                && revoked == old(revoked) + (if old(file) != chosen then old(HeldPreview()) else {})
    {
      if chosen != null {
        if chosen.mimeType == Name(selectedType) {
          HandleFileSelection(chosen, objectUrl);
        } else {
          error := InvalidSelectionMessage(selectedType);
        }
      }
    }

    /** Choosing a type resets the file and the text; the detached file's preview is revoked. */
    method ChangeType(value: MediaType)
      modifies this`selectedType, this`file, this`content, this`revoked
      ensures selectedType == value && file == null && content == ""
      ensures revoked == old(revoked) + old(HeldPreview())
    {
      var released := HeldPreview();
      selectedType := value;
      file := null;
      content := "";
      revoked := revoked + released;
    }

    /** The "Remove File" button, shown only while a file is attached. */
    method RemoveFile()
      requires file != null
      modifies this`file, this`revoked
      ensures file == null
      ensures revoked == old(revoked) + old(PreviewUrls(file.preview))
    {
      revoked := revoked + PreviewUrls(file.preview);
      file := null;
    }

    /** Typing in the text area. */
    method EditContent(value: string)
      modifies this`content
      ensures content == value
    {
      content := value;
    }

    /** A successful create empties the text area. */
    method OnCreateSuccess()
      modifies this`content
      ensures content == ""
    {
      content := "";
    }

    /**
     * The file effect's cleanup when the form unmounts, as it does when the
     * dialog closes after a create: the attached file's preview is revoked.
     */
    method Unmount()
      modifies this`revoked
      ensures revoked == old(revoked) + old(HeldPreview())
    {
      revoked := revoked + HeldPreview();
    }
  }
}
