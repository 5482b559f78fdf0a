/**
 * `useFileHandling`: a single file slot. A file is accepted only when its
 * MIME type is the expected one; image files get an object-URL preview, and
 * a preview is revoked when its file leaves the slot or the slot is unmounted.
 * Object URLs are parameters; `revoked` records every URL handed to
 * `URL.revokeObjectURL` (revoking twice is harmless, so it is a set).
 */
module FileHandling {
  import opened Wrappers
  import opened Files
  import Strings

  class FileSlot {
    var file: WebFile?
    var revoked: set<string>

    constructor ()
      ensures file == null && revoked == {}
    {
      file := null;
      revoked := {};
    }

    /** The preview URL of the file in the slot, as a set of at most one. */
    function HeldPreview(): set<string>
      reads this, file
    {
      if file == null then {} else PreviewUrls(file.preview)
    }

    /**
     * `handleFileSelection`: a file of another type is ignored; a matching
     * file gets a preview when it is an image and replaces the slot's file,
     * whose preview the effect cleanup then revokes.
     */
    method HandleFileSelection(selectedFile: WebFile, expectedType: string, objectUrl: string)
      modifies this, selectedFile
      ensures selectedFile.mimeType != expectedType ==>
                file == old(file) && revoked == old(revoked) && selectedFile.preview == old(selectedFile.preview)
      ensures selectedFile.mimeType == expectedType ==>
                && file == selectedFile
                && selectedFile.preview ==
                     (if Strings.StartsWith(selectedFile.mimeType, "image/") then Some(objectUrl)
                      else old(selectedFile.preview))
                && revoked == old(revoked) + (if old(file) != selectedFile then old(HeldPreview()) else {})
    {
      if selectedFile.mimeType != expectedType {
        return;
      }
      var released := if file != selectedFile then HeldPreview() else {};
      if Strings.StartsWith(selectedFile.mimeType, "image/") {
        selectedFile.preview := Some(objectUrl);
      }
      file := selectedFile;
      revoked := revoked + released;
    }

    /** `clearFile`: the slot ends empty and the old preview, if any, is revoked. */
    method ClearFile()
      modifies this
      ensures file == null
      ensures revoked == old(revoked) + old(HeldPreview())
    {
      revoked := revoked + HeldPreview();
      file := null;
    }

    /** The effect cleanup on unmount: the current preview is revoked. */
    method Unmount()
      modifies this
      ensures file == old(file)
      ensures revoked == old(revoked) + old(HeldPreview())
    {
      revoked := revoked + HeldPreview();
    }
  }
}
