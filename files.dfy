/** A browser `File` as the dashboard sees it: `FileWithPreview`. */
module Files {
  import opened Wrappers

  class WebFile {
    const name: string
    /** The browser-reported MIME type, `file.type`. */
    const mimeType: string
    /** The object URL assigned onto the file for image previews. */
    var preview: Option<string>

    constructor (name: string, mimeType: string)
      ensures this.name == name && this.mimeType == mimeType && preview == None
    {
      this.name := name;
      this.mimeType := mimeType;
      preview := None;
    }
  }

  /**
   * The URLs a cleanup revokes for a preview. The cleanup runs under
   * `if (file?.preview)`, so a missing or empty preview revokes nothing.
   */
  function PreviewUrls(preview: Option<string>): (urls: set<string>)
    ensures "" !in urls
    ensures urls == {} <==> preview == None || preview == Some("")
    ensures forall url | url in urls :: preview == Some(url)
  {
    match preview
    case None => {}
    case Some(url) => if url == "" then {} else {url}
  }
}
