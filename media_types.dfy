/** The fragment media types the dashboard offers, and their text/image grouping. */
module MediaTypes {
  import opened Wrappers
  import Strings

  datatype MediaType =
    | TextPlain | TextMarkdown | TextHtml | ApplicationJson
    | ImagePng | ImageJpeg | ImageWebp

  /** The MIME string of each type. */
  function Name(t: MediaType): string {
    match t
    case TextPlain => "text/plain"
    case TextMarkdown => "text/markdown"
    case TextHtml => "text/html"
    case ApplicationJson => "application/json"
    case ImagePng => "image/png"
    case ImageJpeg => "image/jpeg"
    case ImageWebp => "image/webp"
  }

  /** The type a MIME string names, if it is one of the fragment types. */
  function Parse(s: string): (r: Option<MediaType>)
    ensures r.Some? ==> Name(r.value) == s
  {
    if s == "text/plain" then Some(TextPlain)
    else if s == "text/markdown" then Some(TextMarkdown)
    else if s == "text/html" then Some(TextHtml)
    else if s == "application/json" then Some(ApplicationJson)
    else if s == "image/png" then Some(ImagePng)
    else if s == "image/jpeg" then Some(ImageJpeg)
    else if s == "image/webp" then Some(ImageWebp)
    else None
  }

  /** `VALID_FRAGMENT_TYPES`, in declaration order. */
  const ValidFragmentTypes: seq<MediaType> :=
    [TextPlain, TextMarkdown, TextHtml, ApplicationJson, ImagePng, ImageJpeg, ImageWebp]

  /** `VALID_FRAGMENT_GROUPS.textTypes` */
  const TextTypes: seq<MediaType> := [TextPlain, TextMarkdown, TextHtml, ApplicationJson]

  /** `VALID_FRAGMENT_GROUPS.imageTypes` */
  const ImageTypes: seq<MediaType> := [ImagePng, ImageJpeg, ImageWebp]

  function Names(ts: seq<MediaType>): (names: seq<string>)
    ensures |names| == |ts|
    ensures forall k | 0 <= k < |ts| :: names[k] == Name(ts[k])
  {
    if ts == [] then [] else [Name(ts[0])] + Names(ts[1..])
  }

  /** Every MIME string names at most one type, and Parse reads it back. */
  lemma NameRoundTrip(t: MediaType)
    ensures Parse(Name(t)) == Some(t)
  {
  }

  lemma NameInjective(t: MediaType, u: MediaType)
    requires Name(t) == Name(u)
    ensures t == u
  {
    NameRoundTrip(t);
    NameRoundTrip(u);
  }

  /** No two entries of `VALID_FRAGMENT_TYPES` share a MIME string. */
  lemma ValidFragmentTypesDistinct()
    ensures forall j, k | 0 <= j < k < |ValidFragmentTypes| :: Name(ValidFragmentTypes[j]) != Name(ValidFragmentTypes[k])
  {
    forall j, k | 0 <= j < k < |ValidFragmentTypes|
      ensures Name(ValidFragmentTypes[j]) != Name(ValidFragmentTypes[k])
    {
      if Name(ValidFragmentTypes[j]) == Name(ValidFragmentTypes[k]) {
        NameInjective(ValidFragmentTypes[j], ValidFragmentTypes[k]);
      }
    }
  }

  /** Every type is listed in `VALID_FRAGMENT_TYPES`. */
  lemma ValidFragmentTypesComplete()
    ensures forall t: MediaType :: t in ValidFragmentTypes
  {
    forall t: MediaType ensures t in ValidFragmentTypes {
      match t
      case TextPlain => assert ValidFragmentTypes[0] == t;
      case TextMarkdown => assert ValidFragmentTypes[1] == t;
      case TextHtml => assert ValidFragmentTypes[2] == t;
      case ApplicationJson => assert ValidFragmentTypes[3] == t;
      case ImagePng => assert ValidFragmentTypes[4] == t;
      case ImageJpeg => assert ValidFragmentTypes[5] == t;
      case ImageWebp => assert ValidFragmentTypes[6] == t;
    }
  }

  /** Every listed MIME string is one `Parse` reads, so unlisted ones such as CSV, GIF and AVIF are absent. */
  lemma ValidFragmentTypesParse()
    ensures forall k | 0 <= k < |Names(ValidFragmentTypes)| :: Parse(Names(ValidFragmentTypes)[k]).Some?
  {
    var names := Names(ValidFragmentTypes);
    forall k | 0 <= k < |names| ensures Parse(names[k]).Some? {
      NameRoundTrip(ValidFragmentTypes[k]);
    }
  }

  /** Seven distinct types, every type among them, and no CSV, GIF or AVIF. */
  lemma ValidFragmentTypesEnumeration()
    ensures |ValidFragmentTypes| == 7
    ensures forall j, k | 0 <= j < k < |ValidFragmentTypes| :: Name(ValidFragmentTypes[j]) != Name(ValidFragmentTypes[k])
    ensures forall t: MediaType :: t in ValidFragmentTypes
    ensures "text/csv" !in Names(ValidFragmentTypes)
    ensures "image/gif" !in Names(ValidFragmentTypes)
    ensures "image/avif" !in Names(ValidFragmentTypes)
  {
    ValidFragmentTypesDistinct();
    ValidFragmentTypesComplete();
    ValidFragmentTypesParse();
    assert Parse("text/csv") == None && Parse("image/gif") == None && Parse("image/avif") == None;
  }

  /** The two groups split the valid types: disjoint, and together all of them. */
  lemma GroupsPartitionValidTypes()
    ensures forall t :: !(t in TextTypes && t in ImageTypes)
    ensures forall t :: t in ValidFragmentTypes <==> t in TextTypes || t in ImageTypes
  {
  }

  /** Image types are the `image/` ones; text types are the `text/` ones and `application/json`. */
  lemma GroupsFollowPrefixes(t: MediaType)
    ensures t in ImageTypes <==> Strings.StartsWith(Name(t), "image/")
    ensures t in TextTypes <==> Strings.StartsWith(Name(t), "text/") || t == ApplicationJson
  {
    var n := Name(t);
    assert Strings.StartsWith(n, "image/") <==> |n| >= 6 && n[..6] == "image/";
    assert Strings.StartsWith(n, "text/") <==> |n| >= 5 && n[..5] == "text/";
    match t
    case TextPlain => assert n[..5] == "text/" && n[..6][0] != 'i';
    case TextMarkdown => assert n[..5] == "text/" && n[..6][0] != 'i';
    case TextHtml => assert n[..5] == "text/" && n[..6][0] != 'i';
    case ApplicationJson => assert n[..5][0] != 't' && n[..6][0] != 'i';
    case ImagePng => assert n[..5][0] != 't' && n[..6] == "image/";
    case ImageJpeg => assert n[..5][0] != 't' && n[..6] == "image/";
    case ImageWebp => assert n[..5][0] != 't' && n[..6] == "image/";
  }
}
