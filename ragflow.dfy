/** The metadata the RAGFlow import attaches to a document, derived from its file name:
    `generate_metadata` and its own copy of `is_valid_url`. The copy compiles the same
    pattern as the URL utilities, so it is `UrlUtils.IsValidUrl` here. The clock reading
    is a parameter, already formatted as `%Y-%m-%d %H:00:00`. */
module Ragflow {
  import opened Wrappers
  import opened Strings
  import UrlUtils

  datatype Metadata = Metadata(url: string, dateTime: string)

  /** The file name without its extension (`os.path.splitext`) and without the first
      summary marker it holds: "_summarized_qa_csv" is looked for before "_summarized",
      and "_qa_json" is not looked for at all. */
  function MetadataBase(filename: string): (r: string)
    ensures Contains(SplitExt(filename).0, "_summarized_qa_csv") ==> r == ReplaceAll(SplitExt(filename).0, "_summarized_qa_csv", "")
    ensures !Contains(SplitExt(filename).0, "_summarized_qa_csv") && Contains(SplitExt(filename).0, "_summarized")
      ==> r == ReplaceAll(SplitExt(filename).0, "_summarized", "")
    ensures !Contains(SplitExt(filename).0, "_summarized") ==> r == SplitExt(filename).0
  {
    var base := SplitExt(filename).0;
    UrlUtils.SummarizedMarkers(base);
    if Contains(base, "_summarized_qa_csv") then ReplaceAll(base, "_summarized_qa_csv", "")
    else if Contains(base, "_summarized") then ReplaceAll(base, "_summarized", "")
    else base
  }

  /** The string `generate_metadata` tests: every '_' of the base turned into '.'. */
  function Candidate(filename: string): (r: string)
    ensures '_' !in r
  {
    var base := MetadataBase(filename);
    ReplaceCharRemoves(base, '_', '.');
    ReplaceAll(base, "_", ".")
  }

  /** `generate_metadata(filename)`: the candidate and the current hour when the candidate
      is a valid URL, else `None`. */
  function GenerateMetadata(filename: string, currentHour: string): (r: Option<Metadata>)
    ensures r.None? <==> !UrlUtils.IsValidUrl(Candidate(filename))
    ensures r.Some? ==> r.value == Metadata(Candidate(filename), currentHour)
    ensures r.Some? ==> '_' !in r.value.url && UrlUtils.IsValidUrl(r.value.url)
  {
    var potentialUrl := Candidate(filename);
    if UrlUtils.IsValidUrl(potentialUrl) then Some(Metadata(potentialUrl, currentHour)) else None
  }

  /** Where both strip the extension alike and the name does not rely on the "_qa_json"
      marker, the metadata's URL is what `filename_to_url` gives, and one gives nothing
      exactly when the other does. */
  lemma AgreesWithFilenameToUrl(filename: string, currentHour: string)
    requires SplitExt(filename).0 == UrlUtils.DropExtension(filename)
    requires !Contains(SplitExt(filename).0, "_qa_json") || Contains(SplitExt(filename).0, "_summarized")
    ensures GenerateMetadata(filename, currentHour).Some? <==> UrlUtils.FilenameToUrl(filename).Some?
    ensures GenerateMetadata(filename, currentHour).Some? ==>
      GenerateMetadata(filename, currentHour).value.url == UrlUtils.FilenameToUrl(filename).value
  {
    var base := SplitExt(filename).0;
    UrlUtils.SummarizedMarkers(base);
    assert MetadataBase(filename) == UrlUtils.StripMarker(base);
    assert Candidate(filename) == UrlUtils.DecodeFilename(filename);
  }

  /** A QA file's "_qa_json" marker stays in the metadata's candidate, where
      `filename_to_url` removes it, so the two decode such a name differently. */
  lemma QaJsonMarkerKept(filename: string)
    requires SplitExt(filename).0 == UrlUtils.DropExtension(filename)
    requires !Contains(SplitExt(filename).0, "_summarized") && Contains(SplitExt(filename).0, "_qa_json")
    ensures MetadataBase(filename) == SplitExt(filename).0
    ensures Candidate(filename) != UrlUtils.DecodeFilename(filename)
  {
    var base := SplitExt(filename).0;
    UrlUtils.SummarizedMarkers(base);
    var stripped := UrlUtils.StripMarker(base);
    assert stripped == ReplaceAll(base, "_qa_json", "");
    ReplaceRemoveShorter(base, "_qa_json");
    ReplaceCharLength(base, '_', '.');
    ReplaceCharLength(stripped, '_', '.');
  }
}
