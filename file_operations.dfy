/**
 * The download name of `saveMarkdownFile` (src/utils/fileOperations.ts): the
 * suggested name with `.md` appended unless it already ends with it.
 */
module FileOperations {
  import opened Wrappers
  import opened Text
  import opened Titles

  /** The name used when the caller passes none. */
  const DefaultFileName := "document"
  const MarkdownExtension := ".md"

  /** `finalFilename`; `None` is an omitted argument, which takes the default. */
  function DownloadName(filename: Option<string>): (r: string)
    ensures EndsWith(r, MarkdownExtension)
    ensures StartsWith(r, filename.GetOr(DefaultFileName))
    ensures EndsWith(filename.GetOr(DefaultFileName), MarkdownExtension) ==> r == filename.GetOr(DefaultFileName)
    ensures !EndsWith(filename.GetOr(DefaultFileName), MarkdownExtension) ==>
              |r| == |filename.GetOr(DefaultFileName)| + |MarkdownExtension|
  {
    var name := filename.GetOr(DefaultFileName);
    if EndsWith(name, MarkdownExtension) then name
    else
      assert (name + MarkdownExtension)[|name|..] == MarkdownExtension;
      assert (name + MarkdownExtension)[..|name|] == name;
      name + MarkdownExtension
  }

  /** Naming a download twice adds nothing the first time did not. */
  lemma DownloadNameIdempotent(filename: Option<string>)
    ensures DownloadName(Some(DownloadName(filename))) == DownloadName(filename)
  {
  }

  /** Without a name the file is `document.md`. */
  lemma DefaultDownloadName()
    ensures DownloadName(None) == "document.md"
  {
    assert !EndsWith(DefaultFileName, MarkdownExtension) by {
      assert DefaultFileName[5..] == "ent";
    }
  }

  /** The check is case-sensitive: an upper-case extension gets a second, lower-case one. */
  lemma UpperCaseExtensionIsExtended()
    ensures DownloadName(Some("notes.MD")) == "notes.MD.md"
  {
    assert "notes.MD"[5..] == ".MD";
  }

  /**
   * A document exported under its title and imported again gets that title
   * back, unless the title itself ends with `.md`.
   */
  lemma ExportThenImportTitle(title: string)
    requires !EndsWith(title, MarkdownExtension)
    ensures StripMarkdownExtension(DownloadName(Some(title))) == title
  {
    var name := title + MarkdownExtension;
    assert name[|name| - 3..] == MarkdownExtension;
    LowerUnchanged(MarkdownExtension);
    assert name[..|name| - 3] == title;
  }
}
