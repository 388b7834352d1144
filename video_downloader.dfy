/** The file-extension helper of the video downloader. */
module VideoDownloader {
  import opened PyStr

  /** `_normalize_extension`: the extension with a leading ".". */
  function NormalizeExtension(extension: string): (r: string)
    ensures StartsWith(r, ".")
    ensures |extension| <= |r| <= |extension| + 1
  {
    if StartsWith(extension, ".") then extension else "." + extension
  }

  /** An extension that already starts with "." is kept as it is. */
  lemma DottedKept(extension: string)
    requires |extension| > 0 && extension[0] == '.'
    ensures NormalizeExtension(extension) == extension
  {
    assert extension[..1] == ".";
  }

  /** Any other gets a "." in front and is one character longer. */
  lemma UndottedPrefixed(extension: string)
    requires extension == [] || extension[0] != '.'
    ensures NormalizeExtension(extension) == "." + extension
    ensures |NormalizeExtension(extension)| == |extension| + 1
  {
  }

  /** Normalising twice is normalising once. */
  lemma NormalizeIdempotent(extension: string)
    ensures NormalizeExtension(NormalizeExtension(extension)) == NormalizeExtension(extension)
  {
  }
}
