/** What the forge returns, once the HTTP client and the JSON and zip decoders
    (all outside this model) have done their work. */
module Remote {
  import opened Errors
  import opened Archive

  /** One release asset; only its browser download URL is used. */
  datatype Asset = Asset(browserDownloadURL: string)

  /** The release metadata for one tag. */
  datatype Release = Release(assets: seq<Asset>)

  /** The outcome of GETting a release asset: either the request failed, or a
      response arrived with a status code. `archive` is what reading the whole
      body and opening it as a zip archive yields; only a 200 response is read. */
  datatype Download =
    | DownloadFailed(error: Error)
    | Downloaded(status: int, archive: Result<seq<ZipEntry>>)
}
