/** What the analyzer sees of the remote repository: directory listings and
    replies to content requests. The remote is a finite tree, so the walk over
    it terminates. */
module Remote {
  import opened Wrappers

  /** One item of a directory listing: its `name`, its `type` and its `url`
      (the content locator). `listing` is what listing this entry's own path
      yields; it is only consulted when the entry is a directory. */
  datatype Entry = Entry(name: string, kind: string, url: string, listing: Listing)

  /** The result of listing one path: the HTTP error that is raised, or the entries. */
  datatype Listing = Failed(error: string) | Listed(entries: seq<Entry>)

  /** The reply to a content request: the HTTP error that is raised, or the
      JSON payload with its optional `content` field (base64 text). */
  datatype Reply = RequestFailed(error: string) | Payload(content: Option<string>)

  predicate IsDir(e: Entry) { e.kind == "dir" }

  /** `f"{path}/{name}" if path else name`. */
  function JoinPath(path: string, name: string): (full: string)
    ensures path == "" ==> full == name
    ensures path != "" ==> |full| == |path| + 1 + |name|
    ensures path != "" ==> full[..|path|] == path && full[|path|] == '/' && full[|path| + 1..] == name
  {
    if path == "" then name else path + "/" + name
  }
}
