/** One entry of the Drive folder listing, with the fields the listing asks for
    (`id, name, size, createdTime, mimeType`). The creation time only feeds a
    date caption and is not part of this model. */
module Files {
  import opened Wrappers

  datatype DriveFile = DriveFile(id: string, name: string, size: Option<nat>, mimeType: Option<string>)

  /** `int(file.get("size", 0))`: a file without a size counts as 0 bytes. */
  function SizeOf(f: DriveFile): (n: nat)
    ensures f.size.None? ==> n == 0
    ensures f.size.Some? ==> n == f.size.value
  {
    f.size.GetOr(0)
  }

  /** `file.get("mimeType", "")`: a file without a MIME type has the empty one. */
  function MimeOf(f: DriveFile): (m: string)
    ensures f.mimeType.None? ==> m == ""
    ensures f.mimeType.Some? ==> m == f.mimeType.value
  {
    f.mimeType.GetOr("")
  }
}
