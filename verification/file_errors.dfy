/** The error raised when an upload to object storage fails. */
module FileErrors {
  import opened Wrappers
  import Dict
  import opened PyValue
  import opened Errors
  import CoreErrors

  /** `FileUploadError(filename)`: 500 `FILE_NOT_UPLOAD` of type `FileNotUpload`; the file name is
      added to the caller's extras. */
  function FileUploadError(filename: string, headers: Option<Headers> := None,
                           extras: Option<Extras> := None): (r: CoreException)
    ensures r.statusCode == 500 && r.errorCode == "FILE_NOT_UPLOAD" && r.errorType == "FileNotUpload"
    ensures r.detail == "File " + filename + " not upload."
    ensures Dict.Get(r.extras, "filename") == Some(Str(filename))
    ensures forall k | k != "filename" :: Dict.Get(r.extras, k) == Dict.Get(ExtrasOrEmpty(extras), k)
  {
    Make("FileUploadError", 500, "File " + filename + " not upload.", "FILE_NOT_UPLOAD", Some("FileNotUpload"),
         Some(CoreErrors.Put1(ExtrasOrEmpty(extras), "filename", Str(filename))), headers)
  }
}
