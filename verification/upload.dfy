/** The `/upload` handler (authenticateUserAndUpload in src/app.js). */
module Upload {
  import opened Http

  /** The file multer attaches to the request as `req.file`. */
  datatype UploadedFile = UploadedFile(fieldName: string, originalName: string, key: string)

  /**
   * authenticateUserAndUpload answers from the presence of `req.file` alone:
   * 400 "No file uploaded" without one, 200 with one. It reads no
   * credentials: authentication happens, if at all, in the key callback.
   */
  function UploadResponse(file: Option<UploadedFile>): (r: Response)
    ensures r == NoFile <==> file.None?
    ensures r == Uploaded <==> file.Some?
  {
    if file.None? then NoFile else Uploaded
  }
}
