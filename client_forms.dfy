/** What the app's screens send to /upload-photo: a multipart form with the
    ids from the route parameters and one `photo` part. The camera and the
    gallery build the same form. */
module ClientForms {
  import opened Strings

  datatype UploadForm = UploadForm(userId: string, groupId: string, uri: string, name: string, mimeType: string)

  /** `uri.split('/').pop()`: the text after the last '/', or the whole uri
      when it has none. */
  function FileNameOf(uri: string): (name: string)
    ensures '/' !in name && EndsWith(uri, name)
    ensures '/' in uri ==> uri[|uri| - |name| - 1] == '/'
    ensures '/' !in uri ==> name == uri
  {
    AfterLast(uri, '/')
  }
}
