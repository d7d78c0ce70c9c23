/** The `useFiles` store: the ordered list of uploaded records, the single
    source of truth that the home page and the download page share. */
module FileStore {
  import opened Records

  class Files {
    var uploadedFiles: seq<UploadedFile>

    /** A new store holds no records. */
    constructor ()
      ensures uploadedFiles == []
    {
      uploadedFiles := [];
    }

    /** `setUploadedFiles`: the list becomes exactly `newFiles`. */
    method SetUploadedFiles(newFiles: seq<UploadedFile>)
      modifies this
      ensures uploadedFiles == newFiles
    {
      uploadedFiles := newFiles;
    }

    /** `addUploadedFiles`: the old records keep their positions and the new
        ones follow in their given order; no record is altered. */
    method AddUploadedFiles(newFiles: seq<UploadedFile>)
      modifies this
      ensures uploadedFiles == old(uploadedFiles) + newFiles
      ensures |uploadedFiles| == |old(uploadedFiles)| + |newFiles|
      ensures forall i :: 0 <= i < |old(uploadedFiles)| ==> uploadedFiles[i] == old(uploadedFiles)[i]
      ensures forall j :: 0 <= j < |newFiles| ==> uploadedFiles[|old(uploadedFiles)| + j] == newFiles[j]
      ensures newFiles == [] ==> uploadedFiles == old(uploadedFiles)
    {
      uploadedFiles := uploadedFiles + newFiles;
    }
  }
}
