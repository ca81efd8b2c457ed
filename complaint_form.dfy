/** The complaint form: uploading evidence files, removing one from the list,
    and submitting the complaint with the collected addresses. */
module ComplaintForm {
  import opened Outcomes
  import opened Lists
  import Backend
  import ImageUpload

  const MediaBucket: string := "media"
  const UploadFallback: string := "Failed to upload files"
  const SubmitFallback: string := "Failed to submit complaint"

  /** One dropped file: its name, the random part of its stored name, how its
      upload turned out, and the public address of the stored object. */
  datatype FileUpload = FileUpload(name: string, random: string, uploadError: Option<Thrown>, publicUrl: string)

  /** `complaints/${user.id}/${Math.random()}.${fileExt}`. */
  function MediaPath(userId: string, f: FileUpload): (path: string)
    ensures path == "complaints/" + ImageUpload.StoragePath(userId, f.random, f.name)
  {
    "complaints/" + userId + "/" + f.random + "." + ImageUpload.FileExtension(f.name)
  }

  /** The objects stored: one for each file whose upload succeeded, in order. */
  function StoredFor(userId: string, files: seq<FileUpload>): (stored: seq<Backend.StoredObject>)
    ensures |stored| <= |files|
  {
    if files == [] then []
    else
      var last := files[|files| - 1];
      StoredFor(userId, files[..|files| - 1])
        + (if last.uploadError.None? then [Backend.StoredObject(MediaBucket, MediaPath(userId, last))] else [])
  }

  /** The files are stored block by block: what a list of files stores is
      what its front stores followed by what its back stores. */
  lemma {:induction false} StoredForAppend(userId: string, front: seq<FileUpload>, back: seq<FileUpload>)
    ensures StoredFor(userId, front + back) == StoredFor(userId, front) + StoredFor(userId, back)
    decreases |back|
  {
    if back == [] {
      assert front + back == front;
    } else {
      var init := back[..|back| - 1];
      assert (front + back)[..|front + back| - 1] == front + init;
      assert (front + back)[|front + back| - 1] == back[|back| - 1];
      StoredForAppend(userId, front, init);
    }
  }

  /** A single file stores its object under its own path when its upload
      succeeds, and nothing when it fails. */
  lemma StoredForOne(userId: string, f: FileUpload)
    ensures StoredFor(userId, [f]) == if f.uploadError.None? then [Backend.StoredObject(MediaBucket, MediaPath(userId, f))] else []
  {
    assert [f][..0] == [];
  }

  /** When every upload succeeds, every file is stored, in file order, under
      its own path. */
  lemma {:induction false} AllStored(userId: string, files: seq<FileUpload>)
    requires forall k :: 0 <= k < |files| ==> files[k].uploadError.None?
    ensures var stored := StoredFor(userId, files);
            |stored| == |files|
            && forall k :: 0 <= k < |files| ==> stored[k] == Backend.StoredObject(MediaBucket, MediaPath(userId, files[k]))
  {
    if files != [] {
      var init, last := files[..|files| - 1], files[|files| - 1];
      AllStored(userId, init);
      var before, stored := StoredFor(userId, init), StoredFor(userId, files);
      assert stored == before + [Backend.StoredObject(MediaBucket, MediaPath(userId, last))];
      forall k | 0 <= k < |files| ensures stored[k] == Backend.StoredObject(MediaBucket, MediaPath(userId, files[k])) {
        if k < |init| {
          assert init[k] == files[k];
        }
      }
    }
  }

  /** The addresses `Promise.all` resolves with, in file order. */
  function UrlsOf(files: seq<FileUpload>): (urls: seq<string>)
    ensures |urls| == |files|
  {
    if files == [] then [] else UrlsOf(files[..|files| - 1]) + [files[|files| - 1].publicUrl]
  }

  /** The k-th address is the k-th file's. */
  lemma {:induction false} UrlsInOrder(files: seq<FileUpload>)
    ensures forall k :: 0 <= k < |files| ==> UrlsOf(files)[k] == files[k].publicUrl
  {
    if files != [] {
      var init := files[..|files| - 1];
      UrlsInOrder(init);
      assert forall k :: 0 <= k < |init| ==> init[k] == files[k];
    }
  }

  /** The error of the first failed upload, in file order. */
  function FirstFailure(files: seq<FileUpload>): (failure: Option<Thrown>)
    ensures files != [] && files[0].uploadError.Some? ==> failure == files[0].uploadError
  {
    if files == [] then None
    else
      var earlier := FirstFailure(files[..|files| - 1]);
      if earlier.Some? then earlier else files[|files| - 1].uploadError
  }

  /** There is a failure exactly when some upload failed, and it is that of
      the first failed file. */
  lemma {:induction false} FirstFailureIsFirst(files: seq<FileUpload>)
    ensures FirstFailure(files).None? <==> forall k :: 0 <= k < |files| ==> files[k].uploadError.None?
    ensures FirstFailure(files).Some? ==>
              exists k :: 0 <= k < |files| && files[k].uploadError == FirstFailure(files)
                          && forall j :: 0 <= j < k ==> files[j].uploadError.None?
  {
    if files != [] {
      var init := files[..|files| - 1];
      FirstFailureIsFirst(init);
      assert forall j :: 0 <= j < |init| ==> init[j] == files[j];
      if FirstFailure(init).Some? {
        var k :| 0 <= k < |init| && init[k].uploadError == FirstFailure(init)
                 && forall j :: 0 <= j < k ==> init[j].uploadError.None?;
        assert files[k] == init[k];
      } else {
        assert files[|files| - 1].uploadError == FirstFailure(files);
      }
    }
  }

  /** `files.filter(f => f !== url)`'s test. */
  function Differs(url: string): string -> bool {
    (f: string) => f != url
  }

  /** The list without any copy of `url`. */
  function Without(files: seq<string>, url: string): (rest: seq<string>)
    ensures url !in rest
    ensures forall f :: f in rest <==> f in files && f != url
  {
    Filter(files, Differs(url))
  }

  /** Removing keeps the relative order of the other addresses. */
  lemma WithoutKeepsOrder(front: seq<string>, back: seq<string>, url: string)
    ensures Without(front + back, url) == Without(front, url) + Without(back, url)
  {
    FilterAppend(front, back, Differs(url));
  }

  /** Removing an address that is not listed changes nothing. */
  lemma WithoutAbsent(files: seq<string>, url: string)
    requires url !in files
    ensures Without(files, url) == files
  {
    FilterKeepsAll(files, Differs(url));
  }

  /** One more file, as each of the three functions sees it. */
  lemma UploadStep(userId: string, files: seq<FileUpload>, i: nat)
    requires i < |files|
    ensures var f := files[i];
            && StoredFor(userId, files[..i + 1]) == StoredFor(userId, files[..i])
                 + (if f.uploadError.None? then [Backend.StoredObject(MediaBucket, MediaPath(userId, f))] else [])
            && UrlsOf(files[..i + 1]) == UrlsOf(files[..i]) + [f.publicUrl]
            && FirstFailure(files[..i + 1]) == (if FirstFailure(files[..i]).Some? then FirstFailure(files[..i]) else f.uploadError)
  {
    assert files[..i + 1][..i] == files[..i];
  }

  /** The uploads `Promise.all` waits for, one file after another: each
      successful one stores its object; the addresses are collected and the
      first failure kept. */
  method UploadAll(db: Backend.Database, userId: string, files: seq<FileUpload>)
    returns (urls: seq<string>, failure: Option<Thrown>)
    modifies db`storage
    ensures db.storage == old(db.storage) + StoredFor(userId, files)
    ensures urls == UrlsOf(files)
    ensures failure == FirstFailure(files)
  {
    urls, failure := [], None;
    for i := 0 to |files|
      invariant db.storage == old(db.storage) + StoredFor(userId, files[..i])
      invariant urls == UrlsOf(files[..i])
      invariant failure == FirstFailure(files[..i])
    {
      var f := files[i];
      UploadStep(userId, files, i);
      if f.uploadError.None? {
        db.storage := db.storage + [Backend.StoredObject(MediaBucket, MediaPath(userId, f))];
      } else if failure.None? {
        failure := f.uploadError;
      }
      urls := urls + [f.publicUrl];
    }
    assert files[..|files|] == files;
  }

  /** What the form holds. */
  class Form {
    const user: Option<string>
    var title: string
    var description: string
    var location: string
    var uploadedFiles: seq<string>
    var loading: bool
    var error: Option<string>

    constructor (user: Option<string>)
      ensures this.user == user && title == "" && description == "" && location == ""
      ensures uploadedFiles == [] && !loading && error.None?
    {
      this.user := user;
      title, description, location := "", "", "";
      uploadedFiles, loading, error := [], false, None;
    }

    /** `onDrop`: every file is uploaded; when all succeed their addresses are
        appended in file order, otherwise the list stays as it was and the
        first failure in file order is reported. Objects that were stored stay
        stored either way. */
    method OnDrop(db: Backend.Database, files: seq<FileUpload>)
      modifies this`loading, this`error, this`uploadedFiles, db`storage
      ensures user.None? ==> unchanged(this) && db.storage == old(db.storage)
      ensures user.Some? ==> !loading && db.storage == old(db.storage) + StoredFor(user.value, files)
      ensures user.Some? && FirstFailure(files).None? ==>
                uploadedFiles == old(uploadedFiles) + UrlsOf(files) && error.None?
      ensures user.Some? && FirstFailure(files).Some? ==>
                uploadedFiles == old(uploadedFiles) && error == Some(MessageOr(FirstFailure(files).value, UploadFallback))
    {
      if user.None? {
        return;
      }
      loading := true;
      error := None;
      var urls, failure := UploadAll(db, user.value, files);
      if failure.None? {
        uploadedFiles := uploadedFiles + urls;
      } else {
        error := Some(MessageOr(failure.value, UploadFallback));
      }
      loading := false;
    }

    /** The remove button next to an uploaded file. */
    method RemoveFile(url: string)
      modifies this`uploadedFiles
      ensures uploadedFiles == Without(old(uploadedFiles), url)
    {
      uploadedFiles := Without(uploadedFiles, url);
    }

    /** `handleSubmit`: returns whether `onComplaintCreated` was called. The
        fields and the current address list are inserted as they are. */
    method HandleSubmit(db: Backend.Database, insertError: Option<Thrown>)
      returns (created: bool)
      modifies this`loading, this`error, db`submittedComplaints
      ensures user.None? ==> !created && unchanged(this) && db.submittedComplaints == old(db.submittedComplaints)
      ensures user.Some? ==> !loading && (created <==> insertError.None?)
      ensures user.Some? && insertError.None? ==>
                && error.None?
                && db.submittedComplaints == old(db.submittedComplaints) +
                     [Backend.ComplaintSubmission(title, description, location, user.value, uploadedFiles)]
      ensures user.Some? && insertError.Some? ==>
                error == Some(MessageOr(insertError.value, SubmitFallback)) && db.submittedComplaints == old(db.submittedComplaints)
    {
      if user.None? {
        return false;
      }
      loading := true;
      error := None;
      if insertError.None? {
        db.submittedComplaints := db.submittedComplaints +
          [Backend.ComplaintSubmission(title, description, location, user.value, uploadedFiles)];
        created := true;
      } else {
        error := Some(MessageOr(insertError.value, SubmitFallback));
        created := false;
      }
      loading := false;
    }
  }
}
