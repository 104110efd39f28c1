/**
 * The seller dashboard of pages/dashboard.tsx: the comma-separated tag
 * field, the storage name built from the uploaded file's extension, and the
 * create-listing submit handler (guard, upload, insert, form reset).
 */
module Dashboard {
  import opened Shared
  import opened Text

  /** `.map((t) => t.trim())` over the pieces of a split. */
  function TrimAll(parts: seq<string>): (r: seq<string>)
    ensures |r| == |parts|
    ensures forall k :: 0 <= k < |r| ==> r[k] == Trim(parts[k])
  {
    if parts == [] then [] else [Trim(parts[0])] + TrimAll(parts[1..])
  }

  /** `tags.split(',').map((t) => t.trim())`. */
  function ParseTags(tags: string): seq<string> {
    TrimAll(Split(tags, ','))
  }

  /**
   * The tags number one per comma plus one, and none holds a comma or
   * surrounding white space; empty pieces are kept, and a field without a
   * comma gives its trimmed self.
   */
  lemma ParseTagsShape(tags: string)
    ensures |ParseTags(tags)| == multiset(tags)[','] + 1
    ensures forall k :: 0 <= k < |ParseTags(tags)| ==> ',' !in ParseTags(tags)[k] && Trimmed(ParseTags(tags)[k])
    ensures ',' !in tags ==> ParseTags(tags) == [Trim(tags)]
  {
    var parts := Split(tags, ',');
    SplitShape(tags, ',');
    if ',' !in tags {
      SplitNoSep(tags, ',');
    }
    forall k | 0 <= k < |parts| ensures ',' !in Trim(parts[k]) {
      TrimExcludes(parts[k], ',');
    }
  }

  lemma {:induction false} TrimAllConcat(a: seq<string>, b: seq<string>)
    ensures TrimAll(a + b) == TrimAll(a) + TrimAll(b)
  {
    if a != [] {
      assert (a + b)[0] == a[0] && (a + b)[1..] == a[1..] + b;
      TrimAllConcat(a[1..], b);
    } else {
      assert a + b == b;
    }
  }

  /**
   * The field's tags keep their order: the tags of `a` and `b` joined by a
   * comma are those of `a` followed by those of `b`.
   */
  lemma ParseTagsAppend(a: string, b: string)
    ensures ParseTags(a + [','] + b) == ParseTags(a) + ParseTags(b)
  {
    SplitConcat(a, b, ',');
    TrimAllConcat(Split(a, ','), Split(b, ','));
  }

  /** An empty or blank tag field gives the single empty tag. */
  lemma BlankTagsGiveEmptyTag(tags: string)
    requires AllSpace(tags)
    ensures ParseTags(tags) == [""]
  {
    assert ',' !in tags by {
      assert !IsSpace(',');
    }
    ParseTagsShape(tags);
  }

  /** Trimming pieces that are already trimmed changes nothing. */
  lemma {:induction false} TrimAllOfTrimmed(parts: seq<string>)
    requires forall k :: 0 <= k < |parts| ==> Trimmed(parts[k])
    ensures TrimAll(parts) == parts
  {
    if parts != [] {
      TrimOfTrimmed(parts[0]);
      TrimAllOfTrimmed(parts[1..]);
    }
  }

  /**
   * Tags without commas or surrounding white space, written back into the
   * field joined by commas, parse to the same tags.
   */
  lemma ParseTagsJoin(ts: seq<string>)
    requires |ts| >= 1
    requires forall k :: 0 <= k < |ts| ==> ',' !in ts[k] && Trimmed(ts[k])
    ensures ParseTags(Join(ts, ',')) == ts
  {
    SplitJoin(ts, ',');
    TrimAllOfTrimmed(ts);
  }

  /** `file.name.split('.').pop()`: the last piece of the name between dots. */
  function FileExt(name: string): string {
    var parts := Split(name, '.');
    parts[|parts| - 1]
  }

  /**
   * The extension is the text after the last dot, or the whole name when it
   * has no dot: it holds no dot, ends the name, and is preceded by a dot
   * when the name has one.
   */
  lemma FileExtShape(name: string)
    ensures var ext := FileExt(name);
            && '.' !in ext
            && |ext| <= |name| && name[|name| - |ext|..] == ext
            && ('.' !in name ==> ext == name)
            && ('.' in name ==> |ext| < |name| && name[|name| - |ext| - 1] == '.')
  {
    var parts := Split(name, '.');
    SplitShape(name, '.');
    JoinSplit(name, '.');
    JoinEndsWithLast(parts, '.');
    if '.' !in name {
      SplitNoSep(name, '.');
    } else {
      assert multiset(name)['.'] > 0;
    }
  }

  /** ``${uuidv4()}.${fileExt}``: the generated id, a dot, and the upload's extension. */
  function StorageName(uuid: string, name: string): (r: string)
    ensures |r| == |uuid| + 1 + |FileExt(name)|
  {
    uuid + "." + FileExt(name)
  }

  /** The stored name starts with the id and a dot, and keeps the upload's extension. */
  lemma StorageNameKeepsExt(uuid: string, name: string)
    ensures |StorageName(uuid, name)| == |uuid| + 1 + |FileExt(name)|
    ensures StorageName(uuid, name)[..|uuid|] == uuid && StorageName(uuid, name)[|uuid|] == '.'
    ensures FileExt(StorageName(uuid, name)) == FileExt(name)
  {
    FileExtShape(name);
    SplitEndsAfterLastSep(uuid, FileExt(name), '.');
  }

  /** The file picked in the form; only its name matters here. */
  datatype UploadFile = UploadFile(name: string)

  /** A `listings` row written by the dashboard. */
  datatype ListingRow = ListingRow(userId: string, title: string, description: string, price: real,
                                   tags: seq<string>, filePath: string)

  const MissingFileOrUser: string := "Please upload a file and make sure you are logged in."
  const UploadFailed: string := "File upload failed."
  const SaveFailed: string := "Failed to save listing."

  /** The form's fields, the `datasets` bucket's object names and the `listings` table. */
  datatype Form = Form(title: string, description: string, price: string, tags: string,
                       file: Option<UploadFile>, error: string, storage: seq<string>,
                       listings: seq<ListingRow>)

  /** Every listing's file is in the bucket. */
  predicate FilesStored(f: Form) {
    forall k :: 0 <= k < |f.listings| ==> f.listings[k].filePath in f.storage
  }

  /** The fields a failed submit leaves as they were. */
  predicate SameFields(f: Form, g: Form) {
    f.title == g.title && f.description == g.description && f.price == g.price && f.tags == g.tags
    && f.file == g.file
  }

  /**
   * `handleSubmit` on the form `f` for the signed-in `user`. `uuid` is the id
   * `uuidv4()` returns, `parseFloat` the number the price field parses to,
   * and `uploadFails`/`insertFails` whether the storage upload and the insert
   * report an error.
   */
  function Submit(f: Form, user: Option<string>, uuid: string, parseFloat: string -> real,
                  uploadFails: bool, insertFails: bool): (r: Form)
    // the error is cleared exactly when every step succeeds
    ensures r.error == "" <==> f.file.Some? && user.Some? && !uploadFails && !insertFails
    // only a successful submit adds a listing, and only a completed upload adds a file
    ensures r.error != "" ==> r.listings == f.listings
    ensures (f.file.None? || user.None? || uploadFails) ==> r.storage == f.storage
  {
    if f.file.None? || user.None? then f.(error := MissingFileOrUser)
    else if uploadFails then f.(error := UploadFailed)
    else
      var fileName := StorageName(uuid, f.file.value.name);
      var stored := f.storage + [fileName];
      if insertFails then f.(error := SaveFailed, storage := stored)
      else
        var row := ListingRow(user.value, f.title, f.description, parseFloat(f.price), ParseTags(f.tags), fileName);
        Form("", "", "", "", None, "", stored, f.listings + [row])
  }

  /**
   * A submit that stops early: a missing file or user only sets the error;
   * so does a failed upload; a failed insert sets the error, leaves the file
   * in the bucket under its generated name, adds no row and keeps the form.
   */
  lemma SubmitFailures(f: Form, user: Option<string>, uuid: string, parseFloat: string -> real,
                       uploadFails: bool, insertFails: bool, r: Form)
    requires r == Submit(f, user, uuid, parseFloat, uploadFails, insertFails)
    ensures (f.file.None? || user.None?) ==> r == f.(error := MissingFileOrUser)
    ensures (f.file.Some? && user.Some? && uploadFails) ==> r == f.(error := UploadFailed)
    ensures (f.file.Some? && user.Some? && !uploadFails && insertFails) ==>
              && r.error == SaveFailed && r.listings == f.listings && SameFields(f, r)
              && r.storage == f.storage + [StorageName(uuid, f.file.value.name)]
  {
  }

  /**
   * A submit that succeeds stores the file under a name that keeps its
   * extension, appends one row as entered pointing at that name, and clears
   * the form.
   */
  lemma SubmitSaves(f: Form, user: Option<string>, uuid: string, parseFloat: string -> real, r: Form)
    requires f.file.Some? && user.Some?
    requires r == Submit(f, user, uuid, parseFloat, false, false)
    ensures |r.storage| == |f.storage| + 1 && r.storage[..|f.storage|] == f.storage
    ensures FileExt(r.storage[|f.storage|]) == FileExt(f.file.value.name)
    ensures r.listings == f.listings + [ListingRow(user.value, f.title, f.description, parseFloat(f.price),
                                                   ParseTags(f.tags), r.storage[|f.storage|])]
    ensures r.title == "" && r.description == "" && r.price == "" && r.tags == "" && r.file == None
    ensures r.error == ""
  {
    var fileName := StorageName(uuid, f.file.value.name);
    StorageNameKeepsExt(uuid, f.file.value.name);
    assert r.storage == f.storage + [fileName];
    assert r.storage[|f.storage|] == fileName;
  }

  /** No submit leaves a listing whose file is not in the bucket. */
  lemma SubmitKeepsFilesStored(f: Form, user: Option<string>, uuid: string, parseFloat: string -> real,
                               uploadFails: bool, insertFails: bool)
    requires FilesStored(f)
    ensures FilesStored(Submit(f, user, uuid, parseFloat, uploadFails, insertFails))
  {
    var r := Submit(f, user, uuid, parseFloat, uploadFails, insertFails);
    if f.file.Some? && user.Some? && !uploadFails {
      var fileName := StorageName(uuid, f.file.value.name);
      assert r.storage == f.storage + [fileName];
      forall k | 0 <= k < |r.listings| ensures r.listings[k].filePath in r.storage {
        if k < |f.listings| {
          assert r.listings[k] == f.listings[k];
          assert f.listings[k].filePath in f.storage;
        } else {
          assert r.listings[k].filePath == fileName;
        }
      }
    }
  }

  /** The dashboard page: the signed-in user and the form state it keeps. */
  class DashboardForm {
    var user: Option<string>
    var title: string
    var description: string
    var price: string
    var tags: string
    var file: Option<UploadFile>
    var error: string
    /** Object names in the `datasets` storage bucket. */
    var storage: seq<string>
    var listings: seq<ListingRow>

    function State(): Form
      reads this
    {
      Form(title, description, price, tags, file, error, storage, listings)
    }

    constructor (user: Option<string>, storage: seq<string>, listings: seq<ListingRow>)
      ensures this.user == user
      ensures State() == Form("", "", "", "", None, "", storage, listings)
    {
      this.user := user;
      this.storage := storage;
      this.listings := listings;
      title, description, price, tags := "", "", "", "";
      file := None;
      error := "";
    }

    /** `handleSubmit`: the guard, the upload, the insert and the form reset, in that order. */
    method HandleSubmit(uuid: string, parseFloat: string -> real, uploadFails: bool, insertFails: bool)
      modifies this
      ensures user == old(user)
      ensures State() == Submit(old(State()), user, uuid, parseFloat, uploadFails, insertFails)
    {
      ghost var before := State();
      if file.None? || user.None? {
        error := MissingFileOrUser;
        return;
      }
      var fileName := StorageName(uuid, file.value.name);
      if uploadFails {
        error := UploadFailed;
        return;
      }
      storage := storage + [fileName];
      if insertFails {
        error := SaveFailed;
        return;
      }
      var row := ListingRow(user.value, title, description, parseFloat(price), ParseTags(tags), fileName);
      listings := listings + [row];
      title, description, price, tags := "", "", "", "";
      file := None;
      error := "";
    }
  }
}
