/** The object store behind backend/.../service/S3UploadService.java: one
    bucket, seen as the set of keys it holds. Uploads write a key built from
    the folder, a random UUID and the file's original name; deletes take the
    object's URL. The UUID and the store's failures are inputs, and the URL
    the client reports for a key is the virtual-hosted address. */
module S3Upload {
  import opened Base
  import opened Text
  import MistralOcr

  /** The parts of a `MultipartFile` an upload reads. */
  datatype UploadedFile = UploadedFile(size: nat, originalFilename: Option<string>, contentType: Option<string>)

  /** `MultipartFile.isEmpty`. */
  predicate IsEmpty(f: UploadedFile) {
    f.size == 0
  }

  datatype StoreError =
    | IllegalArgument(message: string)
    | StoreFailure(message: string)

  /** Java's string conversion of a possibly-null name. */
  function NameText(name: Option<string>): string {
    if name.Some? then name.value else "null"
  }

  /** The key `uploadFile` writes under: folder + "/" + uuid + "_" + name. */
  function ObjectKey(folder: string, uuid: string, name: Option<string>): string {
    folder + "/" + uuid + "_" + NameText(name)
  }

  const ReceiptFolder: string := "receipts"

  /** `extractFileNameFromUrl`: the text after the last '/', or the whole
      text when there is none. */
  function ExtractFileNameFromUrl(url: string): (r: string)
    ensures '/' !in r
    ensures '/' !in url ==> r == url
    ensures '/' in url ==> exists j | 0 <= j < |url| :: url[j] == '/' && url == url[..j + 1] + r
  {
    match LastIndexOf(url, '/')
    case None => url
    case Some(j) =>
      assert url == url[..j + 1] + url[j + 1..];
      url[j + 1..]
  }

  /** Every receipt key holds a '/' after the folder name. */
  lemma ReceiptKeyHasFolder(uuid: string, name: Option<string>)
    ensures ObjectKey(ReceiptFolder, uuid, name)[|ReceiptFolder|] == '/'
    ensures '/' in ObjectKey(ReceiptFolder, uuid, name)
  {
  }

  /** What `deleteFile` removes for a receipt's URL is never the key the
      receipt was stored under: one holds a '/', the other does not. */
  lemma DeleteKeyMissesReceipt(bucket: string, region: string, uuid: string, name: Option<string>)
    ensures ExtractFileNameFromUrl(MistralOcr.ObjectUrl(bucket, region, ObjectKey(ReceiptFolder, uuid, name)))
            != ObjectKey(ReceiptFolder, uuid, name)
  {
    ReceiptKeyHasFolder(uuid, name);
  }

  /** A concrete receipt: stored as "receipts/<uuid>_r.jpg", deleted as
      "<uuid>_r.jpg". */
  lemma DeleteKeyExample()
    ensures var uuid := ExampleUuid;
            var url := MistralOcr.ObjectUrl("sweet-potato-receipts", "ap-south-1",
                                            ObjectKey(ReceiptFolder, uuid, Some("r.jpg")));
            && ObjectKey(ReceiptFolder, uuid, Some("r.jpg")) == "receipts/" + uuid + "_r.jpg"
            && ExtractFileNameFromUrl(url) == uuid + "_r.jpg"
  {
    ExampleNameHasNoSlash();
    ReceiptUrlEndsWithFileName("sweet-potato-receipts", "ap-south-1", ExampleUuid, Some("r.jpg"));
  }

  const ExampleUuid: string := "0f8fad5b-d9cb-469f-a165-70867728950e"

  lemma ExampleNameHasNoSlash()
    ensures '/' !in ExampleUuid + "_" + NameText(Some("r.jpg"))
  {
    assert forall k | 0 <= k < |ExampleUuid| :: ExampleUuid[k] != '/';
    assert '/' !in "_r.jpg";
  }

  /** A receipt's URL is a prefix ending in '/' followed by "<uuid>_<name>". */
  lemma ReceiptUrlEndsWithFileName(bucket: string, region: string, uuid: string, name: Option<string>)
    requires '/' !in uuid + "_" + NameText(name)
    ensures ExtractFileNameFromUrl(MistralOcr.ObjectUrl(bucket, region, ObjectKey(ReceiptFolder, uuid, name)))
            == uuid + "_" + NameText(name)
  {
    var tail := uuid + "_" + NameText(name);
    var prefix := "https://" + bucket + ".s3." + region + MistralOcr.HostSuffix + ReceiptFolder + "/";
    assert MistralOcr.ObjectUrl(bucket, region, ObjectKey(ReceiptFolder, uuid, name)) == prefix + tail;
    FileNameAfterLastSlash(prefix, tail);
  }

  /** The file name of a URL is what follows its last '/'. */
  lemma FileNameAfterLastSlash(prefix: string, tail: string)
    requires prefix != [] && prefix[|prefix| - 1] == '/' && '/' !in tail
    ensures ExtractFileNameFromUrl(prefix + tail) == tail
  {
    var url := prefix + tail;
    var j := |prefix| - 1;
    assert url[j] == '/';
    forall k | j < k < |url| ensures url[k] != '/' {
      assert url[k] == tail[k - |prefix|];
    }
    assert LastIndexOf(url, '/') == Some(j);
    assert url[j + 1..] == tail;
  }

  /** The key a URL names, as `MistralOcrService.extractS3KeyFromUrl` reads
      it; the deletion key `deleteFile` evidently means. */
  function StoredKeyOf(url: string, bucket: string): Option<string> {
    match MistralOcr.ExtractS3KeyFromUrl(url, bucket)
    case Ok(key) => Some(key)
    case Err(_) => None
  }

  /** Read back this way, every uploaded key is found again. */
  lemma StoredKeyOfUpload(bucket: string, region: string, folder: string, uuid: string, name: Option<string>)
    requires '/' !in bucket && '/' !in region
    ensures StoredKeyOf(MistralOcr.ObjectUrl(bucket, region, ObjectKey(folder, uuid, name)), bucket)
            == Some(ObjectKey(folder, uuid, name))
  {
    MistralOcr.ExtractKeyOfObjectUrl(bucket, region, ObjectKey(folder, uuid, name));
  }

  class S3UploadService {
    const bucket: string
    const region: string
    /** The keys the bucket holds. */
    var objects: set<string>

    constructor (bucket: string, region: string, objects: set<string>)
      ensures this.bucket == bucket && this.region == region && this.objects == objects
    {
      this.bucket := bucket;
      this.region := region;
      this.objects := objects;
    }

    /** `uploadFile`. `putFails` says whether the store refuses the put. */
    method UploadFile(file: UploadedFile, folder: string, uuid: string, putFails: bool)
      returns (r: Result<string, StoreError>)
      modifies this`objects
      // an empty file is refused before the store is called
      ensures IsEmpty(file) ==> r == Err(IllegalArgument("File cannot be empty")) && objects == old(objects)
      ensures !IsEmpty(file) && putFails ==>
                r == Err(StoreFailure("Failed to upload file to S3")) && objects == old(objects)
      // otherwise the object is stored and its address returned
      ensures !IsEmpty(file) && !putFails ==>
                && objects == old(objects) + {ObjectKey(folder, uuid, file.originalFilename)}
                && r == Ok(MistralOcr.ObjectUrl(bucket, region, ObjectKey(folder, uuid, file.originalFilename)))
    {
      if IsEmpty(file) {
        return Err(IllegalArgument("File cannot be empty"));
      }
      var fileName := folder + "/" + uuid + "_" + NameText(file.originalFilename);
      if putFails {
        return Err(StoreFailure("Failed to upload file to S3"));
      }
      objects := objects + {fileName};
      return Ok(MistralOcr.ObjectUrl(bucket, region, fileName));
    }

    /** `uploadReceiptImage`: an upload into the "receipts" folder. */
    method UploadReceiptImage(file: UploadedFile, uuid: string, putFails: bool)
      returns (r: Result<string, StoreError>)
      modifies this`objects
      ensures r.Ok? ==> objects == old(objects) + {ObjectKey(ReceiptFolder, uuid, file.originalFilename)}
      ensures r.Ok? <==> !IsEmpty(file) && !putFails
      ensures r.Err? ==> objects == old(objects)
      // the exceptions it throws: neither is an IOException
      ensures IsEmpty(file) ==> r == Err(IllegalArgument("File cannot be empty"))
      ensures !IsEmpty(file) && putFails ==> r == Err(StoreFailure("Failed to upload file to S3"))
    {
      r := UploadFile(file, ReceiptFolder, uuid, putFails);
    }

    /** `deleteFile` as written: removes the key named by the URL's last
        segment. */
    method DeleteFile(url: string, deleteFails: bool) returns (r: Result<(), StoreError>)
      modifies this`objects
      ensures deleteFails ==> r == Err(StoreFailure("Failed to delete file from S3")) && objects == old(objects)
      ensures !deleteFails ==> r == Ok(()) && objects == old(objects) - {ExtractFileNameFromUrl(url)}
    {
      var fileName := ExtractFileNameFromUrl(url);
      if deleteFails {
        return Err(StoreFailure("Failed to delete file from S3"));
      }
      objects := objects - {fileName};
      return Ok(());
    }

    /** `deleteFile` with the key read back the way the OCR download reads it;
        a URL that names no object of this bucket is reported, not guessed. */
    method DeleteStoredFile(url: string, deleteFails: bool) returns (r: Result<(), StoreError>)
      modifies this`objects
      ensures StoredKeyOf(url, bucket).None? ==> r.Err? && objects == old(objects)
      ensures deleteFails ==> r.Err? && objects == old(objects)
      ensures StoredKeyOf(url, bucket).Some? && !deleteFails ==>
                r == Ok(()) && objects == old(objects) - {StoredKeyOf(url, bucket).value}
    {
      var key := StoredKeyOf(url, bucket);
      if key.None? || deleteFails {
        return Err(StoreFailure("Failed to delete file from S3"));
      }
      objects := objects - {key.value};
      return Ok(());
    }
  }

  /** Upload then delete by the returned URL, as the record service does:
      with `deleteFile` as written the receipt stays in the bucket. */
  lemma ReceiptSurvivesDelete(objects: set<string>, bucket: string, region: string,
                                                uuid: string, name: Option<string>)
    ensures var key := ObjectKey(ReceiptFolder, uuid, name);
            var url := MistralOcr.ObjectUrl(bucket, region, key);
            key in (objects + {key}) - {ExtractFileNameFromUrl(url)}
  {
    DeleteKeyMissesReceipt(bucket, region, uuid, name);
  }

  /** With the key read back from the URL, the delete removes exactly the
      receipt it uploaded. */
  lemma ReceiptRemovedByStoredKeyDelete(objects: set<string>, bucket: string, region: string,
                                        uuid: string, name: Option<string>)
    requires '/' !in bucket && '/' !in region
    ensures var key := ObjectKey(ReceiptFolder, uuid, name);
            var url := MistralOcr.ObjectUrl(bucket, region, key);
            && StoredKeyOf(url, bucket) == Some(key)
            && (objects + {key}) - {StoredKeyOf(url, bucket).value} == objects - {key}
  {
    StoredKeyOfUpload(bucket, region, ReceiptFolder, uuid, name);
  }
}
