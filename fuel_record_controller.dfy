/** The HTTP layer of backend/.../controller/FuelRecordController.java.
    Uploads are de-duplicated by a request id built from the user, the file
    size and a ten-second window of the clock, then validated in order; the
    statuses are those of RFC 9110 (413 in section 15.5.14) and RFC 6585 (429
    in section 4). The current user (by id), the clock and the upload's
    outcome in the record service are inputs; reads and deletes go to the
    record service model. */
module FuelRecordController {
  import opened Base
  import opened Text
  import S3Upload
  import FuelRecordService

  const Ok200: int := 200
  const NoContent204: int := 204
  const BadRequest400: int := 400
  const Unauthorized401: int := 401
  const NotFound404: int := 404
  const PayloadTooLarge413: int := 413
  const TooManyRequests429: int := 429
  const InternalServerError500: int := 500

  /** The upload size limit: 10 MiB. */
  const MaxUploadBytes: nat := 10 * 1024 * 1024
  /** The de-duplication set is cleared once it holds more ids than this. */
  const MaxTrackedUploads: nat := 1000
  /** The width of the de-duplication time window, in milliseconds. */
  const WindowMillis: nat := 10000

  /** The paging parameters' defaults and bounds. */
  const DefaultPage: int := 0
  const DefaultPageSize: int := 20
  const MaxPageSize: int := 100

  /** `@Min(0) page`, `@Min(1) @Max(100) size`, after the defaults apply. */
  predicate ValidPaging(page: Option<int>, size: Option<int>) {
    page.GetOr(DefaultPage) >= 0 && 1 <= size.GetOr(DefaultPageSize) <= MaxPageSize
  }

  datatype Response<T> = Response(status: int, body: Option<T>)

  /** The request id: user id, file size and ten-second window, joined by '_'. */
  function RequestId(userId: int, size: nat, nowMillis: nat): (r: string)
    // split at '_', it gives back the three fields
    ensures Split(r, '_') == [IntToString(userId), IntToString(size), IntToString(nowMillis / WindowMillis)]
  {
    var a, b, w := IntToString(userId), IntToString(size), IntToString(nowMillis / WindowMillis);
    NumberHasNo(userId, '_');
    NumberHasNo(size, '_');
    NumberHasNo(nowMillis / WindowMillis, '_');
    ThreeFields(a, b, w);
    a + "_" + b + "_" + w
  }

  lemma ThreeFields(a: string, b: string, w: string)
    requires '_' !in a && '_' !in b && '_' !in w
    ensures Split(a + "_" + b + "_" + w, '_') == [a, b, w]
  {
    assert a + "_" + b + "_" + w == a + ['_'] + (b + ['_'] + w);
    SplitAfterField(a, b + ['_'] + w, '_');
    SplitAfterField(b, w, '_');
    SplitNoSeparator(w, '_');
  }

  /** `contentType != null && contentType.startsWith("image/")`. */
  predicate IsImageType(contentType: Option<string>): (r: bool)
    // a missing type is refused, and any type under "image/" is accepted
    ensures contentType.None? ==> !r
    ensures contentType.Some? ==> (r <==> |contentType.value| >= 6 && contentType.value[..6] == "image/")
  {
    contentType.Some? && StartsWith(contentType.value, "image/")
  }

  /** The test is case-sensitive: an upper-case media type is refused. */
  lemma ImageTypeIsCaseSensitive()
    ensures IsImageType(Some("image/png")) && !IsImageType(Some("IMAGE/PNG"))
  {
    assert "IMAGE/PNG"[0] == 'I';
  }

  // ---------------------------------------------------------------------
  // Request ids identify user, size and window
  // ---------------------------------------------------------------------

  /** Two uploads share a request id exactly when they come from the same
      user, with the same size, in the same ten-second window. */
  lemma RequestIdIdentifies(u1: int, s1: nat, t1: nat, u2: int, s2: nat, t2: nat)
    ensures RequestId(u1, s1, t1) == RequestId(u2, s2, t2)
            <==> u1 == u2 && s1 == s2 && t1 / WindowMillis == t2 / WindowMillis
  {
    if RequestId(u1, s1, t1) == RequestId(u2, s2, t2) {
      IntToStringInjective(u1, u2);
      IntToStringInjective(s1, s2);
      IntToStringInjective(t1 / WindowMillis, t2 / WindowMillis);
    }
  }

  // ---------------------------------------------------------------------
  // The controller
  // ---------------------------------------------------------------------

  class FuelRecordControllerState {
    /** The ids of the uploads in progress. */
    var recentUploads: set<string>
    const service: FuelRecordService.FuelRecordServiceState

    /** The set never holds more than 1000 ids between requests. */
    ghost predicate Valid()
      reads this
    {
      |recentUploads| <= MaxTrackedUploads
    }

    constructor (service: FuelRecordService.FuelRecordServiceState)
      ensures Valid() && recentUploads == {} && this.service == service
    {
      recentUploads := {};
      this.service := service;
    }

    /** `uploadReceipt`. `outcome` is what the record service's upload
        yields: a response, null (`None`), or an exception (`Err`). */
    method UploadReceipt(currentUser: Option<int>, file: S3Upload.UploadedFile, nowMillis: nat,
                         outcome: Result<Option<FuelRecordService.FuelReceiptResponse>, string>)
      returns (r: Response<FuelRecordService.FuelReceiptResponse>)
      requires Valid()
      modifies this`recentUploads
      ensures Valid()
      // no user: 401 and the set is untouched
      ensures currentUser.None? ==> r == Response(Unauthorized401, None) && recentUploads == old(recentUploads)
      // a repeated id: 429 and the set is untouched
      ensures currentUser.Some? && RequestId(currentUser.value, file.size, nowMillis) in old(recentUploads) ==>
                r == Response(TooManyRequests429, None) && recentUploads == old(recentUploads)
      ensures currentUser.Some? && RequestId(currentUser.value, file.size, nowMillis) !in old(recentUploads) ==>
                // the id is gone again afterwards; the set is emptied if the add overflowed it
                && recentUploads == (if |old(recentUploads)| + 1 > MaxTrackedUploads then {} else old(recentUploads))
                // the first failed check decides: empty, then not an image, then too large
                && (S3Upload.IsEmpty(file) ==> r == Response(BadRequest400, None))
                && (!S3Upload.IsEmpty(file) && !IsImageType(file.contentType) ==> r == Response(BadRequest400, None))
                && (!S3Upload.IsEmpty(file) && IsImageType(file.contentType) && file.size > MaxUploadBytes ==>
                      r == Response(PayloadTooLarge413, None))
                // a valid file gets the service's response, or 500
                && (!S3Upload.IsEmpty(file) && IsImageType(file.contentType) && file.size <= MaxUploadBytes ==>
                      r == (if outcome.Ok? && outcome.value.Some? then Response(Ok200, outcome.value)
                            else Response(InternalServerError500, None)))
    {
      if currentUser.None? {
        return Response(Unauthorized401, None);
      }
      var timeWindow := nowMillis / WindowMillis;
      var requestId := IntToString(currentUser.value) + "_" + IntToString(file.size) + "_" + IntToString(timeWindow);
      if requestId in recentUploads {
        return Response(TooManyRequests429, None);
      }
      recentUploads := recentUploads + {requestId};
      if |recentUploads| > MaxTrackedUploads {
        recentUploads := {};
      }
      if S3Upload.IsEmpty(file) {
        recentUploads := recentUploads - {requestId};
        return Response(BadRequest400, None);
      }
      if file.contentType.None? || !StartsWith(file.contentType.value, "image/") {
        recentUploads := recentUploads - {requestId};
        return Response(BadRequest400, None);
      }
      if file.size > MaxUploadBytes {
        recentUploads := recentUploads - {requestId};
        return Response(PayloadTooLarge413, None);
      }
      if outcome.Ok? && outcome.value.Some? {
        recentUploads := recentUploads - {requestId};
        return Response(Ok200, outcome.value);
      }
      recentUploads := recentUploads - {requestId};
      return Response(InternalServerError500, None);
    }

    /** `getUserFuelRecords`: `page` defaults to 0 and `size` to 20; the
        parameter constraints (page from 0, size from 1 to 100) are checked
        before the method body, so before the current user. `all` is the
        listing the page is cut from. */
    method GetUserFuelRecords(currentUser: Option<int>, page: Option<int>, size: Option<int>,
                              showConfidence: real -> string)
      returns (r: Response<FuelRecordService.Page<FuelRecordService.FuelReceiptResponse>>,
               ghost all: seq<FuelRecordService.FuelRecord>)
      requires service.Valid()
      ensures !ValidPaging(page, size) ==> r == Response(BadRequest400, None)
      ensures ValidPaging(page, size) && currentUser.None? ==> r == Response(Unauthorized401, None)
      ensures ValidPaging(page, size) && currentUser.Some? ==>
                && r.status == Ok200
                && service.IsListing(currentUser.value, all)
                && r.body == Some(FuelRecordService.PageFrom(all, page.GetOr(DefaultPage), size.GetOr(DefaultPageSize),
                                                             showConfidence))
    {
      var p, s := page.GetOr(DefaultPage), size.GetOr(DefaultPageSize);
      if !(p >= 0 && 1 <= s <= MaxPageSize) {
        return Response(BadRequest400, None), [];
      }
      if currentUser.None? {
        return Response(Unauthorized401, None), [];
      }
      var records;
      records, all := service.GetUserFuelRecords(currentUser.value, p, s, showConfidence);
      return Response(Ok200, Some(records)), all;
    }

    /** `getFuelRecord`: 200 with the record for its owner, else 404. */
    method GetFuelRecord(currentUser: Option<int>, id: int, showConfidence: real -> string)
      returns (r: Response<FuelRecordService.FuelReceiptResponse>)
      ensures currentUser.None? ==> r == Response(Unauthorized401, None)
      ensures currentUser.Some? ==>
                && (r.status == Ok200 <==> service.Owns(id, currentUser.value))
                && (r.status != Ok200 ==> r == Response(NotFound404, None))
                && (r.status == Ok200 ==> r.body == service.GetFuelRecordById(id, currentUser.value, showConfidence))
    {
      if currentUser.None? {
        return Response(Unauthorized401, None);
      }
      var found := service.GetFuelRecordById(id, currentUser.value, showConfidence);
      if found.Some? {
        return Response(Ok200, found);
      }
      return Response(NotFound404, None);
    }

    /** `deleteFuelRecord`: 204 when the service deleted the record, else 404. */
    method DeleteFuelRecord(currentUser: Option<int>, id: int) returns (r: Response<()>)
      requires service.Valid()
      modifies service
      ensures service.Valid()
      ensures currentUser.None? ==> r == Response(Unauthorized401, None) && service.records == old(service.records)
      ensures currentUser.Some? ==>
                && (r.status == NoContent204 <==> old(service.Owns(id, currentUser.value)))
                && (r.status != NoContent204 ==> r == Response(NotFound404, None) && service.records == old(service.records))
                && (r.status == NoContent204 ==> service.records == old(service.records) - {id})
    {
      if currentUser.None? {
        return Response(Unauthorized401, None);
      }
      var deleted, _ := service.DeleteFuelRecord(id, currentUser.value);
      if deleted {
        return Response(NoContent204, None);
      }
      return Response(NotFound404, None);
    }
  }
}
