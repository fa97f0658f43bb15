/** The record rules of backend/.../service/FuelRecordService.java: building a
    record from the data the OCR step extracted, letting the uploader's own
    values override it, the response the API returns, and the owner-only
    reads and deletes over the record store.

    This service writes the record's volume and unit price as `liters` and
    `pricePerLiter`, and the response carries them as `gallons` and
    `pricePerGallon`. The upload to S3, the OCR call, JSON serialisation,
    date parsing and `Double.toString` are parameters or outcomes passed in. */
module FuelRecordService {
  import opened Base
  import opened Decimal
  import opened MistralOcr
  import S3Upload

  /** The record as this service reads and writes it; `id` and `createdAt`
      are assigned when it is saved. */
  datatype FuelRecord = FuelRecord(
    id: Option<int>,
    ownerId: int,
    stationName: Option<string>,
    amount: Option<Dec>,
    liters: Option<Dec>,
    pricePerLiter: Option<Dec>,
    receiptImageUrl: Option<string>,
    location: Option<string>,
    purchaseDate: Option<int>,
    extractedData: Option<string>,
    createdAt: Option<int>)

  /** `FuelReceiptUploadRequest` without the image, which is uploaded first. */
  datatype UploadRequest = UploadRequest(
    stationName: Option<string>,
    stationBrand: Option<string>,
    location: Option<string>,
    purchaseDate: Option<string>)

  datatype FuelReceiptResponse = FuelReceiptResponse(
    id: Option<int>,
    stationName: Option<string>,
    amount: Option<Dec>,
    gallons: Option<Dec>,
    pricePerGallon: Option<Dec>,
    receiptImageUrl: Option<string>,
    location: Option<string>,
    purchaseDate: Option<int>,
    createdAt: Option<int>,
    ocrProcessed: bool,
    ocrConfidence: Option<string>,
    rawOcrData: Option<string>)

  // ---------------------------------------------------------------------
  // The location string
  // ---------------------------------------------------------------------

  /** The non-null address parts in order, each with the separator that goes
      before it when something has already been written: ", " before the
      city and the state, " " before the zip code. */
  function LocationParts(d: ExtractedFuelData): seq<(string, string)> {
    Part(d.address, ", ") + Part(d.city, ", ") + Part(d.state, ", ") + Part(d.zipCode, " ")
  }

  function Part(o: Option<string>, separator: string): seq<(string, string)> {
    if o.Some? then [(separator, o.value)] else []
  }

  /** One append to the builder: the separator only after a non-empty text. */
  function Appended(acc: string, part: (string, string)): string {
    (if |acc| > 0 then acc + part.0 else acc) + part.1
  }

  /** The builder's text after appending `parts` one by one. */
  function Built(parts: seq<(string, string)>): string
    decreases |parts|
  {
    if parts == [] then "" else Appended(Built(parts[..|parts| - 1]), parts[|parts| - 1])
  }

  /** The parts joined, each after its own separator except the first. */
  function JoinParts(parts: seq<(string, string)>): string
    requires |parts| > 0
    decreases |parts|
  {
    if |parts| == 1 then parts[0].1
    else JoinParts(parts[..|parts| - 1]) + parts[|parts| - 1].0 + parts[|parts| - 1].1
  }

  predicate AllEmpty(parts: seq<(string, string)>) {
    forall i | 0 <= i < |parts| :: parts[i].1 == ""
  }

  predicate NoneEmpty(parts: seq<(string, string)>) {
    forall i | 0 <= i < |parts| :: parts[i].1 != ""
  }

  /** The builder stays empty exactly when every part appended is empty. */
  lemma {:induction false} BuiltEmptyIff(parts: seq<(string, string)>)
    ensures Built(parts) == "" <==> AllEmpty(parts)
    decreases |parts|
  {
    if parts != [] {
      var init := parts[..|parts| - 1];
      BuiltEmptyIff(init);
      assert AllEmpty(parts) <==> AllEmpty(init) && parts[|parts| - 1].1 == "" by {
        if AllEmpty(init) && parts[|parts| - 1].1 == "" {
          forall i | 0 <= i < |parts| ensures parts[i].1 == "" {
            if i < |parts| - 1 { assert parts[i] == init[i]; }
          }
        }
        if AllEmpty(parts) {
          forall i | 0 <= i < |init| ensures init[i].1 == "" {
            assert init[i] == parts[i];
          }
        }
      }
    }
  }

  /** With no empty part, the builder produces the plain join. */
  lemma {:induction false} BuiltJoins(parts: seq<(string, string)>)
    requires |parts| > 0 && NoneEmpty(parts)
    ensures Built(parts) == JoinParts(parts)
    decreases |parts|
  {
    var init := parts[..|parts| - 1];
    if |parts| == 1 {
      assert init == [];
    } else {
      assert NoneEmpty(init) by {
        forall i | 0 <= i < |init| ensures init[i].1 != "" {
          assert init[i] == parts[i];
        }
      }
      BuiltJoins(init);
      assert init[0] == parts[0];
      assert Built(init) != "" by { BuiltEmptyIff(init); }
    }
  }

  lemma BuiltJoinsWhenNoneEmpty(parts: seq<(string, string)>)
    ensures |parts| > 0 && NoneEmpty(parts) ==> Built(parts) == JoinParts(parts)
  {
    if |parts| > 0 && NoneEmpty(parts) {
      BuiltJoins(parts);
    }
  }

  /** `buildLocationString`, as a value: null when nothing was written. */
  function LocationString(d: ExtractedFuelData): (r: Option<string>)
    // null exactly when every non-null part is the empty string (in
    // particular when all four are null)
    ensures r.None? <==> AllEmpty(LocationParts(d))
    // with no empty part, the present parts joined by their separators
    ensures |LocationParts(d)| > 0 && NoneEmpty(LocationParts(d)) ==>
              r == Some(JoinParts(LocationParts(d)))
  {
    var s := Built(LocationParts(d));
    BuiltEmptyIff(LocationParts(d));
    BuiltJoinsWhenNoneEmpty(LocationParts(d));
    if |s| > 0 then Some(s) else None
  }

  /** A lone part comes back bare, with no separator before it. */
  lemma LoneZipCode(d: ExtractedFuelData)
    requires d.address.None? && d.city.None? && d.state.None?
    requires d.zipCode.Some? && d.zipCode.value != ""
    ensures LocationString(d) == d.zipCode
  {
    assert Part(d.address, ", ") == [] && Part(d.city, ", ") == [] && Part(d.state, ", ") == [];
    var ps := LocationParts(d);
    assert ps == [(" ", d.zipCode.value)];
    assert NoneEmpty(ps);
  }

  /** All four parts: "address, city, state zip". */
  lemma FullLocation(a: string, c: string, s: string, z: string, d: ExtractedFuelData)
    requires d.address == Some(a) && d.city == Some(c) && d.state == Some(s) && d.zipCode == Some(z)
    requires a != "" && c != "" && s != "" && z != ""
    ensures LocationString(d) == Some(a + ", " + c + ", " + s + " " + z)
  {
    var ps := LocationParts(d);
    assert ps == [(", ", a), (", ", c), (", ", s), (" ", z)];
    assert ps[..3] == [(", ", a), (", ", c), (", ", s)];
    assert ps[..3][..2] == [(", ", a), (", ", c)];
    assert ps[..3][..2][..1] == [(", ", a)];
    assert JoinParts(ps[..3][..2]) == a + ", " + c;
    assert JoinParts(ps[..3]) == a + ", " + c + ", " + s;
    BuiltJoins(ps);
  }

  /** `buildLocationString`, appending to a builder step by step. */
  method BuildLocationString(d: ExtractedFuelData) returns (r: Option<string>)
    ensures r == LocationString(d)
  {
    var location := "";
    ghost var parts: seq<(string, string)> := [];
    if d.address.Some? {
      location := location + d.address.value;
    }
    assert location == Built(parts + Part(d.address, ", ")) by { AppendPart(parts, d.address, ", "); }
    parts := parts + Part(d.address, ", ");
    if d.city.Some? {
      if |location| > 0 { location := location + ", "; }
      location := location + d.city.value;
    }
    assert location == Built(parts + Part(d.city, ", ")) by { AppendPart(parts, d.city, ", "); }
    parts := parts + Part(d.city, ", ");
    if d.state.Some? {
      if |location| > 0 { location := location + ", "; }
      location := location + d.state.value;
    }
    assert location == Built(parts + Part(d.state, ", ")) by { AppendPart(parts, d.state, ", "); }
    parts := parts + Part(d.state, ", ");
    if d.zipCode.Some? {
      if |location| > 0 { location := location + " "; }
      location := location + d.zipCode.value;
    }
    assert location == Built(parts + Part(d.zipCode, " ")) by { AppendPart(parts, d.zipCode, " "); }
    parts := parts + Part(d.zipCode, " ");
    r := if |location| > 0 then Some(location) else None;
  }

  /** Appending one optional part to the builder. */
  lemma AppendPart(parts: seq<(string, string)>, o: Option<string>, separator: string)
    ensures Built(parts + Part(o, separator))
            == if o.Some? then Appended(Built(parts), (separator, o.value)) else Built(parts)
  {
    if o.Some? {
      assert (parts + Part(o, separator))[..|parts|] == parts;
    } else {
      assert parts + Part(o, separator) == parts;
    }
  }

  // ---------------------------------------------------------------------
  // Building, overriding and mapping records
  // ---------------------------------------------------------------------

  /** `createFuelRecordFromExtractedData`. `serialize` is the JSON writer;
      None stands for its `JsonProcessingException`. */
  function CreateFromExtracted(extracted: Option<ExtractedFuelData>, ownerId: int, imageUrl: string,
                               serialize: ExtractedFuelData -> Option<string>): (r: FuelRecord)
    ensures r.ownerId == ownerId && r.receiptImageUrl == Some(imageUrl)
    ensures r.id.None? && r.createdAt.None?
    // without extracted data the record carries only the owner and the image
    ensures extracted.None? ==>
              && r.stationName.None? && r.amount.None? && r.liters.None? && r.pricePerLiter.None?
              && r.location.None? && r.purchaseDate.None? && r.extractedData.None?
    // with it, the receipt's values, the joined address, and the data as JSON
    // (its raw text when it cannot be written)
    ensures extracted.Some? ==>
              var d := extracted.value;
              && r.stationName == d.stationName && r.amount == d.totalAmount
              && r.liters == d.liters && r.pricePerLiter == d.pricePerLiter
              && r.location == LocationString(d) && r.purchaseDate == d.purchaseDateTime
              && r.extractedData == (if serialize(d).Some? then serialize(d) else d.rawText)
  {
    var bare := FuelRecord(None, ownerId, None, None, None, None, Some(imageUrl), None, None, None, None);
    if extracted.None? then bare
    else
      var d := extracted.value;
      var json := serialize(d);
      bare.(stationName := d.stationName, amount := d.totalAmount, liters := d.liters,
            pricePerLiter := d.pricePerLiter, location := LocationString(d),
            purchaseDate := d.purchaseDateTime,
            extractedData := if json.Some? then json else d.rawText)
  }

  /** `parseDateTime`: an ISO local date-time, or the current time when it
      does not parse. */
  function ParseDateTime(s: string, parseIso: string -> Option<int>, now: int): int {
    if parseIso(s).Some? then parseIso(s).value else now
  }

  /** The uploader's own station name, location and purchase date replace the
      extracted ones when given; nothing else changes. */
  function ApplyOverrides(rec: FuelRecord, request: UploadRequest,
                          parseIso: string -> Option<int>, now: int): (r: FuelRecord)
    ensures r.stationName == (if request.stationName.Some? then request.stationName else rec.stationName)
    ensures r.location == (if request.location.Some? then request.location else rec.location)
    ensures request.purchaseDate.None? ==> r.purchaseDate == rec.purchaseDate
    ensures request.purchaseDate.Some? ==>
              && r.purchaseDate.Some?
              && (parseIso(request.purchaseDate.value).Some? ==> r.purchaseDate == parseIso(request.purchaseDate.value))
              && (parseIso(request.purchaseDate.value).None? ==> r.purchaseDate == Some(now))
    ensures r.(stationName := rec.stationName, location := rec.location, purchaseDate := rec.purchaseDate) == rec
  {
    var r1 := if request.stationName.Some? then rec.(stationName := request.stationName) else rec;
    var r2 := if request.location.Some? then r1.(location := request.location) else r1;
    if request.purchaseDate.Some? then
      r2.(purchaseDate := Some(ParseDateTime(request.purchaseDate.value, parseIso, now)))
    else r2
  }

  /** `mapToResponse`. `showConfidence` is `Double.toString`. */
  function MapToResponse(rec: FuelRecord, extracted: Option<ExtractedFuelData>,
                         showConfidence: real -> string): (r: FuelReceiptResponse)
    // the record's own fields, liters reported as gallons
    ensures r.id == rec.id && r.stationName == rec.stationName && r.amount == rec.amount
    ensures r.gallons == rec.liters && r.pricePerGallon == rec.pricePerLiter
    ensures r.receiptImageUrl == rec.receiptImageUrl && r.location == rec.location
    ensures r.purchaseDate == rec.purchaseDate && r.createdAt == rec.createdAt
    // OCR details exactly when extracted data is given
    ensures r.ocrProcessed <==> extracted.Some?
    ensures r.ocrConfidence.Some? <==> extracted.Some? && extracted.value.confidence.Some?
    ensures r.ocrConfidence.Some? ==> r.ocrConfidence.value == showConfidence(extracted.value.confidence.value)
    ensures r.rawOcrData == (if extracted.Some? then extracted.value.rawText else None)
  {
    FuelReceiptResponse(
      rec.id, rec.stationName, rec.amount, rec.liters, rec.pricePerLiter,
      rec.receiptImageUrl, rec.location, rec.purchaseDate, rec.createdAt,
      extracted.Some?,
      if extracted.Some? && extracted.value.confidence.Some?
      then Some(showConfidence(extracted.value.confidence.value)) else None,
      if extracted.Some? then extracted.value.rawText else None)
  }

  // ---------------------------------------------------------------------
  // Listing order and pages
  // ---------------------------------------------------------------------

  function CreatedAt(r: FuelRecord): int {
    if r.createdAt.Some? then r.createdAt.value else 0
  }

  /** Newest `createdAt` first. */
  predicate NewestFirst(rs: seq<FuelRecord>) {
    forall i, j | 0 <= i < j < |rs| :: CreatedAt(rs[j]) <= CreatedAt(rs[i])
  }

  /** Where a record goes in a newest-first list: before the first one that
      is not newer than it. */
  function InsertPos(x: FuelRecord, rs: seq<FuelRecord>): (p: nat)
    ensures p <= |rs|
    ensures forall i | 0 <= i < p :: CreatedAt(x) < CreatedAt(rs[i])
    ensures p < |rs| ==> CreatedAt(rs[p]) <= CreatedAt(x)
  {
    if |rs| == 0 || CreatedAt(rs[0]) <= CreatedAt(x) then 0
    else 1 + InsertPos(x, rs[1..])
  }

  /** Page `page` of `size` elements (Spring Data's `PageRequest`). */
  function PageOf<T>(xs: seq<T>, page: nat, size: nat): (r: seq<T>)
    ensures |r| <= size
    ensures r != [] ==> page * size + |r| <= |xs|
    ensures forall i | 0 <= i < |r| :: r[i] == xs[page * size + i]
    // a page before the end is full
    ensures (page + 1) * size <= |xs| ==> |r| == size
  {
    if page * size >= |xs| then []
    else if (page + 1) * size <= |xs| then xs[page * size .. (page + 1) * size]
    else xs[page * size ..]
  }

  /** What a listing returns (Spring Data's `Page`, as the app reads it): the
      page's items, the count of all items, the count of pages, the page's
      number and its requested size. */
  datatype Page<T> = Page(content: seq<T>, totalElements: nat, totalPages: nat, number: nat, size: nat)

  /** `Math.ceil(total / size)`: the pages needed for `total` items. */
  function PageCount(total: nat, size: nat): (n: nat)
    requires size >= 1
    ensures (n - 1) * size < total <= n * size || (total == 0 && n == 0)
  {
    (total + size - 1) / size
  }

  /** `records.map(record -> mapToResponse(record, null))` over page `page`
      of the listing `all`: the page's records mapped without OCR details,
      with the counts of the whole listing. */
  function PageFrom(all: seq<FuelRecord>, page: nat, size: nat, showConfidence: real -> string)
    : (r: Page<FuelReceiptResponse>)
    requires size >= 1
    ensures |r.content| == |PageOf(all, page, size)|
    ensures forall i | 0 <= i < |r.content| ::
              r.content[i] == MapToResponse(PageOf(all, page, size)[i], None, showConfidence)
    ensures r.totalElements == |all| && r.totalPages == PageCount(|all|, size)
    ensures r.number == page && r.size == size
  {
    var pg := PageOf(all, page, size);
    Page(seq(|pg|, i requires 0 <= i < |pg| => MapToResponse(pg[i], None, showConfidence)),
         |all|, PageCount(|all|, size), page, size)
  }

  // ---------------------------------------------------------------------
  // The service over its record store
  // ---------------------------------------------------------------------

  class FuelRecordServiceState {
    /** The record store, by id. */
    var records: map<int, FuelRecord>
    /** The id the next save assigns. */
    var nextId: int

    /** Every stored record carries its own key as id and a creation time,
        and ids run from 1 up to below `nextId`. */
    ghost predicate Valid()
      reads this
    {
      && nextId >= 1
      && forall k | k in records :: records[k].id == Some(k) && records[k].createdAt.Some? && 1 <= k < nextId
    }

    constructor ()
      ensures Valid() && records == map[] && nextId == 1
    {
      records := map[];
      nextId := 1;
    }

    predicate Owns(id: int, userId: int)
      reads this
    {
      id in records && records[id].ownerId == userId
    }

    /** `fuelRecordRepository.save`: a fresh id, and `createdAt` from the clock. */
    method Save(rec: FuelRecord, now: int) returns (saved: FuelRecord)
      requires Valid()
      modifies this
      ensures Valid()
      ensures saved == rec.(id := Some(old(nextId)), createdAt := Some(now))
      ensures old(nextId) !in old(records)
      ensures records == old(records)[old(nextId) := saved] && nextId == old(nextId) + 1
    {
      saved := rec.(id := Some(nextId), createdAt := Some(now));
      records := records[nextId := saved];
      nextId := nextId + 1;
    }

    /** `processReceiptUpload`. `upload` is what `uploadReceiptImage`
        returns: the image's URL, or the exception it throws. That exception
        is never an IOException, so the handler that would report "Failed to
        upload receipt image" cannot run and the S3 service's own exception
        reaches the caller. `ocr` is what `processReceiptImage` emits, or its
        error, which is passed on. Errors are the exceptions' messages. */
    method ProcessReceiptUpload(request: UploadRequest, ownerId: int,
                                upload: Result<string, S3Upload.StoreError>, ocr: Result<ExtractedFuelData, string>,
                                serialize: ExtractedFuelData -> Option<string>,
                                parseIso: string -> Option<int>, now: int,
                                showConfidence: real -> string)
      returns (r: Result<FuelReceiptResponse, string>)
      requires Valid()
      modifies this
      ensures Valid()
      // a failed upload or a failed OCR call saves nothing
      ensures upload.Err? ==> r == Err(upload.error.message) && records == old(records)
      ensures upload.Ok? && ocr.Err? ==> r == Err(ocr.error) && records == old(records)
      // otherwise one record is saved: the extracted values, overridden by the
      // uploader's, with the uploaded image
      ensures upload.Ok? && ocr.Ok? ==>
                var saved := ApplyOverrides(CreateFromExtracted(Some(ocr.value), ownerId, upload.value, serialize),
                                            request, parseIso, now).(id := Some(old(nextId)), createdAt := Some(now));
                && old(nextId) !in old(records)
                && records == old(records)[old(nextId) := saved]
                && r == Ok(MapToResponse(saved, Some(ocr.value), showConfidence))
                && r.value.ocrProcessed
    {
      if upload.Err? {
        return Err(upload.error.message);
      }
      if ocr.Err? {
        return Err(ocr.error);
      }
      var rec := CreateFromExtracted(Some(ocr.value), ownerId, upload.value, serialize);
      rec := ApplyOverrides(rec, request, parseIso, now);
      var saved := Save(rec, now);
      return Ok(MapToResponse(saved, Some(ocr.value), showConfidence));
    }

    /** `findByUserIdOrderByCreatedAtDesc`: the owner's records, each once,
        newest first (records created at the same time in either order). */
    method OwnedNewestFirst(userId: int) returns (rs: seq<FuelRecord>)
      requires Valid()
      ensures NewestFirst(rs)
      ensures forall i | 0 <= i < |rs| ::
                rs[i].id.Some? && Owns(rs[i].id.value, userId) && records[rs[i].id.value] == rs[i]
      ensures forall k | Owns(k, userId) :: records[k] in rs
      ensures DistinctIds(rs)
    {
      rs := [];
      var id := 1;
      while id < nextId
        invariant 1 <= id <= nextId
        invariant Collected(records, userId, id, rs)
      {
        if id in records && records[id].ownerId == userId {
          var x := records[id];
          var p := InsertPos(x, rs);
          CollectInsert(records, userId, id, rs);
          rs := rs[..p] + [x] + rs[p..];
        }
        id := id + 1;
      }
    }

    /** `all` lists every record of `userId` in the store, each once, newest
        first: what `findByUserIdOrderByCreatedAtDesc` pages through. */
    ghost predicate IsListing(userId: int, all: seq<FuelRecord>)
      reads this
    {
      && NewestFirst(all) && DistinctIds(all)
      && (forall i | 0 <= i < |all| ::
            all[i].id.Some? && Owns(all[i].id.value, userId) && records[all[i].id.value] == all[i])
      && (forall k | Owns(k, userId) :: records[k] in all)
    }

    /** `getUserFuelRecords`: one page of the owner's records, newest first,
        without OCR details; `all` is the owner's whole listing the page is
        cut from. A `PageRequest` has a size of at least 1. */
    method GetUserFuelRecords(userId: int, page: nat, size: nat, showConfidence: real -> string)
      returns (resp: Page<FuelReceiptResponse>, ghost all: seq<FuelRecord>)
      requires Valid()
      requires size >= 1
      ensures IsListing(userId, all)
      ensures resp == PageFrom(all, page, size, showConfidence)
    {
      var rs := OwnedNewestFirst(userId);
      all := rs;
      resp := PageFrom(rs, page, size, showConfidence);
    }

    /** A page of a listing, read back against the store: each item is the
        mapping of one of the owner's stored records, without OCR details,
        and the items come newest first. */
    lemma ListedPage(userId: int, all: seq<FuelRecord>, page: nat, size: nat, showConfidence: real -> string)
      requires Valid() && size >= 1 && IsListing(userId, all)
      ensures var c := PageFrom(all, page, size, showConfidence).content;
              && |c| <= size
              && (forall i | 0 <= i < |c| ::
                    && !c[i].ocrProcessed && c[i].id.Some? && Owns(c[i].id.value, userId)
                    && c[i] == MapToResponse(records[c[i].id.value], None, showConfidence)
                    && c[i].createdAt.Some?)
              && (forall i, j | 0 <= i < j < |c| :: c[j].createdAt.value <= c[i].createdAt.value)
    {
      var c := PageFrom(all, page, size, showConfidence).content;
      var pg := PageOf(all, page, size);
      PageKeepsOrder(all, page, size);
      forall i | 0 <= i < |c|
        ensures c[i].id.Some? && Owns(c[i].id.value, userId)
        ensures c[i] == MapToResponse(records[c[i].id.value], None, showConfidence)
        ensures c[i].createdAt.Some? && c[i].createdAt.value == CreatedAt(pg[i])
      {
        assert pg[i] == all[page * size + i];
      }
    }

    /** `getFuelRecordById`: only the owner sees a record, and without OCR details. */
    function GetFuelRecordById(id: int, userId: int, showConfidence: real -> string)
      : (r: Option<FuelReceiptResponse>)
      reads this
      ensures r.Some? <==> Owns(id, userId)
      ensures r.Some? ==> !r.value.ocrProcessed && r.value.ocrConfidence.None? && r.value.rawOcrData.None?
      ensures r.Some? ==> r.value.gallons == records[id].liters && r.value.id == records[id].id
      ensures r.Some? ==> r.value == MapToResponse(records[id], None, showConfidence)
    {
      if id in records && records[id].ownerId == userId then Some(MapToResponse(records[id], None, showConfidence))
      else None
    }

    /** `deleteFuelRecord`. `imageDeleted` is the URL handed to the image
        delete; its failure is logged and does not stop the record delete,
        so it is not an input here. */
    method DeleteFuelRecord(id: int, userId: int) returns (deleted: bool, imageDeleted: Option<string>)
      requires Valid()
      modifies this
      ensures Valid() && nextId == old(nextId)
      ensures deleted <==> old(Owns(id, userId))
      ensures deleted ==> records == old(records) - {id}
      // a caller who does not own the record changes nothing
      ensures !deleted ==> records == old(records) && imageDeleted.None?
      ensures deleted ==> imageDeleted == old(records[id].receiptImageUrl)
    {
      if id in records && records[id].ownerId == userId {
        imageDeleted := records[id].receiptImageUrl;
        records := records - {id};
        deleted := true;
      } else {
        deleted := false;
        imageDeleted := None;
      }
    }
  }

  predicate DistinctIds(rs: seq<FuelRecord>) {
    forall i, j | 0 <= i < j < |rs| :: rs[i].id != rs[j].id
  }

  /** The elements of a list with `x` inserted at `p`. */
  lemma InsertedAt(x: FuelRecord, rs: seq<FuelRecord>, p: nat)
    requires p <= |rs|
    ensures |rs[..p] + [x] + rs[p..]| == |rs| + 1
    ensures forall i | 0 <= i < |rs| + 1 ::
              (rs[..p] + [x] + rs[p..])[i] == (if i < p then rs[i] else if i == p then x else rs[i - 1])
  {
  }

  /** A page of a newest-first list is newest first. */
  lemma PageKeepsOrder(xs: seq<FuelRecord>, page: nat, size: nat)
    requires NewestFirst(xs)
    ensures NewestFirst(PageOf(xs, page, size))
  {
    var pg := PageOf(xs, page, size);
    forall i, j | 0 <= i < j < |pg| ensures CreatedAt(pg[j]) <= CreatedAt(pg[i]) {
      assert pg[i] == xs[page * size + i] && pg[j] == xs[page * size + j];
    }
  }

  /** `rs` lists, newest first and each once, exactly the records of `userId`
      whose ids are below `bound`. */
  predicate Collected(records: map<int, FuelRecord>, userId: int, bound: int, rs: seq<FuelRecord>) {
    && NewestFirst(rs)
    && DistinctIds(rs)
    && (forall r | r in rs ::
          r.id.Some? && r.id.value in records && r.id.value < bound
          && records[r.id.value] == r && r.ownerId == userId)
    && (forall k | k in records && k < bound && records[k].ownerId == userId :: records[k] in rs)
  }

  /** One step of the scan over ids: the record with id `bound`, when it is
      the user's, goes in at its place in the order. */
  lemma CollectInsert(records: map<int, FuelRecord>, userId: int, bound: int, rs: seq<FuelRecord>)
    requires Collected(records, userId, bound, rs)
    requires bound in records && records[bound].id == Some(bound) && records[bound].ownerId == userId
    ensures var x := records[bound]; var p := InsertPos(x, rs);
            Collected(records, userId, bound + 1, rs[..p] + [x] + rs[p..])
  {
    var x := records[bound];
    var p := InsertPos(x, rs);
    InsertKeepsOrder(x, rs, p);
    forall i | 0 <= i < |rs| ensures rs[i].id != x.id {
      assert rs[i] in rs;
    }
    InsertKeepsDistinct(x, rs, p);
    InsertedMembers(x, rs, p);
  }

  /** Inserting `x` adds `x` to a list's members and nothing else. */
  lemma InsertedMembers(x: FuelRecord, rs: seq<FuelRecord>, p: nat)
    requires p <= |rs|
    ensures forall y :: y in rs[..p] + [x] + rs[p..] <==> y == x || y in rs
  {
    assert rs == rs[..p] + rs[p..];
  }

  /** Inserting a record whose id is new keeps the ids distinct. */
  lemma InsertKeepsDistinct(x: FuelRecord, rs: seq<FuelRecord>, p: nat)
    requires p <= |rs| && DistinctIds(rs)
    requires forall i | 0 <= i < |rs| :: rs[i].id != x.id
    ensures DistinctIds(rs[..p] + [x] + rs[p..])
  {
    InsertedAt(x, rs, p);
  }

  /** Inserting at `InsertPos` keeps a list newest first. */
  lemma InsertKeepsOrder(x: FuelRecord, rs: seq<FuelRecord>, p: nat)
    requires NewestFirst(rs) && p == InsertPos(x, rs)
    ensures NewestFirst(rs[..p] + [x] + rs[p..])
  {
    var rs' := rs[..p] + [x] + rs[p..];
    forall i, j | 0 <= i < j < |rs'| ensures CreatedAt(rs'[j]) <= CreatedAt(rs'[i]) {
      if j < p {
        assert rs'[i] == rs[i] && rs'[j] == rs[j];
      } else if j == p {
        assert rs'[i] == rs[i];
      } else if i == p {
        assert rs'[j] == rs[j - 1];
        assert CreatedAt(rs[p]) <= CreatedAt(x);
      } else if i < p {
        assert rs'[i] == rs[i] && rs'[j] == rs[j - 1];
      } else {
        assert rs'[i] == rs[i - 1] && rs'[j] == rs[j - 1];
      }
    }
  }
}
