/** The client's fuel-record endpoints, mobile-app/src/store/api/fuelRecordApi.ts:
    the authorization header added to every request, the four requests, and
    the cache tags that decide which cached queries a mutation refetches.
    The stored token, the clock and the token payload decoding are inputs. */
module FuelRecordApi {
  import opened Base
  import opened Text
  import opened SecureStorage
  import JwtFilter
  import AppStartup

  const BaseUrl: string := "http://192.168.0.102:8081/api/fuel-records"
  const TimeoutMillis: nat := 120000
  const AuthorizationHeader: string := "authorization"
  const FuelRecordTag: string := "FuelRecord"
  const DefaultPage: int := 0
  const DefaultSize: int := 20

  /** The outgoing request's headers. */
  class Headers {
    var entries: map<string, string>

    constructor (entries: map<string, string>)
      ensures this.entries == entries
    {
      this.entries := entries;
    }

    method Set(name: string, value: string)
      modifies this
      ensures entries == old(entries)[name := value]
    {
      entries := entries[name := value];
    }
  }

  /** What the token inspection logs; it never changes the request. */
  datatype Inspection =
    | StorageError      // reading the store threw
    | NoToken           // nothing stored: sent without authorization
    | Expired           // sent anyway
    | Live
    | MalformedToken    // not three parts: sent anyway
    | UnreadableToken   // payload did not parse: sent anyway

  /** The inspection of a stored token at `nowMillis`. */
  function InspectToken(token: string, nowMillis: nat, decodeExp: AppStartup.DecodeExp): (r: Inspection)
    ensures r in {Expired, Live, MalformedToken, UnreadableToken}
    // expired means strictly after the expiry second
    ensures r == Expired <==>
              |Split(token, '.')| == 3 && decodeExp(Split(token, '.')[1]).Ok?
              && decodeExp(Split(token, '.')[1]).value.Some?
              && AppStartup.NowSeconds(nowMillis) > decodeExp(Split(token, '.')[1]).value.value
  {
    var parts := Split(token, '.');
    if |parts| != 3 then MalformedToken
    else
      match decodeExp(parts[1])
      case Err(_) => UnreadableToken
      case Ok(exp) => if exp.Some? && AppStartup.NowSeconds(nowMillis) > exp.value then Expired else Live
  }

  /** `prepareHeaders`. Whatever the inspection finds, a stored token is
      always sent as a bearer token. */
  method PrepareHeaders(headers: Headers, storage: SecureStore, readFails: bool, nowMillis: nat,
                        decodeExp: AppStartup.DecodeExp)
    returns (logged: Inspection)
    modifies headers
    ensures readFails ==> headers.entries == old(headers.entries) && logged == StorageError
    ensures !readFails && !AppStartup.Truthy(storage.GetItem(AccessTokenKey)) ==>
              headers.entries == old(headers.entries) && logged == NoToken
    ensures !readFails && AppStartup.Truthy(storage.GetItem(AccessTokenKey)) ==>
              var token := storage.GetItem(AccessTokenKey).value;
              && headers.entries == old(headers.entries)[AuthorizationHeader := JwtFilter.BearerPrefix + token]
              && logged == InspectToken(token, nowMillis, decodeExp)
  {
    if readFails {
      return StorageError;
    }
    var token := storage.GetItem(AccessTokenKey);
    if token.None? || token.value == "" {
      return NoToken;
    }
    headers.Set(AuthorizationHeader, "Bearer " + token.value);
    logged := InspectToken(token.value, nowMillis, decodeExp);
  }

  /** The header the client sends is read back by the server's filter as
      the very token the client stored. */
  lemma SentTokenIsReadBack(token: string)
    ensures JwtFilter.IsBearer(Some(JwtFilter.BearerPrefix + token))
    ensures JwtFilter.BearerToken(JwtFilter.BearerPrefix + token) == token
  {
    JwtFilter.BearerTokenRoundTrip(token);
  }

  /** At the expiry second itself the start-up check wipes a session that
      the header inspection still calls live; at every other second the
      two agree. */
  lemma ExpiryBoundary(token: string, userData: string, nowMillis: nat,
                       decodeExp: AppStartup.DecodeExp, parseUser: AppStartup.ParseUser)
    requires token != "" && userData != ""
    requires |Split(token, '.')| == 3
    requires decodeExp(Split(token, '.')[1]).Ok? && decodeExp(Split(token, '.')[1]).value.Some?
    ensures var exp := decodeExp(Split(token, '.')[1]).value.value;
            AppStartup.NowSeconds(nowMillis) == exp ==>
              && AppStartup.StartupDecision(Some(token), Some(userData), nowMillis, decodeExp, parseUser)
                 == AppStartup.ClearStorage
              && InspectToken(token, nowMillis, decodeExp) == Live
    ensures AppStartup.StartupDecision(Some(token), Some(userData), nowMillis, decodeExp, parseUser).Restore?
            ==> InspectToken(token, nowMillis, decodeExp) == Live
  {
  }

  // ---------------------------------------------------------------------
  // Requests
  // ---------------------------------------------------------------------

  datatype HttpMethod = GET | POST | DELETE

  /** The picked image as the upload sends it. */
  datatype ReceiptImage = ReceiptImage(uri: string, mimeType: string, name: string)

  /** What the form screen passes to the upload: the image, and the station
      name and location typed so far. */
  datatype UploadReceiptRequest = UploadReceiptRequest(
    receiptImage: ReceiptImage, stationName: Option<string>, location: Option<string>)

  datatype FormField = FormField(name: string, image: ReceiptImage)

  datatype ApiRequest = ApiRequest(url: string, httpMethod: HttpMethod, body: seq<FormField>,
                                   contentType: Option<string>)

  /** `uploadReceipt`'s query: a multipart POST of the image alone. */
  function UploadReceiptQuery(data: UploadReceiptRequest): (r: ApiRequest)
    ensures r.url == "/upload-receipt" && r.httpMethod == POST
    ensures r.contentType == Some("multipart/form-data")
    // exactly one part, the image, under the name the server reads
    ensures |r.body| == 1 && r.body[0] == FormField("receiptImage", data.receiptImage)
  {
    ApiRequest("/upload-receipt", POST, [FormField("receiptImage", data.receiptImage)],
               Some("multipart/form-data"))
  }

  /** The station name and location handed to the upload never reach the
      server: two uploads of the same image send the same request. */
  lemma UploadSendsOnlyTheImage(a: UploadReceiptRequest, b: UploadReceiptRequest)
    requires a.receiptImage == b.receiptImage
    ensures UploadReceiptQuery(a) == UploadReceiptQuery(b)
  {
  }

  /** `getFuelRecords`' query string; an absent argument takes its default. */
  function PageQuery(page: Option<int>, size: Option<int>): string {
    "?page=" + IntToString(page.GetOr(DefaultPage)) + "&size=" + IntToString(size.GetOr(DefaultSize))
  }

  function GetFuelRecordsQuery(page: Option<int>, size: Option<int>): (r: ApiRequest)
    ensures r.httpMethod == GET && r.body == [] && r.contentType.None?
    ensures r.url == PageQuery(page, size)
  {
    ApiRequest(PageQuery(page, size), GET, [], None)
  }

  /** With no arguments the first page of twenty is asked for. */
  lemma PageQueryDefaults()
    ensures GetFuelRecordsQuery(None, None).url == "?page=0&size=20"
  {
  }

  /** The query string splits into exactly the two parameters, each carrying
      the decimal text of its value. */
  lemma PageQueryFields(page: int, size: int)
    ensures var q := PageQuery(Some(page), Some(size));
            q[0] == '?' && Split(q[1..], '&') == ["page=" + IntToString(page), "size=" + IntToString(size)]
  {
    NumberHasNo(page, '&');
    NumberHasNo(size, '&');
    QueryShape(IntToString(page), IntToString(size));
  }

  lemma QueryShape(p: string, s: string)
    requires '&' !in p && '&' !in s
    ensures var q := "?page=" + p + "&size=" + s;
            q[0] == '?' && Split(q[1..], '&') == ["page=" + p, "size=" + s]
  {
    var x, y := "page=" + p, "size=" + s;
    var q := "?page=" + p + "&size=" + s;
    assert q == ['?'] + (x + ['&'] + y);
    assert q[1..] == x + ['&'] + y;
    SplitAfterField(x, y, '&');
    SplitNoSeparator(y, '&');
  }

  function GetFuelRecordByIdQuery(id: int): (r: ApiRequest)
    ensures r.httpMethod == GET && r.body == [] && r.contentType.None?
    ensures r.url == "/" + IntToString(id)
  {
    ApiRequest("/" + IntToString(id), GET, [], None)
  }

  function DeleteFuelRecordQuery(id: int): (r: ApiRequest)
    ensures r.httpMethod == DELETE && r.body == [] && r.contentType.None?
    ensures r.url == "/" + IntToString(id)
  {
    ApiRequest("/" + IntToString(id), DELETE, [], None)
  }

  /** A delete goes to the address its record is read from, and distinct
      records have distinct addresses. */
  lemma RecordUrlsDistinct(a: int, b: int)
    ensures DeleteFuelRecordQuery(a).url == GetFuelRecordByIdQuery(a).url
    ensures DeleteFuelRecordQuery(a).httpMethod == DELETE && GetFuelRecordByIdQuery(a).httpMethod == GET
    ensures a != b ==> GetFuelRecordByIdQuery(a).url != GetFuelRecordByIdQuery(b).url
  {
    if GetFuelRecordByIdQuery(a).url == GetFuelRecordByIdQuery(b).url {
      assert IntToString(a) == GetFuelRecordByIdQuery(a).url[1..];
      assert IntToString(b) == GetFuelRecordByIdQuery(b).url[1..];
      IntToStringInjective(a, b);
    }
  }

  // ---------------------------------------------------------------------
  // Cache tags
  // ---------------------------------------------------------------------

  /** A whole-type tag, or a tag for one record. */
  datatype Tag = TypeTag(tagType: string) | IdTag(tagType: string, id: int)

  function ListProvides(): seq<Tag> { [TypeTag(FuelRecordTag)] }
  function ByIdProvides(id: int): seq<Tag> { [IdTag(FuelRecordTag, id)] }
  function UploadInvalidates(): seq<Tag> { [TypeTag(FuelRecordTag)] }
  function DeleteInvalidates(id: int): seq<Tag> { [IdTag(FuelRecordTag, id), TypeTag(FuelRecordTag)] }

  /** A whole-type invalidation reaches every cached query of that type;
      a per-record one only the queries that provide that record. */
  predicate Hits(invalidated: Tag, provided: Tag) {
    if invalidated.TypeTag? then provided.tagType == invalidated.tagType else provided == invalidated
  }

  /** Whether a mutation's tags make a cached query refetch. */
  predicate Refetches(invalidated: seq<Tag>, provided: seq<Tag>) {
    exists i, j | 0 <= i < |invalidated| && 0 <= j < |provided| :: Hits(invalidated[i], provided[j])
  }

  /** An upload refetches the list and every cached record. */
  lemma UploadRefetches(id: int)
    ensures Refetches(UploadInvalidates(), ListProvides())
    ensures Refetches(UploadInvalidates(), ByIdProvides(id))
  {
    assert Hits(UploadInvalidates()[0], ListProvides()[0]);
    assert Hits(UploadInvalidates()[0], ByIdProvides(id)[0]);
  }

  /** A delete refetches the list and every cached record, the deleted one
      among them; its per-record tag alone would reach only that record. */
  lemma DeleteRefetches(id: int, other: int)
    ensures Refetches(DeleteInvalidates(id), ListProvides())
    ensures Refetches(DeleteInvalidates(id), ByIdProvides(other))
    ensures Refetches([IdTag(FuelRecordTag, id)], ByIdProvides(other)) <==> other == id
    ensures !Refetches([IdTag(FuelRecordTag, id)], ListProvides())
  {
    assert Hits(DeleteInvalidates(id)[1], ListProvides()[0]);
    assert Hits(DeleteInvalidates(id)[1], ByIdProvides(other)[0]);
    if other == id {
      assert Hits([IdTag(FuelRecordTag, id)][0], ByIdProvides(other)[0]);
    }
  }
}
