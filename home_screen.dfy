/** The dashboard of mobile-app/src/screens/HomeScreen.tsx: the greeting's
    name formatting, the fuel-type colours, the reaction to an
    authentication error, and the three stats over the fetched page of
    records. A record as the client sees it is the JSON object the server
    sent; only its numeric fields matter here. */
module HomeScreen {
  import opened Base
  import opened Text
  import opened SecureStorage
  import opened AuthSlice
  import AppStartup
  import Decimal
  import FuelRecordService

  // ---------------------------------------------------------------------
  // The greeting
  // ---------------------------------------------------------------------

  /** `word.charAt(0).toUpperCase() + word.slice(1).toLowerCase()`. */
  function CapitalizeWord(w: string): string {
    if w == [] then [] else [UpperChar(w[0])] + Lower(w[1..])
  }

  function CapitalizeWords(words: seq<string>): (r: seq<string>)
    ensures |r| == |words|
    ensures forall k | 0 <= k < |words| :: r[k] == CapitalizeWord(words[k])
  {
    if words == [] then [] else [CapitalizeWord(words[0])] + CapitalizeWords(words[1..])
  }

  /** The intended effect, character by character: a character that starts
      the string or follows a space is upper-cased, every other one
      lower-cased. */
  function Capitalized(s: string): (r: string)
    ensures |r| == |s|
    ensures forall i | 0 <= i < |s| ::
              r[i] == (if i == 0 || s[i - 1] == ' ' then UpperChar(s[i]) else LowerChar(s[i]))
  {
    seq(|s|, i requires 0 <= i < |s| => if i == 0 || s[i - 1] == ' ' then UpperChar(s[i]) else LowerChar(s[i]))
  }

  /** `formatUserName`: "User" when there is no name, otherwise each
      space-separated word capitalized and the words rejoined. */
  function FormatUserName(name: Option<string>): (r: string)
    ensures name.None? || name.value == "" ==> r == "User"
    ensures name.Some? && name.value != "" ==> r == Capitalized(name.value)
  {
    if name.None? || name.value == "" then "User"
    else
      var words := Split(name.value, ' ');
      JoinSplit(name.value, ' ');
      CapitalizeJoin(words);
      Join(CapitalizeWords(words), ' ')
  }

  /** A word without spaces is capitalized by the character rule. */
  lemma CapitalizeWordAlone(w: string)
    requires ' ' !in w
    ensures CapitalizeWord(w) == Capitalized(w)
  {
    if w != [] {
      forall i | 0 <= i < |w| ensures w[i] != ' ' {
        assert w[i] in w;
      }
    }
  }

  /** The character rule restarts after every space. */
  lemma CapitalizedAroundSpace(a: string, b: string)
    ensures Capitalized(a + [' '] + b) == Capitalized(a) + [' '] + Capitalized(b)
  {
    var s := a + [' '] + b;
    var lhs, rhs := Capitalized(s), Capitalized(a) + [' '] + Capitalized(b);
    forall i | 0 <= i < |s| ensures lhs[i] == rhs[i] {
      if i > |a| + 1 {
        assert s[i] == b[i - |a| - 1] && s[i - 1] == b[i - |a| - 2];
      } else if i == |a| + 1 {
        assert s[i] == b[0] && s[i - 1] == ' ';
      } else if i < |a| && i > 0 {
        assert s[i - 1] == a[i - 1];
      }
    }
  }

  /** Capitalizing each word and joining equals joining and then applying
      the character rule. */
  lemma {:induction false} CapitalizeJoin(words: seq<string>)
    requires |words| >= 1
    requires forall k | 0 <= k < |words| :: ' ' !in words[k]
    ensures Join(CapitalizeWords(words), ' ') == Capitalized(Join(words, ' '))
  {
    CapitalizeWordAlone(words[0]);
    if |words| > 1 {
      CapitalizeJoin(words[1..]);
      assert CapitalizeWords(words)[1..] == CapitalizeWords(words[1..]);
      CapitalizedAroundSpace(words[0], Join(words[1..], ' '));
    }
  }

  /** The formatted name keeps the name's length and its spaces exactly
      where they were. */
  lemma FormatKeepsShape(name: string)
    requires name != ""
    ensures |FormatUserName(Some(name))| == |name|
    ensures forall i | 0 <= i < |name| :: FormatUserName(Some(name))[i] == ' ' <==> name[i] == ' '
  {
  }

  /** Formatting a formatted name changes nothing. */
  lemma FormatIdempotent(name: Option<string>)
    ensures FormatUserName(Some(FormatUserName(name))) == FormatUserName(name)
  {
    var once := FormatUserName(name);
    if name.None? || name.value == "" {
      assert once == "User";
      assert Capitalized("User") == "User";
    } else {
      var s := name.value;
      assert |once| == |s| > 0;
      var twice := Capitalized(once);
      forall i | 0 <= i < |s| ensures twice[i] == once[i] {
        if i > 0 {
          assert once[i - 1] == ' ' <==> s[i - 1] == ' ';
        }
      }
    }
  }

  // ---------------------------------------------------------------------
  // Fuel-type colours
  // ---------------------------------------------------------------------

  datatype Colors = Colors(backgroundColor: string, textColor: string)

  const PetrolColors: Colors := Colors("#FFEBEE", "#D32F2F")
  const DieselColors: Colors := Colors("#FFF9C4", "#F57F17")
  const CngColors: Colors := Colors("#E8F5E8", "#388E3C")
  const LpgColors: Colors := Colors("#E3F2FD", "#1976D2")
  const UnknownColors: Colors := Colors("#F5F5F5", "#757575")

  /** `getFuelTypeColors`; an absent fuel type falls to the default. */
  function GetFuelTypeColors(fuelType: Option<string>): (r: Colors)
    ensures fuelType.Some? && Lower(fuelType.value) == "petrol" <==> r == PetrolColors
    ensures fuelType.Some? && Lower(fuelType.value) == "diesel" <==> r == DieselColors
    ensures fuelType.Some? && Lower(fuelType.value) == "cng" <==> r == CngColors
    ensures fuelType.Some? && Lower(fuelType.value) == "lpg" <==> r == LpgColors
    ensures (fuelType.None? || Lower(fuelType.value) !in {"petrol", "diesel", "cng", "lpg"}) <==> r == UnknownColors
  {
    if fuelType.None? then UnknownColors
    else
      match Lower(fuelType.value)
      case "petrol" => PetrolColors
      case "diesel" => DieselColors
      case "cng" => CngColors
      case "lpg" => LpgColors
      case _ => UnknownColors
  }

  /** Spellings that differ only in ASCII case get the same colours. */
  lemma ColorsIgnoreCase(a: string, b: string)
    requires |a| == |b|
    requires forall i | 0 <= i < |a| :: LowerChar(a[i]) == LowerChar(b[i])
    ensures GetFuelTypeColors(Some(a)) == GetFuelTypeColors(Some(b))
  {
    assert Lower(a) == Lower(b);
  }

  /** Examples of the mapping. */
  lemma ColorExamples()
    ensures GetFuelTypeColors(Some("Petrol")) == PetrolColors
    ensures GetFuelTypeColors(Some("CNG")) == CngColors
    ensures GetFuelTypeColors(None) == UnknownColors
  {
    assert Lower("Petrol") == "petrol";
    assert Lower("CNG") == "cng";
  }

  // ---------------------------------------------------------------------
  // Authentication errors
  // ---------------------------------------------------------------------

  /** The query error counts as an authentication error when it carries
      the status 401 or 403. */
  predicate IsAuthError(status: Option<int>) {
    status == Some(401) || status == Some(403)
  }

  /** The reaction to a failed records query, once its "Session Expired"
      alert is acknowledged: an authentication error signs the user out,
      any other error changes nothing. */
  method OnQueryError(store: AuthStore, status: Option<int>)
    requires store.Valid()
    modifies store, store.storage
    ensures store.Valid()
    ensures IsAuthError(status) ==>
              && !store.isAuthenticated && store.user.None?
              && AccessTokenKey !in store.storage.items && RefreshTokenKey !in store.storage.items
              && store.error.None?
    ensures !IsAuthError(status) ==>
              && store.user == old(store.user) && store.isAuthenticated == old(store.isAuthenticated)
              && store.storage.items == old(store.storage.items) && store.error == old(store.error)
    ensures store.isLoading == old(store.isLoading)
    // once loaded, a rejected session lands on the sign-in screens
    ensures IsAuthError(status) && !store.isLoading ==>
              AppStartup.ShownScreen(store.isLoading, store.isAuthenticated) == AppStartup.AuthNavigator
  {
    if status == Some(401) || status == Some(403) {
      store.Logout();
    }
  }

  // ---------------------------------------------------------------------
  // Stats
  // ---------------------------------------------------------------------

  /** A fetched record as the client reads it: its numeric JSON fields by
      name. A null field is absent, which `|| 0` treats the same. */
  type JsonRecord = map<string, real>

  /** The fetched page: `content` and `totalElements`. */
  datatype RecordsPage = RecordsPage(content: Option<seq<JsonRecord>>, totalElements: Option<int>)

  /** `record[field] || 0`. */
  function FieldOrZero(record: JsonRecord, field: string): real {
    if field in record then record[field] else 0.0
  }

  /** `records.reduce((sum, record) => sum + (record[field] || 0), 0)`. */
  function TotalOf(records: seq<JsonRecord>, field: string): (r: real)
    ensures (forall k | 0 <= k < |records| :: FieldOrZero(records[k], field) >= 0.0) ==> r >= 0.0
    ensures (forall k | 0 <= k < |records| :: field !in records[k]) ==> r == 0.0
  {
    if records == [] then 0.0 else TotalOf(records[..|records| - 1], field) + FieldOrZero(records[|records| - 1], field)
  }

  /** Non-negative values total at least any one of them. */
  lemma {:induction false} TotalAtLeastEach(records: seq<JsonRecord>, field: string, k: nat)
    requires k < |records|
    requires forall j | 0 <= j < |records| :: FieldOrZero(records[j], field) >= 0.0
    ensures TotalOf(records, field) >= FieldOrZero(records[k], field)
  {
    if k < |records| - 1 {
      TotalAtLeastEach(records[..|records| - 1], field, k);
    }
  }

  /** `fuelRecordsData?.totalElements || 0`: the count of every record the
      server holds for the user, not just those on the fetched page. */
  function RecordsStat(data: Option<RecordsPage>): (r: int)
    ensures data.Some? && data.value.totalElements.Some? ==> r == data.value.totalElements.value
    ensures data.None? || data.value.totalElements.None? ==> r == 0
  {
    if data.Some? && data.value.totalElements.Some? then data.value.totalElements.value else 0
  }

  /** `fuelRecordsData?.content || []`. */
  function Records(data: Option<RecordsPage>): seq<JsonRecord> {
    if data.Some? && data.value.content.Some? then data.value.content.value else []
  }

  /** The numeric fields of a `FuelReceiptResponse` as the client receives
      them; `toNumber` is the JSON number a decimal is written as. */
  function Serialized(resp: FuelRecordService.FuelReceiptResponse, toNumber: Decimal.Dec -> real): (r: JsonRecord)
    ensures r.Keys <= ResponseNumericFields
    ensures "gallons" in r <==> resp.gallons.Some?
    ensures resp.gallons.Some? ==> r["gallons"] == toNumber(resp.gallons.value)
    ensures "amount" in r <==> resp.amount.Some?
    ensures resp.amount.Some? ==> r["amount"] == toNumber(resp.amount.value)
  {
    (if resp.id.Some? then map["id" := resp.id.value as real] else map[])
    + (if resp.amount.Some? then map["amount" := toNumber(resp.amount.value)] else map[])
    + (if resp.gallons.Some? then map["gallons" := toNumber(resp.gallons.value)] else map[])
    + (if resp.pricePerGallon.Some? then map["pricePerGallon" := toNumber(resp.pricePerGallon.value)] else map[])
  }

  /** The numeric fields the server's record response carries. */
  const ResponseNumericFields: set<string> := {"id", "amount", "gallons", "pricePerGallon"}

  function SerializedAll(resps: seq<FuelRecordService.FuelReceiptResponse>, toNumber: Decimal.Dec -> real)
    : (r: seq<JsonRecord>)
    ensures |r| == |resps|
    ensures forall k | 0 <= k < |resps| :: r[k] == Serialized(resps[k], toNumber)
  {
    seq(|resps|, k requires 0 <= k < |resps| => Serialized(resps[k], toNumber))
  }

  /** The fuel total as written: the sum of each record's `liters`. */
  function TotalLitersAsWritten(records: seq<JsonRecord>): (r: real)
    ensures (forall k | 0 <= k < |records| :: FieldOrZero(records[k], "liters") >= 0.0) ==> r >= 0.0
  {
    TotalOf(records, "liters")
  }

  /** The server's records carry no `liters` field, so the fuel total as
      written is zero whatever was bought. */
  lemma LitersTotalAlwaysZero(resps: seq<FuelRecordService.FuelReceiptResponse>, toNumber: Decimal.Dec -> real)
    ensures TotalLitersAsWritten(SerializedAll(resps, toNumber)) == 0.0
  {
    var records := SerializedAll(resps, toNumber);
    forall k | 0 <= k < |records| ensures "liters" !in records[k] {
      assert records[k].Keys <= ResponseNumericFields;
    }
  }

  /** The fuel total over the field the server sends the quantity in. */
  function TotalFuel(records: seq<JsonRecord>): (r: real)
    ensures (forall k | 0 <= k < |records| :: FieldOrZero(records[k], "gallons") >= 0.0) ==> r >= 0.0
  {
    TotalOf(records, "gallons")
  }

  /** With the corrected field, a record with a positive quantity makes the
      total positive, where the total as written stays zero. */
  lemma FuelTotalCountsQuantity(resps: seq<FuelRecordService.FuelReceiptResponse>,
                                toNumber: Decimal.Dec -> real, k: nat)
    requires k < |resps| && resps[k].gallons.Some? && toNumber(resps[k].gallons.value) > 0.0
    requires forall j | 0 <= j < |resps| && resps[j].gallons.Some? :: toNumber(resps[j].gallons.value) >= 0.0
    ensures TotalFuel(SerializedAll(resps, toNumber)) >= toNumber(resps[k].gallons.value) > 0.0
    ensures TotalLitersAsWritten(SerializedAll(resps, toNumber)) == 0.0
  {
    var records := SerializedAll(resps, toNumber);
    forall j | 0 <= j < |records| ensures FieldOrZero(records[j], "gallons") >= 0.0 {
      assert records[j] == Serialized(resps[j], toNumber);
    }
    TotalAtLeastEach(records, "gallons", k);
    LitersTotalAlwaysZero(resps, toNumber);
  }

  datatype Stats = Stats(records: int, totalSpent: real, totalFuel: real)

  /** The three stat cards, with the fuel total read from `gallons`. */
  function ComputeStats(data: Option<RecordsPage>): (r: Stats)
    ensures r.records == RecordsStat(data)
    ensures r.totalSpent == TotalOf(Records(data), "amount")
    ensures r.totalFuel == TotalFuel(Records(data))
    ensures data.None? ==> r == Stats(0, 0.0, 0.0)
  {
    Stats(RecordsStat(data), TotalOf(Records(data), "amount"), TotalFuel(Records(data)))
  }
}
