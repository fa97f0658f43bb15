/** Post-processing around the OCR call (backend/.../service/MistralOcrService.java):
    the S3 key of a receipt URL, the image data URL sent to the model, the
    request itself, and the mapping of the model's JSON reply onto
    `ExtractedFuelData`. The HTTP call, the S3 download, Base64 and the JSON,
    number and date parsers are parameters. */
module MistralOcr {
  import opened Base
  import opened Text
  import opened Decimal

  // ---------------------------------------------------------------------
  // S3 keys from virtual-hosted URLs
  // ---------------------------------------------------------------------

  const HostSuffix: string := ".amazonaws.com/"

  /** The virtual-hosted address of an S3 object, as the store reports it. */
  function ObjectUrl(bucket: string, region: string, key: string): string {
    "https://" + bucket + ".s3." + region + HostSuffix + key
  }

  /** The exception `extractS3KeyFromUrl` throws, with its message. */
  datatype KeyError = InvalidS3Url(message: string)

  /** `extractS3KeyFromUrl`: everything after the first ".amazonaws.com/" that
      follows the first "<bucket>.s3.". */
  function ExtractS3KeyFromUrl(url: string, bucket: string): (r: Result<string, KeyError>)
    ensures r.Ok? ==> exists j | 0 <= j :: OccursAt(url, HostSuffix, j) && r.value == url[j + |HostSuffix|..]
    ensures !Contains(url, bucket + ".s3.") ==> r.Err?
    ensures !Contains(url, HostSuffix) ==> r.Err?
    ensures r.Err? ==> r.error == InvalidS3Url("Invalid S3 URL format: " + url)
  {
    var domain := bucket + ".s3.";
    match IndexOf(url, domain, 0)
    case None => Err(InvalidS3Url("Invalid S3 URL format: " + url))
    case Some(start) =>
      match IndexOf(url, HostSuffix, start + |domain|)
      case None => Err(InvalidS3Url("Invalid S3 URL format: " + url))
      case Some(regionEnd) =>
        assert OccursAt(url, domain, start);
        assert OccursAt(url, HostSuffix, regionEnd);
        Ok(url[regionEnd + |HostSuffix|..])
  }

  /** Past "https://", an object address has no '/' before the one that
      ends the host name. */
  lemma ObjectUrlHostHasNoSlash(bucket: string, region: string, key: string, m: int)
    requires '/' !in bucket && '/' !in region
    requires 8 <= m < 8 + |bucket| + 4 + |region| + 14
    ensures ObjectUrl(bucket, region, key)[m] != '/'
  {
    var host := bucket + ".s3." + region + ".amazonaws.com";
    assert '/' !in host by {
      assert '/' !in ".s3." && '/' !in ".amazonaws.com";
    }
    assert ObjectUrl(bucket, region, key) == "https://" + host + "/" + key;
    assert ObjectUrl(bucket, region, key)[m] == host[m - 8];
  }

  lemma IndexOfAt(s: string, p: string, from: nat, t: nat)
    requires from <= t && OccursAt(s, p, t)
    requires forall j | from <= j < t :: !OccursAt(s, p, j)
    ensures IndexOf(s, p, from) == Some(t)
  {
  }

  /** Where the pieces of an object's address sit. */
  lemma ObjectUrlParts(bucket: string, region: string, key: string)
    ensures var url := ObjectUrl(bucket, region, key);
            var target := 8 + |bucket| + 4 + |region|;
            && OccursAt(url, bucket + ".s3.", 8)
            && OccursAt(url, HostSuffix, target)
            && url[target + |HostSuffix|..] == key
  {
    var domain := bucket + ".s3.";
    var url := ObjectUrl(bucket, region, key);
    var target := 8 + |domain| + |region|;
    assert url == "https://" + domain + region + HostSuffix + key;
    assert url[8..8 + |domain|] == domain;
    assert url[target..target + |HostSuffix|] == HostSuffix;
    assert url[target + |HostSuffix|..] == key;
  }

  lemma OccursAtChar(s: string, p: string, i: int, k: int)
    requires OccursAt(s, p, i) && 0 <= k < |p|
    ensures s[i + k] == p[k]
  {
    assert s[i..i + |p|][k] == p[k];
  }

  /** The address of any object is mapped back to its key, provided the
      bucket and region names hold no '/' (S3 names never do). */
  lemma ExtractKeyOfObjectUrl(bucket: string, region: string, key: string)
    requires '/' !in bucket && '/' !in region
    ensures ExtractS3KeyFromUrl(ObjectUrl(bucket, region, key), bucket) == Ok(key)
  {
    var url := ObjectUrl(bucket, region, key);
    var domain := bucket + ".s3.";
    var target := 8 + |domain| + |region|;
    ObjectUrlParts(bucket, region, key);
    var start := IndexOf(url, domain, 0).value;
    forall j | start + |domain| <= j < target
      ensures !OccursAt(url, HostSuffix, j)
    {
      ObjectUrlHostHasNoSlash(bucket, region, key, j + 14);
      if OccursAt(url, HostSuffix, j) {
        OccursAtChar(url, HostSuffix, j, 14);
      }
    }
    IndexOfAt(url, HostSuffix, start + |domain|, target);
  }

  // ---------------------------------------------------------------------
  // The image sent to the model
  // ---------------------------------------------------------------------

  /** `determineImageFormat`: sniffed from the URL, ignoring case. */
  function DetermineImageFormat(url: string): (r: string)
    ensures r in {"png", "gif", "webp", "jpeg"}
    ensures r == "png" <==> Contains(Lower(url), ".png")
    ensures r == "gif" <==> !Contains(Lower(url), ".png") && Contains(Lower(url), ".gif")
    ensures r == "webp" <==> !Contains(Lower(url), ".png") && !Contains(Lower(url), ".gif")
                              && Contains(Lower(url), ".webp")
  {
    var lowerUrl := Lower(url);
    if Contains(lowerUrl, ".png") then "png"
    else if Contains(lowerUrl, ".gif") then "gif"
    else if Contains(lowerUrl, ".webp") then "webp"
    else "jpeg"
  }

  /** The format does not depend on the letter case of the URL. */
  lemma ImageFormatIgnoresCase(url: string)
    ensures DetermineImageFormat(Upper(url)) == DetermineImageFormat(url)
  {
    assert Lower(Upper(url)) == Lower(url);
  }

  /** A `data:` URL in the sense of RFC 2397, section 3, with media type
      image/<format> and a base64 payload. */
  function ImageDataUrl(format: string, base64: string): (r: string)
    // the fixed prefix, the format, the ";base64," marker, then the payload
    ensures |r| == 19 + |format| + |base64| && StartsWith(r, "data:image/")
    ensures r[11..11 + |format|] == format
    ensures OccursAt(r, ";base64,", 11 + |format|) && r[19 + |format|..] == base64
  {
    "data:image/" + format + ";base64," + base64
  }

  /** Reads the format and the payload back out of an image data URL. */
  function ParseImageDataUrl(s: string): (r: Option<(string, string)>)
    // a data URL is one with the prefix and the marker somewhere after it
    ensures r.Some? <==> StartsWith(s, "data:image/") && Contains(s[11..], ";base64,")
    // and it is rebuilt from the two parts read out of it
    ensures r.Some? ==> s == ImageDataUrl(r.value.0, r.value.1)
  {
    if !StartsWith(s, "data:image/") then None
    else
      var rest := s[11..];
      ContainsIffFound(rest, ";base64,");
      match IndexOf(rest, ";base64,", 0)
      case None => None
      case Some(i) =>
        assert rest == rest[..i] + ";base64," + rest[i + 8..];
        assert s == s[..11] + rest;
        Some((rest[..i], rest[i + 8..]))
  }

  lemma DataUrlRoundTrip(format: string, base64: string)
    requires ';' !in format
    ensures ParseImageDataUrl(ImageDataUrl(format, base64)) == Some((format, base64))
  {
    var s := ImageDataUrl(format, base64);
    assert s[..11] == "data:image/";
    var rest := s[11..];
    assert rest == format + ";base64," + base64;
    assert OccursAt(rest, ";base64,", |format|);
    forall j | 0 <= j < |format|
      ensures !OccursAt(rest, ";base64,", j)
    {
      assert rest[j] == format[j];
    }
    assert IndexOf(rest, ";base64,", 0) == Some(|format|);
    assert rest[..|format|] == format;
    assert rest[|format| + 8..] == base64;
  }

  /** The data URL built for any receipt URL reads back as its sniffed format
      and the payload. */
  lemma ReceiptDataUrlRoundTrip(imageUrl: string, base64: string)
    ensures ParseImageDataUrl(ImageDataUrl(DetermineImageFormat(imageUrl), base64))
            == Some((DetermineImageFormat(imageUrl), base64))
  {
    DataUrlRoundTrip(DetermineImageFormat(imageUrl), base64);
  }

  // ---------------------------------------------------------------------
  // The chat request
  // ---------------------------------------------------------------------

  datatype Content = TextContent(text: string) | ImageUrlContent(imageUrl: string)
  datatype RequestMessage = RequestMessage(role: string, content: seq<Content>)
  datatype MistralRequest = MistralRequest(model: string, messages: seq<RequestMessage>,
                                           maxTokens: int, temperature: Option<real>)

  /** `buildMistralRequest`; the fixed extraction prompt is a parameter. */
  function BuildMistralRequest(prompt: string, base64Image: string): (r: MistralRequest)
    ensures r.model == "pixtral-12b-2409" && r.maxTokens == 300 && r.temperature.None?
    // one user message: the prompt, then the image
    ensures r.messages == [RequestMessage("user", [TextContent(prompt), ImageUrlContent(base64Image)])]
  {
    var message := RequestMessage("user", [TextContent(prompt), ImageUrlContent(base64Image)]);
    MistralRequest("pixtral-12b-2409", [message], 300, None)
  }

  /** The request holds one user message: the prompt, then the image, whose
      data URL still reads back as the receipt's format and payload. */
  lemma RequestCarriesReceipt(prompt: string, imageUrl: string, base64: string)
    ensures var r := BuildMistralRequest(prompt, ImageDataUrl(DetermineImageFormat(imageUrl), base64));
      && r.model == "pixtral-12b-2409" && r.maxTokens == 300 && r.temperature.None?
      && |r.messages| == 1 && r.messages[0].role == "user"
      && |r.messages[0].content| == 2
      && r.messages[0].content[0] == TextContent(prompt)
      && r.messages[0].content[1].ImageUrlContent?
      && ParseImageDataUrl(r.messages[0].content[1].imageUrl)
         == Some((DetermineImageFormat(imageUrl), base64))
  {
    ReceiptDataUrlRoundTrip(imageUrl, base64);
  }

  // ---------------------------------------------------------------------
  // Cleaning the model's reply
  // ---------------------------------------------------------------------

  /** Java's regular-expression class `\s`. */
  predicate IsRegexSpace(c: char) {
    c == ' ' || c == '\t' || c == '\n' || c == '\U{000B}' || c == '\U{000C}' || c == '\r'
  }

  /** Drops the longest prefix of `\s` characters (the greedy `\s*`). */
  function DropRegexSpaces(s: string): (r: string)
    ensures |r| <= |s| && r == s[|s| - |r|..]
    ensures forall i | 0 <= i < |s| - |r| :: IsRegexSpace(s[i])
    ensures r != [] ==> !IsRegexSpace(r[0])
  {
    if s != [] && IsRegexSpace(s[0]) then
      var r := DropRegexSpaces(s[1..]);
      assert s[1..][|s| - 1 - |r|..] == s[|s| - |r|..];
      assert forall i | 1 <= i < |s| - |r| :: s[i] == s[1..][i - 1];
      r
    else s
  }

  /** `s.replaceAll(fence + "\\s*", "")`: left to right, each occurrence of
      the fence is removed with the white space after it. */
  function RemoveFence(s: string, fence: string): (r: string)
    requires fence != []
    decreases |s|
    // only removes characters
    ensures |r| <= |s|
  {
    if s == [] then []
    else if StartsWith(s, fence) then RemoveFence(DropRegexSpaces(s[|fence|..]), fence)
    else [s[0]] + RemoveFence(s[1..], fence)
  }

  /** `cleanJsonContent`. */
  function CleanJsonContent(content: string): (r: string)
    ensures IsTrimmed(r)
  {
    var unfenced := RemoveFence(RemoveFence(content, "```json"), "```");
    TrimIsTrimmed(unfenced);
    Trim(unfenced)
  }

  /** A text that does not start with the fence's first character keeps that character. */
  lemma RemoveFenceStep(s: string, fence: string)
    requires fence != [] && s != [] && s[0] != fence[0]
    ensures RemoveFence(s, fence) == [s[0]] + RemoveFence(s[1..], fence)
  {
    assert !StartsWith(s, fence);
  }

  lemma {:induction false} RemoveFenceSkips(x: string, t: string, fence: string)
    requires fence != [] && forall i | 0 <= i < |x| :: x[i] != fence[0]
    ensures RemoveFence(x + t, fence) == x + RemoveFence(t, fence)
  {
    if x == [] {
      assert x + t == t;
    } else {
      var rest := x[1..];
      RemoveFenceSkips(rest, t, fence);
      var s := x + t;
      assert s[1..] == rest + t;
      RemoveFenceStep(s, fence);
      assert [x[0]] + rest == x;
    }
  }

  /** A text without the fence's first character is left as it is. */
  lemma RemoveFenceKeeps(s: string, fence: string)
    requires fence != [] && fence[0] !in s
    ensures RemoveFence(s, fence) == s
  {
    RemoveFenceSkips(s, [], fence);
    assert s + [] == s;
  }

  lemma {:induction false} RemoveFenceShort(s: string, fence: string)
    requires fence != [] && |s| < |fence|
    ensures RemoveFence(s, fence) == s
  {
    if s != [] {
      RemoveFenceShort(s[1..], fence);
    }
  }

  lemma {:induction false} DropRegexSpacesBeforeTick(z: string)
    ensures DropRegexSpaces(z + "```") == DropRegexSpaces(z) + "```"
  {
    var t := z + "```";
    if z == [] {
      assert t == "```" && !IsRegexSpace(t[0]);
    } else if IsRegexSpace(z[0]) {
      assert t[0] == z[0] && t[1..] == z[1..] + "```";
      DropRegexSpacesBeforeTick(z[1..]);
    } else {
      assert t[0] == z[0];
    }
  }

  /** Text without back-ticks is only trimmed. */
  lemma CleanWithoutFences(s: string)
    requires '`' !in s
    ensures CleanJsonContent(s) == Trim(s)
  {
    RemoveFenceSkips(s, [], "```json");
    RemoveFenceSkips(s, [], "```");
    assert s + [] == s;
  }

  lemma DropRegexSpacesKeepsTrim(z: string)
    ensures Trim(DropRegexSpaces(z)) == Trim(z)
  {
    var v := DropRegexSpaces(z);
    assert z == z[..|z| - |v|] + v;
    TrimIgnoresPrefix(z[..|z| - |v|], v);
  }

  lemma DropRegexSpacesKeepsTicksOut(body: string)
    requires '`' !in body
    ensures '`' !in DropRegexSpaces("\n" + body + "\n")
  {
    var z := "\n" + body + "\n";
    var v := DropRegexSpaces(z);
    assert '`' !in z;
    assert forall i | 0 <= i < |v| :: v[i] == z[|z| - |v| + i];
  }

  lemma FencedFirstPass(body: string)
    requires '`' !in body
    ensures RemoveFence("```json\n" + body + "\n```", "```json")
            == DropRegexSpaces("\n" + body + "\n") + "```"
  {
    var s := "```json\n" + body + "\n```";
    var z := "\n" + body + "\n";
    var v := DropRegexSpaces(z);
    assert s[..7] == "```json";
    assert s[7..] == z + "```";
    assert RemoveFence(s, "```json") == RemoveFence(DropRegexSpaces(z + "```"), "```json");
    DropRegexSpacesBeforeTick(z);
    assert RemoveFence(s, "```json") == RemoveFence(v + "```", "```json");
    DropRegexSpacesKeepsTicksOut(body);
    RemoveFenceSkips(v, "```", "```json");
    RemoveFenceShort("```", "```json");
  }

  lemma RemoveClosingFence(v: string)
    requires '`' !in v
    ensures RemoveFence(v + "```", "```") == v
  {
    RemoveFenceSkips(v, "```", "```");
    assert StartsWith("```", "```");
    assert RemoveFence("```", "```") == RemoveFence(DropRegexSpaces([]), "```");
    assert v + [] == v;
  }

  /** A reply wrapped in a Markdown `json` code fence is reduced to the
      trimmed JSON text inside it. */
  lemma CleanFencedBlock(body: string)
    requires '`' !in body
    ensures CleanJsonContent("```json\n" + body + "\n```") == Trim(body)
  {
    var z := "\n" + body + "\n";
    var v := DropRegexSpaces(z);
    FencedFirstPass(body);
    DropRegexSpacesKeepsTrim(z);
    DropRegexSpacesKeepsTicksOut(body);
    RemoveClosingFence(v);
    TrimOfLine(body);
  }

  lemma TrimOfLine(body: string)
    ensures Trim("\n" + body + "\n") == Trim(body)
  {
    assert "\n" + body + "\n" == "\n" + (body + "\n");
    TrimIgnoresPrefix("\n", body + "\n");
    TrimIgnoresSuffix(body, "\n");
  }

  // ---------------------------------------------------------------------
  // Reading the reply's JSON
  // ---------------------------------------------------------------------

  /** The Jackson tree, as far as the readers look at it. */
  datatype Json =
    | JNull
    | JText(text: string)
    | JNumber(literal: string)
    | JBool(b: bool)
    | JObject(fields: map<string, Json>)
    | JArray(items: seq<Json>)

  /** `JsonNode.asText`. */
  function AsText(n: Json): string {
    match n
    case JNull => "null"
    case JText(t) => t
    case JNumber(lit) => lit
    case JBool(b) => if b then "true" else "false"
    case JObject(_) => ""
    case JArray(_) => ""
  }

  /** `JsonNode.get(fieldName)`, with `None` for Java's null. */
  function Get(node: Json, name: string): Option<Json> {
    if node.JObject? && name in node.fields then Some(node.fields[name]) else None
  }

  /** The field is missing, JSON null, or the text "null". */
  predicate IsNullField(node: Json, name: string) {
    Get(node, name).None? || Get(node, name).value.JNull? || AsText(Get(node, name).value) == "null"
  }

  /** `getStringValue`. */
  function GetStringValue(node: Json, name: string): (r: Option<string>)
    ensures r.None? <==> IsNullField(node, name)
    ensures r.Some? ==> r.value != "null" && r.value == AsText(Get(node, name).value)
  {
    match Get(node, name)
    case None => None
    case Some(f) => if f.JNull? || AsText(f) == "null" then None else Some(AsText(f))
  }

  /** The library parsers the readers call. `parseDecimal` is `new BigDecimal`
      (None for a NumberFormatException), `asDouble` is `JsonNode.asDouble`,
      `parseIso` is `LocalDateTime.parse` in the ISO format and
      `parseWithPattern(t, p)` is `LocalDateTime.parse(t, ofPattern(p))`, each
      None where it throws a DateTimeParseException. */
  datatype JsonLibrary = JsonLibrary(
    readTree: string -> Option<Json>,
    parseDecimal: string -> Option<Dec>,
    asDouble: Json -> real,
    parseIso: string -> Option<int>,
    parseWithPattern: (string, string) -> Option<int>)

  /** The fallback formatters of `getDateTimeValue`, in order. */
  const DatePatterns: seq<string> :=
    ["yyyy-MM-dd HH:mm:ss", "MM/dd/yyyy HH:mm:ss", "dd/MM/yyyy HH:mm:ss",
     "yyyy-MM-dd", "MM/dd/yyyy", "dd/MM/yyyy"]

  /** The start of `toString()` of the formatter `ofPattern("yyyy-MM-dd HH:mm:ss")`:
      a description of its printer, not a pattern. */
  const FirstFormatterDescription: string := "Value(YearOfEra,4,19,EXCEEDS_PAD)"

  /** A pattern `ofPattern` refuses with an IllegalArgumentException because
      it starts with a lone `V` (the zone-id letter must be doubled). */
  predicate OfPatternRefuses(p: string) {
    |p| >= 2 && p[0] == 'V' && p[1] != 'V'
  }

  /** What the date-only branch hands to `ofPattern` on its first round is
      refused, so that branch throws before it parses anything. */
  lemma DateOnlyPatternRefused(rest: string)
    ensures OfPatternRefuses(FirstFormatterDescription + rest + " HH:mm:ss")
  {
  }

  /** The loop over `patterns` for a text with a ':': the first pattern that
      parses it wins; none gives null. */
  function FirstPatternParse(t: string, patterns: seq<string>, lib: JsonLibrary): (r: Option<int>)
    ensures r.None? <==> forall i | 0 <= i < |patterns| :: lib.parseWithPattern(t, patterns[i]).None?
    ensures r.Some? ==> exists i | 0 <= i < |patterns| ::
              && r == lib.parseWithPattern(t, patterns[i])
              && forall j | 0 <= j < i :: lib.parseWithPattern(t, patterns[j]).None?
  {
    if patterns == [] then None
    else if lib.parseWithPattern(t, patterns[0]).Some? then
      lib.parseWithPattern(t, patterns[0])
    else
      var r := FirstPatternParse(t, patterns[1..], lib);
      assert forall i | 1 <= i < |patterns| :: patterns[i] == patterns[1..][i - 1];
      r
  }

  /** `getBigDecimalValue`. */
  function GetBigDecimalValue(node: Json, name: string, lib: JsonLibrary): (r: Option<Dec>)
    ensures IsNullField(node, name) ==> r.None?
    ensures !IsNullField(node, name) ==> r == lib.parseDecimal(AsText(Get(node, name).value))
  {
    match GetStringValue(node, name)
    case None => None
    case Some(t) => lib.parseDecimal(t)
  }

  /** `getDoubleValue`. */
  function GetDoubleValue(node: Json, name: string, lib: JsonLibrary): (r: Option<real>)
    ensures r.None? <==> IsNullField(node, name)
  {
    match GetStringValue(node, name)
    case None => None
    case Some(_) => Some(lib.asDouble(Get(node, name).value))
  }

  /** `getDateTimeValue`. The ISO parse first; then, for a text with a ':',
      the fallback formatters in order, and null when none parses. For a text
      without one, the first round builds a pattern from the formatter's
      description, which `ofPattern` refuses (`DateOnlyPatternRefused`): the
      IllegalArgumentException is not caught here and reaches
      `parseExtractedData`, as `Err`. */
  function GetDateTimeValue(node: Json, name: string, lib: JsonLibrary): (r: Result<Option<int>, string>)
    ensures IsNullField(node, name) ==> r == Ok(None)
    ensures !IsNullField(node, name) ==>
              var t := GetStringValue(node, name).value;
              // an ISO date-time is taken as it is
              && (lib.parseIso(t).Some? ==> r == Ok(lib.parseIso(t)))
              // otherwise a text with a time is tried against the formatters in order
              && (lib.parseIso(t).None? && ':' in t ==> r == Ok(FirstPatternParse(t, DatePatterns, lib)))
              // and any other text throws
              && (lib.parseIso(t).None? && ':' !in t ==> r == Err("IllegalArgumentException"))
  {
    match GetStringValue(node, name)
    case None => Ok(None)
    case Some(t) =>
      match lib.parseIso(t)
      case Some(s) => Ok(Some(s))
      case None =>
        if ':' in t then Ok(FirstPatternParse(t, DatePatterns, lib))
        else Err("IllegalArgumentException")
  }

  /** Every reader maps a missing field, JSON null and the text "null" to null. */
  lemma NullFieldsReadAsNull(node: Json, name: string, lib: JsonLibrary)
    requires IsNullField(node, name)
    ensures GetStringValue(node, name).None?
    ensures GetBigDecimalValue(node, name, lib).None?
    ensures GetDoubleValue(node, name, lib).None?
    ensures GetDateTimeValue(node, name, lib) == Ok(None)
  {
  }

  // ---------------------------------------------------------------------
  // The extracted data
  // ---------------------------------------------------------------------

  datatype ExtractedFuelData = ExtractedFuelData(
    stationName: Option<string>,
    stationBrand: Option<string>,
    address: Option<string>,
    city: Option<string>,
    state: Option<string>,
    zipCode: Option<string>,
    totalAmount: Option<Dec>,
    liters: Option<Dec>,
    pricePerLiter: Option<Dec>,
    fuelType: Option<string>,
    purchaseDateTime: Option<int>,
    receiptNumber: Option<string>,
    paymentMethod: Option<string>,
    confidence: Option<real>,
    rawText: Option<string>)

  /** `createEmptyExtractedData`. */
  function EmptyExtractedData(rawText: string): ExtractedFuelData {
    ExtractedFuelData(None, None, None, None, None, None, None, None, None,
                      None, None, None, None, Some(0.0), Some(rawText))
  }

  datatype ResponseMessage = ResponseMessage(content: Option<string>)
  datatype Choice = Choice(message: Option<ResponseMessage>)
  /** The model's reply; `text` is its `toString()`. */
  datatype MistralResponse = MistralResponse(choices: Option<seq<Choice>>, text: string)

  /** The first choice's content, if every link to it is present. */
  function ReplyContent(response: MistralResponse): Option<string> {
    if response.choices.None? || |response.choices.value| == 0 then None
    else
      var choice := response.choices.value[0];
      if choice.message.None? then None else choice.message.value.content
  }

  /** No text field of the data holds the text "null". */
  predicate NoNullText(d: ExtractedFuelData) {
    && d.stationName != Some("null") && d.stationBrand != Some("null")
    && d.address != Some("null") && d.city != Some("null") && d.state != Some("null")
    && d.zipCode != Some("null") && d.fuelType != Some("null")
    && d.receiptNumber != Some("null") && d.paymentMethod != Some("null")
  }

  /** `parseExtractedData`. A missing first choice, message or content, a
      JSON parse failure or a date-parser failure all fall back to the empty
      data; so does nothing else. */
  function ParseExtractedData(response: MistralResponse, lib: JsonLibrary): (r: ExtractedFuelData)
    ensures r.rawText.Some?
    ensures ReplyContent(response).None? ==> r == EmptyExtractedData(response.text)
    ensures ReplyContent(response).Some? && lib.readTree(CleanJsonContent(ReplyContent(response).value)).None?
            ==> r == EmptyExtractedData(response.text)
    ensures r != EmptyExtractedData(response.text) ==>
              && ReplyContent(response).Some?
              && r.rawText == Some(CleanJsonContent(ReplyContent(response).value))
              && IsTrimmed(r.rawText.value)
              && NoNullText(r)
    // a parsed reply: a date-parser failure gives the empty data; otherwise
    // every field is its reader's value for the field of the same name
    ensures ReplyContent(response).Some? && lib.readTree(CleanJsonContent(ReplyContent(response).value)).Some? ==>
              var node := lib.readTree(CleanJsonContent(ReplyContent(response).value)).value;
              var date := GetDateTimeValue(node, "purchaseDateTime", lib);
              && (date.Err? ==> r == EmptyExtractedData(response.text))
              && (date.Ok? ==>
                    && r.stationName == GetStringValue(node, "stationName")
                    && r.stationBrand == GetStringValue(node, "stationBrand")
                    && r.address == GetStringValue(node, "address")
                    && r.city == GetStringValue(node, "city")
                    && r.state == GetStringValue(node, "state")
                    && r.zipCode == GetStringValue(node, "zipCode")
                    && r.totalAmount == GetBigDecimalValue(node, "totalAmount", lib)
                    && r.liters == GetBigDecimalValue(node, "liters", lib)
                    && r.pricePerLiter == GetBigDecimalValue(node, "pricePerLiter", lib)
                    && r.fuelType == GetStringValue(node, "fuelType")
                    && r.purchaseDateTime == date.value
                    && r.receiptNumber == GetStringValue(node, "receiptNumber")
                    && r.paymentMethod == GetStringValue(node, "paymentMethod")
                    && r.confidence == GetDoubleValue(node, "confidence", lib)
                    && r.rawText == Some(CleanJsonContent(ReplyContent(response).value)))
  {
    match ReplyContent(response)
    case None => EmptyExtractedData(response.text)
    case Some(content) =>
      var json := CleanJsonContent(content);
      match lib.readTree(json)
      case None => EmptyExtractedData(response.text)
      case Some(node) =>
        match GetDateTimeValue(node, "purchaseDateTime", lib)
        case Err(_) => EmptyExtractedData(response.text)
        case Ok(purchased) =>
          ExtractedFuelData(
            GetStringValue(node, "stationName"),
            GetStringValue(node, "stationBrand"),
            GetStringValue(node, "address"),
            GetStringValue(node, "city"),
            GetStringValue(node, "state"),
            GetStringValue(node, "zipCode"),
            GetBigDecimalValue(node, "totalAmount", lib),
            GetBigDecimalValue(node, "liters", lib),
            GetBigDecimalValue(node, "pricePerLiter", lib),
            GetStringValue(node, "fuelType"),
            purchased,
            GetStringValue(node, "receiptNumber"),
            GetStringValue(node, "paymentMethod"),
            GetDoubleValue(node, "confidence", lib),
            Some(json))
  }

  /** A purchase date without a time that is not an ISO date-time, such as
      "2024-01-15", makes the reader throw, and the whole reply is then read
      as the empty data: every extracted field is lost. */
  lemma DateWithoutTimeEmptiesReply(response: MistralResponse, lib: JsonLibrary, node: Json, t: string)
    requires ReplyContent(response).Some?
    requires lib.readTree(CleanJsonContent(ReplyContent(response).value)) == Some(node)
    requires GetStringValue(node, "purchaseDateTime") == Some(t)
    requires ':' !in t && lib.parseIso(t).None?
    ensures ParseExtractedData(response, lib) == EmptyExtractedData(response.text)
  {
    assert GetDateTimeValue(node, "purchaseDateTime", lib).Err?;
  }
}
