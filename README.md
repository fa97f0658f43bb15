# Sweet Potato fuel tracker: a verified model of its core rules

Sweet Potato records fuel purchases from photographed receipts. It has two parts.

The Spring Boot backend does the following:
- It stores a receipt image in S3.
- It asks the Mistral vision model to read the image, and turns the reply into a fuel record that the user owns.
- It picks a fuel-brand logo for the station.
- It resets forgotten passwords with a six-digit code that is mailed to the user.
- It loads its own settings from a DynamoDB table.
- A filter authenticates every request from its `Bearer` header.

The React Native client does the following:
- It restores a stored session at start-up.
- It keeps the signed-in user in a Redux slice.
- It attaches the access token to every API call.
- It validates the forgot-password, code-entry and new-password forms.
- It merges the OCR answer into the add-record form.
- It shows totals on the home screen.

The model has one Dafny module per source file:
- Objects whose fields the source updates become classes with `modifies` frames:
  - the upload controller's set of recent uploads;
  - the record repository;
  - the S3 bucket;
  - the user store of the reset service;
  - the configuration loader;
  - the security context;
  - the auth slice;
  - the secure store;
  - the two entities;
  - the form screens.
- Code that only computes becomes functions over datatypes:
  - location joining, response mapping and key extraction;
  - defaults and validators.
- The Levenshtein table and the digit loop of the code generator stay loops. Each is proved against a specification function.

Each group of operations is modelled with the fields its own file uses. This matters in two places:
- `FuelRecordService` reads `liters` and `pricePerLiter`, while `FuelRecord.java` declares `gallons` and `pricePerGallon`.
- `DynamicConfigurationProperties` reads AWS settings that `AppConfiguration.java` does not declare. The model's `AwsConfiguration` is the union of both, and the DynamoDB builder leaves the extra fields unset, as the code does.

Modules:
- `Base`: `Option` and `Result`.
- `Text`: JavaScript/Java string operations:
  - split and join, trim, case mapping;
  - substring search;
  - integer printing;
  - the `||` fallback of error messages.
- `Decimal`: `BigDecimal` as scaled integers, and division rounded `HALF_UP`.

## Model

| member | source | states |
|---|---|---|
| FuelBrandLogo.EditDistanceToSelf | backend/src/main/java/com/sweetpotato/service/FuelBrandLogoService.java:177-196 | The distance from a string to itself is 0. |
| FuelBrandLogo.EditDistanceToEmpty | backend/src/main/java/com/sweetpotato/service/FuelBrandLogoService.java:177-196 | The distance to or from the empty string is the other string's length, matching the table's first row and column. |
| FuelBrandLogo.EditDistanceLengthGap | backend/src/main/java/com/sweetpotato/service/FuelBrandLogoService.java:177-196 | The distance is at least the difference of the two lengths. |
| FuelBrandLogo.FillRow | backend/src/main/java/com/sweetpotato/service/FuelBrandLogoService.java:181-193 | One pass of the inner loop: afterwards every cell of row `i`, and of the rows above it, holds the edit distance of the matching prefixes (first row `j`, first column `i`, otherwise the minimum of substitute, delete and insert). |
| FuelBrandLogo.LevenshteinDistance | backend/src/main/java/com/sweetpotato/service/FuelBrandLogoService.java:177-196 | The two-dimensional table loop returns exactly the recursive edit distance. |
| FuelBrandLogo.OccurInOrderSuffix | backend/src/main/java/com/sweetpotato/service/FuelBrandLogoService.java:49-80 | Fragments that occur in order in a suffix occur in order in the whole name. |
| FuelBrandLogo.GreedyMatchIsExact | backend/src/main/java/com/sweetpotato/service/FuelBrandLogoService.java:49-80 | The leftmost-first search decides `.*a.*b.*` patterns exactly: it succeeds iff the fragments occur in order. |
| FuelBrandLogo.FirstMatchingPattern | backend/src/main/java/com/sweetpotato/service/FuelBrandLogoService.java:113-118 | The returned pattern matches, and no earlier one does. When none matches, no pattern matches at all. |
| FuelBrandLogo.HpclNameWins | backend/src/main/java/com/sweetpotato/service/FuelBrandLogoService.java:49-80 | A one-line name containing "hpcl" in any case is claimed by the first pattern, brand "hpcl", before any bp rule. |
| FuelBrandLogo.BrandLogoService.constructor | backend/src/main/java/com/sweetpotato/service/FuelBrandLogoService.java:28-42 | The brand table starts as the eleven built-in brands with their pattern sets. |
| FuelBrandLogo.FuzzyMatch | backend/src/main/java/com/sweetpotato/service/FuelBrandLogoService.java:143-145 | The lowered phrase itself and the empty text always match. A text more than two characters longer than the phrase matches iff it contains the lowered phrase. |
| FuelBrandLogo.BrandLogoService.MatchBrand | backend/src/main/java/com/sweetpotato/service/FuelBrandLogoService.java:137-151 | A returned key has a pattern that contains the text, is contained in it, or lies within distance 2. None is returned iff no key has such a pattern. Which matching key wins is left open. |
| FuelBrandLogo.BrandLogoService.MatchStationName | backend/src/main/java/com/sweetpotato/service/FuelBrandLogoService.java:112-118 | The pattern loop returns the brand of the first matching pattern, or nothing. |
| FuelBrandLogo.Normalize | backend/src/main/java/com/sweetpotato/service/FuelBrandLogoService.java:104 | `toLowerCase().trim()`: trimmed, with no upper-case ASCII letter, and empty iff the text is all characters up to U+0020. |
| FuelBrandLogo.BrandLogoService.DetectFuelBrand | backend/src/main/java/com/sweetpotato/service/FuelBrandLogoService.java:99-130 | The result is always a supported brand. Priority 1 is a usable brand field that matches. Priority 2 is the first matching name pattern. Priority 3 is a fuzzy name match. Failing all three, the result is "default". |
| FuelBrandLogo.BrandLogoService.GetBrandLogoUrl | backend/src/main/java/com/sweetpotato/service/FuelBrandLogoService.java:88-91 | The address is the logo URL of the brand `detectFuelBrand` detects, under the same three priorities, in the logo bucket and region the configuration properties report, null included. With no usable name and no matching brand field it is the default logo. |
| FuelBrandLogo.BrandLogoService.AddBrandMapping | backend/src/main/java/com/sweetpotato/service/FuelBrandLogoService.java:213-216 | The key becomes supported with exactly the given patterns. Every other key keeps its patterns. |
| FuelBrandLogo.BuildLogoUrl | backend/src/main/java/com/sweetpotato/service/FuelBrandLogoService.java:158-169 | The virtual-hosted S3 address of the object `<brand>.png`, the same form the store reports for uploads, with a null bucket or region formatted as "null"; a null bucket gives an address starting "https://null.s3.". |
| FuelBrandLogo.LogoUrlNamesLogoObject | backend/src/main/java/com/sweetpotato/service/FuelBrandLogoService.java:158-169 | The logo URL is a virtual-hosted S3 address whose key is `<brand>.png`; the OCR service's key extraction reads it back. |
| FuelBrandLogo.LoadedLogoUrlNamesNullBucket | backend/src/main/java/com/sweetpotato/service/FuelBrandLogoService.java:158-165 | Settings loaded from DynamoDB never set the logo bucket, so every logo URL then names the bucket "null". |
| PasswordReset.GenerateOtp | backend/src/main/java/com/sweetpotato/service/PasswordResetService.java:137-146 | The code has exactly six decimal digits, one per random draw, in order. |
| PasswordReset.PasswordResetService.InitiatePasswordReset | backend/src/main/java/com/sweetpotato/service/PasswordResetService.java:30-64 | Unknown address: nothing changes and no mail is sent. Within 15 minutes of the last request: an error, and the user is unchanged. Otherwise the user stores the encoded code, the expiry now+10 min, 0 attempts and request time now, the save stamps `updatedAt`, the account data stays, and the plain code is mailed. That code then verifies up to and including the expiry, and further requests are refused for exactly 15 minutes. |
| PasswordReset.PasswordResetService.VerifyOtp | backend/src/main/java/com/sweetpotato/service/PasswordResetService.java:67-103 | True iff the token is live (at the expiry instant included), fewer than 3 attempts were made, and the code matches. A wrong code on a live token below the cap costs exactly one attempt and its save stamps `updatedAt`. Token, expiry, last request, password, id, name, e-mail, active flag and creation time never change. The cap keeps attempts within 0..3. |
| PasswordReset.PasswordResetService.ResetPassword | backend/src/main/java/com/sweetpotato/service/PasswordResetService.java:106-135 | Succeeds iff the code verifies. The new password is then stored encoded, token, expiry and last request are cleared with attempts at 0, the save stamps `updatedAt`, the account data stays, and no code verifies afterwards; the confirmation names the user. A refusal is "Invalid or expired OTP" and, the transaction being rolled back, leaves every field of the user as it was, the attempt counter included. |
| PasswordReset.IsRateLimited | backend/src/main/java/com/sweetpotato/service/PasswordResetService.java:148-154 | Refused exactly while less than 15 minutes have passed since the last request; never refused without one. |
| FuelRecordController.RequestId | backend/src/main/java/com/sweetpotato/controller/FuelRecordController.java:64-66 | Split at '_', the request id gives back the user id, the file size and the 10-second window, in that order. |
| FuelRecordController.IsImageType | backend/src/main/java/com/sweetpotato/controller/FuelRecordController.java:91-92 | A missing content type is refused; a present one is accepted iff it starts with "image/". |
| FuelRecordController.ImageTypeIsCaseSensitive | backend/src/main/java/com/sweetpotato/controller/FuelRecordController.java:92 | "image/png" passes but "IMAGE/PNG" does not. |
| FuelRecordController.RequestIdIdentifies | backend/src/main/java/com/sweetpotato/controller/FuelRecordController.java:64-66 | Two ids are equal iff user, size and 10-second window all agree. |
| FuelRecordController.FuelRecordControllerState.constructor | backend/src/main/java/com/sweetpotato/controller/FuelRecordController.java:39 | The set of recent uploads starts empty. |
| FuelRecordController.FuelRecordControllerState.UploadReceipt | backend/src/main/java/com/sweetpotato/controller/FuelRecordController.java:42-138 | No user: 401, set untouched. A repeated id: 429, set untouched. Otherwise the first failing check decides: an empty file gives 400, a non-image type 400, over 10 MiB 413; the service's response gives 200, and no response or an error 500. Afterwards the set is as before, or empty if the add pushed it past 1000. |
| FuelRecordController.FuelRecordControllerState.GetUserFuelRecords | backend/src/main/java/com/sweetpotato/controller/FuelRecordController.java:153-167 | An absent page is 0 and an absent size 20. A page below 0, or a size outside 1..100, gives 400 whoever asks. Otherwise no user gives 401, and a user gets 200 with exactly the service's page of that user's listing. |
| FuelRecordController.FuelRecordControllerState.GetFuelRecord | backend/src/main/java/com/sweetpotato/controller/FuelRecordController.java:170-180 | No user gives 401. It is 200 with the service's record iff the caller owns it, else 404. |
| FuelRecordController.FuelRecordControllerState.DeleteFuelRecord | backend/src/main/java/com/sweetpotato/controller/FuelRecordController.java:183-196 | No user gives 401. It is 204 iff the caller owned the record, which is then gone. Otherwise 404, and the store is unchanged. |
| FuelRecordService.BuiltEmptyIff | backend/src/main/java/com/sweetpotato/service/FuelRecordService.java:109-132 | The appended text is empty iff every present part is empty. |
| FuelRecordService.LocationString | backend/src/main/java/com/sweetpotato/service/FuelRecordService.java:109-132 | Null iff every present part is empty, in particular when all four are null. With no empty part, it is the present parts joined by ", " and, before the zip code, " ". |
| FuelRecordService.LoneZipCode | backend/src/main/java/com/sweetpotato/service/FuelRecordService.java:109-132 | A lone zip code is returned with no leading separator. |
| FuelRecordService.FullLocation | backend/src/main/java/com/sweetpotato/service/FuelRecordService.java:109-132 | All four parts give "address, city, state zip". |
| FuelRecordService.BuildLocationString | backend/src/main/java/com/sweetpotato/service/FuelRecordService.java:109-132 | The string-builder loop computes exactly `LocationString`. |
| FuelRecordService.CreateFromExtracted | backend/src/main/java/com/sweetpotato/service/FuelRecordService.java:83-107 | Without extracted data the record carries only owner and image. With it, the record carries the receipt's values, the joined location, and the data as JSON, or its raw text when it cannot be written. |
| FuelRecordService.ApplyOverrides | backend/src/main/java/com/sweetpotato/service/FuelRecordService.java:48-56 | A given station name or location replaces the extracted one. A given date replaces it, parsed, or "now" when unparseable. Null inputs and all other fields leave the record as it was. |
| FuelRecordService.MapToResponse | backend/src/main/java/com/sweetpotato/service/FuelRecordService.java:143-159 | The response copies the record's fields, with its liters under `gallons`. `ocrProcessed` holds iff extracted data is given. The confidence is present iff the data and its confidence are. |
| FuelRecordService.PageOf | backend/src/main/java/com/sweetpotato/service/FuelRecordService.java:161-164 | A page holds at most `size` consecutive items starting at `page*size`. A page before the end is full. |
| FuelRecordService.FuelRecordServiceState.Save | backend/src/main/java/com/sweetpotato/service/FuelRecordService.java:58 | The record is stored under a fresh id with its creation time, and nothing else changes. |
| FuelRecordService.FuelRecordServiceState.ProcessReceiptUpload | backend/src/main/java/com/sweetpotato/service/FuelRecordService.java:37-64 | A failed upload saves nothing and reports the S3 service's own exception, since the handler for an IOException cannot run; a failed OCR saves nothing and passes its error on. Otherwise exactly one record is saved: the extracted values, overridden by the uploader's, with the uploaded image. The response reports it as processed. |
| FuelRecordService.FuelRecordServiceState.OwnedNewestFirst | backend/src/main/java/com/sweetpotato/repository/FuelRecordRepository.java:18 | Exactly the user's records, each once, newest creation time first. |
| FuelRecordService.PageCount | backend/src/main/java/com/sweetpotato/service/FuelRecordService.java:161-164 | The fewest pages of `size` items that hold `total` items: none for no items. |
| FuelRecordService.PageFrom | backend/src/main/java/com/sweetpotato/service/FuelRecordService.java:161-164 | The page's items are the listing's items at that page, in order, each mapped without OCR details. The counts are those of the whole listing, with the page's number and size. |
| FuelRecordService.FuelRecordServiceState.GetUserFuelRecords | backend/src/main/java/com/sweetpotato/service/FuelRecordService.java:161-164 | The result is page `page` of a listing of every record the owner has, each once and newest first, with `totalElements` the owner's record count and `totalPages` the page count for `size`. |
| FuelRecordService.FuelRecordServiceState.ListedPage | backend/src/main/java/com/sweetpotato/service/FuelRecordService.java:161-164 | A page of the listing has at most `size` items. Each is the mapping of one of the owner's stored records, with a creation time and unprocessed, and they come newest first. |
| FuelRecordService.FuelRecordServiceState.GetFuelRecordById | backend/src/main/java/com/sweetpotato/service/FuelRecordService.java:166-170 | Present iff the caller owns the id. The result is the stored record mapped with no OCR result: unprocessed, with no OCR fields. |
| FuelRecordService.FuelRecordServiceState.DeleteFuelRecord | backend/src/main/java/com/sweetpotato/service/FuelRecordService.java:173-196 | Deleted iff the caller owned the record; it is then removed and its image URL handed to the image delete. A non-owner changes nothing. |
| MistralOcr.ExtractS3KeyFromUrl | backend/src/main/java/com/sweetpotato/service/MistralOcrService.java:127-159 | A key is the text after an occurrence of ".amazonaws.com/". A missing `<bucket>.s3.` or a missing host suffix is an invalid-URL error naming the URL. |
| MistralOcr.ExtractKeyOfObjectUrl | backend/src/main/java/com/sweetpotato/service/MistralOcrService.java:127-159 | Round trip: the key is recovered from the virtual-hosted URL built from it. |
| MistralOcr.DetermineImageFormat | backend/src/main/java/com/sweetpotato/service/MistralOcrService.java:161-172 | Case-insensitive substring test with priority png > gif > webp; otherwise jpeg. |
| MistralOcr.ImageFormatIgnoresCase | backend/src/main/java/com/sweetpotato/service/MistralOcrService.java:161-172 | Upper-casing the URL does not change the format. |
| MistralOcr.ImageDataUrl | backend/src/main/java/com/sweetpotato/service/MistralOcrService.java:116 | The prefix `data:image/`, the format, the marker `;base64,` and the payload, in that order. |
| MistralOcr.ParseImageDataUrl | backend/src/main/java/com/sweetpotato/service/MistralOcrService.java:116 | Reads a URL iff it has the prefix and the marker after it, and the URL is rebuilt exactly from the two parts it reads. |
| MistralOcr.DataUrlRoundTrip | backend/src/main/java/com/sweetpotato/service/MistralOcrService.java:116 | The `data:image/<format>;base64,<payload>` URL parses back into its format and payload (RFC 2397, section 3). |
| MistralOcr.ReceiptDataUrlRoundTrip | backend/src/main/java/com/sweetpotato/service/MistralOcrService.java:99-125 | The receipt's data URL carries the sniffed format and the payload unchanged. |
| MistralOcr.BuildMistralRequest | backend/src/main/java/com/sweetpotato/service/MistralOcrService.java:174-189 | Model pixtral-12b-2409, 300 tokens, no temperature, and one user message holding the prompt and then the image. |
| MistralOcr.RequestCarriesReceipt | backend/src/main/java/com/sweetpotato/service/MistralOcrService.java:174-189 | The request uses model pixtral-12b-2409 and 300 tokens, with one user message: the prompt, then the receipt image. |
| MistralOcr.RemoveFence | backend/src/main/java/com/sweetpotato/service/MistralOcrService.java:233 | `replaceAll(fence + "\\s*", "")` only removes characters. |
| MistralOcr.RemoveFenceKeeps | backend/src/main/java/com/sweetpotato/service/MistralOcrService.java:233 | A text without the fence's first character is left as it is. |
| MistralOcr.DropRegexSpaces | backend/src/main/java/com/sweetpotato/service/MistralOcrService.java:231-236 | The `\s*` after a fence: a suffix of the input with only white space removed before it. |
| MistralOcr.CleanJsonContent | backend/src/main/java/com/sweetpotato/service/MistralOcrService.java:231-236 | The cleaned text never starts or ends with white space. |
| MistralOcr.CleanWithoutFences | backend/src/main/java/com/sweetpotato/service/MistralOcrService.java:231-236 | With no backtick, cleaning only trims. |
| MistralOcr.CleanFencedBlock | backend/src/main/java/com/sweetpotato/service/MistralOcrService.java:231-236 | A ```` ```json ```` fenced block cleans to its trimmed body. |
| MistralOcr.GetStringValue | backend/src/main/java/com/sweetpotato/service/MistralOcrService.java:238-244 | Null iff the field is missing, JSON null or the text "null"; otherwise the node's text. |
| MistralOcr.GetBigDecimalValue | backend/src/main/java/com/sweetpotato/service/MistralOcrService.java:246-257 | Null for a null field; otherwise the library's decimal reading of the text. |
| MistralOcr.GetDoubleValue | backend/src/main/java/com/sweetpotato/service/MistralOcrService.java:259-270 | Null iff the field is null. |
| MistralOcr.GetDateTimeValue | backend/src/main/java/com/sweetpotato/service/MistralOcrService.java:272-309 | A null field gives null. An ISO date-time is taken; otherwise a text with a ':' is tried against the six formatters in order, null when none parses; any other text throws an IllegalArgumentException. |
| MistralOcr.FirstPatternParse | backend/src/main/java/com/sweetpotato/service/MistralOcrService.java:293-303 | The first formatter that parses the text decides; null iff none does. |
| MistralOcr.DateOnlyPatternRefused | backend/src/main/java/com/sweetpotato/service/MistralOcrService.java:298-299 | The pattern built from the first formatter's `toString()` starts with a lone `V`, which `ofPattern` refuses. |
| MistralOcr.DateWithoutTimeEmptiesReply | backend/src/main/java/com/sweetpotato/service/MistralOcrService.java:225-228 | A purchase date such as "2024-01-15" (no time, not ISO) makes the whole reply read as the empty data, losing every field. |
| MistralOcr.NullFieldsReadAsNull | backend/src/main/java/com/sweetpotato/service/MistralOcrService.java:238-276 | All four readers agree that a missing, null or "null" field is null. |
| MistralOcr.ParseExtractedData | backend/src/main/java/com/sweetpotato/service/MistralOcrService.java:191-229 | No reply content, unparseable JSON or a date-parser failure gives the empty result holding the response text. Otherwise each field is its reader's value for the JSON field of the same name, and the raw text is the cleaned, trimmed reply; no text field is the string "null". |
| FuelRecordEntity.DerivedPrice | backend/src/main/java/com/sweetpotato/entity/FuelRecord.java:68-72 | A price exists iff amount and gallons are present with gallons > 0. It has 3 decimals and lies within 0.0005 of amount/gallons. |
| FuelRecordEntity.FuelRecord.constructor | backend/src/main/java/com/sweetpotato/entity/FuelRecord.java:24-61 | A new record has the given values and no id or timestamps. |
| FuelRecordEntity.FuelRecord.OnCreate | backend/src/main/java/com/sweetpotato/entity/FuelRecord.java:64-73 | Both timestamps are set. A supplied price is kept. A missing one is derived when possible. |
| FuelRecordEntity.FuelRecord.OnUpdate | backend/src/main/java/com/sweetpotato/entity/FuelRecord.java:76-83 | Only `updatedAt` is refreshed. The price is recomputed whenever derivable, and left alone otherwise. |
| FuelRecordEntity.ExactPriceIsKept | backend/src/main/java/com/sweetpotato/entity/FuelRecord.java:71 | When amount/gallons is exact at 3 decimals, that exact value is stored. |
| Decimal.RoundHalfUpBound | backend/src/main/java/com/sweetpotato/entity/FuelRecord.java:71 | HALF_UP rounding is within half a unit of the exact quotient. |
| Decimal.RoundHalfUpExact | backend/src/main/java/com/sweetpotato/entity/FuelRecord.java:71 | An exact quotient is returned unchanged. |
| Decimal.RoundHalfUpTie | backend/src/main/java/com/sweetpotato/entity/FuelRecord.java:71 | For any denominator, a quotient of exactly k + 1/2 in magnitude rounds away from zero to ±(k + 1). |
| Decimal.Divide | backend/src/main/java/com/sweetpotato/entity/FuelRecord.java:71 | The quotient has the requested scale. |
| Decimal.DivideWithinHalfUnit | backend/src/main/java/com/sweetpotato/entity/FuelRecord.java:71 | `divide(b, scale, HALF_UP)` is within half a unit in the last place of the exact quotient. |
| UserEntity.User.constructor | backend/src/main/java/com/sweetpotato/entity/User.java:28-66 | A new user is active, with 0 reset attempts and no reset token, expiry or last request. |
| UserEntity.User.OnCreate | backend/src/main/java/com/sweetpotato/entity/User.java:72-75 | Sets both timestamps. |
| UserEntity.User.OnUpdate | backend/src/main/java/com/sweetpotato/entity/User.java:78-80 | Sets `updatedAt` only. |
| UserEntity.User.IsEnabled | backend/src/main/java/com/sweetpotato/entity/User.java:109-111 | Enabled unless `isActive` is explicitly false. |
| UserEntity.User.GetUsername | backend/src/main/java/com/sweetpotato/entity/User.java:88-91 | The principal name is the user name, not the e-mail address. |
| UserEntity.UserDetailsView | backend/src/main/java/com/sweetpotato/entity/User.java:84-111 | No authorities. Never expired, locked or credentials-expired. The principal name is the user name, not the e-mail. |
| S3Upload.ExtractFileNameFromUrl | backend/src/main/java/com/sweetpotato/service/S3UploadService.java:96-100 | The text after the last '/', or the whole URL if it has none. It never contains '/'. |
| S3Upload.ReceiptKeyHasFolder | backend/src/main/java/com/sweetpotato/service/S3UploadService.java:60 | A receipt key is `receipts/` followed by the uuid and the name, so it contains '/'. |
| S3Upload.DeleteKeyMissesReceipt | backend/src/main/java/com/sweetpotato/service/S3UploadService.java:85-100 | The key the delete derives from a receipt's URL is never the receipt's stored key. |
| S3Upload.DeleteKeyExample | backend/src/main/java/com/sweetpotato/service/S3UploadService.java:85-100 | A concrete upload, with the key the delete asks for instead. |
| S3Upload.StoredKeyOfUpload | backend/src/main/java/com/sweetpotato/service/S3UploadService.java:55-79 | The stored key is recovered from the URL the upload returned. |
| S3Upload.S3UploadService.UploadFile | backend/src/main/java/com/sweetpotato/service/S3UploadService.java:55-79 | An empty file is refused before the store is called. A failed put changes nothing. Otherwise the object `folder/uuid_name` is stored and its URL returned. |
| S3Upload.S3UploadService.UploadReceiptImage | backend/src/main/java/com/sweetpotato/service/S3UploadService.java:81-83 | Stores under `receipts/` iff the file is non-empty and the put succeeds; otherwise it throws "File cannot be empty" or "Failed to upload file to S3", never an IOException. |
| S3Upload.S3UploadService.DeleteFile | backend/src/main/java/com/sweetpotato/service/S3UploadService.java:85-94 | As written: it removes the object named by the URL's last segment. A failed delete changes nothing. |
| S3Upload.S3UploadService.DeleteStoredFile | backend/src/main/java/com/sweetpotato/service/S3UploadService.java:85-94 | Corrected: it removes the object under the URL's full key. A URL outside the bucket, or a failed delete, changes nothing. |
| S3Upload.ReceiptSurvivesDelete | backend/src/main/java/com/sweetpotato/service/S3UploadService.java:85-100 | After the as-written delete of an uploaded receipt's URL, the receipt is still stored. |
| S3Upload.ReceiptRemovedByStoredKeyDelete | backend/src/main/java/com/sweetpotato/service/S3UploadService.java:85-94 | The corrected delete removes exactly the uploaded receipt. |
| JwtFilter.BearerToken | backend/src/main/java/com/sweetpotato/config/JwtAuthenticationFilter.java:48 | The header is "Bearer " followed by the token. |
| JwtFilter.BearerTokenRoundTrip | backend/src/main/java/com/sweetpotato/config/JwtAuthenticationFilter.java:48 | Prefixing "Bearer " and then taking the substring recovers the token (RFC 6750, section 2.1). |
| JwtFilter.Earned | backend/src/main/java/com/sweetpotato/config/JwtAuthenticationFilter.java:51-86 | Authentication is earned iff the header is a bearer header, its username extracts and loads, and the token is valid for that user. It carries the user's authorities. |
| JwtFilter.FilterState.ContinueChain | backend/src/main/java/com/sweetpotato/config/JwtAuthenticationFilter.java:93 | Counts one chain invocation. |
| JwtFilter.FilterState.DoFilterInternal | backend/src/main/java/com/sweetpotato/config/JwtAuthenticationFilter.java:30-94 | The chain runs exactly once on every path. An existing authentication is never replaced. Otherwise the context holds exactly what the request earned. |
| JwtFilter.NonBearerEarnsNothing | backend/src/main/java/com/sweetpotato/config/JwtAuthenticationFilter.java:41-45 | A missing or non-bearer header authenticates nothing. |
| JwtFilter.UnreadableTokenEarnsNothing | backend/src/main/java/com/sweetpotato/config/JwtAuthenticationFilter.java:51-58 | A token whose username cannot be extracted authenticates nothing. |
| DynamoConfig.ParseLong | backend/src/main/java/com/sweetpotato/service/DynamoDbConfigService.java:203-211 | `Long.valueOf`: the result fits in 64 bits. Null or empty text is not a number. |
| DynamoConfig.ParseLongOfString | backend/src/main/java/com/sweetpotato/service/DynamoDbConfigService.java:203-211 | Every 64-bit value parses back from its decimal text. |
| DynamoConfig.MapToConfigurationItem | backend/src/main/java/com/sweetpotato/service/DynamoDbConfigService.java:121-145 | Missing key, value or environment is an error. A missing `encrypted` means false. An encrypted value is replaced by its decryption, and a plain one is kept. A missing description or `lastUpdated` is null. A failed decryption is the only other error. |
| DynamoConfig.Scanned | backend/src/main/java/com/sweetpotato/service/DynamoDbConfigService.java:66-89 | The scan returns exactly the table's items of the service's environment. |
| DynamoConfig.MapItems | backend/src/main/java/com/sweetpotato/service/DynamoDbConfigService.java:66-89 | Mapping succeeds iff every item maps, and keeps their order. |
| DynamoConfig.Collapse | backend/src/main/java/com/sweetpotato/service/DynamoDbConfigService.java:77-80 | The map has exactly the items' keys, each bound to one of the items with that key. |
| DynamoConfig.CollapseLastWins | backend/src/main/java/com/sweetpotato/service/DynamoDbConfigService.java:77-80 | A later item with the same key overwrites an earlier one. |
| DynamoConfig.LoadAllConfigurations | backend/src/main/java/com/sweetpotato/service/DynamoDbConfigService.java:66-89 | The loop returns the collapsed map of the environment's mapped items, or "Failed to scan configuration table". |
| DynamoConfig.ValueAsLong | backend/src/main/java/com/sweetpotato/service/DynamoDbConfigService.java:203-211 | The default when the key is absent or its value is not a valid long; otherwise the parsed value. |
| DynamoConfig.BuildJwtConfiguration | backend/src/main/java/com/sweetpotato/service/DynamoDbConfigService.java:150-156 | The secret as stored, null when missing. Both expirations are always set to 64-bit values, the defaults when missing. |
| DynamoConfig.BuildAwsConfiguration | backend/src/main/java/com/sweetpotato/service/DynamoDbConfigService.java:161-168 | The keys as stored, null when missing. Region and bucket as stored, a stored null included, else ap-south-1 and sweet-potato-receipts. The four fields the DTO does not declare stay null. |
| DynamoConfig.BuildMistralConfiguration | backend/src/main/java/com/sweetpotato/service/DynamoDbConfigService.java:173-178 | The URL as stored, a stored null included, else the Mistral default. The key as stored, null when missing. |
| DynamoConfig.BuildConfiguration | backend/src/main/java/com/sweetpotato/service/DynamoDbConfigService.java:51-55 | All three sections are always present, and both expirations are set. |
| DynamoConfig.EmptyTableDefaults | backend/src/main/java/com/sweetpotato/service/DynamoDbConfigService.java:150-178 | An empty table gives expirations 86400000 and 604800000, region ap-south-1, bucket sweet-potato-receipts and the Mistral URL https://api.mistral.ai/v1, with everything else null. |
| DynamoConfig.StoredValuesWin | backend/src/main/java/com/sweetpotato/service/DynamoDbConfigService.java:150-186 | A stored region, Mistral URL or valid expiration overrides the default. |
| DynamoConfig.ExpirationsAlwaysSet | backend/src/main/java/com/sweetpotato/service/DynamoDbConfigService.java:150-156 | Both expirations are always present. A malformed stored expiration falls back to the default. |
| DynamoConfig.LoadConfiguration | backend/src/main/java/com/sweetpotato/service/DynamoDbConfigService.java:45-61 | The configuration built from the loaded map, or "Failed to load application configuration". |
| DynamoConfig.LoadedItemsAreOwnEnvironment | backend/src/main/java/com/sweetpotato/service/DynamoDbConfigService.java:66-89 | Every loaded setting comes from the service's own environment. |
| DynamoConfig.GetConfiguration | backend/src/main/java/com/sweetpotato/service/DynamoDbConfigService.java:94-116 | An absent or empty item is null. Every failure names the key. Otherwise the result is the mapped item. |
| DynamicConfig.Required | backend/src/main/java/com/sweetpotato/config/DynamicConfigurationProperties.java:23-31 | The value when present, else the given error. |
| DynamicConfig.GetJwtSecret | backend/src/main/java/com/sweetpotato/config/DynamicConfigurationProperties.java:23-31 | The secret iff the configuration, its JWT section and the secret are present; else "JWT secret is required but not configured". |
| DynamicConfig.GetJwtExpiration | backend/src/main/java/com/sweetpotato/config/DynamicConfigurationProperties.java:36-39 | No JWT section gives 86400000. With one, its expiration; a null one throws `NullPointerException`, because the conditional unboxes it. A configuration built from DynamoDB always has one (see DynamoConfig.ExpirationsAlwaysSet). |
| DynamicConfig.GetJwtRefreshExpiration | backend/src/main/java/com/sweetpotato/config/DynamicConfigurationProperties.java:44-47 | No JWT section gives 604800000. With one, its refresh expiration; a null one throws `NullPointerException`, as for the expiration. |
| DynamicConfig.GetAwsAccessKey | backend/src/main/java/com/sweetpotato/config/DynamicConfigurationProperties.java:52-60 | The access key iff it is present; else the required-key error. |
| DynamicConfig.GetAwsSecretKey | backend/src/main/java/com/sweetpotato/config/DynamicConfigurationProperties.java:65-73 | The secret key iff it is present; else the required-key error. |
| DynamicConfig.GetAwsRegion | backend/src/main/java/com/sweetpotato/config/DynamicConfigurationProperties.java:78-81 | With an AWS section, its region, null included; otherwise ap-south-1. |
| DynamicConfig.GetAwsBucketName | backend/src/main/java/com/sweetpotato/config/DynamicConfigurationProperties.java:86-89 | With an AWS section, its bucket, null included; otherwise sweet-potato-receipts. |
| DynamicConfig.GetAwsFuelLogosBucketName | backend/src/main/java/com/sweetpotato/config/DynamicConfigurationProperties.java:94-97 | With an AWS section, its logo bucket, null included; otherwise fuel-company-logos. |
| DynamicConfig.GetSesFromEmail | backend/src/main/java/com/sweetpotato/config/DynamicConfigurationProperties.java:102-110 | The sender iff it is present; else the required-key error. |
| DynamicConfig.GetSesReplyToEmail | backend/src/main/java/com/sweetpotato/config/DynamicConfigurationProperties.java:115-118 | With an AWS section, its reply-to value, null included. |
| DynamicConfig.GetAppName | backend/src/main/java/com/sweetpotato/config/DynamicConfigurationProperties.java:123-126 | With an AWS section, its application name, null included; otherwise Sweet Potato. |
| DynamicConfig.GetMistralApiUrl | backend/src/main/java/com/sweetpotato/config/DynamicConfigurationProperties.java:131-134 | With a Mistral section, its URL, null included; otherwise https://api.mistral.ai/v1. |
| DynamicConfig.GetMistralApiKey | backend/src/main/java/com/sweetpotato/config/DynamicConfigurationProperties.java:139-147 | The API key iff it is present; else the required-key error. |
| DynamicConfig.NoConfigurationDefaults | backend/src/main/java/com/sweetpotato/config/DynamicConfigurationProperties.java:23-147 | With no configuration the defaulting getters give their literals, and every required getter fails. |
| DynamicConfig.ReplyToWithoutAwsThrows | backend/src/main/java/com/sweetpotato/config/DynamicConfigurationProperties.java:104-118 | Without an AWS section the reply-to falls back to the sender getter, which then always fails. |
| DynamicConfig.LoadedConfiguration | backend/src/main/java/com/sweetpotato/config/DynamicConfigurationProperties.java:23-126 | On a configuration loaded from DynamoDB: the JWT secret is present iff stored; the expirations are set, so their getters never throw; the logo bucket, app name and sender are unset, because the builder never fills them; the reply-to is null. |
| ConfigLoader.ConfigurationLoaderService.constructor | backend/src/main/java/com/sweetpotato/service/ConfigurationLoaderService.java:20-22 | Starts unloaded, with no configuration. |
| ConfigLoader.ConfigurationLoaderService.IsConfigurationLoaded | backend/src/main/java/com/sweetpotato/service/ConfigurationLoaderService.java:66-68 | Loaded implies a configuration is held. |
| ConfigLoader.ConfigurationLoaderService.LoadConfiguration | backend/src/main/java/com/sweetpotato/service/ConfigurationLoaderService.java:29-50 | A no-op once loaded, without calling the loader. Otherwise one loader call: success stores the configuration and sets loaded; failure changes nothing and reports the error. |
| ConfigLoader.ConfigurationLoaderService.GetConfiguration | backend/src/main/java/com/sweetpotato/service/ConfigurationLoaderService.java:55-61 | Loads only when not loaded, then returns the stored configuration. A success always hands one out. |
| ConfigLoader.ConfigurationLoaderService.ReloadConfiguration | backend/src/main/java/com/sweetpotato/service/ConfigurationLoaderService.java:73-84 | Always calls the loader. Success replaces the configuration. Failure keeps the previous state, so loaded never turns false. |
| ConfigLoader.ConfigurationSummary | backend/src/main/java/com/sweetpotato/service/ConfigurationLoaderService.java:89-122 | No configuration gives no summary text; otherwise the text starts with "Configuration Summary:". |
| ConfigLoader.SummaryHidesSecrets | backend/src/main/java/com/sweetpotato/service/ConfigurationLoaderService.java:89-122 | Two configurations that differ only in secret values, present in both, log the same summary. |
| AppStartup.StartupDecision | mobile-app/App.tsx:19-72 | A restore is attempted only with both values stored. A session is restored only from a three-part token whose expiry is strictly in the future, with user data that parses. A wrong part count, an expired token, a missing expiry or an unreadable payload wipes the stored session. |
| AppStartup.CheckAuthState | mobile-app/App.tsx:19-72 | Loading ends on every path. A restore sets the user. A wipe deletes access_token, refresh_token and user_data, and nothing else. From the initial state, the app navigator is shown iff the session was restored. |
| AppStartup.ShownScreen | mobile-app/App.tsx:77-85 | Loading screen while loading; otherwise the app navigator iff authenticated. |
| AppStartup.RestoreEndsAtExpiry | mobile-app/App.tsx:33-49 | A session that restores now is wiped at any time at or after its expiry. |
| AuthSlice.AuthStore.constructor | mobile-app/src/store/slices/authSlice.ts:18-23 | No user, not authenticated, loading, no error. |
| AuthSlice.AuthStore.SetCredentials | mobile-app/src/store/slices/authSlice.ts:29-38 | Sets the user, authenticated and no error, keeps loading, and stores both tokens. |
| AuthSlice.AuthStore.Logout | mobile-app/src/store/slices/authSlice.ts:39-47 | Clears user, authentication and error, and deletes both tokens. The stored user data is kept. |
| AuthSlice.AuthStore.SetLoading | mobile-app/src/store/slices/authSlice.ts:48-50 | Changes only the loading flag. |
| AuthSlice.AuthStore.SetError | mobile-app/src/store/slices/authSlice.ts:51-53 | Changes only the error. |
| AuthSlice.AuthStore.ClearError | mobile-app/src/store/slices/authSlice.ts:54-56 | Changes only the error, to none. |
| AuthSlice.AuthStore.RestoreSession | mobile-app/src/store/slices/authSlice.ts:57-61 | Sets the user, authenticated and not loading; the error is kept. Every reducer keeps authenticated iff a user is set. |
| SecureStorage.SecureStore.GetItem | mobile-app/App.tsx:21-22 | A stored value iff the key is present. |
| SecureStorage.SecureStore.SetItem | mobile-app/src/store/slices/authSlice.ts:36-37 | Binds the key and leaves the other keys. |
| SecureStorage.SecureStore.DeleteItem | mobile-app/src/store/slices/authSlice.ts:45-46 | Removes the key and only that key. |
| FuelRecordApi.Headers.Set | mobile-app/src/store/api/fuelRecordApi.ts:53 | Binds one header and leaves the others. |
| FuelRecordApi.InspectToken | mobile-app/src/store/api/fuelRecordApi.ts:56-72 | Expired iff a three-part token's expiry second is strictly before now. |
| FuelRecordApi.PrepareHeaders | mobile-app/src/store/api/fuelRecordApi.ts:36-80 | With no stored token, or a storage error, the headers are unchanged. Otherwise `authorization: Bearer <token>` is set. The inspection only logs and never removes it. |
| FuelRecordApi.SentTokenIsReadBack | mobile-app/src/store/api/fuelRecordApi.ts:53 | The backend filter reads back exactly the token the client sent. |
| FuelRecordApi.ExpiryBoundary | mobile-app/src/store/api/fuelRecordApi.ts:56-72 | At the expiry second, start-up wipes the session while the header check still calls the token live. Any session start-up restores is live for the header check. |
| FuelRecordApi.UploadReceiptQuery | mobile-app/src/store/api/fuelRecordApi.ts:85-101 | POST /upload-receipt as multipart, with exactly one part, `receiptImage`. |
| FuelRecordApi.UploadSendsOnlyTheImage | mobile-app/src/store/api/fuelRecordApi.ts:86-101 | Two uploads of the same image send the same request, whatever station name or location they carry. |
| FuelRecordApi.GetFuelRecordsQuery | mobile-app/src/store/api/fuelRecordApi.ts:110-122 | A bodyless GET to the page query. |
| FuelRecordApi.PageQueryDefaults | mobile-app/src/store/api/fuelRecordApi.ts:117-120 | With no arguments, the query is `?page=0&size=20`. |
| FuelRecordApi.PageQueryFields | mobile-app/src/store/api/fuelRecordApi.ts:117-120 | The query is '?' followed by exactly the fields page=P and size=S. |
| FuelRecordApi.GetFuelRecordByIdQuery | mobile-app/src/store/api/fuelRecordApi.ts:124-130 | A bodyless GET to `/<id>`. |
| FuelRecordApi.DeleteFuelRecordQuery | mobile-app/src/store/api/fuelRecordApi.ts:132-138 | A bodyless DELETE to `/<id>`. |
| FuelRecordApi.RecordUrlsDistinct | mobile-app/src/store/api/fuelRecordApi.ts:124-138 | Get and delete of one id share a URL with different methods. Different ids have different URLs. |
| FuelRecordApi.UploadRefetches | mobile-app/src/store/api/fuelRecordApi.ts:107 | An upload invalidates the list and every cached record. |
| FuelRecordApi.DeleteRefetches | mobile-app/src/store/api/fuelRecordApi.ts:132-138 | A delete invalidates the list and every record. Its id tag alone hits exactly that record and not the list. |
| VerifyOtpScreen.DigitsOnly | mobile-app/src/screens/VerifyOtpScreen.tsx:127 | Only digits remain. An all-digit value is kept as it is. |
| VerifyOtpScreen.DigitsOnlyIdempotent | mobile-app/src/screens/VerifyOtpScreen.tsx:127 | Filtering twice changes nothing more. |
| VerifyOtpScreen.Concat | mobile-app/src/screens/VerifyOtpScreen.tsx:51 | The joined length is the sum of the slot lengths. |
| VerifyOtpScreen.JoinedLength | mobile-app/src/screens/VerifyOtpScreen.tsx:51-56 | With slots of at most one character, the code has six characters iff every slot is filled. |
| VerifyOtpScreen.OtpForm.constructor | mobile-app/src/screens/VerifyOtpScreen.tsx:23 | Six empty slots. |
| VerifyOtpScreen.OtpForm.HandleOtpChange | mobile-app/src/screens/VerifyOtpScreen.tsx:33-42 | Only slot `index` is replaced. Focus moves to the next slot iff the value is non-empty and index < 5. |
| VerifyOtpScreen.OtpForm.OnChangeText | mobile-app/src/screens/VerifyOtpScreen.tsx:127 | The slot stores the digits of the typed character, so every slot stays empty or one digit. |
| VerifyOtpScreen.OtpForm.HandleKeyPress | mobile-app/src/screens/VerifyOtpScreen.tsx:44-48 | Backspace in an empty slot after the first moves focus back one. Any other key changes nothing. |
| VerifyOtpScreen.OtpForm.HandleVerifyOtp | mobile-app/src/screens/VerifyOtpScreen.tsx:50-74 | Refused iff a slot is empty. Otherwise the next screen is offered, with the e-mail and the six digits, iff the server accepts; a refusal shows the server's message, else "Invalid or expired OTP. Please try again.". |
| VerifyOtpScreen.OtpForm.HandleResendOtp | mobile-app/src/screens/VerifyOtpScreen.tsx:76-85 | Success clears all six slots and focuses the first. Failure changes nothing and shows the server's message or the fallback. |
| ResetPasswordScreen.ValidatePassword | mobile-app/src/screens/ResetPasswordScreen.tsx:34-51 | Passes iff both fields are filled, the password has at least 6 characters and the fields agree. The first failed check names the alert. |
| ResetPasswordScreen.PasswordStrength | mobile-app/src/screens/ResetPasswordScreen.tsx:78-86 | Empty gives none. Below 6 is Weak and below 8 Fair. From 8 it is Strong iff there is an ASCII letter and a digit on one line; else Good. |
| ResetPasswordScreen.AcceptedIsNotWeak | mobile-app/src/screens/ResetPasswordScreen.tsx:40 | A password the form accepts is never shown as empty or Weak. |
| ResetPasswordScreen.StrengthGrowsWithAppend | mobile-app/src/screens/ResetPasswordScreen.tsx:78-86 | Appending characters never lowers the strength. |
| ResetPasswordScreen.LineBreakSeparatesLetterAndDigit | mobile-app/src/screens/ResetPasswordScreen.tsx:82 | The look-ahead's `.` does not cross a line break: "abcdefg\n1" is Good while "abcdefg 1" is Strong. |
| ResetPasswordScreen.ShowsMismatchHint | mobile-app/src/screens/ResetPasswordScreen.tsx:166-167 | Shown iff the confirmation is non-empty and differs. |
| ResetPasswordScreen.HintMeansRefused | mobile-app/src/screens/ResetPasswordScreen.tsx:166-167 | While the hint shows, the form is refused. |
| ResetPasswordScreen.HandleResetPassword | mobile-app/src/screens/ResetPasswordScreen.tsx:53-76 | The server is called iff validation passes, with the typed password. Sign-in is offered iff the server accepted. |
| ForgotPasswordScreen.IsValidEmail | mobile-app/src/screens/ForgotPasswordScreen.tsx:33-37 | The character-level test is equivalent to `^[^\s@]+@[^\s@]+\.[^\s@]+$`: no white space, exactly one '@' with text before it, and a '.' inside the domain. |
| ForgotPasswordScreen.EmailCheckMatchesPattern | mobile-app/src/screens/ForgotPasswordScreen.tsx:33-37 | Both directions of that equivalence. |
| ForgotPasswordScreen.HandleForgotPassword | mobile-app/src/screens/ForgotPasswordScreen.tsx:27-55 | Empty is refused first, then a non-matching address. Only a matching address is sent, unchanged. The code screen is offered with the same address iff the server accepted. |
| ForgotPasswordScreen.AcceptsPlainAddress | mobile-app/src/screens/ForgotPasswordScreen.tsx:33-37 | "ravi@fuel.in" is accepted. |
| ForgotPasswordScreen.RefusesSecondAt | mobile-app/src/screens/ForgotPasswordScreen.tsx:33-37 | "a@b@c.in" is refused. |
| FuelRecordScreen.Optional | mobile-app/src/screens/FuelRecordScreen.tsx:87-88 | An empty field is not sent; otherwise it is sent as typed. |
| FuelRecordScreen.ImageForUpload | mobile-app/src/screens/FuelRecordScreen.tsx:79-83 | A JPEG named `receipt_<millis>.jpg`. |
| FuelRecordScreen.FuelRecordForm.constructor | mobile-app/src/screens/FuelRecordScreen.tsx:21-27 | Empty fields, no image, not processing, not processed. |
| FuelRecordScreen.FuelRecordForm.SaveGate | mobile-app/src/screens/FuelRecordScreen.tsx:147-175 | The checks in order: image, then the three required fields, then a processed receipt; each outcome is stated as an iff. |
| FuelRecordScreen.FuelRecordForm.BeginProcessing | mobile-app/src/screens/FuelRecordScreen.tsx:74-75 | The spinner shows, the receipt counts as unprocessed and the form cannot save. |
| FuelRecordScreen.Merge | mobile-app/src/screens/FuelRecordScreen.tsx:92-105 | A failure or an unread receipt changes no field. A read receipt fills station and location only where they are empty, and overwrites amount and gallons only with non-zero values. |
| FuelRecordScreen.MergeIdempotent | mobile-app/src/screens/FuelRecordScreen.tsx:92-105 | Merging the same answer twice gives what merging it once gives. |
| FuelRecordScreen.FuelRecordForm.FinishProcessing | mobile-app/src/screens/FuelRecordScreen.tsx:85-132 | The spinner clears on every path. The fields become the merge of the answer into them. A read receipt marks the form processed; anything else leaves the mark. Each outcome has its alert, and the screen is left iff the server answered. |
| FuelRecordScreen.FuelRecordForm.ProcessReceiptWithOcr | mobile-app/src/screens/FuelRecordScreen.tsx:73-133 | Sends the image with the typed station and location, empty ones omitted. The fields become the merge of the server's answer into them. The form is processed iff the server read the receipt. Each outcome has its alert, and the spinner clears. |
| FuelRecordScreen.FuelRecordForm.PickImage | mobile-app/src/screens/FuelRecordScreen.tsx:32-71 | Refused permission or a cancelled picker changes nothing; refusal shows the permission alert, a cancelled pick none. Otherwise the image is kept and uploaded at once with the typed fields. The fields become the merge of the answer, the form is processed iff the server read the receipt, and the outcome's alert shows. |
| FuelRecordScreen.LocationNotRequired | mobile-app/src/screens/FuelRecordScreen.tsx:153 | The location never decides whether the form saves. |
| FuelRecordScreen.SaveNeedsProcessedReceipt | mobile-app/src/screens/FuelRecordScreen.tsx:153-166 | With image and fields filled, the form saves iff the receipt was processed. |
| FuelRecordScreen.TypedFieldsNotSent | mobile-app/src/screens/FuelRecordScreen.tsx:85-89 | The typed station name and location never reach the server: the upload request is the same whatever they hold. |
| HomeScreen.CapitalizeWords | mobile-app/src/screens/HomeScreen.tsx:86-89 | Each word is capitalised in place. |
| HomeScreen.Capitalized | mobile-app/src/screens/HomeScreen.tsx:86-89 | The reference: the first character and each one after a space are upper-cased, the rest lower-cased, and the length is kept. |
| HomeScreen.FormatUserName | mobile-app/src/screens/HomeScreen.tsx:83-90 | "User" for a missing or empty name; otherwise the capitalised name. |
| HomeScreen.CapitalizeWordAlone | mobile-app/src/screens/HomeScreen.tsx:86-89 | A single word is capitalised as the reference says. |
| HomeScreen.CapitalizeJoin | mobile-app/src/screens/HomeScreen.tsx:86-89 | Split, capitalise each word and join equals the reference on the whole name. |
| HomeScreen.FormatKeepsShape | mobile-app/src/screens/HomeScreen.tsx:86-89 | Length and space positions are kept. |
| HomeScreen.FormatIdempotent | mobile-app/src/screens/HomeScreen.tsx:83-90 | Formatting a formatted name changes nothing. |
| HomeScreen.GetFuelTypeColors | mobile-app/src/screens/HomeScreen.tsx:92-105 | Each of petrol, diesel, cng and lpg, in any case, gets its pair iff the name is that type. Anything else, missing included, gets gray. |
| HomeScreen.ColorsIgnoreCase | mobile-app/src/screens/HomeScreen.tsx:92-105 | Names equal up to case get the same colours. |
| HomeScreen.ColorExamples | mobile-app/src/screens/HomeScreen.tsx:92-105 | "Petrol", "CNG" and a missing type map to petrol, CNG and gray. |
| HomeScreen.OnQueryError | mobile-app/src/screens/HomeScreen.tsx:47-63 | Status 401 or 403 logs out and deletes both tokens, clears the error, after which the sign-in screens show. Any other error changes nothing: user, authentication, error and stored tokens are kept. |
| HomeScreen.TotalOf | mobile-app/src/screens/HomeScreen.tsx:72-73 | A sum of non-negative fields is non-negative. It is 0 when no record has the field. |
| HomeScreen.TotalAtLeastEach | mobile-app/src/screens/HomeScreen.tsx:72-73 | A non-negative sum is at least each of its terms. |
| HomeScreen.RecordsStat | mobile-app/src/screens/HomeScreen.tsx:71 | `totalElements`, or 0 when absent. |
| HomeScreen.Serialized | backend/src/main/java/com/sweetpotato/dto/fuel/FuelReceiptResponse.java:15-31 | The JSON numbers of a response are id, amount, gallons and price only. Amount and gallons appear iff set. |
| HomeScreen.SerializedAll | backend/src/main/java/com/sweetpotato/dto/fuel/FuelReceiptResponse.java:15-31 | Serialises each response in order. |
| HomeScreen.TotalLitersAsWritten | mobile-app/src/screens/HomeScreen.tsx:73 | As written: the sum of `liters`, non-negative. |
| HomeScreen.LitersTotalAlwaysZero | mobile-app/src/screens/HomeScreen.tsx:73 | On any list the server sends, the as-written total is 0. |
| HomeScreen.TotalFuel | mobile-app/src/screens/HomeScreen.tsx:73 | Corrected: the sum of the quantity the server sends, non-negative. |
| HomeScreen.FuelTotalCountsQuantity | mobile-app/src/screens/HomeScreen.tsx:73 | The corrected total is at least any record's positive quantity, while the as-written one stays 0. |
| HomeScreen.ComputeStats | mobile-app/src/screens/HomeScreen.tsx:67-80 | The count, the amount sum and the corrected fuel sum; all zero without data. |
| Text.IndexOf | backend/src/main/java/com/sweetpotato/service/MistralOcrService.java:139-152 | The first occurrence at or after `from`, or none at all. |
| Text.ContainsIffFound | backend/src/main/java/com/sweetpotato/service/MistralOcrService.java:161-172 | `contains` holds iff `indexOf` finds the text. |
| Text.LastIndexOf | backend/src/main/java/com/sweetpotato/service/S3UploadService.java:96-100 | The last position of the character, or none when absent. |
| Text.Lower | backend/src/main/java/com/sweetpotato/service/FuelBrandLogoService.java:104 | Each character is lower-cased and the length is kept. |
| Text.Trim | backend/src/main/java/com/sweetpotato/service/MistralOcrService.java:235 | No trimmable character at either end. Empty iff the input is all trimmable. |
| Text.TrimOfTrimmed | backend/src/main/java/com/sweetpotato/service/MistralOcrService.java:235 | Trimming is idempotent. |
| Text.NatToString | mobile-app/src/screens/FuelRecordScreen.tsx:82 | Decimal digits with no leading zero. |
| Text.IntToString | backend/src/main/java/com/sweetpotato/controller/FuelRecordController.java:65-66 | Digits, signed when negative. |
| Text.NatToStringValue | backend/src/main/java/com/sweetpotato/service/DynamoDbConfigService.java:203-211 | The printed digits denote the number. |
| Text.IntToStringInjective | backend/src/main/java/com/sweetpotato/controller/FuelRecordController.java:65-66 | Different numbers print differently. |
| Text.Split | mobile-app/App.tsx:33 | At least one field, and no field contains the separator. |
| Text.SplitCount | mobile-app/App.tsx:33 | One field more than there are separators. |
| Text.JoinSplit | mobile-app/App.tsx:33 | Joining the fields with the separator gives back the string. |
| Text.OrFallback | mobile-app/src/screens/ForgotPasswordScreen.tsx:53 | A non-empty message is shown; otherwise the fallback. |
| Text.Shown | backend/src/main/java/com/sweetpotato/service/FuelBrandLogoService.java:163-164 | A string is printed as itself, and null as "null", as `String.format`'s `%s` does. |

## Left out

- Network and cloud I/O become inputs of the operations that use them: the Mistral WebClient call and its 45-second block, S3 get/put/delete, the DynamoDB scan and get, and the image download.
- EmailService is not part of this model. The reset service returns the mail it would send instead.
- Cryptography is abstract: AES decryption of settings is a `decrypt` parameter, the JWT service's parsing and validation are `extractUsername`, `isTokenValid` and `loadUserByUsername` parameters, and the password encoder is a pair of functions with `matches(raw, encode(raw))`.
- Base64, `atob` and JSON parsing are parameters. This covers JWT payload decoding, Jackson's `readTree`, `new BigDecimal(text)` and `LocalDateTime.parse` in the ISO format or with a given pattern. The model reads fields from an abstract JSON tree.
- The clock is a parameter. Time is an integer.
- The random OTP digits are an input sequence of six draws.
- Concurrency is not modelled: the `ConcurrentHashMap` set of recent uploads is a plain set under sequential calls, and the client's async requests run in program order.
- Logging and the start-up event wiring are not modelled. Of the transactions, only `resetPassword`'s rollback on a refused code is modelled.
- PasswordReset.PasswordResetService.ResetPassword: the "User not found" error is never raised, because a code only verifies for a stored user; a user deleted between the two look-ups is concurrency, which is not modelled.
- PasswordReset.PasswordResetService.VerifyOtp: the attempt a wrong code costs is stored as if committed. Whether `verifyOtp`'s read-only transaction writes it back depends on the user service, which is not part of this model.
- FuelRecordController.FuelRecordControllerState.GetUserFuelRecords: the `@Min`/`@Max` checks are taken to run before the method body, as Spring Framework 6.1 and later do for constrained controller parameters. Under older versions without `@Validated` they are not checked at all. A page or size that is not a number, which also gives 400, is not modelled.
- Database paging is modelled in memory: `PageOf` over the owner's records sorted newest first.
- The DynamoDB scan filter is the function `Scanned`. It keeps exactly the items whose environment attribute equals the service's.
- DynamoConfig.Scanned: returns every item of the environment, but DynamoDbConfigService.java:74 makes a single `scan` call and never follows `LastEvaluatedKey`, so a table past DynamoDB's 1 MB page limit would be read only in part. Paging of the scan is not modelled.
- JavaScript numbers are reals: sums are exact, and `toFixed` and number-to-string display are a `show` parameter.
- Strings are sequences of Unicode characters, but Java and JavaScript measure strings in UTF-16 code units. The two differ only for characters outside the Basic Multilingual Plane. For example, "😀😀😀" has length 6 in JavaScript and so meets the six-character password minimum, and Java's Levenshtein distance from "😀" to "" is 2. The lengths and indices of ResetPasswordScreen.ValidatePassword, ResetPasswordScreen.PasswordStrength, FuelBrandLogo.LevenshteinDistance, `Trim`, `IndexOf` and the one-character OTP slots (`maxLength`) count characters, not code units.
- Case mapping and digit tests cover ASCII only. Java's and JavaScript's Unicode case tables are not modelled.
- DynamoConfig.ParseLong: reads an optional sign and ASCII digits only; the non-ASCII digits that `Long.valueOf` also accepts are left out.
- MistralOcr.GetDoubleValue: states only when the value is null, because the double conversion is the JSON library's.
- The Mistral prompt text is a parameter; its wording is not modelled.
- S3 URL encoding of keys is not modelled: keys appear in URLs verbatim.
- A JWT whose `exp` is present but not a number is read as having no expiry.
- FuelBrandLogo.BrandLogoService.MatchBrand: the choice among several matching keys is left open, because it follows `HashMap` iteration order.
- Navigation and alerts are outputs of the screen operations. The image picker and the permission prompts are inputs.
- Presentation is not modelled: FuelHistoryScreen.tsx, FuelRecordDetailScreen.tsx, ProfileScreen.tsx, the navigators, the animations and the styles.
- Also outside the model: authApi.ts, AuthService.java, AuthController.java, TestController.java and DynamoDbConfiguration.java. They are pass-throughs over code that is not part of this model.
- Two field sets in the sources disagree, and the model follows the code:
  - `FuelRecordService` stores `liters` and `pricePerLiter` on the record, and `mapToResponse` sends them as `gallons` and `pricePerGallon`.
  - `FuelRecord.java`'s own hooks use `gallons` and `pricePerGallon`.
  - Each group of operations is modelled with its own file's fields.

## Findings

| source | as written | input that shows it | evidently intended | confidence | as-written member | corrected member |
|---|---|---|---|---|---|---|
| backend/src/main/java/com/sweetpotato/service/S3UploadService.java:85-100 | `deleteFile` deletes the object named by the text after the URL's last '/' | a receipt uploaded under key `receipts/<uuid>_r.jpg`; deleting its URL asks S3 to delete `<uuid>_r.jpg` and the receipt stays | delete the object under the key the upload stored, `receipts/<uuid>_r.jpg` | not executed | S3Upload.S3UploadService.DeleteFile, S3Upload.DeleteKeyMissesReceipt, S3Upload.DeleteKeyExample, S3Upload.ReceiptSurvivesDelete | S3Upload.S3UploadService.DeleteStoredFile, S3Upload.ReceiptRemovedByStoredKeyDelete |
| mobile-app/src/screens/HomeScreen.tsx:73 | the fuel total sums `record.liters` | any record list from the server; responses carry the quantity as `gallons` and have no `liters` field, so the total is 0 | sum the quantity field the server sends | not executed | HomeScreen.TotalLitersAsWritten, HomeScreen.LitersTotalAlwaysZero | HomeScreen.TotalFuel, HomeScreen.FuelTotalCountsQuantity |
