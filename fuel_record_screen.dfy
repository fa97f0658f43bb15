/** The add-record form of mobile-app/src/screens/FuelRecordScreen.tsx: picking
    a receipt image uploads it at once, the OCR result is merged into the
    form without overwriting a typed station name or location, and saving is
    gated on the image, the three required fields and a processed receipt.
    The permission answers, the picker, the clock and the server's answer are
    inputs; a number's `toString` is the parameter `show`. */
module FuelRecordScreen {
  import opened Base
  import opened Text
  import FuelRecordApi
  import AppStartup

  /** The fields of the upload's answer that the form reads. */
  datatype OcrResult = OcrResult(
    ocrProcessed: bool,
    stationName: Option<string>,
    amount: Option<real>,
    gallons: Option<real>,
    location: Option<string>)

  /** JavaScript truthiness of a number that may be absent. */
  predicate NonZero(x: Option<real>) {
    x.Some? && x.value != 0.0
  }

  /** The alert a pick or an upload ends with. */
  datatype Notice =
    | NoNotice
    | PermissionNeeded(message: string)
    | ReceiptProcessed
    | ReceiptUploaded
    | ProcessingFailed(message: string)

  datatype ImageSource = PhotoLibrary | Camera

  /** What pressing "Save" leads to, in the order the checks are made. */
  datatype SaveOutcome = NeedImage | NeedFields | ProcessingRequired | Saved

  const UploadFailure: string := "Failed to process receipt. Please try again or enter details manually."

  /** `stationName || undefined`: an empty field is not sent. */
  function Optional(s: string): (r: Option<string>)
    ensures r.None? <==> s == ""
    ensures r.Some? ==> r.value == s
  {
    if s == "" then None else Some(s)
  }

  /** The image as the upload sends it: a JPEG named after the clock. */
  function ImageForUpload(uri: string, nowMillis: nat): (r: FuelRecordApi.ReceiptImage)
    ensures r.uri == uri && r.mimeType == "image/jpeg"
    ensures r.name == "receipt_" + NatToString(nowMillis) + ".jpg"
  {
    FuelRecordApi.ReceiptImage(uri, "image/jpeg", "receipt_" + NatToString(nowMillis) + ".jpg")
  }

  /** The four text fields of the form. */
  datatype Fields = Fields(stationName: string, amount: string, gallons: string, location: string)

  /** How an upload's answer is merged into the form's fields. */
  function Merge(f: Fields, outcome: Result<OcrResult, Option<string>>, show: real -> string): (r: Fields)
    // a failure, or a receipt the server could not read, changes no field
    ensures !(outcome.Ok? && outcome.value.ocrProcessed) ==> r == f
    ensures outcome.Ok? && outcome.value.ocrProcessed ==>
              var res := outcome.value;
              // a typed station name or location is kept; an empty one takes the result's
              && (f.stationName != "" ==> r.stationName == f.stationName)
              && (f.stationName == "" ==>
                    r.stationName == (if AppStartup.Truthy(res.stationName) then res.stationName.value else ""))
              && (f.location != "" ==> r.location == f.location)
              && (f.location == "" ==>
                    r.location == (if AppStartup.Truthy(res.location) then res.location.value else ""))
              // amount and gallons are overwritten by any non-zero value, kept otherwise
              && r.amount == (if NonZero(res.amount) then show(res.amount.value) else f.amount)
              && r.gallons == (if NonZero(res.gallons) then show(res.gallons.value) else f.gallons)
  {
    if outcome.Err? || !outcome.value.ocrProcessed then f
    else
      var res := outcome.value;
      Fields(
        if AppStartup.Truthy(res.stationName) && f.stationName == "" then res.stationName.value else f.stationName,
        if NonZero(res.amount) then show(res.amount.value) else f.amount,
        if NonZero(res.gallons) then show(res.gallons.value) else f.gallons,
        if AppStartup.Truthy(res.location) && f.location == "" then res.location.value else f.location)
  }

  /** Merging the same answer a second time changes nothing more. */
  lemma MergeIdempotent(f: Fields, outcome: Result<OcrResult, Option<string>>, show: real -> string)
    ensures Merge(Merge(f, outcome, show), outcome, show) == Merge(f, outcome, show)
  {
    if outcome.Ok? && outcome.value.ocrProcessed {
      var res := outcome.value;
      var once := Merge(f, outcome, show);
      assert AppStartup.Truthy(res.stationName) ==> res.stationName.value != "";
      assert AppStartup.Truthy(res.location) ==> res.location.value != "";
      assert Merge(once, outcome, show).stationName == once.stationName;
      assert Merge(once, outcome, show).location == once.location;
    }
  }

  class FuelRecordForm {
    var stationName: string
    var amount: string
    var gallons: string
    var location: string
    var selectedImage: Option<string>
    var isProcessing: bool
    var ocrProcessed: bool

    constructor ()
      ensures stationName == "" && amount == "" && gallons == "" && location == ""
      ensures selectedImage.None? && !isProcessing && !ocrProcessed
    {
      stationName, amount, gallons, location := "", "", "", "";
      selectedImage := None;
      isProcessing, ocrProcessed := false, false;
    }

    function FormFields(): Fields
      reads this
    {
      Fields(stationName, amount, gallons, location)
    }

    /** `handleSave`: the first failed check decides the alert. */
    function SaveGate(): (r: SaveOutcome)
      reads this
      ensures r == NeedImage <==> !AppStartup.Truthy(selectedImage)
      ensures r == NeedFields <==>
                AppStartup.Truthy(selectedImage) && (stationName == "" || amount == "" || gallons == "")
      ensures r == ProcessingRequired <==>
                (AppStartup.Truthy(selectedImage) && stationName != "" && amount != "" && gallons != ""
                 && !ocrProcessed)
      ensures r == Saved <==>
                (AppStartup.Truthy(selectedImage) && stationName != "" && amount != "" && gallons != ""
                 && ocrProcessed)
    {
      if !AppStartup.Truthy(selectedImage) then NeedImage
      else if stationName == "" || amount == "" || gallons == "" then NeedFields
      else if !ocrProcessed then ProcessingRequired
      else Saved
    }

    /** The start of `processReceiptWithOCR`: the spinner shows and the
        previous OCR mark is dropped; the form fields are untouched. */
    method BeginProcessing()
      modifies this`isProcessing, this`ocrProcessed
      ensures isProcessing && !ocrProcessed
      ensures SaveGate() != Saved
    {
      isProcessing := true;
      ocrProcessed := false;
    }

    /** The rest of `processReceiptWithOCR`, once the upload has answered:
        the merge of the result, the alert, and the spinner cleared on every
        path. `wentBack` says whether the screen was left. */
    method FinishProcessing(outcome: Result<OcrResult, Option<string>>, show: real -> string)
      returns (notice: Notice, wentBack: bool)
      modifies this`stationName, this`amount, this`gallons, this`location, this`isProcessing, this`ocrProcessed
      ensures !isProcessing
      // the screen is left after any answer from the server, and only then
      ensures wentBack <==> outcome.Ok?
      // the answer is merged into the fields
      ensures FormFields() == Merge(old(FormFields()), outcome, show)
      // a read receipt marks the form processed; anything else leaves the mark
      ensures ocrProcessed == (if outcome.Ok? && outcome.value.ocrProcessed then true else old(ocrProcessed))
      ensures outcome.Err? ==> notice == ProcessingFailed(OrFallback(outcome.error, UploadFailure))
      ensures outcome.Ok? && !outcome.value.ocrProcessed ==> notice == ReceiptUploaded
      ensures outcome.Ok? && outcome.value.ocrProcessed ==> notice == ReceiptProcessed
    {
      wentBack := false;
      if outcome.Err? {
        notice := ProcessingFailed(OrFallback(outcome.error, UploadFailure));
      } else {
        var result := outcome.value;
        if result.ocrProcessed {
          ocrProcessed := true;
          if AppStartup.Truthy(result.stationName) && stationName == "" {
            stationName := result.stationName.value;
          }
          if NonZero(result.amount) {
            amount := show(result.amount.value);
          }
          if NonZero(result.gallons) {
            gallons := show(result.gallons.value);
          }
          if AppStartup.Truthy(result.location) && location == "" {
            location := result.location.value;
          }
          notice := ReceiptProcessed;
        } else {
          notice := ReceiptUploaded;
        }
        wentBack := true;
      }
      isProcessing := false;
    }

    /** `processReceiptWithOCR`: the upload is sent with the station name and
        location typed so far (empty ones left out), and its answer merged. */
    method ProcessReceiptWithOcr(uri: string, nowMillis: nat,
                                 upload: FuelRecordApi.UploadReceiptRequest -> Result<OcrResult, Option<string>>,
                                 show: real -> string)
      returns (sent: FuelRecordApi.UploadReceiptRequest, notice: Notice, wentBack: bool)
      modifies this`stationName, this`amount, this`gallons, this`location, this`isProcessing, this`ocrProcessed
      ensures sent == FuelRecordApi.UploadReceiptRequest(ImageForUpload(uri, nowMillis),
                                                          Optional(old(stationName)), Optional(old(location)))
      ensures !isProcessing
      // the form counts as processed exactly when the server read the receipt
      ensures ocrProcessed <==> upload(sent).Ok? && upload(sent).value.ocrProcessed
      ensures wentBack <==> upload(sent).Ok?
      // the answer is merged into the fields as they were
      ensures FormFields() == Merge(old(FormFields()), upload(sent), show)
      ensures upload(sent).Err? ==> notice == ProcessingFailed(OrFallback(upload(sent).error, UploadFailure))
      ensures upload(sent).Ok? && !upload(sent).value.ocrProcessed ==> notice == ReceiptUploaded
      ensures upload(sent).Ok? && upload(sent).value.ocrProcessed ==> notice == ReceiptProcessed
    {
      BeginProcessing();
      sent := FuelRecordApi.UploadReceiptRequest(ImageForUpload(uri, nowMillis),
                                                 Optional(stationName), Optional(location));
      notice, wentBack := FinishProcessing(upload(sent), show);
    }

    /** `pickImage` and `takePhoto`. `granted` is the permission answer and
        `picked` the chosen image's uri, `None` when the picker was
        cancelled. */
    method PickImage(source: ImageSource, granted: bool, picked: Option<string>, nowMillis: nat,
                     upload: FuelRecordApi.UploadReceiptRequest -> Result<OcrResult, Option<string>>,
                     show: real -> string)
      returns (notice: Notice)
      modifies this
      // refused or cancelled: nothing changes
      ensures !granted ==>
                notice == PermissionNeeded(if source == PhotoLibrary then "Please grant permission to access photos"
                                           else "Please grant permission to access camera")
      ensures (!granted || picked.None?) ==>
                && selectedImage == old(selectedImage) && ocrProcessed == old(ocrProcessed)
                && stationName == old(stationName) && amount == old(amount)
                && gallons == old(gallons) && location == old(location)
                && isProcessing == old(isProcessing)
      // a cancelled pick shows nothing
      ensures granted && picked.None? ==> notice == NoNotice
      // otherwise the image is kept and processed at once, with the fields as typed
      ensures granted && picked.Some? ==>
                var sent := FuelRecordApi.UploadReceiptRequest(ImageForUpload(picked.value, nowMillis),
                                                               Optional(old(stationName)), Optional(old(location)));
                && selectedImage == picked && !isProcessing
                && FormFields() == Merge(old(FormFields()), upload(sent), show)
                && (ocrProcessed <==> upload(sent).Ok? && upload(sent).value.ocrProcessed)
                && (upload(sent).Err? ==> notice == ProcessingFailed(OrFallback(upload(sent).error, UploadFailure)))
                && (upload(sent).Ok? && !upload(sent).value.ocrProcessed ==> notice == ReceiptUploaded)
                && (upload(sent).Ok? && upload(sent).value.ocrProcessed ==> notice == ReceiptProcessed)
    {
      if !granted {
        return PermissionNeeded(if source == PhotoLibrary then "Please grant permission to access photos"
                                else "Please grant permission to access camera");
      }
      if picked.None? {
        return NoNotice;
      }
      selectedImage := picked;
      var sent, wentBack;
      sent, notice, wentBack := ProcessReceiptWithOcr(picked.value, nowMillis, upload, show);
    }
  }

  /** The location does not decide whether the form saves: it is
      optional. */
  lemma LocationNotRequired(f: FuelRecordForm, g: FuelRecordForm)
    requires f.selectedImage == g.selectedImage && f.ocrProcessed == g.ocrProcessed
    requires f.stationName == g.stationName && f.amount == g.amount && f.gallons == g.gallons
    ensures f.SaveGate() == g.SaveGate()
  {
  }

  /** Whatever the user types, an image that the server could not read
      leaves the form unsaveable; a read one with the required values
      filled saves. */
  lemma SaveNeedsProcessedReceipt(f: FuelRecordForm)
    requires AppStartup.Truthy(f.selectedImage)
    requires f.stationName != "" && f.amount != "" && f.gallons != ""
    ensures f.SaveGate() == Saved <==> f.ocrProcessed
    ensures !f.ocrProcessed ==> f.SaveGate() == ProcessingRequired
  {
  }

  /** Nothing typed into the form reaches the server with the image: two
      uploads of the same picture from differently filled forms send the
      same request. */
  lemma TypedFieldsNotSent(uri: string, nowMillis: nat, s1: string, l1: string, s2: string, l2: string)
    ensures FuelRecordApi.UploadReceiptQuery(
              FuelRecordApi.UploadReceiptRequest(ImageForUpload(uri, nowMillis), Optional(s1), Optional(l1)))
            == FuelRecordApi.UploadReceiptQuery(
                 FuelRecordApi.UploadReceiptRequest(ImageForUpload(uri, nowMillis), Optional(s2), Optional(l2)))
  {
    FuelRecordApi.UploadSendsOnlyTheImage(
      FuelRecordApi.UploadReceiptRequest(ImageForUpload(uri, nowMillis), Optional(s1), Optional(l1)),
      FuelRecordApi.UploadReceiptRequest(ImageForUpload(uri, nowMillis), Optional(s2), Optional(l2)));
  }
}
