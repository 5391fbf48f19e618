/** The state and event handlers of the "add artwork" form: the form record,
    the three handlers that update it, and the submit-time validator, whose
    rules are checked in a fixed order and the first failing one decides the
    message shown. */
module AddArtPage {
  import opened Wrappers
  import opened Text
  import opened Parameters

  /** The metadata of a browser `File` the form looks at. */
  datatype File = File(name: string, mediaType: string, size: nat)

  /** The value an input holds: the year starts as the number the page put
      there and becomes the text of the input once the user edits it. */
  datatype Input = Number(n: int) | Typed(s: string)

  datatype Form = Form(title: string, description: string, year: Input, image: Option<File>)

  /** The inputs wired to the shared change handler, named by their `name` attribute. */
  datatype Field = Title | Description | Year

  /** What an input of the form currently shows. */
  function FieldValue(form: Form, field: Field): Input {
    match field
    case Title => Typed(form.title)
    case Description => Typed(form.description)
    case Year => form.year
  }

  /** The form as the page first renders it: empty texts, the default year, no image. */
  function InitialForm(currentYear: int): (form: Form)
    ensures FieldValue(form, Title) == Typed("") && FieldValue(form, Description) == Typed("")
    ensures FieldValue(form, Year) == Number(DefaultYear(currentYear))
    ensures form.image == None
  {
    Form("", "", Number(DefaultYear(currentYear)), None)
  }

  /** A form is determined by what its inputs show and the image it holds. */
  lemma FormExtensionality(a: Form, b: Form)
    requires forall field :: FieldValue(a, field) == FieldValue(b, field)
    requires a.image == b.image
    ensures a == b
  {
    assert FieldValue(a, Title) == FieldValue(b, Title);
    assert FieldValue(a, Description) == FieldValue(b, Description);
    assert FieldValue(a, Year) == FieldValue(b, Year);
  }

  /** The change handler: the edited input takes the typed text and nothing else changes. */
  function HandleChange(form: Form, field: Field, value: string): (r: Form)
    ensures FieldValue(r, field) == Typed(value)
    ensures forall other :: other != field ==> FieldValue(r, other) == FieldValue(form, other)
    ensures r.image == form.image
  {
    match field
    case Title => form.(title := value)
    case Description => form.(description := value)
    case Year => form.(year := Typed(value))
  }

  /** Editing the same input twice keeps the last text; editing two different
      inputs gives the same form in either order. */
  lemma HandleChangeLastWriteWins(form: Form, field: Field, other: Field, v: string, w: string)
    ensures HandleChange(HandleChange(form, field, v), field, w) == HandleChange(form, field, w)
    ensures field != other ==>
      HandleChange(HandleChange(form, field, v), other, w) == HandleChange(HandleChange(form, other, w), field, v)
  {}

  /** The form with `file` as its image, every input as it was. */
  function AttachImage(form: Form, file: File): (r: Form)
    ensures r.image == Some(file)
    ensures forall field :: FieldValue(r, field) == FieldValue(form, field)
  {
    form.(image := Some(file))
  }

  /** The file picker's change handler: the first chosen file, if any, becomes the image. */
  function HandleImageChange(form: Form, files: seq<File>): (r: Form)
    ensures |files| == 0 ==> r == form
    ensures |files| > 0 ==> r.image == Some(files[0])
    ensures forall field :: FieldValue(r, field) == FieldValue(form, field)
  {
    if |files| > 0 then AttachImage(form, files[0]) else form
  }

  /** Whether a media type passes the drop zone's filter. */
  predicate IsImageMediaType(mediaType: string) {
    StartsWith(mediaType, "image/")
  }

  /** The drop handler: the first dropped file becomes the image, but only if
      its media type is an `image/` type; otherwise the form is unchanged. */
  function HandleDrop(form: Form, files: seq<File>): (r: Form)
    ensures |files| == 0 || !IsImageMediaType(files[0].mediaType) ==> r == form
    ensures |files| > 0 && IsImageMediaType(files[0].mediaType) ==> r.image == Some(files[0])
    ensures forall field :: FieldValue(r, field) == FieldValue(form, field)
  {
    if |files| > 0 && IsImageMediaType(files[0].mediaType) then AttachImage(form, files[0]) else form
  }

  /** A drop of an `image/` file does what choosing it in the picker does. */
  lemma DropAgreesWithPicker(form: Form, files: seq<File>)
    requires |files| > 0 && IsImageMediaType(files[0].mediaType)
    ensures HandleDrop(form, files) == HandleImageChange(form, files)
  {}

  /** The submit-time rules, in the order they are checked. */
  datatype Rule = TitleRequired | ImageRequired | InvalidImageType | ImageTooLarge

  /** The position of a rule in the checking order. */
  function Rank(rule: Rule): nat {
    match rule
    case TitleRequired => 0
    case ImageRequired => 1
    case InvalidImageType => 2
    case ImageTooLarge => 3
  }

  /** The alert shown when a rule fails. */
  function Message(rule: Rule): string {
    match rule
    case TitleRequired => TitleRequiredMessage
    case ImageRequired => ImageRequiredMessage
    case InvalidImageType => InvalidImageTypeMessage
    case ImageTooLarge => ImageTooLargeMessage
  }

  /** No alert for a broken rule reads as a confirmation. */
  lemma MessageIsNotConfirmation(rule: Rule)
    ensures SuccessTitle(Message(rule)) == None
  {}

  /** Whether `form` breaks `rule`, judged on its own: a blank or short title
      (length in UTF-16 units, untrimmed), no image, an image whose media type
      is not on the allow-list, an image over the size limit. */
  predicate Fails(form: Form, rule: Rule) {
    match rule
    case TitleRequired => IsBlank(form.title) || Utf16Length(form.title) < MinTitleLength
    case ImageRequired => form.image.None?
    case InvalidImageType => form.image.Some? && form.image.value.mediaType !in AllowedImageTypes
    case ImageTooLarge => form.image.Some? && form.image.value.size > MaxImageSize
  }

  /** A form breaks no rule exactly when it breaks none of the four one by one. */
  lemma NoRuleFails(form: Form)
    ensures (forall rule :: !Fails(form, rule)) <==>
      !Fails(form, TitleRequired) && !Fails(form, ImageRequired)
      && !Fails(form, InvalidImageType) && !Fails(form, ImageTooLarge)
  {}

  /** The rules ranked before `rule` all pass when each is known to pass. */
  lemma EarlierRulesPass(form: Form, rule: Rule)
    requires Rank(rule) >= 1 ==> !Fails(form, TitleRequired)
    requires Rank(rule) >= 2 ==> !Fails(form, ImageRequired)
    requires Rank(rule) >= 3 ==> !Fails(form, InvalidImageType)
    ensures forall earlier :: Rank(earlier) < Rank(rule) ==> !Fails(form, earlier)
  {}

  /** The submit handler's decision: the confirmation message for an
      accepted form, or the first rule the form breaks. Year and description
      are not looked at. */
  function HandleSubmit(form: Form): (r: Result<string, Rule>)
    ensures r.Ok? <==> forall rule :: !Fails(form, rule)
    ensures r.Ok? ==> r.value == SubmissionSuccess(form.title)
    ensures r.Err? ==> Fails(form, r.error)
    ensures r.Err? ==> forall rule :: Rank(rule) < Rank(r.error) ==> !Fails(form, rule)
  {
    TrimEmptyIffBlank(form.title);
    NoRuleFails(form);
    if Trim(form.title) == [] || Utf16Length(form.title) < MinTitleLength then
      EarlierRulesPass(form, TitleRequired);
      Err(TitleRequired)
    else if form.image.None? then
      EarlierRulesPass(form, ImageRequired);
      Err(ImageRequired)
    else if form.image.value.mediaType !in AllowedImageTypes then
      EarlierRulesPass(form, InvalidImageType);
      Err(InvalidImageType)
    else if form.image.value.size > MaxImageSize then
      EarlierRulesPass(form, ImageTooLarge);
      Err(ImageTooLarge)
    else Ok(SubmissionSuccess(form.title))
  }

  /** The text of the alert the submit handler raises. */
  function SubmitAlert(form: Form): (m: string)
    ensures HandleSubmit(form).Ok? ==> m == SubmissionSuccess(form.title)
    ensures HandleSubmit(form).Err? ==> m == Message(HandleSubmit(form).error)
    ensures HandleSubmit(form).Ok? <==> SuccessTitle(m) == Some(form.title)
  {
    match HandleSubmit(form)
    case Ok(confirmation) =>
      SuccessTitleRoundTrip(form.title, confirmation);
      confirmation
    case Err(rule) =>
      MessageIsNotConfirmation(rule);
      Message(rule)
  }

  /** The title rule on its own: it rejects exactly the blank titles and the
      titles shorter than the minimum, whatever else the form holds. */
  lemma TitleRuleDecides(form: Form)
    ensures HandleSubmit(form) == Err(TitleRequired)
      <==> IsBlank(form.title) || Utf16Length(form.title) < MinTitleLength
  {}

  /** The minimum length counts the untrimmed title: two leading spaces make
      `"  ab"` long enough, so the form moves on to the image rule. */
  lemma PaddedTitlePassesTitleRule(form: Form)
    requires form.title == "  ab" && form.image == None
    ensures HandleSubmit(form) == Err(ImageRequired)
  {
    assert !IsWhitespace(form.title[2]);
    assert Utf16Length(form.title) == 4;
  }

  /** The length is counted in UTF-16 units, so a title of two code points,
      one outside the Basic Multilingual Plane, is long enough. */
  lemma AstralTitlePassesTitleRule(form: Form)
    requires form.title == "\U{1F3A8}a"
    ensures |form.title| < MinTitleLength
    ensures !Fails(form, TitleRequired)
  {
    assert !IsWhitespace(form.title[1]);
    assert Utf16Length(form.title) == 3;
  }

  /** Once the title is acceptable, a missing image is reported and the type
      and size rules are never reached. */
  lemma MissingImageStopsBeforeTypeAndSize(form: Form)
    requires !Fails(form, TitleRequired) && form.image == None
    ensures HandleSubmit(form) == Err(ImageRequired)
  {}

  /** With an acceptable title, a present image is turned away for its type
      exactly when its media type is not one of the allowed entries. */
  lemma TypeRuleIsExactMembership(form: Form, file: File)
    requires !Fails(form, TitleRequired) && form.image == Some(file)
    ensures HandleSubmit(form) == Err(InvalidImageType) <==> file.mediaType !in AllowedImageTypes
  {}

  /** With an acceptable title and an allowed type, the form is accepted
      exactly when the image is at most the size limit; the limit itself
      passes and one byte more fails. */
  lemma SizeLimitBoundary(form: Form, file: File)
    requires !Fails(form, TitleRequired) && form.image == Some(file)
    requires file.mediaType in AllowedImageTypes
    ensures HandleSubmit(form).Ok? <==> file.size <= MaxImageSize
    ensures file.size == MaxImageSize ==> HandleSubmit(form) == Ok(SubmissionSuccess(form.title))
    ensures file.size == MaxImageSize + 1 ==> HandleSubmit(form) == Err(ImageTooLarge)
  {}

  /** The outcome depends on the title and the image only. */
  lemma OutcomeIgnoresYearAndDescription(a: Form, b: Form)
    requires a.title == b.title && a.image == b.image
    ensures HandleSubmit(a) == HandleSubmit(b)
  {}

  /** The year range and the maximum title and description lengths are
      attributes of the inputs only: a form outside all three is accepted. */
  lemma InputLimitsAreNotChecked()
    ensures var form := Form(seq(MaxTitleLength + 1, _ => 'a'), seq(MaxDescriptionLength + 1, _ => 'd'),
                                 Typed("1999"), Some(File("a.png", "image/png", 1)));
      HandleSubmit(form) == Ok(SubmissionSuccess(form.title))
  {}

  /** A dropped `image/bmp` file gets past the drop filter and is stored, but
      the submit handler then rejects its type. */
  lemma DroppedBitmapStoredThenRejected(form: Form, file: File)
    requires !Fails(form, TitleRequired) && file.mediaType == "image/bmp"
    ensures HandleDrop(form, [file]).image == Some(file)
    ensures HandleSubmit(HandleDrop(form, [file])) == Err(InvalidImageType)
  {
    assert IsImageMediaType(file.mediaType) by {
      assert file.mediaType[..|"image/"|] == "image/";
    }
    assert file.mediaType !in AllowedImageTypes by {
      assert file.mediaType[6] == 'b';
      assert forall i :: 0 <= i < |AllowedImageTypes| ==> AllowedImageTypes[i][6] != 'b';
    }
    var dropped := AttachImage(form, file);
    assert HandleDrop(form, [file]) == dropped;
    assert Fails(dropped, TitleRequired) == Fails(form, TitleRequired);
    TypeRuleIsExactMembership(dropped, file);
  }

  /** Every image the submit handler accepts would also pass the drop filter. */
  lemma AcceptedImagePassesDropFilter(form: Form)
    ensures HandleSubmit(form).Ok? ==> form.image.Some? && IsImageMediaType(form.image.value.mediaType)
  {
    if HandleSubmit(form).Ok? {
      AllowedImageTypesAreImages();
      var t := form.image.value.mediaType;
      assert !Fails(form, InvalidImageType);
      var i :| 0 <= i < |AllowedImageTypes| && AllowedImageTypes[i] == t;
    }
  }

  /** Submitting the form as first rendered is rejected for its empty title. */
  lemma InitialFormRejected(currentYear: int)
    ensures HandleSubmit(InitialForm(currentYear)) == Err(TitleRequired)
  {}
}
