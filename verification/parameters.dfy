/** The application parameters the artwork form and the dispatch client read:
    the validation limits, the user-facing messages and the default year.
    The current calendar year is a parameter wherever the application reads
    the clock. */
module Parameters {
  import opened Wrappers
  import opened Text

  const MinTitleLength: nat := 3
  const MaxTitleLength: nat := 100
  const MaxDescriptionLength: nat := 1000
  const MinYear: int := 2000
  const AllowedImageTypes: seq<string> := ["image/jpeg", "image/png", "image/gif", "image/webp"]
  const MaxImageSize: nat := 5 * 1024 * 1024

  /** The latest year the year input offers: the year the page was loaded in. */
  function MaxYear(currentYear: int): int {
    currentYear
  }

  /** The year a fresh form starts with. */
  function DefaultYear(currentYear: int): int {
    currentYear
  }

  const TitleRequiredMessage: string := "Please enter a title for your artwork"
  const ImageRequiredMessage: string := "Please upload at least one image of your artwork"
  const InvalidImageTypeMessage: string := "Please upload a valid image file (JPEG, PNG, GIF, or WebP)"
  const ImageTooLargeMessage: string := "Image size exceeds the maximum allowed (5MB)"

  const SuccessPrefix: string := "Art \""
  const SuccessSuffix: string := "\" submitted successfully!"

  /** The confirmation shown after a valid submission: the title verbatim,
      in double quotes, between a fixed opening and closing. */
  function SubmissionSuccess(title: string): (m: string)
    ensures |m| == |SuccessPrefix| + |title| + |SuccessSuffix|
    ensures m[..|SuccessPrefix|] == SuccessPrefix
    ensures m[|SuccessPrefix|..|SuccessPrefix| + |title|] == title
    ensures m[|SuccessPrefix| + |title|..] == SuccessSuffix
  {
    SuccessPrefix + title + SuccessSuffix
  }

  /** Reads the title back out of a confirmation message; `None` for any
      string that is not one. */
  function SuccessTitle(m: string): (t: Option<string>)
    ensures t.Some? ==> |t.value| + |SuccessPrefix| + |SuccessSuffix| == |m|
  {
    if |m| >= |SuccessPrefix| + |SuccessSuffix|
       && m[..|SuccessPrefix|] == SuccessPrefix
       && m[|m| - |SuccessSuffix|..] == SuccessSuffix
    then Some(m[|SuccessPrefix|..|m| - |SuccessSuffix|])
    else None
  }

  /** Every confirmation message names its title, and only confirmation
      messages yield a title. */
  lemma SuccessTitleRoundTrip(title: string, m: string)
    ensures SuccessTitle(SubmissionSuccess(title)) == Some(title)
    ensures SuccessTitle(m) == Some(title) ==> SubmissionSuccess(title) == m
  {}

  /** Two titles produce the same confirmation only if they are equal. */
  lemma SubmissionSuccessInjective(a: string, b: string)
    ensures SubmissionSuccess(a) == SubmissionSuccess(b) ==> a == b
  {}

  /** No fixed error message can be mistaken for a confirmation. */
  lemma ErrorMessagesAreNotConfirmations()
    ensures SuccessTitle(TitleRequiredMessage) == None
    ensures SuccessTitle(ImageRequiredMessage) == None
    ensures SuccessTitle(InvalidImageTypeMessage) == None
    ensures SuccessTitle(ImageTooLargeMessage) == None
  {}

  /** The title bounds leave room for a valid title. */
  lemma TitleBoundsOrdered()
    ensures MinTitleLength < MaxTitleLength
  {}

  /** The image size limit is five mebibytes. */
  lemma MaxImageSizeIsFiveMebibytes()
    ensures MaxImageSize == 5_242_880
  {}

  /** The allow-list holds exactly the four listed media types, each an `image/` type. */
  lemma AllowedImageTypesAreImages()
    ensures forall t :: t in AllowedImageTypes <==> t in {"image/jpeg", "image/png", "image/gif", "image/webp"}
    ensures forall i :: 0 <= i < |AllowedImageTypes| ==> StartsWith(AllowedImageTypes[i], "image/")
  {}

  /** The form's default year is the latest year its input allows, and the
      year range is non-empty from the year 2000 on. */
  lemma YearBounds(currentYear: int)
    ensures DefaultYear(currentYear) == MaxYear(currentYear)
    ensures currentYear >= 2000 ==> MinYear <= MaxYear(currentYear)
    ensures currentYear < 2000 ==> MinYear > MaxYear(currentYear)
  {}
}
