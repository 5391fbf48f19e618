# Artwork submission form and GitHub dispatch client: a Dafny model

This project models the two pieces of decision logic in the portfolio site's
"add artwork" flow and proves properties about them.

- **The form** (`AddArtPage` module, `add_art_page.dfy`) models the record the
  page keeps: title, description, year and the chosen image file. It also
  models the handlers that update that record. The change handler edits one
  input. The file picker stores the first chosen file. The drop zone stores the
  first dropped file, but only when its media type starts with `image/`.
  The submit handler checks four rules in a fixed order and stops at the first
  one that fails:
  1. the title must be non-blank after trimming, and its untrimmed UTF-16
     length must be at least 3;
  2. an image must be present;
  3. the image's media type must be on the allow-list;
  4. the image must be at most 5 MiB.

  Each failing rule has a fixed alert. An accepted form gets the confirmation
  `Art "<title>" submitted successfully!`.
- **The parameters** (`Parameters` module, `parameters.dfy`) hold the
  validation limits, the five messages and the default year. The current
  calendar year is a parameter, not a clock read.
- **The dispatch client** (`GitHubDispatch` module, `github.dfy`) models the
  call that sends a `repository_dispatch` event for an artwork. The outcome of
  the network call is an input: it threw, or it returned a status together
  with a body that does or does not parse as JSON. The request is built
  before the token is checked. The function always resolves to a
  `{success, message, error}` result.
- `Text` (`text.dfy`) models the JavaScript string operations the form uses.
  `trim` strips the ECMAScript WhiteSpace and LineTerminator code points.
  `startsWith` is a prefix test. `length` counts UTF-16 code units.
  `Wrappers` (`wrappers.dfy`) holds `Option` and `Result`.

What the code does not do:
- The submit handler does not check the year range, the maximum title length
  or the description length. Those limits exist only as attributes of the
  inputs. `InputLimitsAreNotChecked` shows a form that breaks all three and is
  still accepted.
- The form holds one image.
- Every failed dispatch reports one of two messages: "token not configured"
  or a generic error.

## Model

| member | source | states |
|---|---|---|
| Text.TrimStart | src/AddArtPage.jsx:99 | the result is a suffix of the input, everything removed is whitespace, and the result does not start with whitespace |
| Text.TrimEnd | src/AddArtPage.jsx:99 | the result is a prefix of the input, everything removed is whitespace, and the result does not end with whitespace |
| Text.Trim | src/AddArtPage.jsx:99 | the trimmed title is a contiguous part of the title; what was removed at either end is whitespace, and the result has no whitespace at either end |
| Text.TrimEmptyIffBlank | src/AddArtPage.jsx:99 | `title.trim()` is empty (falsy) exactly when every character of the title is whitespace |
| Text.Utf16Length | src/AddArtPage.jsx:99 | `title.length` counts code units: between the number of code points and twice that, and equal to it exactly when no code point lies above U+FFFF |
| Text.Utf16LengthAppend | src/AddArtPage.jsx:99 | the code-unit length of a concatenation is the sum of the lengths of its parts |
| Text.Utf16LengthCountsAstral | src/AddArtPage.jsx:99 | `title.length` is exactly the number of code points plus the number of code points above U+FFFF |
| Parameters.SubmissionSuccess | src/config/parameters.js:102 | the confirmation holds the title verbatim between the fixed text `Art "` and `" submitted successfully!` |
| Parameters.SuccessTitleRoundTrip | src/config/parameters.js:102 | the title can be read back out of a confirmation, and a string that yields a title is that title's confirmation |
| Parameters.SubmissionSuccessInjective | src/config/parameters.js:102 | different titles give different confirmations |
| Parameters.ErrorMessagesAreNotConfirmations | src/config/parameters.js:101-107 | none of the four rule messages has the shape of a confirmation |
| Parameters.TitleBoundsOrdered | src/config/parameters.js:49-50 | the minimum title length (3) is below the maximum (100) |
| Parameters.MaxImageSizeIsFiveMebibytes | src/config/parameters.js:55 | the size limit is 5 × 1024 × 1024 = 5,242,880 bytes |
| Parameters.AllowedImageTypesAreImages | src/config/parameters.js:54 | the allow-list is exactly JPEG, PNG, GIF and WebP, and every entry starts with `image/` |
| Parameters.YearBounds | src/config/parameters.js:52-113 | the default year equals the maximum year, and the year range is non-empty exactly when the current year is at least 2000 |
| AddArtPage.InitialForm | src/AddArtPage.jsx:15-20 | a fresh form has an empty title and description, the default year as a number, and no image |
| AddArtPage.FormExtensionality | src/AddArtPage.jsx:15-20 | a form is determined by what its three inputs show and the image it holds, so the handler contracts below fix their results completely |
| AddArtPage.HandleChange | src/AddArtPage.jsx:24-30 | the named input takes the typed text; every other input and the image keep their values |
| AddArtPage.HandleChangeLastWriteWins | src/AddArtPage.jsx:24-30 | a second edit of the same input overrides the first, and edits to different inputs commute |
| AddArtPage.HandleImageChange | src/AddArtPage.jsx:32-47 | the first chosen file becomes the image and the inputs are untouched; choosing nothing leaves the form unchanged |
| AddArtPage.HandleDrop | src/AddArtPage.jsx:66-93 | the first dropped file becomes the image only if its type starts with `image/`; any other drop leaves the form unchanged |
| AddArtPage.DropAgreesWithPicker | src/AddArtPage.jsx:66-76 | dropping an `image/` file has the same effect on the form as choosing it in the picker |
| AddArtPage.MessageIsNotConfirmation | src/config/parameters.js:101-107 | no rule's alert reads as a confirmation |
| AddArtPage.HandleSubmit | src/AddArtPage.jsx:95-141 | accepted exactly when no rule fails, with the confirmation for the title; otherwise the reported rule fails and every rule checked before it passes |
| AddArtPage.SubmitAlert | src/AddArtPage.jsx:99-137 | an accepted form gets the confirmation for its title; a rejected form gets the fixed message of the first failing rule; the alert decodes to the form's title exactly when the form is accepted |
| AddArtPage.TitleRuleDecides | src/AddArtPage.jsx:99-102 | the title alert is given exactly for blank titles and titles shorter than 3 code units, whatever the other fields hold |
| AddArtPage.PaddedTitlePassesTitleRule | src/AddArtPage.jsx:99-107 | the untrimmed length counts: `"  ab"` passes the title rule, so the missing image is reported |
| AddArtPage.AstralTitlePassesTitleRule | src/AddArtPage.jsx:99 | a title of two code points, one above U+FFFF, is 3 code units long and passes the title rule |
| AddArtPage.MissingImageStopsBeforeTypeAndSize | src/AddArtPage.jsx:104-119 | with a good title and no image, the image alert is given and the type and size rules are not reached |
| AddArtPage.TypeRuleIsExactMembership | src/AddArtPage.jsx:110-113 | with a good title, an image is turned away for its type exactly when its type is not one of the allow-list entries |
| AddArtPage.SizeLimitBoundary | src/AddArtPage.jsx:116-137 | with a good title and type, the form is accepted exactly when size ≤ 5,242,880; the limit passes and one byte more fails |
| AddArtPage.OutcomeIgnoresYearAndDescription | src/AddArtPage.jsx:95-141 | two forms with the same title and image get the same outcome |
| AddArtPage.InputLimitsAreNotChecked | src/AddArtPage.jsx:155-191 | a form with a 101-character title, a 1001-character description and the typed year "1999" is accepted |
| AddArtPage.DroppedBitmapStoredThenRejected | src/AddArtPage.jsx:72-113 | a dropped `image/bmp` file is stored in the form, and submitting then gives the invalid-type alert |
| AddArtPage.AcceptedImagePassesDropFilter | src/AddArtPage.jsx:72-113 | every accepted form holds an image whose type would pass the drop filter |
| AddArtPage.InitialFormRejected | src/AddArtPage.jsx:15-102 | submitting a fresh form gives the title alert |
| GitHubDispatch.ConfiguredToken | src/api/github.js:11 | the token is empty exactly when the variable is unset or set to the empty string; otherwise it is the variable's value |
| GitHubDispatch.BuildRequest | src/api/github.js:23-36 | a POST to the repository's dispatch URL carrying exactly three headers, each once: `token <token>` authorization, the GitHub v3 JSON `Accept` type and a JSON content type; event type `artwork-submission`; the artwork unchanged as the payload |
| GitHubDispatch.DispatchHeaderValues | src/api/github.js:25-29 | looking up the Authorization, Accept and Content-Type headers of a dispatch request gives the token credential and the two fixed media types |
| GitHubDispatch.DispatchHeaderNames | src/api/github.js:25-29 | a dispatch request sends no header besides those three and no header twice |
| GitHubDispatch.SubmitArtwork | src/api/github.js:21-61 | the request is the one built for this artwork and token, with `token <token>` authorization; success exactly when the call returned 204 and a token is set; a returned call with no token gives "not configured"; a throw gives the generic error with a network cause; a non-204 status with a token gives the generic error, carrying the status and body when the body parses and no status when it does not |
| GitHubDispatch.MessageIdentifiesPath | src/api/github.js:38-59 | the message is one of three fixed texts, and it determines whether the call succeeded, lacked a token or failed |
| GitHubDispatch.EmptyTokenCheckedAfterRequest | src/api/github.js:22-44 | with no token, a returned call gives "not configured" for every status, including 204, while a throw gives the generic error |
| GitHubDispatch.RequestBuiltUnconditionally | src/api/github.js:23-38 | the URL, method and body are the same whatever the token and network outcome; only the Authorization header depends on the token, and it differs for different tokens |
| GitHubDispatch.EmptyVariableActsUnset | src/api/github.js:11-44 | a token variable set to the empty string behaves like an unset one: a returned call reports the missing token exactly in those two cases |

## Left out

- Rendering, JSX markup, CSS classes, the drag-highlight flag and the image preview produced with `FileReader`.
- The `DataTransfer` copy of a dropped file into the file input, `alert`, `console` output, navigation back to the home page, and the unused `FormData` built on submit. These are browser side effects. An accepted form is where the page would navigate home.
- The HTML `required`, `minLength`, `maxLength`, `min` and `max` attributes. The browser applies them before the submit handler runs. The model covers only the handler's own checks.
- A throw while the body is encoded (`JSON.stringify` on an artwork that cannot be serialised) or while `fetch` checks the headers (a token that is not a valid header value) is modelled as `Threw`. In those cases nothing is sent, but the model still records the request the code built.
- The actual `fetch` transport, reading the token from the build environment, and `response.json()`. They are inputs: `FetchOutcome` and the `ConfiguredToken` argument.
- GitHubDispatch.SubmitArtwork: the `error` field carries a structured `ErrorCause`, not the text of the JavaScript error. That text embeds `JSON.stringify` output, and JSON serialisation is not modelled. When `response.json()` fails, the cause is `UnreadableBody` with no status, because the parse error's message does not contain one.
- Parameters.YearBounds: the maximum year (src/config/parameters.js:53) and the default year (src/config/parameters.js:113) are two separate reads of the clock. The model uses one `currentYear` parameter for both. If the module loads across midnight on 31 December, the two reads can differ, and the equality this lemma proves would not hold.
- The JSON encoding of the request body. The body is modelled as a datatype with the same fields.
- The artwork passed to the dispatch client is a type parameter. Its shape is fixed by a caller that is not part of this model.
- `vite.config.js`, `App.jsx`, `AboutPage.jsx`, `ArtLayoutPage.jsx`, `GalleryCard.jsx`, `main.jsx` and the server-side update script are not part of this model.
- Code points are Unicode scalar values. A lone UTF-16 surrogate in a title cannot be represented.
