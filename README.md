# Drill-down photo enhancer — a Dafny model of its editing core

The photo enhancer is a browser application. The user uploads a photo and can
outline a region of it, either as a polygon (click by click) or as a rectangle
(by dragging). The user can also attach a reference image and a "source patch"
cropped from the photo. A written request then goes, with these images and an
optional black-and-white mask of the outlined region, to an image-generation
model. The edited image the model returns can be promoted to the new original.
Every promoted image is kept in a history that can be browsed, branched and
pruned.

This project models the logic behind that workflow and proves what it promises.

- `types.dfy` (module `Types`): shared values. These are optional values, error
  results, points, the two status enumerations, and JavaScript truthiness of
  an optional string (`Present`).
- `gemini_service.dfy` (module `GeminiService`): the edit service.
  - It builds the instruction text, section by section.
  - It assembles the ordered request parts.
  - It turns the model's answer, or its failure, into an image payload, no
    image, or one of two fixed error messages.
  - The fixed wording of the instruction text is a record (`Wording`). The
    prompt functions and lemmas hold for any wording; the service always
    passes `PromptWording`, the application's own texts.
- `app.dfy` (module `App`): the application controller.
  - The history, with its active index (`Committed`, `Without`, `Relinked`,
    `Linked`).
  - The validation gate and mask decision in front of a request.
  - The effect that derives the apply scope from the selection size.
  - The bounding-box check before cropping a source patch.
  - The status display.
  - The class `Editor` holds the component's state slots. Each handler is one
    method that reads the state as it was when the handler started.
  - An edit is two steps. `StartEdit` is the synchronous part before the call
    to the model. `FinishEdit` is what happens once the model has answered.
- `image_uploader.dfy` (module `ImageUploader`): the image panel.
  - Mapping a pointer position to a point of the image, and the inverse.
  - Zoom stepping and clamping.
  - The selection state machine, as the class `Uploader`. It holds its own
    drag and pan flags and acts on the application state through `editor`.

## Model

| member | source | states |
|---|---|---|
| GeminiService.Attached | drill-down-photo-enhancer/services/geminiService.ts:16-19 | each optional image is listed exactly when it is present, in the order source patch, reference, mask; the count is the number present |
| GeminiService.Numeral | drill-down-photo-enhancer/services/geminiService.ts:17-19 | a list number renders as at least one digit, and a single-digit number as exactly its digit |
| GeminiService.ListingAppend | drill-down-photo-enhancer/services/geminiService.ts:17-19 | listing one more image appends one line whose number continues the count |
| GeminiService.ListingSplit | drill-down-photo-enhancer/services/geminiService.ts:16-19 | cutting the list of images anywhere cuts the listing there, with the numbering continuing across the cut |
| GeminiService.ListingItemAt | drill-down-photo-enhancer/services/geminiService.ts:16-19 | the j-th present image is listed under number 2 + j, after the first j images and before the rest, since the original is number 1 |
| GeminiService.InstructionLinesProperties | drill-down-photo-enhancer/services/geminiService.ts:23-38 | mask-confinement lines appear iff a mask is sent; the whole-image line appears iff not; reference and source guidance appear iff those images are present, reference first; the text always ends with the photorealism and full-frame lines |
| GeminiService.BulletsAppend | drill-down-photo-enhancer/services/geminiService.ts:23-38 | adding one instruction appends exactly its own line |
| GeminiService.PromptEmbedsRequest | drill-down-photo-enhancer/services/geminiService.ts:9-11 | the user's request appears verbatim right after the goal line's opening quote |
| GeminiService.CreateEditPrompt | drill-down-photo-enhancer/services/geminiService.ts:8-41 | the text built step by step, with its running counter, equals the sectioned specification `EditPrompt` (preamble, numbered listing from 2, heading, instruction lines) |
| GeminiService.AddListItem | drill-down-photo-enhancer/services/geminiService.ts:17-19 | one `+=` of a numbered list line extends the listing by that image |
| GeminiService.AddBullet | drill-down-photo-enhancer/services/geminiService.ts:23-38 | one `+=` of an instruction line extends the bullets by that instruction |
| GeminiService.AssembleParts | drill-down-photo-enhancer/services/geminiService.ts:55-90 | the parts are the text, then the original with the caller's MIME type, then each present optional image in listing order (source and mask as PNG, reference with its own MIME type), and nothing else |
| GeminiService.FirstImage | drill-down-photo-enhancer/services/geminiService.ts:102-106 | none iff no part carries inline data; otherwise the inline data of the first part that does |
| GeminiService.FindImagePart | drill-down-photo-enhancer/services/geminiService.ts:102-106 | the loop returns the first part's inline image, as specified by `FirstImage` |
| GeminiService.Caught | drill-down-photo-enhancer/services/geminiService.ts:116-121 | a caught error becomes the "blocked" message iff its text mentions "400 Bad Request", and the generic failure otherwise |
| GeminiService.Excerpt | drill-down-photo-enhancer/services/geminiService.ts:111 | the excerpt is the prefix of the text of length 100, or the whole text when it is shorter |
| GeminiService.RefusalMessageIsCaught | drill-down-photo-enhancer/services/geminiService.ts:108-121 | a text refusal is reported as "blocked" iff its first 100 characters mention "400 Bad Request"; the excerpt itself never reaches the caller |
| GeminiService.MarkerInsideExcerpt | drill-down-photo-enhancer/services/geminiService.ts:111 | the marker can only occur in the refusal message inside the excerpt, never overlapping the fixed wording around it |
| GeminiService.Interpretation | drill-down-photo-enhancer/services/geminiService.ts:102-121 | an error is always one of the two fixed messages; an image is returned iff the candidate has a part with inline data, and it is the first such part's data; a thrown error always stays an error, with the message `Caught` gives: "blocked" iff it mentions "400 Bad Request", the generic failure otherwise; an unreadable candidate gives the generic failure; without an image, a text first part is an error and anything else is no image; that refusal is `Caught` of the refusal message, so it is "blocked" iff the first 100 characters of the text mention "400 Bad Request" |
| GeminiService.InterpretResponse | drill-down-photo-enhancer/services/geminiService.ts:102-121 | the loop over the parts and the catch block give exactly `Interpretation` of the answer |
| GeminiService.EditPhoto | drill-down-photo-enhancer/services/geminiService.ts:44-123 | the parts sent carry `EditPrompt` with the flags taken from which optional images are present, then the images in listing order; the result is `Interpretation` of the model's answer |
| App.Committed | drill-down-photo-enhancer/App.tsx:254-257 | the new history keeps the entries up to the active one and ends with the new entry right after them |
| App.Without | drill-down-photo-enhancer/App.tsx:293 | the filter removes one entry when the index is in range and none otherwise (which entry, and the order of the rest, is `WithoutRemovesOne`) |
| App.Relinked | drill-down-photo-enhancer/App.tsx:300-316 | deleting a later entry keeps the index, deleting an earlier one lowers it by one, and deleting the active one moves it to the previous entry, or keeps 0; from non-negative indices it is never negative |
| App.WithoutRemovesOne | drill-down-photo-enhancer/App.tsx:293 | the positional filter removes exactly the entry at the index and keeps the rest in order; an index outside the history removes nothing |
| App.CommitTruncates | drill-down-photo-enhancer/App.tsx:254-257 | committing keeps entries up to the active one, drops all later ones, and appends the new entry, which becomes active |
| App.DeleteRelinks | drill-down-photo-enhancer/App.tsx:300-316 | after a deletion that leaves entries, the index stays in range and stays on the same entry when another entry was deleted; deleting the active entry moves it to the previous entry, or to the new first one |
| App.BranchDiscardsForwardEntries | drill-down-photo-enhancer/App.tsx:247-290 | seeding A, committing B and C, selecting B and committing D leaves [A, B, D] with D active |
| App.DeleteScenarios | drill-down-photo-enhancer/App.tsx:292-316 | from [A, B, C], deleting B keeps C active when C was active, and moves to A when B was active |
| App.ScopeAfter | drill-down-photo-enhancer/App.tsx:88-94 | when the number of points changes, the scope becomes the selection iff there are more than 2 points; otherwise the current (possibly manual) scope stays |
| App.EditRejection | drill-down-photo-enhancer/App.tsx:196-207 | the checks run in order: no image is refused first; then a selection scope with 1 or 2 points; then an empty prompt |
| App.GeneratedMask | drill-down-photo-enhancer/App.tsx:161-163 | a mask exists only for at least 3 points and a preview, and is then what the rendering produced |
| App.AcceptedRequest | drill-down-photo-enhancer/App.tsx:196-207 | a request passes validation iff there is an image and a prompt, and a selection scope has either no points or at least 3 |
| App.EmptyPromptRejected | drill-down-photo-enhancer/App.tsx:204-207 | an empty prompt is always refused |
| App.MaskHasPath | drill-down-photo-enhancer/App.tsx:195-215 | after validation a mask is only requested for a path of at least 3 points, and a selection scope without points sends none |
| App.DerivedScopeNeverTooShort | drill-down-photo-enhancer/App.tsx:200-203 | with the scope the effect derives, the path-length refusal never happens |
| App.ButtonDisabled | drill-down-photo-enhancer/App.tsx:341 | the button is enabled iff there is an image, no request is in flight and the prompt is not empty |
| App.EnabledButtonRefusesOnlyShortPaths | drill-down-photo-enhancer/App.tsx:341 | with the apply button enabled, the only possible refusal is a selection scope with 1 or 2 points, and that one always happens |
| App.ProcessStateOf | drill-down-photo-enhancer/App.tsx:328-339 | each request status maps to its own display, in both directions |
| App.SecondField | drill-down-photo-enhancer/App.tsx:216 | the second comma-separated field exists iff the text has a comma, and holds no comma |
| App.FirstField | drill-down-photo-enhancer/App.tsx:216 | the first field is a comma-free prefix, followed in the text by a comma unless it is the whole text, and is the whole text when there is no comma |
| App.SecondFieldOfDataUrl | drill-down-photo-enhancer/App.tsx:216 | splitting a data URL whose header and payload hold no comma gives back the payload |
| App.PngPayloadRecovered | drill-down-photo-enhancer/App.tsx:216 | the comma-free payload of a PNG data URL, as the canvas produces for the source patch (and for the mask at line 189), is recovered by the split |
| App.OutcomeOf | drill-down-photo-enhancer/App.tsx:232-244 | the result is shown iff the service returned a non-empty payload, as a PNG data URL; otherwise the failure message is "Failed to apply edit. " followed by the service's message, or by the no-image message |
| App.ResponseOutcome | drill-down-photo-enhancer/App.tsx:232-244 | the result is shown iff the model's first inline image carries data, as a PNG data URL of that data; a thrown error fails with the prefixed `Caught` message; a text refusal fails with the prefixed `Caught` of the refusal message; every failure message is one of three fixed ones |
| App.ReadFailureMessage | drill-down-photo-enhancer/utils/fileUtils.ts:4-15 | a file that is not an image is reported with its own message; a reader failure is not an `Error` and is reported as an unknown error |
| App.Extent | drill-down-photo-enhancer/App.tsx:24-30 | the box is absent iff there are no points, and otherwise has its minimum at most its maximum on each axis |
| App.ExtentEncloses | drill-down-photo-enhancer/App.tsx:24-30 | the running bounding box is absent iff there are no points, and otherwise encloses every point with each side touching one |
| App.MeasureBounds | drill-down-photo-enhancer/App.tsx:24-30 | the loop over the points computes `Extent` |
| App.CropRejectsFlatPaths | drill-down-photo-enhancer/App.tsx:31-37 | the crop gives up iff there are no points, or all share one x, or all share one y |
| App.Crop | drill-down-photo-enhancer/App.tsx:18-62 | the crop is none for a flat bounding box, and otherwise what the canvas produced |
| App.Editor.constructor | drill-down-photo-enhancer/App.tsx:70-84 | the application starts blank: no image, history or reference, status Idle, zoom 1, whole-image scope |
| App.Editor.ResetContext | drill-down-photo-enhancer/App.tsx:282-289 | the per-image context is cleared and the scope follows the emptied selection; the image, history and reference stay |
| App.Editor.ClearAll | drill-down-photo-enhancer/App.tsx:110-125 | everything returns to the blank state and the history invariant holds |
| App.Editor.Upload | drill-down-photo-enhancer/App.tsx:96-108 | the history is exactly the new image, active, with everything else cleared |
| App.Editor.SetSelection | drill-down-photo-enhancer/App.tsx:127-129 | the points are replaced, the scope follows the effect, and nothing else changes |
| App.Editor.ClearSelection | drill-down-photo-enhancer/App.tsx:131-133 | the points are emptied, the scope follows the effect, and nothing else changes |
| App.Editor.SetApplyScope | drill-down-photo-enhancer/App.tsx:389-408 | a manual scope choice is stored and nothing else changes |
| App.Editor.SetPrompt | drill-down-photo-enhancer/App.tsx:415 | the prompt is replaced and nothing else changes |
| App.Editor.SetZoom | drill-down-photo-enhancer/App.tsx:363 | the zoom is replaced and nothing else changes |
| App.Editor.SetPan | drill-down-photo-enhancer/App.tsx:364 | the pan is replaced and nothing else changes |
| App.Editor.SetSource | drill-down-photo-enhancer/App.tsx:135-141 | below 3 points or without a preview nothing happens; otherwise the source patch is the crop of the outline and the selection is cleared |
| App.Editor.ClearSource | drill-down-photo-enhancer/App.tsx:374 | the source patch is removed and nothing else changes |
| App.Editor.ChooseReference | drill-down-photo-enhancer/App.tsx:143-154 | a chosen file becomes the reference with its preview; a cancelled pick changes nothing |
| App.Editor.ClearReference | drill-down-photo-enhancer/App.tsx:156-159 | the reference and its preview are removed and nothing else changes |
| App.Editor.StartEdit | drill-down-photo-enhancer/App.tsx:195-221 | a refused request only shows its message; an accepted one clears the result and error, enters Processing, and sends the prompt, the original, a mask only for a selection of 3 or more points, the source patch's payload and the reference when present |
| App.Editor.FinishEdit | drill-down-photo-enhancer/App.tsx:222-244 | the request sent is `EditPrompt` plus the images in listing order; a shown outcome sets the result and Success and keeps the error as it was; a failed outcome sets its message and Error and keeps the result as it was; an error is one of three prefixed messages |
| App.Editor.Report | drill-down-photo-enhancer/App.tsx:232-244 | the success branch writes only the result and the status; the catch block writes only the error and the status |
| App.Editor.FileReadFails | drill-down-photo-enhancer/App.tsx:214-244 | a failed read of the original or the reference ends in Error with the catch block's message for that failure; the result is kept |
| App.Editor.UseResultAsOriginal | drill-down-photo-enhancer/App.tsx:247-271 | without a result nothing changes; otherwise the result is committed after the active entry, forward entries are dropped, it becomes the active original, the context is reset and the history invariant holds |
| App.Editor.SelectHistory | drill-down-photo-enhancer/App.tsx:273-290 | an out-of-range index changes nothing; otherwise that entry becomes the active original with the context reset, and the history is unchanged |
| App.Editor.DeleteHistory | drill-down-photo-enhancer/App.tsx:292-326 | exactly that entry is removed; an emptied history clears everything; otherwise the index is re-linked, and only deleting the active entry changes the displayed image and resets the context; the history invariant holds |
| ImageUploader.PointOnImage | drill-down-photo-enhancer/components/ImageUploader.tsx:88-118 | a point exists only with a mounted image and a preview, and always lies within the image's natural size; a point outside is refused, not clamped |
| ImageUploader.AxisRoundTrip | drill-down-photo-enhancer/components/ImageUploader.tsx:97-112 | on each axis, mapping a pointer gives v iff the forward formula takes v to that pointer |
| ImageUploader.PointOnImageInvertsScreenPoint | drill-down-photo-enhancer/components/ImageUploader.tsx:88-118 | the mapping inverts its own forward formula: every point of the image, taken through that formula, maps back to itself under any zoom and pan |
| ImageUploader.ScreenPointOfPointOnImage | drill-down-photo-enhancer/components/ImageUploader.tsx:88-118 | a pointer that maps to a point is that point's image under the forward formula |
| ImageUploader.ZoomedIn | drill-down-photo-enhancer/components/ImageUploader.tsx:411 | zooming in never exceeds the maximum, never leaves the range, and never lowers an in-range zoom |
| ImageUploader.ZoomedOut | drill-down-photo-enhancer/components/ImageUploader.tsx:414 | zooming out never goes below the minimum, never leaves the range, and never raises an in-range zoom |
| ImageUploader.ZoomStepsCancel | drill-down-photo-enhancer/components/ImageUploader.tsx:411-414 | a step in and a step out cancel while neither hits a bound |
| ImageUploader.WheelZoom | drill-down-photo-enhancer/components/ImageUploader.tsx:183-184 | the wheel zoom always lies within [0.5, 8]; from an in-range zoom it is a step out for a positive delta and a step in otherwise |
| ImageUploader.KeepsUnzoomed | drill-down-photo-enhancer/components/ImageUploader.tsx:186-187 | on one axis, the new pan keeps the un-zoomed position under the pointer |
| ImageUploader.WheelKeepsPointUnderPointer | drill-down-photo-enhancer/components/ImageUploader.tsx:174-191 | after a wheel step the pointer still maps to the same image point, or still to none |
| ImageUploader.Corners | drill-down-photo-enhancer/components/ImageUploader.tsx:234-242 | a rectangle is exactly the four corners in drawing order: the drag's start, the corner at the end's x and the start's y, the drag's end, and the corner at the start's x and the end's y |
| ImageUploader.CornersSpanDrag | drill-down-photo-enhancer/components/ImageUploader.tsx:234-242 | whatever the drag direction, the rectangle's bounding box spans the two drag points, and the crop refuses it iff it has no width or no height |
| ImageUploader.Uploader.constructor | drill-down-photo-enhancer/components/ImageUploader.tsx:47-58 | the panel starts in polygon mode, open, not panning and not drawing |
| ImageUploader.Uploader.ResetSelection | drill-down-photo-enhancer/components/ImageUploader.tsx:120-126 | the points, the closed flag and the drag are cleared; the mode and the application's other state stay |
| ImageUploader.Uploader.SwitchMode | drill-down-photo-enhancer/components/ImageUploader.tsx:128-132 | choosing the current mode changes nothing; the other mode starts from an empty, open selection |
| ImageUploader.Uploader.PickFile | drill-down-photo-enhancer/components/ImageUploader.tsx:134-161 | a chosen or dropped file resets the selection, with the scope following the emptied points, and becomes the only history entry with everything else cleared; no file changes nothing |
| ImageUploader.Uploader.SetSpacePressed | drill-down-photo-enhancer/components/ImageUploader.tsx:61-86 | the space flag follows the key and nothing else changes |
| ImageUploader.Uploader.MouseDown | drill-down-photo-enhancer/components/ImageUploader.tsx:193-210 | the space flag never changes; with space held the primary button starts panning; otherwise a rectangle drag starts only in rectangle mode, on an open selection, at a point of the image, with start and end both that point |
| ImageUploader.Uploader.MouseMove | drill-down-photo-enhancer/components/ImageUploader.tsx:212-228 | while panning the pan follows the pointer; the drag's end changes only while drawing with the primary button held, to the pointer's point on the image; the points never change |
| ImageUploader.Uploader.MouseUp | drill-down-photo-enhancer/components/ImageUploader.tsx:230-245 | panning stops; a drawn rectangle becomes exactly its four corners and closes the selection; otherwise the points stay |
| ImageUploader.Uploader.PanTimerFires | drill-down-photo-enhancer/components/ImageUploader.tsx:244 | the deferred reset lets clicks through again and changes nothing else |
| ImageUploader.Uploader.ContainerClick | drill-down-photo-enhancer/components/ImageUploader.tsx:247-268 | the file picker opens iff the click is not ignored and no image is shown; a polygon click on the image appends exactly that point; ignored clicks, rectangle mode and clicks off the image leave the points alone |
| ImageUploader.Uploader.DoubleClick | drill-down-photo-enhancer/components/ImageUploader.tsx:270-274 | the selection becomes closed iff it was closed, or it is an open polygon of more than 2 points on a shown image |
| ImageUploader.Uploader.Wheel | drill-down-photo-enhancer/components/ImageUploader.tsx:174-191 | with an image shown, the zoom takes one clamped step and the pan keeps the pointer's point in place; otherwise the view is unchanged |
| ImageUploader.Uploader.ZoomIn | drill-down-photo-enhancer/components/ImageUploader.tsx:411 | the zoom becomes `ZoomedIn` of the old zoom and the pan stays |
| ImageUploader.Uploader.ZoomOut | drill-down-photo-enhancer/components/ImageUploader.tsx:414 | the zoom becomes `ZoomedOut` of the old zoom and the pan stays |
| ImageUploader.Uploader.ResetView | drill-down-photo-enhancer/components/ImageUploader.tsx:276-279 | the view returns to zoom 1 without pan |
| ImageUploader.Uploader.UseAsSource | drill-down-photo-enhancer/components/ImageUploader.tsx:431-441 | below 3 points or without a preview nothing changes; otherwise the source patch becomes the crop and the points are emptied, with the scope following; the image, history, reference, view, result, status, error and prompt stay, and the panel's own state is left alone |
| ImageUploader.ClosedFlagOutlivesUseAsSource | drill-down-photo-enhancer/components/ImageUploader.tsx:247-274 | after "Use as Source" the points are empty but the panel still holds its selection closed, and a click and a double-click do not change that |

## Left out

- The canvas work is not modelled: drawing the mask, cropping the patch and
  rasterising. What a canvas produced is a parameter (`rendered`,
  `maskRendering`), and only the gates around it are modelled.
- The SDK client, the model name, the requested response modalities and the
  API-key check are left out. The one call to the model is replaced by an
  abstract `Response` value given to `EditPhoto`.
- The file utilities (base64 reading and turning a data URL back into a file)
  are not modelled. Files arrive as data already read (`ImageData`,
  `preview`, `file` parameters). The two ways a read fails inside the edit
  request are the separate step `App.Editor.FileReadFails`.
- App.Editor.StartEdit: yields the request as if both reads succeed; a failed
  read is `FileReadFails`, taken instead of `FinishEdit`.
- Reading a file is asynchronous in the source (FileReader). Upload and
  choosing a reference happen in one step here.
- An edit is modelled as two steps, `StartEdit` and `FinishEdit`. Other
  handlers may run in between.
  - `FinishEdit` sets the status whatever happened meanwhile, together with
    the result on success or the error on failure, as the source does.
  - There is no guard against a stale answer, because the source has none.
- App.Editor.SetSource and App.Editor.UseResultAsOriginal: each runs as one
  step, while the source awaits in the middle (the crop before storing the
  patch and clearing the points, and turning the result into a file before
  committing). The model does not capture a handler that runs during that
  await. For example, an entry deleted meanwhile comes back in the source,
  because the commit uses the history read before the await.
- GeminiService.Excerpt: counts characters as Unicode scalar values, while
  `substring` counts UTF-16 code units. The two differ for text with
  characters outside the Basic Multilingual Plane: 50 emoji followed by
  "400 Bad Request" have an excerpt without the marker in the source and
  with it in the model.
- ImageUploader.PointOnImage: the mapping measures from the container's
  border box and scales by its inner width, while the image is drawn inside
  the container's 2-pixel border and 16-pixel padding. The model proves the
  mapping inverts its own forward formula (`ScreenPoint`), not that a click
  lands on the pixel drawn under it.
- ImageUploader.ZoomStepsCancel: the zoom is a real number, not a double.
  A step in followed by a step out is exact on reals, while on doubles it
  can be off by a rounding error for some values.
- ImageUploader.PointOnImage: positions and sizes are real numbers, not
  floating point. Rounding is not modelled.
  - Where the source computes NaN or an infinity (a zero natural size or a
    zero display scale), the model refuses the point (`Mappable`). Every
    bounds test fails on those values in the source.
- Keyboard handling keeps only whether space is held (`SetSpacePressed`). The
  filter that ignores keys typed into text fields and key repeats is left out.
- The source resets `panStarted` after a zero-delay timer. This is the
  separate step `PanTimerFires`; timer scheduling is not modelled.
- Event bubbling is not modelled. The mode and zoom buttons sit inside the
  container whose click handler adds polygon points, and they do not stop
  the click. A button click over the image can therefore also run
  `ContainerClick`; the model treats each handler as a separate event.
- The following presentation details are not modelled:
  - drag-over styling, the cursor choice and the on-image instruction text;
  - the stored image dimensions, which are only used for drawing;
  - the view components (header, history slider, result view) and console
    logging.
- App.Editor.DeleteHistory: requires an index within the history, because
  the history slider only offers those. For an out-of-range index the source
  removes nothing but still re-links the active index (a negative index
  lowers it); that case is not modelled.
- GeminiService.Numeral: renders any number, although only 2 to 4 occur in
  the listing.

Behaviours of the code that the model keeps as they are:

- A text answer from the model never reaches the user. `editPhoto`'s own
  catch block replaces the refusal message with one of its two fixed
  messages (`RefusalMessageIsCaught`).
- The scope effect runs whenever the number of points changes, not only when
  it crosses 3. A manual scope choice is kept only until the count changes
  (`ScopeAfter`).
- "Use as Source" empties the points through the application, but the panel
  keeps its selection marked closed (`ClosedFlagOutlivesUseAsSource`).
