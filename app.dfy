/** The application controller of App.tsx: the edit history with its active
    index, the validation gate and mask decision in front of an edit request,
    the apply scope derived from the selection size, the bounding-box check
    before cropping a source patch, and the status shown to the user. */
module App {
  import opened Types
  import GeminiService

  // ---------------------------------------------------------------------------
  // History
  // ---------------------------------------------------------------------------

  /** One version of the image: the file and its data-URL preview. */
  datatype HistoryItem = HistoryItem(file: File, preview: string)

  /** The history, its active index and the displayed original agree: the
      history is empty exactly when the index is -1 and nothing is displayed;
      otherwise the index is in range and the displayed original is that entry. */
  predicate Linked(history: seq<HistoryItem>, index: int, original: Option<File>, preview: Option<string>)
  {
    && (history == [] <==> index == -1)
    && (history == [] ==> original.None? && preview.None?)
    && (history != [] ==> 0 <= index < |history|
                          && original == Some(history[index].file)
                          && preview == Some(history[index].preview))
  }

  /** `history.slice(0, historyIndex + 1)` followed by the new entry. */
  function Committed(history: seq<HistoryItem>, index: int, item: HistoryItem): (r: seq<HistoryItem>)
    requires -1 <= index < |history|
    ensures |r| == index + 2 && r[..index + 1] == history[..index + 1] && r[index + 1] == item
  {
    history[..index + 1] + [item]
  }

  /** `history.filter((_, i) => i !== indexToDelete)`, by position. */
  function Without(history: seq<HistoryItem>, indexToDelete: int): (r: seq<HistoryItem>)
    ensures |r| == if 0 <= indexToDelete < |history| then |history| - 1 else |history|
    decreases |history|
  {
    if history == [] then []
    else (if indexToDelete == 0 then [] else [history[0]]) + Without(history[1..], indexToDelete - 1)
  }

  /** The active index after deleting entry `indexToDelete`, while entries remain. */
  function Relinked(index: int, indexToDelete: int): (r: int)
    ensures 0 <= index && 0 <= indexToDelete ==> 0 <= r
    ensures 0 <= index ==> index - 1 <= r <= index
    ensures indexToDelete > index ==> r == index
    ensures indexToDelete < index ==> r == index - 1
    ensures indexToDelete == index ==> r == if index > 0 then index - 1 else 0
  {
    if indexToDelete == index then (if indexToDelete - 1 > 0 then indexToDelete - 1 else 0)
    else if indexToDelete < index then index - 1
    else index
  }

  /** The filter removes exactly the entry at `i` and keeps the others in order;
      an index outside the history removes nothing. */
  lemma {:induction false} WithoutRemovesOne(history: seq<HistoryItem>, i: int)
    ensures 0 <= i < |history| ==> Without(history, i) == history[..i] + history[i + 1..]
    ensures !(0 <= i < |history|) ==> Without(history, i) == history
    decreases |history|
  {
    if history != [] {
      var rest := Without(history[1..], i - 1);
      WithoutRemovesOne(history[1..], i - 1);
      if i == 0 {
        assert Without(history, i) == rest;
        assert history[1..] == history[..0] + history[1..];
      } else if 0 < i < |history| {
        assert Without(history, i) == [history[0]] + rest;
        assert history[..i] == [history[0]] + history[1..][..i - 1];
        assert history[1..][i..] == history[i + 1..];
      } else {
        assert Without(history, i) == [history[0]] + rest;
        assert history == [history[0]] + history[1..];
      }
    }
  }

  /** Committing from index `index` keeps entries 0..index, drops every later
      one, and puts the new entry at the end, where the new index points. */
  lemma CommitTruncates(history: seq<HistoryItem>, index: int, item: HistoryItem)
    requires -1 <= index < |history|
    ensures var r := Committed(history, index, item);
      && |r| == index + 2 <= |history| + 1
      && (forall k :: 0 <= k <= index ==> r[k] == history[k])
      && r[|r| - 1] == item
      && Linked(r, |r| - 1, Some(item.file), Some(item.preview))
  {
  }

  /** Deleting re-links the index by position: it stays in range; deleting
      another entry leaves it on the same entry; deleting the active entry
      moves it to the previous entry, or to the new first one when it was first. */
  lemma DeleteRelinks(history: seq<HistoryItem>, index: int, i: int)
    requires 0 <= index < |history| && 0 <= i < |history| && |history| > 1
    ensures var r, k := Without(history, i), Relinked(index, i);
      && |r| == |history| - 1
      && 0 <= k < |r|
      && (i != index ==> r[k] == history[index])
      && (i == index ==> r[k] == history[if i == 0 then 1 else i - 1])
      && (i > index ==> k == index)
  {
    WithoutRemovesOne(history, i);
  }

  /** Seeding with A, committing B and C, selecting 1 and committing D leaves [A, B, D] at index 2. */
  lemma BranchDiscardsForwardEntries(a: HistoryItem, b: HistoryItem, c: HistoryItem, d: HistoryItem)
    ensures var h2 := Committed([a], 0, b);
            var h3 := Committed(h2, 1, c);
            var h4 := Committed(h3, 1, d);
            h4 == [a, b, d] && |h4| - 1 == 2
  {
  }

  /** From [A, B, C] at index 2, deleting entry 1 leaves [A, C] at index 1, still on C;
      from [A, B, C] at index 1, deleting entry 1 leaves [A, C] at index 0, on A. */
  lemma DeleteScenarios(a: HistoryItem, b: HistoryItem, c: HistoryItem)
    ensures Without([a, b, c], 1) == [a, c]
    ensures Relinked(2, 1) == 1 && [a, c][1] == c
    ensures Relinked(1, 1) == 0 && [a, c][0] == a
  {
    WithoutRemovesOne([a, b, c], 1);
    assert [a, b, c][..1] == [a] && [a, b, c][2..] == [c];
  }

  // ---------------------------------------------------------------------------
  // Apply scope
  // ---------------------------------------------------------------------------

  /** Whether an edit targets the selection (through a mask) or the whole image. */
  datatype Scope = SelectionScope | ImageScope

  /** The scope the effect on the selection size chooses. */
  function ScopeFor(count: nat): Scope
  {
    if count > 2 then SelectionScope else ImageScope
  }

  /** The effect keyed on `selectionPoints.length`: it runs only when the count
      changed, so a manual choice of scope persists until the count changes. */
  function ScopeAfter(scope: Scope, before: nat, after: nat): (r: Scope)
    ensures before != after ==> (r == SelectionScope <==> after > 2)
    ensures before == after ==> r == scope
  {
    if after != before then ScopeFor(after) else scope
  }

  // ---------------------------------------------------------------------------
  // The edit request
  // ---------------------------------------------------------------------------

  /** The three ways `handleApplyEdit` refuses to send a request. */
  datatype Rejection = NoImage | PathTooShort | NoPrompt

  function RejectionMessage(r: Rejection): string
  {
    match r
    case NoImage => "Please upload an image first."
    case PathTooShort => "A selection must have at least 3 points to form a path."
    case NoPrompt => "Please enter a prompt to describe the edit."
  }

  /** The validation in front of a request, checked in order: an image, then a
      selection scope with 1 or 2 points, then an empty prompt. */
  function EditRejection(hasOriginal: bool, scope: Scope, count: nat, prompt: string): (r: Option<Rejection>)
    ensures r == Some(NoImage) <==> !hasOriginal
    ensures r == Some(PathTooShort) <==> hasOriginal && scope == SelectionScope && 0 < count < 3
    ensures r == Some(NoPrompt) <==> hasOriginal && !(scope == SelectionScope && 0 < count < 3) && prompt == ""
  {
    if !hasOriginal then Some(NoImage)
    else if scope == SelectionScope && count > 0 && count < 3 then Some(PathTooShort)
    else if prompt == "" then Some(NoPrompt)
    else None
  }

  /** A mask is generated only for the selection scope with at least one point. */
  function MaskRequested(scope: Scope, count: nat): bool
  {
    scope == SelectionScope && count > 0
  }

  /** The gate of `generateMask`: no mask below 3 points or without a preview;
      otherwise whatever the rendering produced (`rendered`, none when the image failed to load). */
  function GeneratedMask(count: nat, preview: Option<string>, rendered: Option<string>): (r: Option<string>)
    ensures r.Some? ==> count >= 3 && Present(preview) && r == rendered
    ensures count >= 3 && Present(preview) ==> r == rendered
  {
    if count < 3 || !Present(preview) then None else rendered
  }

  /** An accepted request has an image and a prompt, and a selection scope then
      has no points or at least 3. */
  lemma AcceptedRequest(hasOriginal: bool, scope: Scope, count: nat, prompt: string)
    ensures EditRejection(hasOriginal, scope, count, prompt).None? <==>
              hasOriginal && prompt != "" && (scope == SelectionScope ==> count == 0 || count >= 3)
  {
  }

  /** An empty prompt is refused whatever the image and selection. */
  lemma EmptyPromptRejected(hasOriginal: bool, scope: Scope, count: nat)
    ensures EditRejection(hasOriginal, scope, count, "").Some?
  {
  }

  /** After validation a requested mask always has a path: the 3-point guard of
      `generateMask` never fires, and a selection scope with no points passes and sends no mask. */
  lemma MaskHasPath(hasOriginal: bool, scope: Scope, count: nat, prompt: string)
    requires EditRejection(hasOriginal, scope, count, prompt).None?
    ensures MaskRequested(scope, count) ==> count >= 3
    ensures scope == SelectionScope && count == 0 ==> !MaskRequested(scope, count)
  {
  }

  /** The path-length refusal only happens after a manual switch to the
      selection scope: the scope the effect derives never triggers it. */
  lemma DerivedScopeNeverTooShort(hasOriginal: bool, count: nat, prompt: string)
    ensures EditRejection(hasOriginal, ScopeFor(count), count, prompt) != Some(PathTooShort)
  {
  }

  /** `isButtonDisabled`. */
  function ButtonDisabled(originalImage: Option<File>, appState: AppState, prompt: string): (r: bool)
    ensures !r <==> originalImage.Some? && appState != Processing && prompt != ""
  {
    originalImage.None? || appState == Processing || prompt == ""
  }

  /** With the button enabled, the only refusal left is the path-length one. */
  lemma EnabledButtonRefusesOnlyShortPaths(originalImage: Option<File>, appState: AppState, prompt: string,
                                           scope: Scope, count: nat)
    requires !ButtonDisabled(originalImage, appState, prompt)
    ensures EditRejection(originalImage.Some?, scope, count, prompt) in {None, Some(PathTooShort)}
    ensures EditRejection(originalImage.Some?, scope, count, prompt) == Some(PathTooShort) <==>
              scope == SelectionScope && 0 < count < 3
  {
  }

  /** `getProcessState`: each request status has its own display. */
  function ProcessStateOf(state: AppState): (r: ProcessState)
    ensures r == ShowLoading <==> state == Processing
    ensures r == ShowSuccess <==> state == Success
    ensures r == ShowError <==> state == Error
    ensures r == ShowIdle <==> state == Idle
  {
    match state
    case Processing => ShowLoading
    case Success => ShowSuccess
    case Error => ShowError
    case Idle => ShowIdle
  }

  /** `dataUrl.split(',')[1]`: the text between the first comma and the next one,
      none (undefined) when there is no comma. */
  function SecondField(dataUrl: string): (r: Option<string>)
    ensures r.Some? <==> ',' in dataUrl
    ensures r.Some? ==> ',' !in r.value
  {
    if dataUrl == [] then None
    else if dataUrl[0] == ',' then Some(FirstField(dataUrl[1..]))
    else SecondField(dataUrl[1..])
  }

  /** The text before the first comma. */
  function FirstField(s: string): (r: string)
    ensures ',' !in r && r <= s
    ensures ',' !in s ==> r == s
    ensures |r| < |s| ==> s[|r|] == ','
  {
    if s == [] || s[0] == ',' then [] else [s[0]] + FirstField(s[1..])
  }

  /** A data URL's payload is recovered from it when neither the header nor the payload holds a comma. */
  lemma {:induction false} SecondFieldOfDataUrl(header: string, payload: string)
    requires ',' !in header && ',' !in payload
    ensures SecondField(header + "," + payload) == Some(payload)
    decreases |header|
  {
    if header == [] {
      assert (header + "," + payload)[1..] == payload;
    } else {
      assert (header + "," + payload)[1..] == header[1..] + "," + payload;
      SecondFieldOfDataUrl(header[1..], payload);
    }
  }

  /** Header of a PNG data URL: what the canvas produces for the mask and the
      source patch, and what a returned image is shown under. */
  const PngDataUrlHeader: string := "data:image" + "/png;base64"

  /** The base64 payload of a PNG data URL is what `split` gives back: the
      mask's payload, split as soon as the canvas produced it, and the source
      patch's, split when a request is built. */
  lemma PngPayloadRecovered(payload: string)
    requires ',' !in payload
    ensures SecondField(PngDataUrlHeader + "," + payload) == Some(payload)
  {
    assert ',' !in "data:image" && ',' !in "/png;base64";
    SecondFieldOfDataUrl(PngDataUrlHeader, payload);
  }

  /** What `editPhoto` is called with, as the request's closure captured it. */
  datatype EditRequest = EditRequest(
    base64Data: string, mimeType: string, prompt: string,
    mask: Option<string>, source: Option<string>, reference: Option<GeminiService.ImageData>)

  const FailurePrefix: string := "Failed to apply edit. "
  const NoImageReturned: string := "The AI model did not return an image. Please try again."

  /** What a finished request shows: the edited image as a data URL, or an error message. */
  datatype Outcome = Shown(dataUrl: string) | Failed(message: string)

  /** A non-empty image payload is shown as a PNG data URL; anything else fails
      with "Failed to apply edit. " and the reason. */
  function OutcomeOf(result: Result<Option<string>>): (r: Outcome)
    ensures r.Shown? <==> result.Ok? && Present(result.value)
    ensures r.Shown? ==> r.dataUrl == PngDataUrlHeader + "," + result.value.value
    ensures result.Err? ==> r == Failed(FailurePrefix + result.message)
    ensures result.Ok? && !Present(result.value) ==> r == Failed(FailurePrefix + NoImageReturned)
  {
    match result
    case Ok(data) =>
      if Present(data) then Shown(PngDataUrlHeader + "," + data.value)
      else Failed(FailurePrefix + NoImageReturned)
    case Err(message) =>
      Failed(FailurePrefix + message)
  }

  /** The model's answer decides the outcome: it is shown exactly when the
      first inline image of the candidate carries data, as a PNG data URL of
      that data; otherwise the message is one of three. */
  lemma ResponseOutcome(response: GeminiService.Response)
    ensures var o := OutcomeOf(GeminiService.Interpretation(response));
      && (o.Shown? <==> response.Candidate? && GeminiService.FirstImage(response.parts).Some?
                        && GeminiService.FirstImage(response.parts).value.data != "")
      && (o.Shown? ==> o.dataUrl == PngDataUrlHeader + "," + GeminiService.FirstImage(response.parts).value.data)
      && (response.Threw? ==> o == Failed(FailurePrefix + GeminiService.Caught(response.message)))
      && (response.Candidate? && GeminiService.FirstImage(response.parts).None?
          && |response.parts| > 0 && Present(response.parts[0].text) ==>
            o == Failed(FailurePrefix + GeminiService.Caught(GeminiService.RefusalMessage(response.parts[0].text.value))))
      && (o.Failed? ==> o.message in {FailurePrefix + GeminiService.BlockedMessage,
                                      FailurePrefix + GeminiService.GenericFailure,
                                      FailurePrefix + NoImageReturned})
  {
  }

  /** Why reading a file as base64 failed: its type is not an image (an `Error`),
      or the reader failed (it rejects with the event, which is not an `Error`). */
  datatype ReadFailure = NotAnImage | ReaderFailed

  const NotAnImageMessage: string := "File is not an image."
  const UnknownError: string := "An unknown error occurred."

  /** What the catch block of `handleApplyEdit` reports for a failed read. */
  function ReadFailureMessage(f: ReadFailure): (r: string)
    ensures r == FailurePrefix + NotAnImageMessage || r == FailurePrefix + UnknownError
    ensures r == FailurePrefix + UnknownError <==> f == ReaderFailed
  {
    match f
    case NotAnImage => FailurePrefix + NotAnImageMessage
    case ReaderFailed => FailurePrefix + UnknownError
  }

  // ---------------------------------------------------------------------------
  // Cropping a source patch
  // ---------------------------------------------------------------------------

  /** An axis-aligned bounding box. */
  datatype Box = Box(minX: real, minY: real, maxX: real, maxY: real)

  /** The box after taking one more point into account. */
  function Widen(box: Option<Box>, p: Point): Box
  {
    match box
    case None => Box(p.x, p.y, p.x, p.y)
    case Some(b) => Box(if p.x < b.minX then p.x else b.minX, if p.y < b.minY then p.y else b.minY,
                        if p.x > b.maxX then p.x else b.maxX, if p.y > b.maxY then p.y else b.maxY)
  }

  /** The bounding box of the points, none for no points (the infinite start values). */
  function Extent(points: seq<Point>): (r: Option<Box>)
    ensures r.None? <==> points == []
    ensures r.Some? ==> r.value.minX <= r.value.maxX && r.value.minY <= r.value.maxY
  {
    if points == [] then None else Some(Widen(Extent(points[..|points| - 1]), points[|points| - 1]))
  }

  /** The box is the tightest one around the points: every point lies inside it,
      and each of its four sides touches a point. */
  predicate Encloses(points: seq<Point>, b: Box)
  {
    && (forall k :: 0 <= k < |points| ==> b.minX <= points[k].x <= b.maxX && b.minY <= points[k].y <= b.maxY)
    && (exists k :: 0 <= k < |points| && points[k].x == b.minX)
    && (exists k :: 0 <= k < |points| && points[k].x == b.maxX)
    && (exists k :: 0 <= k < |points| && points[k].y == b.minY)
    && (exists k :: 0 <= k < |points| && points[k].y == b.maxY)
  }

  lemma {:induction false} ExtentEncloses(points: seq<Point>)
    ensures Extent(points).None? <==> points == []
    ensures Extent(points).Some? ==> Encloses(points, Extent(points).value)
    decreases |points|
  {
    if points != [] {
      var init, p := points[..|points| - 1], points[|points| - 1];
      ExtentEncloses(init);
      assert forall k :: 0 <= k < |init| ==> points[k] == init[k];
      var b := Extent(points).value;
      if init == [] {
        assert points == [p];
      } else {
        var a := Extent(init).value;
        var kx :| 0 <= kx < |init| && init[kx].x == a.minX;
        var kX :| 0 <= kX < |init| && init[kX].x == a.maxX;
        var ky :| 0 <= ky < |init| && init[ky].y == a.minY;
        var kY :| 0 <= kY < |init| && init[kY].y == a.maxY;
        assert points[if b.minX == p.x then |init| else kx].x == b.minX;
        assert points[if b.maxX == p.x then |init| else kX].x == b.maxX;
        assert points[if b.minY == p.y then |init| else ky].y == b.minY;
        assert points[if b.maxY == p.y then |init| else kY].y == b.maxY;
      }
    }
  }

  /** The `forEach` over the points updating the four running extremes. */
  method MeasureBounds(points: seq<Point>) returns (box: Option<Box>)
    ensures box == Extent(points)
  {
    box := None;
    for i := 0 to |points|
      invariant box == Extent(points[..i])
    {
      assert points[..i + 1][..i] == points[..i];
      box := Some(Widen(box, points[i]));
    }
    assert points[..|points|] == points;
  }

  /** The crop gives up when the box has no width or no height (or there are no points). */
  predicate CropRejects(box: Option<Box>)
  {
    box.None? || box.value.maxX - box.value.minX <= 0.0 || box.value.maxY - box.value.minY <= 0.0
  }

  /** The crop gives up exactly when all points share one x or all share one y. */
  lemma CropRejectsFlatPaths(points: seq<Point>)
    ensures CropRejects(Extent(points)) <==>
              points == []
              || (forall k :: 0 <= k < |points| ==> points[k].x == points[0].x)
              || (forall k :: 0 <= k < |points| ==> points[k].y == points[0].y)
  {
    ExtentEncloses(points);
    if points != [] {
      var b := Extent(points).value;
      if b.maxX - b.minX <= 0.0 {
        assert forall k :: 0 <= k < |points| ==> points[k].x == points[0].x;
      } else if b.maxY - b.minY <= 0.0 {
        assert forall k :: 0 <= k < |points| ==> points[k].y == points[0].y;
      } else {
        var k1 :| 0 <= k1 < |points| && points[k1].x == b.minX;
        var k2 :| 0 <= k2 < |points| && points[k2].x == b.maxX;
        var k3 :| 0 <= k3 < |points| && points[k3].y == b.minY;
        var k4 :| 0 <= k4 < |points| && points[k4].y == b.maxY;
        assert points[k1].x != points[0].x || points[k2].x != points[0].x;
        assert points[k3].y != points[0].y || points[k4].y != points[0].y;
      }
    }
  }

  /** `cropSelectionToDataURL` after the image loaded: the bounding-box check,
      then what the canvas produced (`rendered`, none without a 2D context). */
  method Crop(points: seq<Point>, rendered: Option<string>) returns (dataUrl: Option<string>)
    ensures dataUrl == if CropRejects(Extent(points)) then None else rendered
  {
    var box := MeasureBounds(points);
    if CropRejects(box) {
      return None;
    }
    dataUrl := rendered;
  }

  // ---------------------------------------------------------------------------
  // The application state
  // ---------------------------------------------------------------------------

  /** The `useState` slots of the App component. Each method is one handler,
      reading the state as it was before the handler ran. The effect on the
      selection size runs as part of every handler that changes the points. */
  class Editor {
    var originalImage: Option<File>
    var originalImagePreview: Option<string>
    var restoredImage: Option<string>
    var appState: AppState
    var error: Option<string>
    var selectionPoints: seq<Point>
    var prompt: string
    var sourceImage: Option<string>
    var referenceImage: Option<File>
    var referenceImagePreview: Option<string>
    var zoom: real
    var pan: Point
    var applyScope: Scope
    var history: seq<HistoryItem>
    var historyIndex: int

    predicate Valid()
      reads this
    {
      Linked(history, historyIndex, originalImage, originalImagePreview)
    }

    /** The per-image context is back to its start: no result, error, selection,
        source patch or prompt, status Idle, and the view at zoom 1 without pan. */
    predicate ContextReset()
      reads this
    {
      && restoredImage.None? && error.None? && appState == Idle
      && selectionPoints == [] && sourceImage.None? && prompt == ""
      && zoom == 1.0 && pan == Origin
    }

    /** Nothing is loaded: the state the application starts in. */
    predicate Blank()
      reads this
    {
      && ContextReset()
      && originalImage.None? && originalImagePreview.None?
      && referenceImage.None? && referenceImagePreview.None?
      && history == [] && historyIndex == -1
    }

    twostate predicate ImageUnchanged()
      reads this
    {
      && originalImage == old(originalImage) && originalImagePreview == old(originalImagePreview)
      && history == old(history) && historyIndex == old(historyIndex)
    }

    twostate predicate ReferenceUnchanged()
      reads this
    {
      referenceImage == old(referenceImage) && referenceImagePreview == old(referenceImagePreview)
    }

    twostate predicate WorkUnchanged()
      reads this
    {
      && restoredImage == old(restoredImage) && appState == old(appState) && error == old(error)
      && prompt == old(prompt) && sourceImage == old(sourceImage)
    }

    twostate predicate ViewUnchanged()
      reads this
    {
      zoom == old(zoom) && pan == old(pan)
    }

    twostate predicate SelectionUnchanged()
      reads this
    {
      selectionPoints == old(selectionPoints) && applyScope == old(applyScope)
    }

    /** The scope after the handler, as the effect on the selection size leaves it. */
    twostate predicate ScopeFollows()
      reads this
    {
      applyScope == ScopeAfter(old(applyScope), |old(selectionPoints)|, |selectionPoints|)
    }

    constructor ()
      ensures Valid() && Blank() && applyScope == ImageScope
    {
      originalImage, originalImagePreview, restoredImage := None, None, None;
      appState, error, selectionPoints, prompt := Idle, None, [], "";
      sourceImage, referenceImage, referenceImagePreview := None, None, None;
      zoom, pan, applyScope := 1.0, Origin, ImageScope;
      history, historyIndex := [], -1;
    }

    /** The per-image resets shared by the history handlers (reference image kept). */
    method ResetContext()
      modifies this
      ensures ContextReset() && ScopeFollows()
      ensures ImageUnchanged() && ReferenceUnchanged()
    {
      restoredImage, error, appState := None, None, Idle;
      applyScope := ScopeAfter(applyScope, |selectionPoints|, 0);
      selectionPoints := [];
      sourceImage, prompt := None, "";
      zoom, pan := 1.0, Origin;
    }

    /** `handleClearAll`. */
    method ClearAll()
      modifies this
      ensures Valid() && Blank() && ScopeFollows()
    {
      originalImage, originalImagePreview := None, None;
      ResetContext();
      referenceImage, referenceImagePreview := None, None;
      history, historyIndex := [], -1;
    }

    /** `handleImageUpload`, with the file already read to its data URL `preview`:
        everything is cleared, and the history is seeded with the one new entry. */
    method Upload(file: File, preview: string)
      modifies this
      ensures Valid()
      ensures history == [HistoryItem(file, preview)] && historyIndex == 0
      ensures originalImage == Some(file) && originalImagePreview == Some(preview)
      ensures ContextReset() && referenceImage.None? && referenceImagePreview.None? && ScopeFollows()
    {
      ClearAll();
      originalImage, originalImagePreview := Some(file), Some(preview);
      history, historyIndex := [HistoryItem(file, preview)], 0;
    }

    /** `handleSelectionChange`. */
    method SetSelection(points: seq<Point>)
      modifies this
      ensures selectionPoints == points && ScopeFollows()
      ensures ImageUnchanged() && ReferenceUnchanged() && WorkUnchanged() && ViewUnchanged()
    {
      applyScope := ScopeAfter(applyScope, |selectionPoints|, |points|);
      selectionPoints := points;
    }

    /** `handleClearSelection`. */
    method ClearSelection()
      modifies this
      ensures selectionPoints == [] && ScopeFollows()
      ensures ImageUnchanged() && ReferenceUnchanged() && WorkUnchanged() && ViewUnchanged()
    {
      SetSelection([]);
    }

    /** The scope toggle buttons. */
    method SetApplyScope(scope: Scope)
      modifies this
      ensures applyScope == scope && selectionPoints == old(selectionPoints)
      ensures ImageUnchanged() && ReferenceUnchanged() && WorkUnchanged() && ViewUnchanged()
    {
      applyScope := scope;
    }

    /** The prompt text area. */
    method SetPrompt(text: string)
      modifies this
      ensures prompt == text
      ensures ImageUnchanged() && ReferenceUnchanged() && SelectionUnchanged() && ViewUnchanged()
      ensures restoredImage == old(restoredImage) && appState == old(appState) && error == old(error)
      ensures sourceImage == old(sourceImage)
    {
      prompt := text;
    }

    /** `onZoomChange`, given the new zoom. */
    method SetZoom(z: real)
      modifies this
      ensures zoom == z && pan == old(pan)
      ensures ImageUnchanged() && ReferenceUnchanged() && WorkUnchanged() && SelectionUnchanged()
    {
      zoom := z;
    }

    /** `onPanChange`, given the new offset. */
    method SetPan(p: Point)
      modifies this
      ensures pan == p && zoom == old(zoom)
      ensures ImageUnchanged() && ReferenceUnchanged() && WorkUnchanged() && SelectionUnchanged()
    {
      pan := p;
    }

    /** `handleSetSource`, with `rendered` standing for what the canvas produced
        once the preview loaded: below 3 points or without a preview nothing
        happens; otherwise the source patch becomes the crop (none when the
        bounding box is flat) and the selection is cleared. */
    method SetSource(rendered: Option<string>)
      modifies this
      ensures |old(selectionPoints)| < 3 || !Present(old(originalImagePreview)) ==>
                sourceImage == old(sourceImage) && SelectionUnchanged()
      ensures |old(selectionPoints)| >= 3 && Present(old(originalImagePreview)) ==>
                && sourceImage == (if CropRejects(Extent(old(selectionPoints))) then None else rendered)
                && selectionPoints == [] && ScopeFollows()
      ensures ImageUnchanged() && ReferenceUnchanged() && ViewUnchanged()
      ensures restoredImage == old(restoredImage) && appState == old(appState) && error == old(error)
      ensures prompt == old(prompt)
    {
      if |selectionPoints| < 3 || !Present(originalImagePreview) {
        return;
      }
      var sourceDataUrl := Crop(selectionPoints, rendered);
      sourceImage := sourceDataUrl;
      ClearSelection();
    }

    /** The button that removes the source patch. */
    method ClearSource()
      modifies this
      ensures sourceImage.None?
      ensures ImageUnchanged() && ReferenceUnchanged() && SelectionUnchanged() && ViewUnchanged()
      ensures restoredImage == old(restoredImage) && appState == old(appState) && error == old(error)
      ensures prompt == old(prompt)
    {
      sourceImage := None;
    }

    /** `handleReferenceFileChange`, with the chosen file (none when the picker
        was cancelled) and its data URL. */
    method ChooseReference(chosen: Option<File>, preview: string)
      modifies this
      ensures chosen.None? ==> ReferenceUnchanged()
      ensures chosen.Some? ==> referenceImage == chosen && referenceImagePreview == Some(preview)
      ensures ImageUnchanged() && WorkUnchanged() && SelectionUnchanged() && ViewUnchanged()
    {
      if chosen.Some? {
        referenceImage, referenceImagePreview := chosen, Some(preview);
      }
    }

    /** `handleClearReferenceImage`. */
    method ClearReference()
      modifies this
      ensures referenceImage.None? && referenceImagePreview.None?
      ensures ImageUnchanged() && WorkUnchanged() && SelectionUnchanged() && ViewUnchanged()
    {
      referenceImage, referenceImagePreview := None, None;
    }

    /** The synchronous part of `handleApplyEdit`. A refused request only sets its
        error message. An accepted one clears the result and the error, enters
        Processing, and yields what `editPhoto` will be called with. `original`
        and `reference` are the files read as base64; `maskRendering` is what
        drawing the mask produced. */
    method StartEdit(original: GeminiService.ImageData, reference: GeminiService.ImageData,
                     maskRendering: Option<string>)
      returns (request: Option<EditRequest>)
      modifies this
      ensures var rejection := EditRejection(old(originalImage).Some?, old(applyScope), |old(selectionPoints)|, old(prompt));
        && (rejection.Some? ==>
              request.None? && error == Some(RejectionMessage(rejection.value))
              && restoredImage == old(restoredImage) && appState == old(appState))
        && (rejection.None? ==>
              && restoredImage.None? && error.None? && appState == Processing
              && request == Some(EditRequest(
                   original.base64Data, original.mimeType, old(prompt),
                   if MaskRequested(old(applyScope), |old(selectionPoints)|)
                   then GeneratedMask(|old(selectionPoints)|, old(originalImagePreview), maskRendering) else None,
                   if Present(old(sourceImage)) then SecondField(old(sourceImage).value) else None,
                   if old(referenceImage).Some? then Some(reference) else None)))
      ensures ImageUnchanged() && ReferenceUnchanged() && SelectionUnchanged() && ViewUnchanged()
      ensures prompt == old(prompt) && sourceImage == old(sourceImage)
    {
      var rejection := EditRejection(originalImage.Some?, applyScope, |selectionPoints|, prompt);
      if rejection.Some? {
        error := Some(RejectionMessage(rejection.value));
        return None;
      }
      error, restoredImage, appState := None, None, Processing;
      var mask := if MaskRequested(applyScope, |selectionPoints|)
                  then GeneratedMask(|selectionPoints|, originalImagePreview, maskRendering) else None;
      var source := if Present(sourceImage) then SecondField(sourceImage.value) else None;
      var referenceData := if referenceImage.Some? then Some(reference) else None;
      request := Some(EditRequest(original.base64Data, original.mimeType, prompt, mask, source, referenceData));
    }

    /** The rest of `handleApplyEdit`, once the model answered with `response`:
        the request is sent as `parts`. A shown image sets the result and
        Success and leaves the error as it is; a failure sets the error and
        Error and leaves the result as it is, whatever happened in the meantime. */
    method FinishEdit(request: EditRequest, response: GeminiService.Response)
      returns (parts: seq<GeminiService.Part>)
      modifies this
      ensures var hasMask, hasSource, hasReference := Present(request.mask), Present(request.source), request.reference.Some?;
        && |parts| == 2 + |GeminiService.Attached(hasMask, hasSource, hasReference)|
        && parts[0] == GeminiService.TextPart(GeminiService.EditPrompt(GeminiService.PromptWording, request.prompt, hasMask, hasSource, hasReference))
        && parts[1] == GeminiService.ImagePart(GeminiService.InlineData(request.base64Data, request.mimeType))
        && var atts := GeminiService.Attached(hasMask, hasSource, hasReference);
           forall j :: 0 <= j < |atts| ==>
             parts[2 + j] == GeminiService.AttachmentPart(atts[j], request.mask, request.source, request.reference)
      ensures var outcome := OutcomeOf(GeminiService.Interpretation(response));
        && (outcome.Shown? ==>
              restoredImage == Some(outcome.dataUrl) && appState == Success && error == old(error))
        && (outcome.Failed? ==>
              error == Some(outcome.message) && appState == Error && restoredImage == old(restoredImage))
      ensures appState in {Success, Error}
      ensures appState == Error ==>
                error.Some? && error.value in {FailurePrefix + GeminiService.BlockedMessage,
                                               FailurePrefix + GeminiService.GenericFailure,
                                               FailurePrefix + NoImageReturned}
      ensures ImageUnchanged() && ReferenceUnchanged() && SelectionUnchanged() && ViewUnchanged()
      ensures prompt == old(prompt) && sourceImage == old(sourceImage)
    {
      var result;
      parts, result := GeminiService.EditPhoto(request.base64Data, request.mimeType, request.prompt,
                                               request.mask, request.source, request.reference, response);
      ResponseOutcome(response);
      Report(OutcomeOf(result));
    }

    /** The state updates once the outcome is known: the success branch sets
        only the result and the status, the catch block only the error and the status. */
    method Report(outcome: Outcome)
      modifies this
      ensures outcome.Shown? ==> restoredImage == Some(outcome.dataUrl) && appState == Success && error == old(error)
      ensures outcome.Failed? ==> error == Some(outcome.message) && appState == Error && restoredImage == old(restoredImage)
      ensures ImageUnchanged() && ReferenceUnchanged() && SelectionUnchanged() && ViewUnchanged()
      ensures prompt == old(prompt) && sourceImage == old(sourceImage)
    {
      match outcome {
        case Shown(dataUrl) =>
          restoredImage, appState := Some(dataUrl), Success;
        case Failed(message) =>
          error, appState := Some(message), Error;
      }
    }

    /** Reading the original or the reference as base64 failing inside the `try`
        block of `handleApplyEdit`, after the request was accepted: the catch
        block sets the error and Error, and nothing is sent. */
    method FileReadFails(failure: ReadFailure)
      modifies this
      ensures error == Some(ReadFailureMessage(failure)) && appState == Error
      ensures restoredImage == old(restoredImage)
      ensures ImageUnchanged() && ReferenceUnchanged() && SelectionUnchanged() && ViewUnchanged()
      ensures prompt == old(prompt) && sourceImage == old(sourceImage)
    {
      error, appState := Some(ReadFailureMessage(failure)), Error;
    }

    /** `handleUseResultAsOriginal`, with `file` standing for the file decoded from
        the result: without a result nothing happens; otherwise the entries after
        the active one are dropped, the result is appended and made active, and
        the per-image context is reset. */
    method UseResultAsOriginal(file: File)
      requires Valid()
      modifies this
      ensures Valid()
      ensures !Present(old(restoredImage)) ==>
                ImageUnchanged() && WorkUnchanged() && SelectionUnchanged() && ViewUnchanged()
      ensures Present(old(restoredImage)) ==>
                var item := HistoryItem(file, old(restoredImage).value);
                && history == Committed(old(history), old(historyIndex), item)
                && historyIndex == old(historyIndex) + 1 == |history| - 1
                && originalImage == Some(file) && originalImagePreview == Some(item.preview)
                && ContextReset() && ScopeFollows()
      ensures ReferenceUnchanged()
    {
      if !Present(restoredImage) {
        return;
      }
      var newPreview := restoredImage.value;
      var newHistoryItem := HistoryItem(file, newPreview);
      var updatedHistory := history[..historyIndex + 1];
      history := updatedHistory + [newHistoryItem];
      historyIndex := |updatedHistory|;
      originalImage, originalImagePreview := Some(file), Some(newPreview);
      ResetContext();
    }

    /** `handleSelectHistory`: an index outside the history changes nothing;
        otherwise that entry becomes the active original and the context is reset. */
    method SelectHistory(index: int)
      requires Valid()
      modifies this
      ensures Valid()
      ensures !(0 <= index < |old(history)|) ==>
                ImageUnchanged() && WorkUnchanged() && SelectionUnchanged() && ViewUnchanged()
      ensures 0 <= index < |old(history)| ==>
                && history == old(history) && historyIndex == index
                && originalImage == Some(history[index].file) && originalImagePreview == Some(history[index].preview)
                && ContextReset() && ScopeFollows()
      ensures ReferenceUnchanged()
    {
      if index < 0 || index >= |history| {
        return;
      }
      var historyItem := history[index];
      historyIndex := index;
      originalImage, originalImagePreview := Some(historyItem.file), Some(historyItem.preview);
      ResetContext();
    }

    /** `handleDeleteHistory` for an entry of the history (the slider only offers those):
        the entry is removed; an emptied history clears everything; otherwise the
        index is re-linked, and deleting the active entry shows the new active one
        with the context reset. */
    method DeleteHistory(indexToDelete: int)
      requires Valid() && 0 <= indexToDelete < |history|
      modifies this
      ensures Valid()
      ensures history == Without(old(history), indexToDelete)
      ensures history == [] ==> Blank() && ScopeFollows()
      ensures history != [] ==> historyIndex == Relinked(old(historyIndex), indexToDelete)
      ensures history != [] && indexToDelete == old(historyIndex) ==>
                && originalImage == Some(history[historyIndex].file)
                && ContextReset() && ScopeFollows() && ReferenceUnchanged()
      ensures history != [] && indexToDelete != old(historyIndex) ==>
                && originalImage == old(originalImage) && originalImagePreview == old(originalImagePreview)
                && WorkUnchanged() && SelectionUnchanged() && ViewUnchanged() && ReferenceUnchanged()
    {
      var newHistory := Without(history, indexToDelete);
      if |newHistory| == 0 {
        ClearAll();
        return;
      }
      WithoutRemovesOne(history, indexToDelete);
      DeleteRelinks(history, historyIndex, indexToDelete);
      var newHistoryIndex := historyIndex;
      var shouldUpdateMainImage := false;
      if indexToDelete == historyIndex {
        newHistoryIndex := if indexToDelete - 1 > 0 then indexToDelete - 1 else 0;
        shouldUpdateMainImage := true;
      } else if indexToDelete < historyIndex {
        newHistoryIndex := historyIndex - 1;
      }
      history, historyIndex := newHistory, newHistoryIndex;
      if shouldUpdateMainImage {
        var newActiveItem := newHistory[newHistoryIndex];
        originalImage, originalImagePreview := Some(newActiveItem.file), Some(newActiveItem.preview);
        ResetContext();
      }
    }

    /** `getProcessState`. */
    function ProcessState(): ProcessState
      reads this
    {
      ProcessStateOf(appState)
    }

    /** `isButtonDisabled`. */
    function IsButtonDisabled(): bool
      reads this
    {
      ButtonDisabled(originalImage, appState, prompt)
    }
  }
}
