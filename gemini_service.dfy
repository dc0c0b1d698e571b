/** The edit orchestrator of services/geminiService.ts: the instruction text sent
    to the image model, the ordered list of request parts, and how the model's
    answer (or failure) is turned into a result or one of two error messages.
    The SDK call itself is replaced by an abstract `Response` value. */
module GeminiService {
  import opened Types

  // ---------------------------------------------------------------------------
  // The instruction text
  // ---------------------------------------------------------------------------

  /** The fixed wording of the instruction text. The functions and lemmas below
      take it as a parameter, so what they prove holds whatever the literal text
      is; the service always uses `PromptWording`. */
  datatype Wording = Wording(
    goalPrefix: string,        // the role, and the "Primary Goal" line up to the opening quote
    goalSuffix: string,        // the closing quote, the list heading and the original image's entry
    heading: string,           // the "Instructions" heading
    sourcePatch: string, referenceImage: string, maskImage: string,   // list entries
    confineToMask: string, keepBlackUnchanged: string, editWholeImage: string,
    followReference: string, useSourcePatch: string,
    photorealistic: string, returnFullFrame: string)                  // instruction lines

  const PromptWording: Wording := Wording(
    "You are an expert AI photo editor. Your task is to modify an image according to the user's instructions.\n\n**Primary Goal:** Fulfill the user's request: \"",
    "\"\n\n**Provided Images (in order):**\n1.  **Original Image:** The image to be edited.",
    "\n\n**Instructions:**",
    "**Source Patch:** A texture/content sample to use for the edit.",
    "**Reference Image:** An image for style or content inspiration.",
    "**Mask Image:** A black and white image where the white area defines the exact region to edit.",
    "Your edit MUST be strictly confined to the white area defined by the **Mask Image**.",
    "The black areas of the mask must remain completely unchanged from the **Original Image**.",
    "Apply the edit to the **Original Image** as described in the user's request.",
    "Use the **Reference Image** as the primary inspiration for the style or content of the edit.",
    "Use the **Source Patch** for specific textures or patterns needed for the edit.",
    "The final result must be a photorealistic, seamlessly blended image.",
    "**CRITICAL:** You MUST return the complete, full-frame image. DO NOT crop the image or return only the edited part.")

  /** The optional images a request can carry besides the original. */
  datatype Attachment = SourcePatch | ReferenceImage | MaskImage

  function Description(w: Wording, a: Attachment): string
  {
    match a
    case SourcePatch => w.sourcePatch
    case ReferenceImage => w.referenceImage
    case MaskImage => w.maskImage
  }

  /** The optional images that are present, in the fixed order source, reference, mask. */
  function Attached(hasMask: bool, hasSource: bool, hasReference: bool): (r: seq<Attachment>)
    ensures (SourcePatch in r <==> hasSource) && (ReferenceImage in r <==> hasReference) && (MaskImage in r <==> hasMask)
    ensures |r| == (if hasSource then 1 else 0) + (if hasReference then 1 else 0) + (if hasMask then 1 else 0)
    ensures hasSource ==> r[0] == SourcePatch
    ensures hasReference ==> r[if hasSource then 1 else 0] == ReferenceImage
    ensures hasMask ==> r[|r| - 1] == MaskImage
  {
    (if hasSource then [SourcePatch] else [])
    + (if hasReference then [ReferenceImage] else [])
    + (if hasMask then [MaskImage] else [])
  }

  function DigitChar(d: nat): char
    requires d < 10
  {
    "0123456789"[d]
  }

  /** The decimal rendering of a number inside a template literal. */
  function Numeral(n: nat): (r: string)
    ensures |r| >= 1
    ensures n < 10 ==> r == [DigitChar(n)]
    decreases n
  {
    (if n < 10 then "" else Numeral(n / 10)) + [DigitChar(n % 10)]
  }

  /** One line of the list of provided images, numbered `n`. */
  function ListItem(w: Wording, n: nat, a: Attachment): string
  {
    "\n" + Numeral(n) + ". " + Description(w, a)
  }

  /** The list lines for `atts`, numbered consecutively from `first`. */
  function Listing(w: Wording, atts: seq<Attachment>, first: nat): string
    decreases |atts|
  {
    if atts == [] then "" else ListItem(w, first, atts[0]) + Listing(w, atts[1..], first + 1)
  }

  /** The instructions the text can give, one per bullet line. */
  datatype Instruction =
    | ConfineToMask | KeepBlackUnchanged | EditWholeImage
    | FollowReference | UseSourcePatch | Photorealistic | ReturnFullFrame

  function Text(w: Wording, i: Instruction): string
  {
    match i
    case ConfineToMask => w.confineToMask
    case KeepBlackUnchanged => w.keepBlackUnchanged
    case EditWholeImage => w.editWholeImage
    case FollowReference => w.followReference
    case UseSourcePatch => w.useSourcePatch
    case Photorealistic => w.photorealistic
    case ReturnFullFrame => w.returnFullFrame
  }

  /** The bullet lines after the instructions heading. */
  function InstructionLines(hasMask: bool, hasSource: bool, hasReference: bool): seq<Instruction>
  {
    (if hasMask then [ConfineToMask, KeepBlackUnchanged] else [EditWholeImage])
    + (if hasReference then [FollowReference] else [])
    + (if hasSource then [UseSourcePatch] else [])
    + [Photorealistic, ReturnFullFrame]
  }

  /** With a mask the edit is confined to its white area (two lines); without one the
      whole image is edited (one line); never both. The reference and source guidance
      appear exactly when those images are present, reference first, and the text
      always ends with the photorealism and the full-frame lines. */
  lemma InstructionLinesProperties(hasMask: bool, hasSource: bool, hasReference: bool)
    ensures var r := InstructionLines(hasMask, hasSource, hasReference);
      && (ConfineToMask in r <==> hasMask)
      && (KeepBlackUnchanged in r <==> hasMask)
      && (EditWholeImage in r <==> !hasMask)
      && (FollowReference in r <==> hasReference)
      && (UseSourcePatch in r <==> hasSource)
      && (hasReference && hasSource ==>
            exists i, j :: 0 <= i < j < |r| && r[i] == FollowReference && r[j] == UseSourcePatch)
      && |r| >= 3 && r[|r| - 2] == Photorealistic && r[|r| - 1] == ReturnFullFrame
  {
    var r := InstructionLines(hasMask, hasSource, hasReference);
    if hasReference && hasSource {
      var i := if hasMask then 2 else 1;
      assert r[i] == FollowReference && r[i + 1] == UseSourcePatch;
    }
  }

  /** One instruction line: a new row introduced by "- ". */
  function Bullet(w: Wording, i: Instruction): string
  {
    "\n- " + Text(w, i)
  }

  /** The instruction lines, each on its own row. */
  function Bullets(w: Wording, lines: seq<Instruction>): string
  {
    if lines == [] then "" else Bullet(w, lines[0]) + Bullets(w, lines[1..])
  }

  /** The opening of the text: the role, the user's request in quotes, and the original image. */
  function Preamble(w: Wording, customPrompt: string): string
  {
    w.goalPrefix + customPrompt + w.goalSuffix
  }

  /** The instruction text `createEditPrompt` produces, section by section. */
  function EditPrompt(w: Wording, customPrompt: string, hasMask: bool, hasSource: bool, hasReference: bool): string
  {
    Preamble(w, customPrompt)
    + Listing(w, Attached(hasMask, hasSource, hasReference), 2)
    + w.heading
    + Bullets(w, InstructionLines(hasMask, hasSource, hasReference))
  }

  lemma AppendAssoc(a: string, b: string, c: string)
    ensures (a + b) + c == a + (b + c)
  {
  }

  lemma SliceOfLeft(x: string, y: string, i: int, j: int)
    requires 0 <= i <= j <= |x|
    ensures (x + y)[i..j] == x[i..j]
  {
  }

  lemma {:induction false} ListingAppend(w: Wording, atts: seq<Attachment>, a: Attachment, first: nat)
    ensures Listing(w, atts + [a], first) == Listing(w, atts, first) + ListItem(w, first + |atts|, a)
    decreases |atts|
  {
    if atts == [] {
      assert atts + [a] == [a];
      assert [a][1..] == [];
    } else {
      assert (atts + [a])[1..] == atts[1..] + [a];
      ListingAppend(w, atts[1..], a, first + 1);
      AppendAssoc(ListItem(w, first, atts[0]), Listing(w, atts[1..], first + 1), ListItem(w, first + |atts|, a));
    }
  }

  lemma {:induction false} BulletsAppend(w: Wording, lines: seq<Instruction>, line: Instruction)
    ensures Bullets(w, lines + [line]) == Bullets(w, lines) + Bullet(w, line)
    decreases |lines|
  {
    if lines == [] {
      assert lines + [line] == [line];
      assert [line][1..] == [];
    } else {
      assert (lines + [line])[1..] == lines[1..] + [line];
      BulletsAppend(w, lines[1..], line);
      AppendAssoc(Bullet(w, lines[0]), Bullets(w, lines[1..]), Bullet(w, line));
    }
  }

  /** Splitting the attachments at `j` splits the list lines, numbering continuing across the cut. */
  lemma {:induction false} ListingSplit(w: Wording, atts: seq<Attachment>, first: nat, j: nat)
    requires j <= |atts|
    ensures Listing(w, atts, first) == Listing(w, atts[..j], first) + Listing(w, atts[j..], first + j)
    decreases j
  {
    if j == 0 {
      assert atts[..0] == [];
    } else {
      var tail := atts[1..];
      ListingSplit(w, tail, first + 1, j - 1);
      assert tail[..j - 1] == atts[..j][1..];
      assert tail[j - 1..] == atts[j..];
      var head, before, after := ListItem(w, first, atts[0]), Listing(w, tail[..j - 1], first + 1), Listing(w, atts[j..], first + j);
      assert Listing(w, tail, first + 1) == before + after;
      assert Listing(w, atts, first) == head + Listing(w, tail, first + 1);
      assert Listing(w, atts[..j], first) == head + before;
      AppendAssoc(head, before, after);
    }
  }

  /** The list of provided images numbers the present attachments consecutively:
      the j-th one is listed under number first + j, after the first j and before the rest. */
  lemma ListingItemAt(w: Wording, atts: seq<Attachment>, first: nat, j: nat)
    requires j < |atts|
    ensures Listing(w, atts, first)
            == Listing(w, atts[..j], first) + (ListItem(w, first + j, atts[j]) + Listing(w, atts[j + 1..], first + j + 1))
  {
    ListingSplit(w, atts, first, j);
    assert atts[j..][1..] == atts[j + 1..];
  }

  /** The user's request appears verbatim, inside quotes, in the "Primary Goal" line. */
  lemma PromptEmbedsRequest(w: Wording, customPrompt: string, hasMask: bool, hasSource: bool, hasReference: bool)
    ensures var p := EditPrompt(w, customPrompt, hasMask, hasSource, hasReference);
            |w.goalPrefix| + |customPrompt| <= |p| && p[|w.goalPrefix|..|w.goalPrefix| + |customPrompt|] == customPrompt
  {
    var i, j := |w.goalPrefix|, |w.goalPrefix| + |customPrompt|;
    var pre := Preamble(w, customPrompt);
    var listed := pre + Listing(w, Attached(hasMask, hasSource, hasReference), 2);
    var headed := listed + w.heading;
    SliceOfLeft(headed, Bullets(w, InstructionLines(hasMask, hasSource, hasReference)), i, j);
    SliceOfLeft(listed, w.heading, i, j);
    SliceOfLeft(pre, Listing(w, Attached(hasMask, hasSource, hasReference), 2), i, j);
    SliceOfLeft(w.goalPrefix + customPrompt, w.goalSuffix, i, j);
  }

  /** `xs`, with `x` added at the end when `b` holds. */
  function AppendIf<T>(xs: seq<T>, b: bool, x: T): seq<T>
  {
    if b then xs + [x] else xs
  }

  /** The attachments, in the order `createEditPrompt` tests for them. */
  lemma AttachedInOrder(hasMask: bool, hasSource: bool, hasReference: bool)
    ensures Attached(hasMask, hasSource, hasReference)
            == AppendIf(AppendIf(AppendIf([], hasSource, SourcePatch), hasReference, ReferenceImage), hasMask, MaskImage)
  {
  }

  /** The instruction lines, in the order `createEditPrompt` adds them. */
  lemma InstructionLinesInOrder(hasMask: bool, hasSource: bool, hasReference: bool)
    ensures InstructionLines(hasMask, hasSource, hasReference)
            == AppendIf(AppendIf(AppendIf(AppendIf(AppendIf(AppendIf([], hasMask, ConfineToMask), hasMask, KeepBlackUnchanged),
                 !hasMask, EditWholeImage), hasReference, FollowReference), hasSource, UseSourcePatch), true, Photorealistic)
               + [ReturnFullFrame]
  {
  }

  /** `createEditPrompt`: the text grows by `+=` while `inputCounter` numbers the attachments. */
  method CreateEditPrompt(w: Wording, customPrompt: string, hasMask: bool, hasSource: bool, hasReference: bool)
    returns (prompt: string)
    ensures prompt == EditPrompt(w, customPrompt, hasMask, hasSource, hasReference)
  {
    prompt := Preamble(w, customPrompt);
    var inputCounter: nat := 2;
    ghost var head := prompt;
    ghost var listed: seq<Attachment> := [];
    if hasSource {
      prompt := AddListItem(w, head, listed, prompt, inputCounter, SourcePatch);
      inputCounter := inputCounter + 1;
    }
    listed := AppendIf(listed, hasSource, SourcePatch);
    if hasReference {
      prompt := AddListItem(w, head, listed, prompt, inputCounter, ReferenceImage);
      inputCounter := inputCounter + 1;
    }
    listed := AppendIf(listed, hasReference, ReferenceImage);
    if hasMask {
      prompt := AddListItem(w, head, listed, prompt, inputCounter, MaskImage);
      inputCounter := inputCounter + 1;
    }
    listed := AppendIf(listed, hasMask, MaskImage);
    AttachedInOrder(hasMask, hasSource, hasReference);

    prompt := prompt + w.heading;
    ghost var body := prompt;
    ghost var lines: seq<Instruction> := [];
    if hasMask {
      prompt := AddBullet(w, body, lines, prompt, ConfineToMask);
    }
    lines := AppendIf(lines, hasMask, ConfineToMask);
    if hasMask {
      prompt := AddBullet(w, body, lines, prompt, KeepBlackUnchanged);
    }
    lines := AppendIf(lines, hasMask, KeepBlackUnchanged);
    if !hasMask {
      prompt := AddBullet(w, body, lines, prompt, EditWholeImage);
    }
    lines := AppendIf(lines, !hasMask, EditWholeImage);
    if hasReference {
      prompt := AddBullet(w, body, lines, prompt, FollowReference);
    }
    lines := AppendIf(lines, hasReference, FollowReference);
    if hasSource {
      prompt := AddBullet(w, body, lines, prompt, UseSourcePatch);
    }
    lines := AppendIf(lines, hasSource, UseSourcePatch);
    prompt := AddBullet(w, body, lines, prompt, Photorealistic);
    lines := AppendIf(lines, true, Photorealistic);
    prompt := AddBullet(w, body, lines, prompt, ReturnFullFrame);
    InstructionLinesInOrder(hasMask, hasSource, hasReference);
  }

  /** `prompt += `\n${inputCounter++}. ...``: one more numbered entry in the list of images. */
  function AddListItem(w: Wording, ghost head: string, ghost listed: seq<Attachment>, prompt: string, n: nat, a: Attachment): (r: string)
    requires prompt == head + Listing(w, listed, 2) && n == 2 + |listed|
    ensures r == head + Listing(w, listed + [a], 2)
  {
    ListingAppend(w, listed, a, 2);
    AppendAssoc(head, Listing(w, listed, 2), ListItem(w, n, a));
    prompt + ListItem(w, n, a)
  }

  /** `prompt += `\n- ...``: one more instruction line. */
  function AddBullet(w: Wording, ghost body: string, ghost lines: seq<Instruction>, prompt: string, line: Instruction): (r: string)
    requires prompt == body + Bullets(w, lines)
    ensures r == body + Bullets(w, lines + [line])
  {
    BulletsAppend(w, lines, line);
    AppendAssoc(body, Bullets(w, lines), Bullet(w, line));
    prompt + Bullet(w, line)
  }

  // ---------------------------------------------------------------------------
  // The request parts
  // ---------------------------------------------------------------------------

  datatype InlineData = InlineData(data: string, mimeType: string)

  /** One element of the `parts` array sent to the model. */
  datatype Part = TextPart(text: string) | ImagePart(inlineData: InlineData)

  /** The `{ base64Data, mimeType }` record of the reference image. */
  datatype ImageData = ImageData(base64Data: string, mimeType: string)

  const PngMime: string := "image/png"

  /** The inline image sent for an attachment that is present. */
  function AttachmentPart(a: Attachment, maskBase64Data: Option<string>, sourceBase64Data: Option<string>,
                          referenceImage: Option<ImageData>): Part
    requires a == MaskImage ==> maskBase64Data.Some?
    requires a == SourcePatch ==> sourceBase64Data.Some?
    requires a == ReferenceImage ==> referenceImage.Some?
  {
    match a
    case SourcePatch => ImagePart(InlineData(sourceBase64Data.value, PngMime))
    case ReferenceImage => ImagePart(InlineData(referenceImage.value.base64Data, referenceImage.value.mimeType))
    case MaskImage => ImagePart(InlineData(maskBase64Data.value, PngMime))
  }

  // ---------------------------------------------------------------------------
  // The model's answer
  // ---------------------------------------------------------------------------

  /** One part of the first candidate's content. */
  datatype ResponsePart = ResponsePart(inlineData: Option<InlineData>, text: Option<string>)

  /** What the SDK call produced: it threw an `Error` with a message, or it
      resolved without a readable first candidate (reading its parts raises a
      `TypeError`), or it resolved with the first candidate's parts. */
  datatype Response = Threw(message: string) | Malformed | Candidate(parts: seq<ResponsePart>)

  const BadRequestMarker: string := "400 Bad Request"
  const BlockedMessage: string :=
    "The request was blocked. This may be due to the prompt or image content. Please try again with a different request."
  const GenericFailure: string := "Failed to communicate with the AI model."

  /** The message a caught error is replaced with before it leaves `editPhoto`. */
  function Caught(message: string): (r: string)
    ensures r == BlockedMessage <==> Contains(message, BadRequestMarker)
    ensures r == BlockedMessage || r == GenericFailure
  {
    if Contains(message, BadRequestMarker) then BlockedMessage else GenericFailure
  }

  /** `textResponse.substring(0, 100)`. */
  function Excerpt(text: string): (r: string)
    ensures |r| == (if |text| <= 100 then |text| else 100) && r <= text
    ensures |text| <= 100 ==> r == text
  {
    if |text| <= 100 then text else text[..100]
  }

  /** Written in short pieces so that facts about its characters stay cheap to check. */
  const RefusalPrefix: string := "The AI model " + "responded with " + "text instead " + "of an image: \""
  const RefusalSuffix: string := "...\""

  /** The message of the error thrown when the model answers with text. */
  function RefusalMessage(text: string): string
  {
    RefusalPrefix + Excerpt(text) + RefusalSuffix
  }

  /** The first part carrying inline data, if any. */
  function FirstImage(parts: seq<ResponsePart>): (r: Option<InlineData>)
    ensures r.None? <==> forall i :: 0 <= i < |parts| ==> parts[i].inlineData.None?
    ensures r.Some? ==> exists i :: 0 <= i < |parts| && parts[i].inlineData == r
                                    && forall j :: 0 <= j < i ==> parts[j].inlineData.None?
  {
    if parts == [] then None
    else if parts[0].inlineData.Some? then parts[0].inlineData
    else
      var r := FirstImage(parts[1..]);
      assert forall i :: 1 <= i < |parts| ==> parts[i] == parts[1..][i - 1];
      r
  }

  /** The loop over the candidate's parts, returning at the first inline image. */
  method FindImagePart(parts: seq<ResponsePart>) returns (found: Option<InlineData>)
    ensures found == FirstImage(parts)
  {
    for i := 0 to |parts|
      invariant forall j :: 0 <= j < i ==> parts[j].inlineData.None?
      invariant FirstImage(parts) == FirstImage(parts[i..])
    {
      assert parts[i..][1..] == parts[i + 1..];
      if parts[i].inlineData.Some? {
        return parts[i].inlineData;
      }
    }
    found := None;
  }

  /** A text refusal is reported as "blocked" exactly when its first 100
      characters mention "400 Bad Request"; the excerpt itself never reaches
      the caller, whose message is always one of the two fixed ones. */
  lemma RefusalMessageIsCaught(text: string)
    ensures Caught(RefusalMessage(text)) ==
            (if Contains(Excerpt(text), BadRequestMarker) then BlockedMessage else GenericFailure)
  {
    var e := Excerpt(text);
    var m := RefusalMessage(text);
    var k := |BadRequestMarker|;
    assert m == RefusalPrefix + e + RefusalSuffix;
    if Contains(e, BadRequestMarker) {
      var i :| 0 <= i <= |e| && OccursAt(e, BadRequestMarker, i);
      var at := |RefusalPrefix| + i;
      assert m[at..at + k] == e[i..i + k];
      assert OccursAt(m, BadRequestMarker, at);
    } else if Contains(m, BadRequestMarker) {
      var i :| 0 <= i <= |m| && OccursAt(m, BadRequestMarker, i);
      MarkerInsideExcerpt(e, i);
      var j := i - |RefusalPrefix|;
      assert e[j..j + k] == m[i..i + k];
      assert OccursAt(e, BadRequestMarker, j);
      assert false;
    }
  }

  /** An occurrence of the marker in a refusal message lies wholly inside the excerpt:
      the prefix has no '4' and the suffix has no 't'. */
  lemma MarkerInsideExcerpt(e: string, i: int)
    requires OccursAt(RefusalPrefix + e + RefusalSuffix, BadRequestMarker, i)
    ensures |RefusalPrefix| <= i && i + |BadRequestMarker| <= |RefusalPrefix| + |e|
  {
    var m := RefusalPrefix + e + RefusalSuffix;
    var k := |BadRequestMarker|;
    assert m[i] == BadRequestMarker[0] == '4';
    assert m[i + k - 1] == BadRequestMarker[k - 1] == 't';
    assert '4' !in "The AI model " && '4' !in "responded with " && '4' !in "text instead " && '4' !in "of an image: \"";
    assert '4' !in RefusalPrefix && 't' !in RefusalSuffix;
    assert forall c :: 0 <= c < |RefusalPrefix| ==> m[c] == RefusalPrefix[c];
    assert forall c :: 0 <= c < |RefusalSuffix| ==> m[|RefusalPrefix| + |e| + c] == RefusalSuffix[c];
  }

  /** The `parts` array of the request: the instruction text, the original with the
      caller's MIME type, then each present optional image in the listed order. */
  method AssembleParts(fullPrompt: string, base64ImageData: string, mimeType: string,
                       maskBase64Data: Option<string>, sourceBase64Data: Option<string>,
                       referenceImage: Option<ImageData>)
    returns (parts: seq<Part>)
    ensures var atts := Attached(Present(maskBase64Data), Present(sourceBase64Data), referenceImage.Some?);
            && |parts| == 2 + |atts|
            && parts[0] == TextPart(fullPrompt)
            && parts[1] == ImagePart(InlineData(base64ImageData, mimeType))
            && forall j :: 0 <= j < |atts| ==>
                 parts[2 + j] == AttachmentPart(atts[j], maskBase64Data, sourceBase64Data, referenceImage)
  {
    parts := [TextPart(fullPrompt), ImagePart(InlineData(base64ImageData, mimeType))];
    ghost var listed: seq<Attachment> := [];

    if Present(sourceBase64Data) {
      parts := parts + [ImagePart(InlineData(sourceBase64Data.value, PngMime))];
      listed := listed + [SourcePatch];
    }
    assert |parts| == 2 + |listed| && forall j :: 0 <= j < |listed| ==>
             parts[2 + j] == AttachmentPart(listed[j], maskBase64Data, sourceBase64Data, referenceImage);
    if referenceImage.Some? {
      parts := parts + [ImagePart(InlineData(referenceImage.value.base64Data, referenceImage.value.mimeType))];
      listed := listed + [ReferenceImage];
    }
    assert |parts| == 2 + |listed| && forall j :: 0 <= j < |listed| ==>
             parts[2 + j] == AttachmentPart(listed[j], maskBase64Data, sourceBase64Data, referenceImage);
    if Present(maskBase64Data) {
      parts := parts + [ImagePart(InlineData(maskBase64Data.value, PngMime))];
      listed := listed + [MaskImage];
    }
    assert listed == Attached(Present(maskBase64Data), Present(sourceBase64Data), referenceImage.Some?);
  }

  /** How the `try` block after the SDK call and the `catch` block around it
      classify the answer: the first inline image wins; otherwise a text first
      part is a refusal; otherwise there is no image. Every error leaves with the
      catch block's replacement message. */
  function Interpretation(response: Response): (r: Result<Option<string>>)
    ensures r.Err? ==> r.message == BlockedMessage || r.message == GenericFailure
    ensures r.Ok? && r.value.Some? <==> response.Candidate? && FirstImage(response.parts).Some?
    ensures r.Ok? && r.value.Some? ==> r.value.value == FirstImage(response.parts).value.data
    ensures response.Threw? ==> r == Err(Caught(response.message))
    ensures response.Threw? ==> (r == Err(BlockedMessage) <==> Contains(response.message, BadRequestMarker))
    ensures response.Malformed? ==> r == Err(GenericFailure)
    ensures response.Candidate? && FirstImage(response.parts).None? ==>
              (r.Err? <==> |response.parts| > 0 && Present(response.parts[0].text))
    ensures response.Candidate? && FirstImage(response.parts).None?
            && |response.parts| > 0 && Present(response.parts[0].text) ==>
              && r == Err(Caught(RefusalMessage(response.parts[0].text.value)))
              && (r == Err(BlockedMessage) <==> Contains(Excerpt(response.parts[0].text.value), BadRequestMarker))
  {
    match response
    case Threw(message) => Err(Caught(message))
    // reading the missing candidate raises a TypeError, whose message never mentions a bad request
    case Malformed => Err(GenericFailure)
    case Candidate(ps) =>
      if FirstImage(ps).Some? then Ok(Some(FirstImage(ps).value.data))
      else if |ps| > 0 && Present(ps[0].text) then
        RefusalMessageIsCaught(ps[0].text.value);
        Err(Caught(RefusalMessage(ps[0].text.value)))
      else Ok(None)
  }

  /** The `try` and `catch` blocks as the source runs them, with the loop over the parts. */
  method InterpretResponse(response: Response) returns (result: Result<Option<string>>)
    ensures result == Interpretation(response)
  {
    match response {
      case Threw(message) =>
        result := Err(Caught(message));
      case Malformed =>
        result := Err(GenericFailure);
      case Candidate(ps) =>
        var found := FindImagePart(ps);
        if found.Some? {
          result := Ok(Some(found.value.data));
        } else if |ps| > 0 && Present(ps[0].text) {
          result := Err(Caught(RefusalMessage(ps[0].text.value)));
        } else {
          result := Ok(None);
        }
    }
  }

  /** `editPhoto`: builds the instruction text from which optional images are
      present, assembles the request parts, and interprets the SDK's answer
      (`response` stands for what the one call to the model produced).
      Returns the parts that were sent and the outcome. */
  method EditPhoto(base64ImageData: string, mimeType: string, prompt: string,
                   maskBase64Data: Option<string>, sourceBase64Data: Option<string>,
                   referenceImage: Option<ImageData>, response: Response)
    returns (parts: seq<Part>, result: Result<Option<string>>)
    ensures var hasMask, hasSource, hasReference := Present(maskBase64Data), Present(sourceBase64Data), referenceImage.Some?;
            var atts := Attached(hasMask, hasSource, hasReference);
            && |parts| == 2 + |atts|
            && parts[0] == TextPart(EditPrompt(PromptWording, prompt, hasMask, hasSource, hasReference))
            && parts[1] == ImagePart(InlineData(base64ImageData, mimeType))
            && forall j :: 0 <= j < |atts| ==>
                 parts[2 + j] == AttachmentPart(atts[j], maskBase64Data, sourceBase64Data, referenceImage)
    ensures result == Interpretation(response)
  {
    var fullPrompt := CreateEditPrompt(PromptWording, prompt, Present(maskBase64Data), Present(sourceBase64Data), referenceImage.Some?);
    parts := AssembleParts(fullPrompt, base64ImageData, mimeType, maskBase64Data, sourceBase64Data, referenceImage);
    result := InterpretResponse(response);
  }
}
