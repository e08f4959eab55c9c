/** The client of the remote image-generation model: it builds the request
    payload for a first generation and for an edit, and picks the image out of
    the response. The remote call itself is not modelled; its outcome is a
    value handed in by the caller. */
module GeminiService {
  import opened Wrappers
  import opened JsStrings

  /** A part of a request or of a response: free text, or an inline binary
      payload with its media type. `data` is `None` where the TypeScript value
      is `undefined` (`split(',')[1]` of a string without a comma). */
  datatype Part = Text(text: string) | InlineData(data: Option<string>, mimeType: string)

  /** The outcome of the remote call: the parts of each candidate in the
      response, or a rejected call (network failure, service error). */
  datatype CallResult = Responded(candidates: seq<seq<Part>>) | Rejected

  /** Why a generation or an edit produced no image. */
  datatype ImageError = NoImageData | RemoteError

  /** The media type declared for every attached image, whatever was uploaded. */
  const UploadMimeType := "image/png"

  /** The data-URI header put in front of every returned payload, and the same
      header without its final comma. */
  const DataUriHeader := "data:image/png;base64"
  const DataUriPrefix := DataUriHeader + ","

  const StyleInstruction := " Additional style instruction: "

  // The wording of the two prompt templates, between the interpolated values.
  const GenerateOpening := "Create a professional, high-quality profile picture/personal branding asset for \""
  const GenerateNameLine := "\". \n    The person's name \""
  const GenerateRolesLine := "\" should be included as a stylish, minimalist, modern typography logo or watermark in a clean corner. \n    The roles \""
  const GenerateClosing := "\" should be listed elegantly near the name or at the bottom using professional fonts.\n    The overall aesthetic should be like a high-end corporate headshot or a sleek tech-startup team profile. \n    Ensure cinematic lighting and a professional modern office or abstract gradient background."

  const TransformOpening := "Transform this photo into a professional branded profile image for \""
  const TransformNameLine := "\". \n      Maintain the person's facial identity but enhance attire to professional wear.\n      CRITICAL: Overlay the name \""
  const TransformRolesLine := "\" as a sleek minimalist logo in one of the corners.\n      CRITICAL: Include the professional roles \""
  const TransformClosing := "\" as elegant, readable typography below or near the name.\n      Style: Modern, professional, clean. High resolution. "

  /** `roles.join(', ')`. */
  function RoleString(roles: seq<string>): string {
    Join(roles, ", ")
  }

  /** The generation prompt used when there is no reference photo. */
  function GeneratePrompt(name: string, roleString: string): string {
    GenerateOpening + name + GenerateNameLine + name + GenerateRolesLine + roleString + GenerateClosing
  }

  /** The prompt used to transform a reference photo; it ends with `style`. */
  function TransformPrompt(name: string, roleString: string, style: string): string {
    TransformOpening + name + TransformNameLine + name + TransformRolesLine + roleString + TransformClosing + style
  }

  /** `customPrompt || ''`. */
  function StyleText(customPrompt: Option<string>): (t: string)
    ensures t == "" <==> !Truthy(customPrompt)
  {
    if Truthy(customPrompt) then customPrompt.value else ""
  }

  /** The inline part made from a data URI: its second comma-separated field,
      declared as PNG. */
  function InlineFromUri(uri: string): (p: Part)
    ensures p.InlineData? && p.mimeType == UploadMimeType
    ensures p.data.Some? ==> ',' !in p.data.value
  {
    InlineData(Field(uri, ',', 1), UploadMimeType)
  }

  /** The payload of a first generation: with a reference photo, the photo and
      then the transform prompt; without one, the generation prompt alone,
      followed by the style instruction when one is given. */
  function GenerateRequest(name: string, roles: seq<string>, base64Image: Option<string>, customPrompt: Option<string>): (r: seq<Part>)
    ensures |r| == if Truthy(base64Image) then 2 else 1
    ensures r[|r| - 1].Text?
  {
    var roleString := RoleString(roles);
    if Truthy(base64Image) then
      [InlineFromUri(base64Image.value), Text(TransformPrompt(name, roleString, StyleText(customPrompt)))]
    else
      var extra := if Truthy(customPrompt) then StyleInstruction + customPrompt.value else "";
      [Text(GeneratePrompt(name, roleString) + extra)]
  }

  /** Whichever prompt is sent, it names the person twice and then lists the
      roles. */
  lemma GenerateRequestMentions(name: string, roles: seq<string>, base64Image: Option<string>, customPrompt: Option<string>)
    ensures var r := GenerateRequest(name, roles, base64Image, customPrompt);
      OccurInOrder(r[|r| - 1].text, [name, name, RoleString(roles)])
  {
    if Truthy(base64Image) {
      TransformPromptMentions(name, RoleString(roles), StyleText(customPrompt));
    } else {
      GeneratePromptMentions(name, RoleString(roles), if Truthy(customPrompt) then StyleInstruction + customPrompt.value else "");
    }
  }

  /** With a reference photo: the photo comes first, then the transform prompt
      with the custom prompt, if any, appended to it. */
  lemma GenerateRequestWithPhoto(name: string, roles: seq<string>, base64Image: Option<string>, customPrompt: Option<string>)
    requires Truthy(base64Image)
    ensures var r := GenerateRequest(name, roles, base64Image, customPrompt);
      r[0] == InlineFromUri(base64Image.value)
      && r[1].text == TransformPrompt(name, RoleString(roles), "") + StyleText(customPrompt)
  {
    TransformPromptMentions(name, RoleString(roles), StyleText(customPrompt));
  }

  /** Without a photo: the generation prompt alone, followed by the style
      instruction and the custom prompt exactly when a custom prompt is given. */
  lemma GenerateRequestWithoutPhoto(name: string, roles: seq<string>, base64Image: Option<string>, customPrompt: Option<string>)
    requires !Truthy(base64Image)
    ensures var text := GenerateRequest(name, roles, base64Image, customPrompt)[0].text;
      GeneratePrompt(name, RoleString(roles)) <= text
      && (Truthy(customPrompt) ==> EndsWith(text, StyleInstruction + customPrompt.value))
      && (!Truthy(customPrompt) ==> text == GeneratePrompt(name, RoleString(roles)))
  {
    var prompt := GeneratePrompt(name, RoleString(roles));
    if Truthy(customPrompt) {
      var extra := StyleInstruction + customPrompt.value;
      assert (prompt + extra)[|prompt + extra| - |extra|..] == extra;
    } else {
      assert prompt + "" == prompt;
    }
  }

  /** The payload of an edit: the current image, then the edit prompt verbatim. */
  function EditRequest(base64Image: string, editPrompt: string): seq<Part> {
    [InlineFromUri(base64Image), Text(editPrompt)]
  }

  /** `${value}` in a template literal, where `undefined` prints as "undefined". */
  function Interpolate(value: Option<string>): string {
    if value.Some? then value.value else "undefined"
  }

  /** The data URI returned for an inline payload. */
  function ImageUri(data: Option<string>): (uri: string)
    ensures DataUriPrefix <= uri
  {
    DataUriPrefix + Interpolate(data)
  }

  /** Position `i` holds the first inline part of `parts`. */
  predicate FirstInlineAt(parts: seq<Part>, i: int) {
    0 <= i < |parts| && parts[i].InlineData? && forall j :: 0 <= j < i ==> !parts[j].InlineData?
  }

  /** The position of the first inline part, if there is one. */
  function FirstInlineIndex(parts: seq<Part>): (k: Option<nat>)
    ensures k.Some? ==> FirstInlineAt(parts, k.value)
    ensures k.None? ==> forall i :: 0 <= i < |parts| ==> !parts[i].InlineData?
  {
    if parts == [] then None
    else if parts[0].InlineData? then Some(0)
    else match FirstInlineIndex(parts[1..])
      case None => None
      case Some(j) => Some(j + 1)
  }

  /** The parts of the first candidate; no candidate means no parts. */
  function FirstCandidateParts(candidates: seq<seq<Part>>): seq<Part> {
    if |candidates| > 0 then candidates[0] else []
  }

  /** What a generation or an edit resolves to, given the remote outcome: the
      first inline payload of the first candidate as a data URI, or a failure. */
  function ResponseImage(call: CallResult): (r: Result<string, ImageError>)
    ensures call.Rejected? ==> r == Failure(RemoteError)
    ensures call.Responded? ==>
      var parts := FirstCandidateParts(call.candidates);
      (r.Success? <==> exists i :: 0 <= i < |parts| && parts[i].InlineData?)
      && (r.Success? ==> exists i :: FirstInlineAt(parts, i) && r.value == ImageUri(parts[i].data))
      && (r.Failure? ==> r.error == NoImageData)
  {
    match call
    case Rejected => Failure(RemoteError)
    case Responded(candidates) =>
      var parts := FirstCandidateParts(candidates);
      match FirstInlineIndex(parts)
      case Some(k) => Success(ImageUri(parts[k].data))
      case None => Failure(NoImageData)
  }

  // ---------------------------------------------------------------------------
  // The operations, written as the source writes them.

  /** Builds the generation payload step by step: the generation prompt, the
      style instruction appended, then, with a reference photo, the photo put
      in front and the text part rewritten with the transform prompt. */
  method BuildGenerateRequest(name: string, roles: seq<string>, base64Image: Option<string>, customPrompt: Option<string>)
    returns (parts: seq<Part>)
    ensures parts == GenerateRequest(name, roles, base64Image, customPrompt)
  {
    var roleString := RoleString(roles);
    var prompt := GeneratePrompt(name, roleString);
    if Truthy(customPrompt) {
      prompt := prompt + StyleInstruction + customPrompt.value;
      assert prompt == GeneratePrompt(name, roleString) + (StyleInstruction + customPrompt.value);
    } else {
      assert prompt == GeneratePrompt(name, roleString) + "";
    }
    parts := [Text(prompt)];
    if Truthy(base64Image) {
      parts := [InlineFromUri(base64Image.value)] + parts;
      prompt := TransformPrompt(name, roleString, StyleText(customPrompt));
      parts := parts[|parts| - 1 := Text(prompt)];
      assert parts == [InlineFromUri(base64Image.value), Text(prompt)];
    }
  }

  /** Scans the first candidate for the first inline part and wraps its data
      as a data URI; fails when there is none. */
  method ExtractImage(candidates: seq<seq<Part>>) returns (result: Result<string, ImageError>)
    ensures result == ResponseImage(Responded(candidates))
  {
    var parts := if |candidates| > 0 then candidates[0] else [];
    var imageUrl := "";
    var i := 0;
    while i < |parts|
      invariant 0 <= i <= |parts|
      invariant forall j :: 0 <= j < i ==> !parts[j].InlineData?
      invariant imageUrl == ""
    {
      if parts[i].InlineData? {
        imageUrl := ImageUri(parts[i].data);
        FirstInlineIsIndex(parts, i);
        break;
      }
      i := i + 1;
    }
    if imageUrl == "" {
      result := Failure(NoImageData);
    } else {
      result := Success(imageUrl);
    }
  }

  /** Waits for the remote outcome: a rejected call fails, a response is scanned. */
  method AwaitImage(call: CallResult) returns (result: Result<string, ImageError>)
    ensures result == ResponseImage(call)
  {
    match call {
      case Rejected =>
        result := Failure(RemoteError);
      case Responded(candidates) =>
        result := ExtractImage(candidates);
    }
  }

  /** A first generation: the payload sent, and what the call resolves to. */
  method GenerateProfessionalAvatar(name: string, roles: seq<string>, base64Image: Option<string>, customPrompt: Option<string>, call: CallResult)
    returns (request: seq<Part>, result: Result<string, ImageError>)
    ensures request == GenerateRequest(name, roles, base64Image, customPrompt)
    ensures result == ResponseImage(call)
  {
    request := BuildGenerateRequest(name, roles, base64Image, customPrompt);
    result := AwaitImage(call);
  }

  /** An edit of the current image: the payload sent, and what the call resolves to. */
  method EditImageWithPrompt(base64Image: string, editPrompt: string, call: CallResult)
    returns (request: seq<Part>, result: Result<string, ImageError>)
    ensures |request| == 2 && request[0] == InlineFromUri(base64Image) && request[1] == Text(editPrompt)
    ensures result == ResponseImage(call)
  {
    request := EditRequest(base64Image, editPrompt);
    result := AwaitImage(call);
  }

  // ---------------------------------------------------------------------------
  // Lemmas

  /** In `a + x + b + y + c + z + d` the strings `x`, `y`, `z` occur in that order. */
  lemma ThreeInOrder(a: string, x: string, b: string, y: string, c: string, z: string, d: string)
    ensures OccurInOrder(a + x + b + y + c + z + d, [x, y, z])
  {
    var tail := c + z + d;
    assert OccurInOrder(tail, [z]) by {
      assert OccurInOrder(d, []);
      OccurInOrderCons(c, z, d, []);
      assert [z] + [] == [z];
    }
    var mid := b + y + tail;
    assert OccurInOrder(mid, [y, z]) by {
      OccurInOrderCons(b, y, tail, [z]);
      assert [y] + [z] == [y, z];
    }
    assert OccurInOrder(a + x + mid, [x, y, z]) by {
      OccurInOrderCons(a, x, mid, [y, z]);
      assert [x] + [y, z] == [x, y, z];
    }
    assert a + x + b + y + c + z + d == a + x + mid;
  }

  /** The role string lists the labels in their order, separated by ", ". */
  lemma RoleStringInOrder(roles: seq<string>)
    ensures OccurInOrder(RoleString(roles), roles)
    ensures |roles| >= 1 ==> forall x :: RoleString(roles + [x]) == RoleString(roles) + ", " + x
  {
    JoinOccurInOrder(roles, ", ");
    if |roles| >= 1 {
      forall x ensures RoleString(roles + [x]) == RoleString(roles) + ", " + x {
        JoinSnoc(roles, x, ", ");
      }
    }
  }

  /** The generation prompt names the person twice and then lists the roles,
      whatever is appended to it. */
  lemma GeneratePromptMentions(name: string, roleString: string, extra: string)
    ensures OccurInOrder(GeneratePrompt(name, roleString) + extra, [name, name, roleString])
  {
    ThreeInOrder(GenerateOpening, name, GenerateNameLine, name, GenerateRolesLine, roleString, GenerateClosing + extra);
    assert GeneratePrompt(name, roleString) + extra
        == GenerateOpening + name + GenerateNameLine + name + GenerateRolesLine + roleString + (GenerateClosing + extra);
  }

  /** The transform prompt names the person twice and then lists the roles, and
      ends with the style text. */
  lemma TransformPromptMentions(name: string, roleString: string, style: string)
    ensures OccurInOrder(TransformPrompt(name, roleString, style), [name, name, roleString])
    ensures TransformPrompt(name, roleString, style) == TransformPrompt(name, roleString, "") + style
    ensures EndsWith(TransformPrompt(name, roleString, style), style)
  {
    ThreeInOrder(TransformOpening, name, TransformNameLine, name, TransformRolesLine, roleString, TransformClosing + style);
    assert TransformPrompt(name, roleString, style)
        == TransformOpening + name + TransformNameLine + name + TransformRolesLine + roleString + (TransformClosing + style);
  }

  /** A first inline part found by a scan is the one the reference definition picks. */
  lemma FirstInlineIsIndex(parts: seq<Part>, i: int)
    requires FirstInlineAt(parts, i)
    ensures FirstInlineIndex(parts) == Some(i)
  {
  }

  /** Only the first inline part counts: whatever follows it is ignored. */
  lemma ResponseIgnoresLaterParts(candidates: seq<seq<Part>>, i: nat, later: seq<Part>)
    requires |candidates| > 0 && FirstInlineAt(candidates[0], i)
    ensures ResponseImage(Responded(candidates[0 := candidates[0][..i + 1] + later]))
         == ResponseImage(Responded(candidates))
         == Success(ImageUri(candidates[0][i].data))
  {
    var parts := candidates[0][..i + 1] + later;
    assert FirstInlineAt(parts, i) by {
      assert forall j :: 0 <= j <= i ==> parts[j] == candidates[0][j];
    }
    FirstInlineIsIndex(parts, i);
    FirstInlineIsIndex(candidates[0], i);
  }

  /** Taking `split(',')[1]` of a returned data URI gives back the payload,
      provided the payload holds no comma (base64 never does). */
  lemma DataUriRoundTrip(d: string)
    requires ',' !in d
    ensures Field(ImageUri(Some(d)), ',', 1) == Some(d)
  {
    assert ',' !in DataUriHeader;
    assert ImageUri(Some(d)) == DataUriHeader + [','] + d;
    SecondFieldOfPair(DataUriHeader, ',', d);
  }

  /** An image returned by a generation is sent back unchanged by an edit: the
      edit request carries the very payload the response held. */
  lemma EditResendsGeneratedImage(call: CallResult, i: nat, d: string, editPrompt: string)
    requires call.Responded? && |call.candidates| > 0
    requires FirstInlineAt(call.candidates[0], i) && call.candidates[0][i].data == Some(d)
    requires ',' !in d
    ensures ResponseImage(call).Success?
    ensures EditRequest(ResponseImage(call).value, editPrompt) == [InlineData(Some(d), UploadMimeType), Text(editPrompt)]
  {
    FirstInlineIsIndex(call.candidates[0], i);
    DataUriRoundTrip(d);
  }
}
