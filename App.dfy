/** The generator screen's controller: the state it holds, the role-list
    handlers, and the two guarded request lifecycles (first generation, edit).
    Each asynchronous handler is split into the step that runs before the
    remote call (`Start...`, which reports the call it issues, if any) and the
    step that runs when the call resolves (`Finish...`). */
module App {
  import opened Wrappers
  import opened JsStrings
  import RoleList
  import GeminiService

  /** The record of held state (everything but the edit-prompt input). */
  datatype AppState = AppState(
    name: string,
    roles: seq<RoleList.Role>,
    userImage: Option<string>,
    generatedImage: Option<string>,
    isProcessing: bool,
    statusMessage: string,
    error: Option<string>)

  /** The arguments a first generation is issued with. */
  datatype GenerateCall = GenerateCall(name: string, roles: seq<string>, base64Image: Option<string>)

  /** The arguments an edit is issued with. */
  datatype EditCall = EditCall(base64Image: string, editPrompt: string)

  /** How a remote operation resolved, as the service reports it. */
  type Outcome = Result<string, GeminiService.ImageError>

  const ValidationMessage := "Please complete your name and select a professional role."
  const RenderingStatus := "Rendering Professional Identity..."
  const GenerateFailedMessage := "Branding engine encounterted a delay. Please try again."
  const RefiningStatus := "Applying Brand Refinements..."
  const EditFailedMessage := "Adjustment failed. Please simplify the request."
  const FilenameSuffix := "_profile_pix.png"

  /** The state the screen starts in. */
  const InitialState := AppState("", [], None, None, false, "", None)

  /** The name of the downloaded file: nothing without a generated image;
      otherwise the name with every run of whitespace turned into `_`,
      followed by a fixed suffix. */
  function DownloadFilename(generatedImage: Option<string>, name: string): (f: Option<string>)
    ensures f.None? <==> !Truthy(generatedImage)
    ensures f.Some? ==> EndsWith(f.value, FilenameSuffix) && NoWhitespace(f.value[..|f.value| - |FilenameSuffix|])
    ensures f.Some? && NoWhitespace(name) ==> f.value == name + FilenameSuffix
    ensures f.Some? ==> f.value == ReplaceWhitespaceRuns(name, "_") + FilenameSuffix
  {
    if !Truthy(generatedImage) then None
    else
      var prefix := ReplaceWhitespaceRuns(name, "_");
      ReplaceLeavesNoWhitespace(name, "_");
      var f := prefix + FilenameSuffix;
      assert f[..|prefix|] == prefix && f[|prefix|..] == FilenameSuffix;
      if NoWhitespace(name) then ReplaceIdentity(name, "_"); Some(f)
      else Some(f)
  }

  class AppComponent {
    var name: string
    var roles: seq<RoleList.Role>
    var userImage: Option<string>
    var generatedImage: Option<string>
    var isProcessing: bool
    var statusMessage: string
    var error: Option<string>
    var editPrompt: string

    /** The role list keeps its invariants in every state. */
    ghost predicate Valid()
      reads this
    {
      RoleList.Valid(roles)
    }

    function State(): AppState
      reads this
    {
      AppState(name, roles, userImage, generatedImage, isProcessing, statusMessage, error)
    }

    constructor ()
      ensures Valid() && State() == InitialState && editPrompt == ""
    {
      name, roles, userImage, generatedImage := "", [], None, None;
      isProcessing, statusMessage, error, editPrompt := false, "", None, "";
    }

    /** Typing in the name field. */
    method SetName(value: string)
      requires Valid()
      modifies this
      ensures Valid()
      ensures State() == old(State()).(name := value) && editPrompt == old(editPrompt)
    {
      name := value;
    }

    /** A finished upload: the photo read as a data URI. */
    method SetUserImage(dataUri: string)
      requires Valid()
      modifies this
      ensures Valid()
      ensures State() == old(State()).(userImage := Some(dataUri)) && editPrompt == old(editPrompt)
    {
      userImage := Some(dataUri);
    }

    /** Typing in the edit-prompt field, or picking a preset prompt. */
    method SetEditPrompt(value: string)
      requires Valid()
      modifies this
      ensures Valid()
      ensures State() == old(State()) && editPrompt == value
    {
      editPrompt := value;
    }

    /** Adding a role with the given label; `freshId` stands for the random id. */
    method AddRole(text: string, freshId: string)
      requires Valid() && RoleList.FreshId(roles, freshId)
      modifies this
      ensures Valid()
      ensures State() == old(State()).(roles := RoleList.AddRole(old(roles), text, freshId))
      ensures editPrompt == old(editPrompt)
    {
      if |roles| >= RoleList.MaxRoles { return; }
      if RoleList.HasLabel(roles, text) { return; }
      var newRole := RoleList.Role(freshId, text);
      roles := roles + [newRole];
    }

    /** Emptying the role list. */
    method ClearRoles()
      requires Valid()
      modifies this
      ensures Valid()
      ensures State() == old(State()).(roles := []) && editPrompt == old(editPrompt)
    {
      roles := [];
    }

    /** Removing the role with the given id. */
    method RemoveRole(id: string)
      requires Valid()
      modifies this
      ensures Valid()
      ensures State() == old(State()).(roles := RoleList.RemoveRole(old(roles), id))
      ensures editPrompt == old(editPrompt)
    {
      RoleList.RemoveRoleValid(roles, id);
      roles := RoleList.RemoveRole(roles, id);
    }

    /** Moving the role at `index` one place up or down: a copy of the list in
        which the two slots are exchanged, unless the neighbour is missing. */
    method MoveRole(index: nat, dir: RoleList.Direction)
      requires Valid() && index < |roles|
      modifies this
      ensures Valid()
      ensures State() == old(State()).(roles := RoleList.MoveRole(old(roles), index, dir))
      ensures editPrompt == old(editPrompt)
    {
      var newRoles := roles;
      var target := RoleList.Target(index, dir);
      if target < 0 || target >= |newRoles| { return; }
      newRoles := newRoles[index := newRoles[target]][target := newRoles[index]];
      roles := newRoles;
    }

    /** The part of a first generation that runs before the remote call. With
        no role or a blank name it sets the validation error and issues
        nothing; otherwise it marks the screen busy, clears the error, sets
        the status, and issues the call with the name, the role labels in list
        order and the uploaded photo. */
    method StartGenerate() returns (call: Option<GenerateCall>)
      requires Valid()
      modifies this
      ensures Valid() && editPrompt == old(editPrompt)
      ensures call.None? <==> |old(roles)| == 0 || IsBlank(old(name))
      ensures call.None? ==> State() == old(State()).(error := Some(ValidationMessage))
      ensures call.Some? ==>
        call.value == GenerateCall(old(name), RoleList.Labels(old(roles)), old(userImage))
        && State() == old(State()).(isProcessing := true, error := None, statusMessage := RenderingStatus)
    {
      if |roles| == 0 || IsBlank(name) {
        error := Some(ValidationMessage);
        call := None;
      } else {
        isProcessing, error, statusMessage := true, None, RenderingStatus;
        call := Some(GenerateCall(name, RoleList.Labels(roles), userImage));
      }
    }

    /** The part of a first generation that runs when the call resolves: on
        success the image is stored and the status cleared; on failure the
        generic error is set, and the image and the status stay as they were. */
    method FinishGenerate(outcome: Outcome)
      requires Valid()
      modifies this
      ensures Valid() && editPrompt == old(editPrompt)
      ensures outcome.Success? ==>
        State() == old(State()).(generatedImage := Some(outcome.value), isProcessing := false, statusMessage := "")
      ensures outcome.Failure? ==>
        State() == old(State()).(isProcessing := false, error := Some(GenerateFailedMessage))
    {
      match outcome {
        case Success(image) =>
          generatedImage, isProcessing, statusMessage := Some(image), false, "";
        case Failure(_) =>
          isProcessing, error := false, Some(GenerateFailedMessage);
      }
    }

    /** The part of an edit that runs before the remote call. Without a
        generated image or with an empty (untrimmed) prompt nothing happens;
        otherwise the screen is marked busy with the edit status, the error is
        left alone, and the call is issued with the current image and prompt. */
    method StartEdit() returns (call: Option<EditCall>)
      requires Valid()
      modifies this
      ensures Valid() && editPrompt == old(editPrompt)
      ensures call.None? <==> !Truthy(old(generatedImage)) || old(editPrompt) == ""
      ensures call.None? ==> State() == old(State())
      ensures call.Some? ==>
        call.value == EditCall(old(generatedImage).value, old(editPrompt))
        && State() == old(State()).(isProcessing := true, statusMessage := RefiningStatus)
    {
      if !Truthy(generatedImage) || editPrompt == "" {
        return None;
      }
      isProcessing, statusMessage := true, RefiningStatus;
      call := Some(EditCall(generatedImage.value, editPrompt));
    }

    /** The part of an edit that runs when the call resolves: on success the
        image is replaced, the status cleared and the prompt input emptied; on
        failure the error is set and the image and the prompt are kept. */
    method FinishEdit(outcome: Outcome)
      requires Valid()
      modifies this
      ensures Valid()
      ensures outcome.Success? ==>
        State() == old(State()).(generatedImage := Some(outcome.value), isProcessing := false, statusMessage := "")
        && editPrompt == ""
      ensures outcome.Failure? ==>
        State() == old(State()).(isProcessing := false, error := Some(EditFailedMessage))
        && editPrompt == old(editPrompt)
    {
      match outcome {
        case Success(image) =>
          generatedImage, isProcessing, statusMessage := Some(image), false, "";
          editPrompt := "";
        case Failure(_) =>
          isProcessing, error := false, Some(EditFailedMessage);
      }
    }

    /** The file name a download would use, if there is an image to download. */
    function Filename(): Option<string>
      reads this
    {
      DownloadFilename(generatedImage, name)
    }
  }

  /** A two-word name, whatever the run of whitespace between the words, gives
      the two words joined by one underscore. */
  lemma FilenameOfTwoWords(image: string, first: string, gap: string, second: string)
    requires image != ""
    requires NoWhitespace(first) && NoWhitespace(second) && first != [] && second != []
    requires gap != [] && AllWhitespace(gap)
    ensures DownloadFilename(Some(image), first + gap + second) == Some(first + "_" + second + FilenameSuffix)
  {
    ReplaceTwoWords(first, gap, second, "_");
  }

  /** The request of the scenario below: one text part, which names the person
      twice and then lists both roles, in the order they were added. */
  lemma ScenarioRequest()
    ensures var request := GeminiService.GenerateRequest("Julian Gray", ["Founder", "CTO"], None, None);
      |request| == 1 && request[0].Text?
      && OccurInOrder(request[0].text, ["Julian Gray", "Julian Gray", "Founder, CTO"])
  {
    GeminiService.GenerateRequestMentions("Julian Gray", ["Founder", "CTO"], None, None);
    assert GeminiService.RoleString(["Founder", "CTO"]) == "Founder, CTO" by {
      assert ["Founder", "CTO"][1..] == ["CTO"];
    }
  }

  /** From an empty screen, a name is typed and two different roles are added
      in order. */
  method FillInScenario(name: string, first: string, second: string, id1: string, id2: string) returns (app: AppComponent)
    requires first != second && id1 != id2
    ensures fresh(app) && app.Valid()
    ensures app.State() == AppState(name, [RoleList.Role(id1, first), RoleList.Role(id2, second)], None, None, false, "", None)
    ensures app.editPrompt == ""
  {
    app := new AppComponent();
    app.SetName(name);
    app.AddRole(first, id1);
    assert app.roles == [RoleList.Role(id1, first)];
    assert RoleList.FreshId(app.roles, id2);
    assert !RoleList.HasLabel(app.roles, second);
    app.AddRole(second, id2);
  }

  /** A first generation from that screen, with no photo and a name that is
      not blank: the call carries the name and both labels in the order they
      were added, and a successful outcome leaves the image on a screen that is
      no longer busy and shows no error. */
  method GenerateScenario(name: string, first: string, second: string, id1: string, id2: string, returned: string)
    returns (app: AppComponent, call: Option<GenerateCall>)
    requires !IsBlank(name) && first != second && id1 != id2
    ensures call == Some(GenerateCall(name, [first, second], None))
    ensures app.State() == AppState(name, [RoleList.Role(id1, first), RoleList.Role(id2, second)], None, Some(returned), false, "", None)
  {
    app := FillInScenario(name, first, second, id1, id2);
    assert RoleList.Labels(app.roles) == [first, second];
    call := app.StartGenerate();
    app.FinishGenerate(Success(returned));
  }

  /** An edit of an existing image: the call carries that image and the prompt
      verbatim, and a successful outcome replaces the image, empties the prompt
      input and leaves the name, the roles and the error as they were. */
  method EditScenario(app: AppComponent, prompt: string, edited: string) returns (call: Option<EditCall>)
    requires app.Valid() && app.generatedImage.Some? && app.generatedImage.value != "" && prompt != ""
    modifies app
    ensures call == Some(EditCall(old(app.generatedImage.value), prompt))
    ensures app.State() == old(app.State()).(generatedImage := Some(edited), isProcessing := false, statusMessage := "")
    ensures app.editPrompt == ""
  {
    app.SetEditPrompt(prompt);
    call := app.StartEdit();
    app.FinishEdit(Success(edited));
  }
}
