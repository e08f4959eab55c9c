# PersonaPix generator core, modelled in Dafny

PersonaPix is a browser front end that composes a personal-branding prompt
(a name, an ordered list of up to three professional roles, an optional
reference photo), sends it to a remote image-generation model, and shows and
refines the returned image. This project models the two parts of it that hold
logic:

- the **generator screen's controller** (`App.tsx`): the held state, the
  role-list handlers, the two guarded request lifecycles (first generation and
  edit), and the name of the downloaded file;
- the **service client** (`services/geminiService.ts`): building the request
  payload for a generation and for an edit, and picking the image out of the
  response.

Files:

- `Wrappers.dfy` — `Option` and `Result`.
- `JsStrings.dfy` — the JavaScript string operations the code relies on:
  `trim`, the `\s` class, `split` on one character, `Array.join` and
  `replace(/\s+/g, rep)`, with their round trips and laws.
- `RoleList.dfy` — the `Role` record (types.ts:2-5) and the role-list
  transforms as pure functions, with the list invariant (at most three
  entries, distinct labels, distinct ids).
- `GeminiService.dfy` — request parts, the two prompt templates, the response
  scan as a loop, and the composed `GenerateProfessionalAvatar` and
  `EditImageWithPrompt`. The remote call is a parameter, a `CallResult`:
  either the candidates of a response (each a sequence of parts) or a rejected call.
- `App.dfy` — the `AppState` record (types.ts:7-15) and a class
  `AppComponent` with its fields plus `editPrompt`. The handlers are methods
  that change those fields. Each async handler is split in two:
  `StartGenerate`/`StartEdit` run the guard and the busy update and return the
  call they issue, if any. `FinishGenerate`/`FinishEdit` apply the outcome.
  Each handler's `ensures` gives the whole new state as an update of the old one.

Modelling choices:

- The random role id (App.tsx:50) is a caller-supplied `freshId` that must not
  already be an id in the list.
- The role field `label` is called `text`, because `label` is a reserved word
  in Dafny.
- A candidate without content or without parts becomes an empty part list. In
  the source both end in failure: one by a thrown `TypeError`, the other by
  "no image data".
- Inline data is `Option<string>`: `split(',')[1]` of a string without a comma
  is `undefined`. Interpolating `undefined` into the returned URI prints
  `undefined`, and that is modelled too.
- JavaScript truthiness of `string | null` (`userImage`, `generatedImage`,
  `customPrompt`) is `Truthy`: neither null nor empty.

At these points the model follows the code exactly:

- After a failed generation the status message is left as it was (App.tsx:77):
  the failure branch clears only the busy flag and sets the error, so the
  rendering status stays on screen.
- A successful edit does not clear an earlier error (App.tsx:83, 86).
- The edit guard tests the prompt without trimming it (App.tsx:82).
- The generate guard trims the name (App.tsx:68), while the button's
  enable check (App.tsx:346) does not.
- The declared media type is always `image/png` (services/geminiService.ts:36).

## Model

| member | source | states |
|---|---|---|
| JsStrings.IsWhitespace | App.tsx:68 | the characters `trim` strips and `\s` matches (also at line 97): ECMAScript's WhiteSpace and LineTerminator code points (tab, line feed, vertical tab, form feed, carriage return, space, no-break space, U+1680, U+2000-U+200A, U+2028, U+2029, U+202F, U+205F, U+3000, U+FEFF) |
| JsStrings.Truthy | App.tsx:94 | JavaScript truthiness of a nullable or optional string (also at App.tsx:82 and services/geminiService.ts:23, 31, 43): present and not the empty string |
| JsStrings.TrimStart | App.tsx:68 | the result is no longer than the input and does not start with whitespace |
| JsStrings.TrimStartIsSuffix | App.tsx:68 | `trimStart` keeps a suffix of the input |
| JsStrings.TrimStartDropsWhitespace | App.tsx:68 | what `trimStart` drops is all whitespace |
| JsStrings.TrimStartAllWhitespace | App.tsx:68 | a string of whitespace only trims to the empty string |
| JsStrings.TrimEnd | App.tsx:68 | the result is no longer than the input and does not end with whitespace |
| JsStrings.TrimEndIsPrefix | App.tsx:68 | `trimEnd` keeps a prefix of the input |
| JsStrings.TrimEndDropsWhitespace | App.tsx:68 | what `trimEnd` drops is all whitespace |
| JsStrings.Trim | App.tsx:68 | `s.trim()`, trimming both ends: the result is no longer than the input and neither starts nor ends with whitespace |
| JsStrings.IsBlank | App.tsx:68 | `!s.trim()`, defined as the trimmed string being empty; its meaning is stated by the next row |
| JsStrings.BlankIsAllWhitespace | App.tsx:68 | `!name.trim()` holds exactly when every character of the name is whitespace |
| JsStrings.Join | services/geminiService.ts:14 | `xs.join(sep)`, defined recursively: `""` for no element, the element alone for one; its properties are `JoinSplit`, `SplitJoin`, `JoinOccurInOrder` and `JoinSnoc` |
| JsStrings.Split | services/geminiService.ts:35 | `split(sep)` yields at least one field, and no field contains the separator |
| JsStrings.Field | services/geminiService.ts:35 | `s.split(sep)[k]` (also used at line 82): the first field always exists, and a field that exists holds no separator; a missing field is `undefined` |
| JsStrings.JoinSplit | services/geminiService.ts:35 | joining the fields of a split with the separator gives back the string |
| JsStrings.SplitJoin | services/geminiService.ts:35 | splitting a join of separator-free fields gives back the fields |
| JsStrings.SecondFieldOfPair | services/geminiService.ts:82 | `(p + "," + d).split(',')[1]` is `d` when neither part contains a comma |
| JsStrings.ReplaceWhitespaceRuns | App.tsx:97 | `s.replace(/\s+/g, rep)`, defined character by character: a run of whitespace is dropped by `trimStart` and replaced by one `rep`; its properties are the `Replace*` lemmas below |
| JsStrings.ReplaceLeavesNoWhitespace | App.tsx:97 | after `replace(/\s+/g, rep)` with whitespace-free `rep`, no whitespace is left |
| JsStrings.ReplaceIdentity | App.tsx:97 | a string without whitespace is left unchanged |
| JsStrings.ReplaceSingleRun | App.tsx:97 | a non-empty run of whitespace becomes exactly one `rep` |
| JsStrings.ReplaceConcat | App.tsx:97 | the replacement works piecewise when the cut is not inside a run of whitespace, so each maximal run is replaced on its own |
| JsStrings.ReplaceTwoWords | App.tsx:97 | two whitespace-free words with a run of whitespace between them become the words joined by one `rep` |
| JsStrings.ReplaceIdempotent | App.tsx:97 | replacing a second time changes nothing |
| JsStrings.JoinOccurInOrder | services/geminiService.ts:14 | a join lists its elements, in their order |
| JsStrings.JoinSnoc | services/geminiService.ts:14 | appending an element to a non-empty list appends the separator and the element to the join |
| RoleList.Labels | App.tsx:74 | `roles.map(r => r.label)`: one label per role, position by position |
| RoleList.HasLabel | App.tsx:47 | `roles.find(r => r.label === role)` finds something: some position holds a role with that label |
| RoleList.AddRole | App.tsx:45-53 | no-op exactly when the list has 3 roles or the label is there; otherwise one role with that label and the fresh id is appended after the unchanged earlier entries; the label is present afterwards unless the list was full; the invariant is kept |
| RoleList.AddRoleIdempotent | App.tsx:47 | adding the same label a second time changes nothing |
| RoleList.RemoveRole | App.tsx:57 | `roles.filter(r => r.id !== id)`: the result is never longer than the input; the next four rows state which roles it keeps |
| RoleList.RemoveRoleMembers | App.tsx:57 | the roles left are exactly those whose id differs |
| RoleList.RemoveRoleConcat | App.tsx:57 | removal works piecewise over a concatenation, so the remaining roles keep their relative order |
| RoleList.RemoveAbsent | App.tsx:57 | removing an id no role carries leaves the list unchanged |
| RoleList.RemovePresent | App.tsx:57 | with distinct ids, removing the id at position k removes exactly that entry and keeps the others in order |
| RoleList.RemoveRoleValid | App.tsx:57 | removal keeps the invariant (size at most 3, distinct labels and ids) |
| RoleList.Target | App.tsx:61 | the index swapped with: one less than `index` for up, one more for down |
| RoleList.Swap | App.tsx:63 | the two positions are exchanged, every other position is unchanged, the multiset of roles is preserved |
| RoleList.MoveRole | App.tsx:59-65 | no-op when the neighbour in the given direction is outside the list; otherwise a swap with it; the invariant is kept |
| RoleList.MoveRoleUndo | App.tsx:59-65 | a move followed by the opposite move of the moved role restores the list |
| GeminiService.RoleString | services/geminiService.ts:14 | `roles.join(', ')`, as `Join` with `", "` |
| GeminiService.GeneratePrompt | services/geminiService.ts:17-21 | the generation template with the name twice and the role string in their places; `GeneratePromptMentions` states where they occur |
| GeminiService.TransformPrompt | services/geminiService.ts:39-43 | the transform template with the name twice, the role string and the style text in their places; `TransformPromptMentions` states where they occur |
| GeminiService.StyleText | services/geminiService.ts:43 | `customPrompt || ''`: empty exactly when the custom prompt is not truthy |
| GeminiService.InlineFromUri | services/geminiService.ts:34-37 | the inline part built from a data URI (also at lines 81-84): PNG, holding the URI's second comma field, which contains no comma |
| GeminiService.RoleStringInOrder | services/geminiService.ts:14 | the role string lists the labels in their given order, and a further label is appended after ", " |
| GeminiService.GeneratePromptMentions | services/geminiService.ts:17-21 | the generation prompt contains the name, the name again, then the role string, in that order, whatever is appended |
| GeminiService.TransformPromptMentions | services/geminiService.ts:39-43 | the transform prompt contains the name twice and then the role string, and ends with the style text |
| GeminiService.GenerateRequest | services/geminiService.ts:14-45 | two parts with a reference photo, one without; the last part is text |
| GeminiService.GenerateRequestMentions | services/geminiService.ts:14-45 | the text part always names the person twice and then lists the roles |
| GeminiService.GenerateRequestWithPhoto | services/geminiService.ts:31-45 | with a photo, the PNG inline part holding the URI's second comma field comes first, then the transform prompt followed by the custom prompt or nothing |
| GeminiService.GenerateRequestWithoutPhoto | services/geminiService.ts:14-29 | without a photo, the one text part starts with the generation prompt; it ends with the style instruction and the custom prompt when one is given, and is exactly the generation prompt otherwise |
| GeminiService.BuildGenerateRequest | services/geminiService.ts:17-45 | the step-by-step construction (append, unshift, rewrite of the last text) produces exactly that payload |
| GeminiService.EditRequest | services/geminiService.ts:78-88 | the edit payload: the inline part of the image URI, then the edit prompt; `EditImageWithPrompt` and `EditResendsGeneratedImage` state it |
| GeminiService.Interpolate | services/geminiService.ts:56 | `${value}` (also at line 94): the value itself, or `undefined` printed as "undefined" |
| GeminiService.ImageUri | services/geminiService.ts:56 | every returned image is a `data:image/png;base64,` URI |
| GeminiService.FirstCandidateParts | services/geminiService.ts:54 | the optional chain over `response.candidates?.[0]?.content.parts` with an empty fallback (also at line 92): the parts of the first candidate, or none when there is no candidate |
| GeminiService.FirstInlineIndex | services/geminiService.ts:54-59 | the position found holds inline data and no part before it does; none is found only when no part holds inline data |
| GeminiService.ResponseImage | services/geminiService.ts:53-62 | a response yields an image exactly when the first candidate has an inline part, and the image is the URI of the first such part; otherwise "no image data"; a rejected call fails |
| GeminiService.ExtractImage | services/geminiService.ts:53-62 | the scan loop, which stops at the first inline part, gives exactly that result |
| GeminiService.AwaitImage | services/geminiService.ts:47-66 | a rejected call fails as a remote error; a response is scanned |
| GeminiService.GenerateProfessionalAvatar | services/geminiService.ts:6-67 | the payload sent and the result are those above |
| GeminiService.EditImageWithPrompt | services/geminiService.ts:69-105 | the edit payload is exactly the PNG inline part from the image URI, then the edit prompt verbatim; the result is the one above |
| GeminiService.ResponseIgnoresLaterParts | services/geminiService.ts:54-59 | whatever follows the first inline part does not change the result |
| GeminiService.DataUriRoundTrip | services/geminiService.ts:56 | for a payload without a comma, `split(',')[1]` of the returned URI gives the payload back |
| GeminiService.EditResendsGeneratedImage | services/geminiService.ts:78-97 | an image returned by a generation is sent back unchanged, as PNG, by an edit, followed by the edit prompt |
| App.DownloadFilename | App.tsx:93-97 | no file name without a generated image; otherwise the name with every maximal run of whitespace replaced by one `_` (see the `Replace*` lemmas), followed by `_profile_pix.png`; the part before that suffix holds no whitespace, and a name without whitespace is kept verbatim |
| App.FilenameOfTwoWords | App.tsx:97 | two words separated by any run of whitespace are joined by one underscore |
| App.ScenarioRequest | services/geminiService.ts:14-29 | for "Julian Gray" with roles Founder and CTO and no photo, the request is one text part naming the person twice and then "Founder, CTO" |
| App.FillInScenario | App.tsx:45-53 | typing a name and adding two different roles with different ids from an empty screen gives those two roles in order, and nothing else is set |
| App.GenerateScenario | App.tsx:67-78 | from the filled-in screen, the generation call carries the name and both labels in order, and a successful outcome leaves the image on a screen that is not busy, has an empty status and no error |
| App.EditScenario | App.tsx:81-90 | an edit sends the current image and the prompt verbatim; success replaces the image, clears busy and status, empties the prompt and changes nothing else |
| App.AppComponent.constructor | App.tsx:21-31 | the screen starts with an empty name, no roles, no images, not busy, empty status, no error and an empty edit prompt |
| App.AppComponent.SetName | App.tsx:262 | only the name changes |
| App.AppComponent.SetUserImage | App.tsx:39 | only the uploaded photo changes |
| App.AppComponent.SetEditPrompt | App.tsx:426 | only the edit prompt changes |
| App.AppComponent.AddRole | App.tsx:45-54 | the roles become the add-role transform of the old roles; nothing else changes; the invariant is kept |
| App.AppComponent.ClearRoles | App.tsx:56 | the roles become empty; nothing else changes |
| App.AppComponent.RemoveRole | App.tsx:57 | the roles become the old roles without that id; nothing else changes; the invariant is kept |
| App.AppComponent.MoveRole | App.tsx:59-65 | the copy-and-swap gives the move transform of the old roles; nothing else changes |
| App.AppComponent.Filename | App.tsx:93-97 | the file name a download would use, as `DownloadFilename` of the current image and name |
| App.AppComponent.StartGenerate | App.tsx:67-74 | no call exactly when there is no role or the trimmed name is empty, and then only the validation error is set (not even the busy flag); otherwise busy, error cleared, rendering status, and the call carries the name, the labels in list order and the uploaded photo |
| App.AppComponent.FinishGenerate | App.tsx:75-78 | success stores the image, clears busy and status and leaves the error; failure clears busy and sets the generic error, keeping the image and the status |
| App.AppComponent.StartEdit | App.tsx:81-85 | no call, and nothing changed, exactly when there is no generated image or the untrimmed prompt is empty; otherwise busy with the edit status, error untouched, and the call carries the current image and the prompt |
| App.AppComponent.FinishEdit | App.tsx:86-90 | success replaces the image, clears busy and status and empties the prompt, leaving name, roles and error; failure clears busy and sets the error, keeping image and prompt |

## Left out

- Presentation: the JSX of the landing page and of the generator (App.tsx:101-450), `components/Layout.tsx` and `components/RoleItem.tsx`. They render the state; `isFirst`/`isLast` only disable buttons.
- The landing/generator `view` toggle (App.tsx:20): it is navigation only.
- Reading the uploaded file (App.tsx:34-43): this is browser I/O. Only its effect, storing the data URI, is modelled (`SetUserImage`).
- The anchor element and the click in `downloadImage` (App.tsx:95-98): this is DOM I/O. Only the file name is modelled.
- The remote client, the API key, the network call and the error log (services/geminiService.ts:12, 48-51, 64, 73-77, 102): these are foreign calls. Their outcome is the `CallResult` parameter.
- `Math.random` id generation (App.tsx:50) is replaced by the `freshId` parameter.
- Overlapping requests: the controller has no in-flight guard; only the buttons are disabled (App.tsx:346, 433). So `Start`/`Finish` steps may be called in any order, and no queueing or rejection is modelled.
- The English wording of the prompts is held as constants, but nothing is proved about it. The proofs are about where the name, the role string and the custom prompt occur.
- The `customPrompt` argument is never passed by the controller. The service model takes it as an `Option`.
- App.AppComponent.MoveRole: requires the index to be a position in the list. The only caller passes the index of a rendered role (App.tsx:332). Most out-of-range indices make the source return at App.tsx:62 anyway; the exceptions are `index == roles.length` with `'up'`, which copies the last role one place further and leaves `undefined` where it was, and `index == -1` with `'down'`, which copies the first role to the non-index property `-1` and leaves `undefined` at position 0. Neither is modelled.
- App.AppComponent.AddRole: requires `freshId` not to be an id already in the list. This stands in for the random id never colliding.
