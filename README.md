# explain-ai: a verified model of its deterministic core

explain-ai is a code-explanation app. A web page sends a code snippet and an
audience level (junior, intermediate or senior) to an API. The API builds a
prompt and forwards it to a language model. This project models the three
pieces of deterministic logic in that flow and proves properties of them:

- **Origin list** (`api/app/core/config.py`). `Settings.allowed_origins`
  turns the `ALLOWED_ORIGINS` environment value into the CORS origin list.
  The value can be unset or empty, a JSON list, or a comma-separated list.
- **Prompt builder** (`api/app/services/gemini.py`). The `Level` enum, the
  instruction table with its fallback to the intermediate instruction, and
  the prompt that frames the user's code.
- **Page logic** (`web/app/page.tsx`). The Tab key replaces the editor's
  selection with a tab character, and Ctrl/Cmd+Enter submits the form.
  `handleSubmit` and `handleCopy` update the page's state variables. The
  network result of a submission is an input (`Page.Response`).

Files:

- `wrappers.dfy`: `Option`.
- `text.dfy`: Python's `str.strip()` and JavaScript's `trim()`, each with
  its own runtime's set of white-space characters. Also Python's
  `str.split(sep)` for a one-character separator, which is the only kind
  the origin list uses, and its inverse `sep.join(parts)` for a non-empty
  list of parts.
- `config.dfy`: the origin list.
- `gemini.dfy`: levels, the instruction table and the full prompt.
- `editor.dfy`: JavaScript `substring`, the Tab splice and the key dispatch.
- `page.dfy`: the page state as a value, with the transition functions that
  specify it. The class `Home` holds the same state in fields. Each of its
  handler methods is proved to move that state exactly as its transition
  function says.

Where the prose and the code disagree, the model follows the code:

- The settings docstring says an "unset or empty" value falls back to
  `http://localhost:3000`. A value that is only white space is not empty
  and yields no origins at all (`Config.BlankGivesNoOrigins`).
- The submit button is disabled while `loading` is set
  (`web/app/page.tsx:142`), which suggests one request at a time was
  intended. But `handleSubmit` never reads `loading`. Ctrl/Cmd+Enter calls
  the form's `requestSubmit()` (`web/app/page.tsx:81`), which a disabled
  button does not block. So a second submission while loading sends a
  second request (`Page.LoadingDoesNotGuardSubmit`).
- On the list path an element that is only white space is truthy and is
  kept as an empty origin (`Config.JsonBlankStringGivesEmptyOrigin`). The
  comma path drops empty pieces.

## Model

| member | source | states |
|---|---|---|
| `Text.TrimStart` | api/app/core/config.py:22 | dropping leading white space never lengthens the string |
| `Text.TrimStartSpec` | api/app/core/config.py:22 | what is kept is a suffix that does not start with white space, and everything dropped is white space |
| `Text.TrimEnd` | api/app/core/config.py:22 | dropping trailing white space never lengthens the string |
| `Text.TrimEndSpec` | api/app/core/config.py:22 | what is kept is a prefix that does not end with white space, and everything dropped is white space |
| `Text.Trim` | api/app/core/config.py:22 | `strip()`/`trim()` leaves no white space at either end |
| `Text.TrimEmptyIffBlank` | api/app/core/config.py:34 | stripping gives "" exactly when the input is all white space (both directions) |
| `Text.TrimKeepsCharacters` | api/app/core/config.py:34 | stripping introduces no character that was not in the input |
| `Text.TrimOfPadded` | api/app/core/config.py:22 | white space around a string with clean edges is exactly what stripping removes |
| `Text.TrimDecomposition` | api/app/core/config.py:22 | every input is its stripped form with white space on both sides, at some offset |
| `Text.TrimOfClean` | api/app/core/config.py:22 | a string with clean edges is its own stripped form |
| `Text.TrimIdempotent` | api/app/core/config.py:22 | stripping twice is the same as stripping once |
| `Text.Split` | api/app/core/config.py:34 | `split(sep)` gives at least one piece, and no piece contains the separator |
| `Text.JoinSplit` | api/app/core/config.py:34 | joining the pieces of a split with the separator gives back the input |
| `Text.SplitJoin` | api/app/core/config.py:34 | splitting a join of separator-free pieces gives back the pieces |
| `Text.SplitCount` | api/app/core/config.py:34 | a split has one more piece than there are separators |
| `Config.Truthy` | api/app/core/config.py:29 | the `if x` filter: `None` and `False` are never kept; a string is kept exactly when it is non-empty |
| `Config.PyStr` | api/app/core/config.py:29 | `str(x)` gives a string itself without quotes, `None` as "None", and booleans as "True"/"False" |
| `Config.JsonOrigins` | api/app/core/config.py:29 | the list path gives at most one origin per element, each with clean edges |
| `Config.StrippedParts` | api/app/core/config.py:34 | the comma path gives at most one origin per piece, each non-empty and with clean edges |
| `Config.CommaOrigins` | api/app/core/config.py:34 | the comma fallback gives at most one origin more than there are commas, each non-empty and with clean edges |
| `Config.AllowedOrigins` | api/app/core/config.py:9-34 | unset or "" gives exactly `["http://localhost:3000"]`; no origin ever has white space at its edges |
| `Config.BlankGivesNoOrigins` | api/app/core/config.py:19-22 | a non-empty value that is all white space gives the empty list, not the default |
| `Config.NonListUsesCommas` | api/app/core/config.py:28-34 | if the stripped value does not decode to a list, or fails to decode, the comma split is used |
| `Config.ListUsesJson` | api/app/core/config.py:27-29 | if the stripped value decodes to a list, the origins come from its elements |
| `Config.CommaOriginsShape` | api/app/core/config.py:34 | comma-path origins are non-empty, have clean edges and contain no comma, and number at most one more than the commas |
| `Config.StrippedPartsAvoid` | api/app/core/config.py:34 | a character missing from every piece is missing from every origin |
| `Config.StrippedPartsAppend` | api/app/core/config.py:34 | pieces are handled in input order: the origins of a concatenation are the concatenated origins |
| `Config.StrippedPartsMembership` | api/app/core/config.py:34 | a string is an origin exactly when it is non-empty and is some piece, stripped |
| `Config.StrippedPartsOfClean` | api/app/core/config.py:34 | pieces that are already non-empty and clean pass through unchanged |
| `Config.JsonOriginsAppend` | api/app/core/config.py:29 | list elements are handled in list order |
| `Config.JsonOriginsOfStrings` | api/app/core/config.py:29 | a list of clean, non-empty strings gives exactly those strings |
| `Config.JsonBlankStringGivesEmptyOrigin` | api/app/core/config.py:29 | the list element `" "` is truthy and gives the empty origin |
| `Config.UnbracketedUsesCommas` | api/app/core/config.py:22-34 | a stripped value that does not start with `[` takes the comma path |
| `Config.CommaOriginsOfJoin` | api/app/core/config.py:34 | clean origins joined with commas come back unchanged from the comma path |
| `Config.JoinIsClean` | api/app/core/config.py:22 | clean, non-empty origins joined with commas give a value with clean edges that starts with the first origin's first character |
| `Config.JoinTakesCommaPath` | api/app/core/config.py:22-34 | clean origins joined with commas, the first not starting with `[`, never decode as a list, so they take the comma path |
| `Config.CommaRoundTrip` | api/app/core/config.py:18-34 | writing clean origins as a comma-separated value and reading it back gives the same list |
| `Gemini.LevelOf` | api/app/services/gemini.py:5-8 | looking up a level by value finds the level with that value, or none when no level has it |
| `Gemini.LevelOfValue` | api/app/services/gemini.py:5-8 | every level is found again from its own value |
| `Gemini.RequestLevel` | api/app/models/requests.py:6 | an omitted `level` is `INTERMEDIATE`; a given value is accepted exactly when it names a level |
| `Gemini.SystemInstruction` | api/app/services/gemini.py:36 | every level's value is a key of the table, and the level gets that entry, never the fallback |
| `Gemini.Lookup` | api/app/services/gemini.py:36 | a key in the table gets its own instruction; a missing key gets the intermediate instruction |
| `Gemini.InstructionPerLevel` | api/app/services/gemini.py:18-36 | junior, intermediate and senior each select their own fixed instruction; every level's value is in the table |
| `Gemini.InstructionsDistinct` | api/app/services/gemini.py:18-34 | the three instructions are pairwise distinct |
| `Gemini.InstructionCharacter` | api/app/services/gemini.py:18-34 | each instruction is longer than ten characters, and its eleventh character tells the levels apart |
| `Gemini.FullPrompt` | api/app/services/gemini.py:37 | the prompt starts with the instruction, ends with a newline and a closing fence, and has the length of instruction, header, code and footer |
| `Gemini.CodeInPrompt` | api/app/services/gemini.py:37 | the code appears verbatim and contiguously, right after the header |
| `Gemini.PromptDeterminesInputs` | api/app/services/gemini.py:36-37 | equal prompts come from equal levels and equal code |
| `Editor.Substring` | web/app/page.tsx:70 | `substring` never yields more than the string |
| `Editor.SubstringSlice` | web/app/page.tsx:70 | in-range ordered bounds give the slice; the bounds may be given in either order |
| `Editor.TabSplice` | web/app/page.tsx:67-70 | for any offsets, the text before the clamped `start`, then a tab, then the text from the clamped `end` |
| `Editor.TabReplacesSelection` | web/app/page.tsx:67-74 | for `start <= end <= length`, the text is prefix + tab + suffix, the length is `length - (end - start) + 1`, prefix and suffix are unchanged, and the caret `start + 1` is just past the tab |
| `Editor.TabUndo` | web/app/page.tsx:70 | removing the tab gives the text without the selection, or the original text when nothing was selected |
| `Editor.OnKeyDown` | web/app/page.tsx:63-83 | Tab, and only Tab, splices; the new text is the code before `selectionStart ?? 0`, a tab, then the code from `selectionEnd ?? 0`, both clamped to the text; the caret is `selectionStart ?? 0` plus one; Ctrl/Cmd+Enter, and only that, submits |
| `Editor.TabKeyReplacesSelection` | web/app/page.tsx:64-74 | Tab with a selection `start <= end <= length` gives `code[..start] + "\t" + code[end..]` with the caret at `start + 1` |
| `Editor.TabWithoutSelection` | web/app/page.tsx:67-68 | with a null selection, the tab goes at offset 0 and the caret at 1 |
| `Editor.TabPastEnd` | web/app/page.tsx:70 | a selection past the end is clamped, so the tab is appended |
| `Page.IsBlank` | web/app/page.tsx:36 | `!code.trim()` holds exactly when the code is all JavaScript white space (both directions) |
| `Page.RequestFor` | web/app/page.tsx:36-47 | a request is sent exactly when the code is not all white space, and it carries the code and the level |
| `Page.BlankSubmitChangesNothing` | web/app/page.tsx:36 | submitting blank code changes no state and sends nothing |
| `Page.SubmitResets` | web/app/page.tsx:38-40 | a valid submit sets `loading`, clears `error` to null and `result` to "", and changes nothing else |
| `Page.BeginSubmit` | web/app/page.tsx:36-40 | blank code leaves the state as it is; otherwise `loading` is set, `error` is null and `result` is ""; nothing else changes |
| `Page.ErrorMessage` | web/app/page.tsx:49-57 | a not-ok response always gives a non-empty message; a thrown `Error` gives its message; anything else thrown gives "Something unexpected happened." |
| `Page.FinishSubmit` | web/app/page.tsx:49-59 | `loading` is false whatever the outcome; a success sets `result` to the explanation or "No explanation returned." and keeps `error`; a failure sets `error` and keeps `result`; nothing else changes |
| `Page.SubmitCycle` | web/app/page.tsx:34-61 | after one whole submission, an error is shown exactly when the response was not a success; success shows the explanation or "No explanation returned."; otherwise `result` stays "" |
| `Page.NotOkMessage` | web/app/page.tsx:49-51 | a not-ok response shows the server's `detail` when it is truthy, else "Unable to generate explanation" |
| `Page.EmptyExplanationLeavesNothingToCopy` | web/app/page.tsx:55 | an empty-string explanation is kept as is (`??` only replaces null), so there is nothing to copy |
| `Page.Copy` | web/app/page.tsx:85-88 | only `copied` can change, and it is set after the call exactly when it was set before or there is a result and the clipboard write succeeds |
| `Page.AfterCopyTimer` | web/app/page.tsx:89 | `copied` is false afterwards, and nothing else changes |
| `Page.KeyDown` | web/app/page.tsx:71 | only the code can change: it becomes the spliced text on Tab and stays the same otherwise |
| `Page.CopyGuard` | web/app/page.tsx:85-88 | copying does nothing when `result` is empty; otherwise `copied` is set exactly when the clipboard write succeeds |
| `Page.LoadingDoesNotGuardSubmit` | web/app/page.tsx:34-60 | with a request in flight, a second submit still sends; if the first then fails and the second succeeds, `loading` is false after the first, and the page ends with an error and a result together |
| `Page.InitialCanSubmit` | web/app/page.tsx:13-22 | the page starts with the sample snippet, not loading, with no error and no result, and that snippet can be submitted |
| `Page.Home.constructor` | web/app/page.tsx:17-22 | the initial state variables |
| `Page.Home.StartSubmit` | web/app/page.tsx:34-47 | the guard and the three state updates before the request, and the request sent |
| `Page.Home.CompleteSubmit` | web/app/page.tsx:49-60 | the state after the request settles, including the `finally` |
| `Page.Home.HandleCopy` | web/app/page.tsx:85-88 | the guard, the text handed to the clipboard and the `copied` update |
| `Page.Home.CopyTimerFires` | web/app/page.tsx:89 | the timer clears `copied` |
| `Page.Home.HandleKeyDown` | web/app/page.tsx:63-77 | the editor's code after a keypress, and the effect requested |

## Left out

- `json.loads` is the parameter `loads`. Its decoder is not modelled. Python's `str()` of numbers and of nested lists or dicts is carried in the decoded value.
- `Config.BlankGivesNoOrigins`, `Config.UnbracketedUsesCommas`, `Config.CommaRoundTrip`: these assume one fact about `json.loads` (`ListsStartWithBracket`). The fact is that a text with no white space at its edges decodes to a list only if it begins with `[`.
- Loading `Settings` from the environment and `.env`, `GEMINI_API_KEY` and `ENVIRONMENT` are outside the model. Only the value of `ALLOWED_ORIGINS` is modelled.
- The model call in `explain_code`, the `print` of the response and `analyze_refactor` are not modelled. The last one calls `self.model`, which does not exist, so it is dead code.
- The default argument of `explain_code` is not modelled. It is a string, so `level.value` would fail if it were used. The endpoint always passes a `Level`.
- The endpoint wrapper that turns exceptions into HTTP 500, the FastAPI app and CORS wiring, and the status route (which reads the clock) are not modelled.
- The `fetch` call is not modelled. Its result is the `Page.Response` input. Response fields that are not strings are not modelled (the browser coerces such a `detail` to text in `new Error`).
- Clipboard writes are reduced to the `writeSucceeds` input. The 2000 ms delay before `copied` resets is not modelled; only the reset itself is. `requestAnimationFrame` scheduling and the browser's clamping of the caret are not modelled.
- Browser selection offsets count UTF-16 code units. The model counts characters, so text outside the Basic Multilingual Plane is not modelled exactly.
- `handlePasteFromClipboard`, the reset-to-sample button, the plain `onChange` and `setLevel` setters, and all rendering components are outside this model.
