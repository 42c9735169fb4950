# Project form: technologies tokens and the submit lifecycle

This project models the project-creation form of a portfolio client (the
`ProjectForm` React component) and proves properties of the model. The form
holds four inputs (title, description, a comma-separated technologies string
and a category), a flag saying that a submission is in progress, an error text
and a success message. Submitting sends a creation request whose
`technologies` is the raw string split on commas, trimmed piece by piece, with
empty pieces dropped. A successful response reports the new project's title,
notifies the parent through the `onProjectAdded` callback and resets the
inputs. A failed one shows an error and keeps what the user typed.

Two modules:

- `Tokenizer` (`tokenizer.dfy`) is the technologies transform as pure
  functions. `Split` is JavaScript's `split(",")`. `Trim` is JavaScript's
  `trim()`, with the ECMAScript WhiteSpace and LineTerminator characters as
  the set it strips. `TrimAll` is `map(trim)`, `DropEmpty` is the filter, and
  `Tokens` is the whole chain. `Join` (JavaScript's `join(",")`) is the
  inverse of `Split` and appears only in lemmas.
- `ProjectForm` (`project_form.dfy`) holds the form's data, the request body
  and the submit lifecycle. The component's state hooks are the fields of the
  class `FormController`. Its methods are `HandleChange`, and
  `handleSubmit` split at the `await` of its `fetch` into `BeginSubmit` and
  `Settle`; `HandleSubmit` runs both. `Settle` takes an abstract `Outcome` in
  place of the request and both `response.json()` reads:
  `Created(title)` (an ok response and its parsed body), `HttpError(detail)`
  (a response that is not ok, with its body as JSON text) or
  `Fault(message)` (any exception on the way: a network failure, or a body
  that is not JSON). The
  field `projectsAdded` counts calls of `onProjectAdded`. The functions
  `Step` and `Run` state the same transitions on values. Each method's
  postcondition ties its new state to `Step`, and lemmas about `Run` give
  properties of whole event sequences.

The handler has no double-submit guard and no blank-field check. The rendered
inputs are disabled while a submission is pending. `required` sits on the
title and the description only and rejects only an empty value, so a
whitespace-only title or description is sent. The model adds neither guard. Editing an input does not clear the error or the
success message, and the model keeps that too.

## Model

| member | source | states |
|---|---|---|
| Tokenizer.Split | frontend/src/components/ProjectForm.jsx:32-33 | `split(",")` always gives at least one piece, even for the empty string, and no piece contains a comma |
| Tokenizer.JoinSplit | frontend/src/components/ProjectForm.jsx:32-33 | joining the pieces with commas gives back the input, so splitting loses and reorders nothing |
| Tokenizer.SplitJoin | frontend/src/components/ProjectForm.jsx:32-33 | splitting a comma-join of comma-free pieces gives back those pieces, so Split and Join are inverse |
| Tokenizer.SplitComma | frontend/src/components/ProjectForm.jsx:32-33 | the pieces of `a + "," + b` are the pieces of `a` followed by those of `b` |
| Tokenizer.SplitNoComma | frontend/src/components/ProjectForm.jsx:32-33 | a comma-free string is a single piece |
| Tokenizer.TrimStartIndex | frontend/src/components/ProjectForm.jsx:34 | the index of the first non-space character: only whitespace before it, a non-space character or the end at it |
| Tokenizer.TrimEndIndex | frontend/src/components/ProjectForm.jsx:34 | one past the last non-space character: only whitespace after it |
| Tokenizer.Trim | frontend/src/components/ProjectForm.jsx:34 | a trimmed string is empty or starts and ends with a non-space character |
| Tokenizer.TrimIsInfix | frontend/src/components/ProjectForm.jsx:34 | trim removes only whitespace, and only at the two ends: the result is an infix of the input with whitespace on both sides |
| Tokenizer.TrimEmpty | frontend/src/components/ProjectForm.jsx:34 | trim gives "" exactly when the input is all whitespace |
| Tokenizer.TrimKeepsChars | frontend/src/components/ProjectForm.jsx:34 | every character of the trimmed string occurs in the input, so a comma-free piece stays comma-free |
| Tokenizer.StartIndexUnique | frontend/src/components/ProjectForm.jsx:34 | the start of the non-space part is the only index with whitespace before it and a non-space character at it |
| Tokenizer.EndIndexUnique | frontend/src/components/ProjectForm.jsx:34 | the end of the non-space part is unique in the same way |
| Tokenizer.TrimUnique | frontend/src/components/ProjectForm.jsx:34 | any infix with only whitespace around it and non-space characters at both ends (or empty for an all-space input) is the trim result |
| Tokenizer.TrimIdempotent | frontend/src/components/ProjectForm.jsx:34 | trimming twice equals trimming once |
| Tokenizer.TrimAll | frontend/src/components/ProjectForm.jsx:34 | `map(trim)` keeps the length, and element i is the trim of piece i |
| Tokenizer.DropEmpty | frontend/src/components/ProjectForm.jsx:35 | the filter never lengthens the list and leaves no empty entry |
| Tokenizer.DropEmptyMembers | frontend/src/components/ProjectForm.jsx:35 | the filter keeps exactly the non-empty entries |
| Tokenizer.DropEmptyConcat | frontend/src/components/ProjectForm.jsx:35 | the filter distributes over concatenation, so it keeps relative order |
| Tokenizer.KeptMembers | frontend/src/components/ProjectForm.jsx:34-35 | after `map(trim)` and the filter, t remains exactly when it is non-empty and is the trim of some piece |
| Tokenizer.Tokens | frontend/src/components/ProjectForm.jsx:32-35 | the whole split, trim and filter chain; no entry of the technologies array is empty |
| Tokenizer.TokensAreTokens | frontend/src/components/ProjectForm.jsx:32-35 | every technology token is non-empty, has no comma and has no whitespace at either end |
| Tokenizer.TokensMembers | frontend/src/components/ProjectForm.jsx:32-35 | t is a token exactly when t is non-empty and is the trim of some comma-separated piece (both directions) |
| Tokenizer.TokensComma | frontend/src/components/ProjectForm.jsx:32-35 | the tokens of `a + "," + b` are those of `a` followed by those of `b`: order is kept |
| Tokenizer.TokensOfPiece | frontend/src/components/ProjectForm.jsx:32-35 | a comma-free input gives its trimmed self as the only token, or no token when that is empty |
| Tokenizer.TokensOfBlank | frontend/src/components/ProjectForm.jsx:32-35 | `""` and `" , "` give no tokens |
| Tokenizer.TokensExample | frontend/src/components/ProjectForm.jsx:32-35 | `"React, Node.js ,, Python"` gives `["React", "Node.js", "Python"]` |
| ProjectForm.FormData.With | frontend/src/components/ProjectForm.jsx:20-23 | `{ ...prevData, [name]: value }` sets the named input to value and keeps every other input |
| ProjectForm.BuildPayload | frontend/src/components/ProjectForm.jsx:32-42 | the request body forwards title, description and category unchanged; its technologies are the tokens of the raw string, each non-empty, comma-free and trimmed |
| ProjectForm.SuccessMessage | frontend/src/components/ProjectForm.jsx:59 | the success text is `Project "<title>" added successfully!`, with the created project's title between the quotes, recoverable at a fixed place |
| ProjectForm.FailureText | frontend/src/components/ProjectForm.jsx:53-71 | the stored error is `Submission failed: <detail>` for a non-ok response, the exception's message otherwise, or the fixed unknown-error text when that message is empty; it is never empty |
| ProjectForm.Step | frontend/src/components/ProjectForm.jsx:18-74 | one event: only a successful response calls onProjectAdded, once; the form is submitting after a submission begins, not after a response, and an edit leaves the flag as it was |
| ProjectForm.Run | frontend/src/components/ProjectForm.jsx:18-74 | a sequence of events in order: the callback count never decreases, and the form is not submitting once the last event is a response |
| ProjectForm.EditSetsOneField | frontend/src/components/ProjectForm.jsx:18-24 | an edit sets exactly the named input; the other inputs, the submitting flag, the error, the message and the callback count are unchanged |
| ProjectForm.SubmitBegins | frontend/src/components/ProjectForm.jsx:27-30 | beginning a submission sets the submitting flag, clears the error and the message, and keeps the inputs |
| ProjectForm.SubmitSucceeds | frontend/src/components/ProjectForm.jsx:58-74 | a successful submission shows the success message with the new title and no error, calls onProjectAdded once, resets the inputs to their defaults and leaves the submitting state |
| ProjectForm.SubmitFails | frontend/src/components/ProjectForm.jsx:53-74 | a failed submission shows the failure text and no success message, keeps the inputs, does not call onProjectAdded and leaves the submitting state |
| ProjectForm.CallbackOncePerSuccess | frontend/src/components/ProjectForm.jsx:58-61 | over any sequence of events, onProjectAdded is called exactly once per successful response and at no other time |
| ProjectForm.SettledUntilNextSubmit | frontend/src/components/ProjectForm.jsx:72-74 | after any response the form is out of the submitting state until the next submission begins |
| ProjectForm.FormKeptWithoutSuccess | frontend/src/components/ProjectForm.jsx:63-71 | without edits and without a successful response, the inputs are never changed: failures and pending submissions keep them |
| ProjectForm.ErrorStaysNonEmpty | frontend/src/components/ProjectForm.jsx:71 | an error on show is never the empty string |
| ProjectForm.FeedbackExclusive | frontend/src/components/ProjectForm.jsx:26-75 | when each response arrives during its own submission, an error and a success message are never on show together |
| ProjectForm.ReachableFeedback | frontend/src/components/ProjectForm.jsx:8-16 | the start state holds the default inputs (empty title, description and technologies, category "Web Development"), is not submitting, has no error and an empty message; from it, every run the rendered form allows (one request in flight at a time) keeps the error non-empty and never shows it beside a success message |
| ProjectForm.ProxyCachePayload | frontend/src/components/ProjectForm.jsx:37-42 | the form "Proxy Cache" / "LRU proxy" / "Go, Redis" sends the technologies `["Go", "Redis"]` |
| ProjectForm.FormController.constructor | frontend/src/components/ProjectForm.jsx:8-16 | initial state: default inputs with category "Web Development", not submitting, no error, empty message, no callback calls |
| ProjectForm.FormController.HandleChange | frontend/src/components/ProjectForm.jsx:18-24 | handleChange overwrites the named input only; error and message are not cleared |
| ProjectForm.FormController.BeginSubmit | frontend/src/components/ProjectForm.jsx:27-42 | sets the submitting flag, clears error and message, keeps the inputs and returns the request body built from them |
| ProjectForm.FormController.Settle | frontend/src/components/ProjectForm.jsx:53-74 | on success: the message names the title, onProjectAdded is called once and the inputs are reset. On failure: the error text is set and the inputs and message are kept. The submitting flag is cleared in both cases |
| ProjectForm.FormController.HandleSubmit | frontend/src/components/ProjectForm.jsx:26-75 | the whole handler: it sends the body built from the inputs as they were, then either ends with the success message, no error and reset inputs, or with the error, an empty message and the inputs kept; it never stays submitting |

## Left out

- The network is left out: the `fetch` call, its URL built from the configured API base, its headers, `JSON.stringify` of the body and `response.json()` (ProjectForm.jsx:45-58). The request body is returned as a `Payload` value. The result of the request is the `Outcome` parameter of `Settle`. The JSON text of an error body is an opaque string.
- `console.error` in the catch block is left out, because it only logs.
- The rendered JSX (ProjectForm.jsx:77-156) is left out, including the `disabled` and `required` attributes. `disabled` is the only guard against double submission. `required` rejects only an empty title or description; whitespace-only values are sent, and technologies and category carry no `required`. `FeedbackExclusive` and `ReachableFeedback` assume the one-request-at-a-time discipline that `disabled` gives (`InFlightOnly`). Without it the conclusion fails: a second response can arrive after a failure and show the success message beside the error. Every other lemma holds for any order of events.
- `handleChange` takes its key from the event's input name. The model limits that key to the four inputs the form renders (`Field`), not to any string.
- A callback that throws is not modelled. If `onProjectAdded` threw, the catch block would set the error after the success message, and the inputs would not be reset. The model assumes the callback returns normally.
- A created project without a `title` would show `undefined` in the message. The model takes the title as a string.
- JavaScript strings are UTF-16 code units; the model uses Unicode scalar values. Splitting on "," and stripping the (all single-unit) whitespace characters behave the same either way.
- `frontend/src/App.jsx` is not part of this model. It only renders from hook state, and the hook that fetches the project list is not among the files modelled. That includes the list refresh that `onProjectAdded` triggers.
- `projects/serializers.py` is not part of this model. It declares server-side serializers that delegate to the web framework.
