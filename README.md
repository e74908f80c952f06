# Participant registration form — a verified model

This project models the client-side participant registration form of an
event-management web application (`ParticipantRegister`, a React
component). The component keeps four pieces of state:

- `formData`: the six text fields `name`, `email`, `contact`, `password`,
  `usn`, `college`, and `eventsRegistered`, the ids of the selected events;
- `events`: the `(id, title)` list fetched when the component mounts;
- `loading`: whether a registration request is in flight;
- `errorMessage`: the text of the error banner (`""` means no banner).

The model is in three modules:

- `Wrappers` (`wrappers.dfy`): an `Option` type for the message an error
  response may carry.
- `FormState` (`form_state.dfy`): the pure part. It holds the `FormData`
  record and the updater functions the change handlers pass to
  `setFormData`. It also holds the contact filter, which is the regular
  expression `^\d{0,10}$` written as a small matcher, and the USN filter,
  which compares JavaScript's UTF-16 `length` with 10. The rendering of
  the event selector, what a multi-select change reports, and the choice
  of the failure message are here too.
- `ParticipantRegister` (`participant_register.dfy`): the component as a
  class `RegistrationForm` with the four state fields as mutable fields.
  There is one method per handler: the generic change handler, the USN
  handler, the end of the mount-time fetch, and the submit handler. The
  submit handler is split at its `await`. `SubmitStart` covers the part
  before the request and `SubmitSettle` the part after it ends.
  `HandleSubmit` composes the two for the case where no other handler runs
  in between. `Valid()` is the filters' invariant: the contact is 0 to 10
  ASCII digits and the USN is at most 10 UTF-16 code units. The
  constructor establishes it and every method keeps it, so it holds in
  every reachable state.

HTTP calls are parameters. The event fetch ends as `Loaded(list)` or
`FetchFailed`. The registration ends as `Registered` or
`Rejected(message)`, where the message is optional.

## Model

| member | source | states |
|---|---|---|
| `FormState.MatchesDigitsUpTo` | event_management_frontend/src/components/ParticipantRegister.js:40 | the test `/^\d{0,n}$/.test(s)`: one digit consumed per repetition; a match never has more than n characters |
| `FormState.MatchesDigitsUpToIff` | event_management_frontend/src/components/ParticipantRegister.js:40 | the anchored pattern `\d{0,n}` matches a string exactly when it has at most n characters, all ASCII digits |
| `FormState.ContactFilterIff` | event_management_frontend/src/components/ParticipantRegister.js:38-42 | the contact test `^\d{0,10}$` accepts exactly the strings of 0 to 10 ASCII digits |
| `FormState.Utf16Length` | event_management_frontend/src/components/ParticipantRegister.js:128 | `value.length`: the number of UTF-16 code units, two per character outside the Basic Multilingual Plane; it lies between the character count and twice that |
| `FormState.Utf16LengthBounds` | event_management_frontend/src/components/ParticipantRegister.js:128 | a string's JavaScript length lies between its character count and twice that, and equals the character count exactly when no character needs a surrogate pair |
| `FormState.WellFormedUsnLength` | event_management_frontend/src/components/ParticipantRegister.js:126-131 | under the filters' invariant the USN has at most 10 characters |
| `FormState.InitialFormWellFormed` | event_management_frontend/src/components/ParticipantRegister.js:5-13 | the initial form (all strings empty, no events) satisfies the filters' invariant |
| `FormState.SelectedValues` | event_management_frontend/src/components/ParticipantRegister.js:44 | the selection has at most as many values as there are options, and it is empty when no option is selected |
| `FormState.SelectedValuesConcat` | event_management_frontend/src/components/ParticipantRegister.js:44 | the selection of a concatenation of option lists is the concatenation of their selections, so values come out in option order |
| `FormState.SelectedValuesMembers` | event_management_frontend/src/components/ParticipantRegister.js:44 | a value is in the selection if and only if some selected option carries it |
| `FormState.RenderOptions` | event_management_frontend/src/components/ParticipantRegister.js:163-171 | the disabled placeholder is rendered if and only if there are no events; otherwise there is one enabled option per event, valued by its id and showing its title, in list order |
| `FormState.SelectionListsOnlyEventIds` | event_management_frontend/src/components/ParticipantRegister.js:155-172 | whatever the user picks in the rendered selector, each selected value is the id of a listed event, and nothing can be selected when the list is empty |
| `FormState.SetText` | event_management_frontend/src/components/ParticipantRegister.js:47 | the computed-key copy `{ ...prev, [name]: value }` for a text field: that field takes the value and every other field is copied |
| `FormState.HandleChange` | event_management_frontend/src/components/ParticipantRegister.js:35-49 | only the named field changes; a contact value is taken if it is 0-10 ASCII digits, and otherwise the form is unchanged; any other text field is overwritten; a multi-select sets `eventsRegistered` to the selected values; the filters' invariant is kept |
| `FormState.HandleUsnChange` | event_management_frontend/src/components/ParticipantRegister.js:126-131 | only `usn` changes; a value of at most 10 UTF-16 code units is taken, a longer one leaves the form unchanged; the invariant is kept |
| `FormState.ApplyEdits` | event_management_frontend/src/components/ParticipantRegister.js:35-49 | any sequence of keystrokes and selections, on any of the form's inputs, keeps the filters' invariant |
| `FormState.ContactKeystrokeRejected` | event_management_frontend/src/components/ParticipantRegister.js:38-42 | an eleventh digit or any non-digit in the contact value leaves the whole form unchanged |
| `FormState.SelectionReplaces` | event_management_frontend/src/components/ParticipantRegister.js:43-45 | the new `eventsRegistered` does not depend on the previous one: a selection replaces rather than unions |
| `FormState.TenCharacterValuesAccepted` | event_management_frontend/src/components/ParticipantRegister.js:38-42 | a ten-digit phone number is taken as the contact, and a ten-character USN is taken too |
| `FormState.UsnLimitCountsCodeUnits` | event_management_frontend/src/components/ParticipantRegister.js:128 | six characters outside the Basic Multilingual Plane count as twelve and are refused as a USN |
| `FormState.FailureMessage` | event_management_frontend/src/components/ParticipantRegister.js:78-80 | the message is never empty; it is the server's message when that is present and non-empty, and the generic registration-failed text otherwise |
| `FormState.OneEventRendersOneOption` | event_management_frontend/src/components/ParticipantRegister.js:164-168 | one fetched event renders as exactly one enabled option showing its title |
| `FormState.DuplicateEmailMessage` | event_management_frontend/src/components/ParticipantRegister.js:79 | a server message such as "Email already registered" is shown verbatim |
| `ParticipantRegister.RegistrationForm.constructor` | event_management_frontend/src/components/ParticipantRegister.js:5-17 | a mounted component starts with the empty form, no events, not loading and no banner, and satisfies the invariant |
| `ParticipantRegister.RegistrationForm.SubmitEnabled` | event_management_frontend/src/components/ParticipantRegister.js:177 | `disabled={loading}`: the submit button is enabled exactly while no registration is in flight; it is the precondition of `SubmitStart` and `HandleSubmit` |
| `ParticipantRegister.RegistrationForm.BannerShown` | event_management_frontend/src/components/ParticipantRegister.js:90 | `errorMessage && …`: the error banner is rendered exactly when the message is non-empty |
| `ParticipantRegister.RegistrationForm.HandleChange` | event_management_frontend/src/components/ParticipantRegister.js:35-49 | `formData` becomes the updater's result, only the named field changes, and `events`, `loading` and `errorMessage` are untouched |
| `ParticipantRegister.RegistrationForm.HandleUsnChange` | event_management_frontend/src/components/ParticipantRegister.js:126-131 | `formData` becomes the USN updater's result, the USN stays within 10 characters, and no other state changes |
| `ParticipantRegister.RegistrationForm.FetchEvents` | event_management_frontend/src/components/ParticipantRegister.js:20-32 | a loaded list replaces `events` and leaves the banner alone; a failure keeps `events` and sets the load-failure banner; the form and `loading` are untouched |
| `ParticipantRegister.RegistrationForm.SubmitStart` | event_management_frontend/src/components/ParticipantRegister.js:52-57 | only reachable while the button is enabled (line 177); sets `loading`, clears the banner, posts the current form unchanged |
| `ParticipantRegister.RegistrationForm.SubmitSettle` | event_management_frontend/src/components/ParticipantRegister.js:66-83 | a success resets the form exactly to its initial value; a failure keeps the form and shows the chosen non-empty message; both clear `loading`; `events` is untouched |
| `ParticipantRegister.RegistrationForm.HandleSubmit` | event_management_frontend/src/components/ParticipantRegister.js:52-84 | with nothing interleaved, the posted payload is the form as it was; success ends with the initial form and no banner; failure ends with the same form and the chosen message; `loading` is false afterwards |
| `ParticipantRegister.MountWithFailedFetch` | event_management_frontend/src/components/ParticipantRegister.js:20-28 | mounting when the event request fails leaves `events` empty, so only the disabled placeholder is rendered, and shows the load-failure banner; the form is initial and submitting is enabled |
| `ParticipantRegister.MountWithOneEvent` | event_management_frontend/src/components/ParticipantRegister.js:20-24 | mounting when the server returns one event sets `events` to it, renders one enabled option showing its title, and shows no banner |

## Left out

- `event_management_backend/routes/eventRoutes.js` and `event_management_backend/routes/authRoutes.js` hold only router wiring. The controllers they delegate to are not part of this model, so there is no logic there to model.
- The HTTP requests are left out: URLs, headers, JSON encoding and status codes. An outcome stands for each request's result, and the model does not check that the response body has the `{ _id, title }` shape.
- Only the `message` field of the error response is modelled, as an optional string. A missing message and an empty one are treated alike. JavaScript truthiness of other values is not modelled.
- `alert`, `console.log` and `console.error` are left out. They are output only.
- `e.preventDefault()` is left out; it concerns the browser's page reload.
- JSX rendering is left out: CSS classes and the button label ("Registering..." / "Register"). The selector's options are modelled, and so is whether the banner is shown (`RegistrationForm.BannerShown`).
- The browser's own constraint validation is left out: `required`, `type="email"`, `pattern="\d{10}"` and `maxLength`. The browser enforces these, not the component.
- Asynchronous lifecycle is left out: the order in which overlapping requests resolve, and state updates after unmount. The methods can be called in any order their preconditions allow; React's batching of state updates is not modelled, since sequential setters give the same final state.
- `RegistrationForm.FetchEvents` may be called any number of times and at any point; the component runs the request once, on mount (line 31). `MountWithFailedFetch` and `MountWithOneEvent` show the mount sequence itself.
- Strings are sequences of Unicode scalar values, so a JavaScript string holding an unpaired surrogate cannot be represented. `Utf16Length` is exact for well-formed strings only; JavaScript counts an unpaired surrogate as one unit.
- Server-side rules are left out: email uniqueness, checking that event ids exist, and password hashing.
- `FormState.HandleChange`: only the inputs the component wires to `handleChange` are modelled. Those are the five text inputs other than `usn`, and the event multi-select. Arbitrary `name` attributes, which in JavaScript would add new keys to `formData`, are not modelled.
