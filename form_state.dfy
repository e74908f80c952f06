/**
  The values the participant registration form holds, and the pure record
  updates its change handlers apply to them.
 */
module FormState {
  import opened Wrappers

  /** An event as the event list endpoint returns it (`_id`, `title`). */
  datatype Event = Event(id: string, title: string)

  /** The form's `formData` record. */
  datatype FormData = FormData(
    name: string,
    email: string,
    contact: string,
    password: string,
    usn: string,
    college: string,
    eventsRegistered: seq<string>)

  /** The names of the fields of `FormData`. */
  datatype Field = Name | Email | Contact | Password | Usn | College | EventsRegistered

  /** The text inputs wired to the generic change handler: every text field
      but `usn`, which has its own handler, and not the event selector. */
  type HandledTextField = k: Field | k != Usn && k != EventsRegistered witness Name

  /** The value the form starts with and returns to after a successful registration. */
  const InitialForm := FormData("", "", "", "", "", "", [])

  const LoadEventsFailedMessage := "Unable to load events. Please try again later."
  const RegistrationFailedMessage := "Registration failed. Please check your input or try again."

  /** The greatest number of digits the contact filter lets through, and the
      greatest length the USN filter lets through. */
  const ContactMaxDigits := 10
  const UsnMaxLength := 10

  // ---------------------------------------------------------------------
  // Field access

  function Text(f: FormData, k: Field): string
    requires k != EventsRegistered
  {
    match k
    case Name => f.name
    case Email => f.email
    case Contact => f.contact
    case Password => f.password
    case Usn => f.usn
    case College => f.college
  }

  /** `{ ...prev, [name]: value }` for a text field `k`: `k` takes `v`,
      every other field is copied. */
  function SetText(f: FormData, k: Field, v: string): (r: FormData)
    requires k != EventsRegistered
    ensures Text(r, k) == v
    ensures SameExcept(f, r, k)
  {
    match k
    case Name => f.(name := v)
    case Email => f.(email := v)
    case Contact => f.(contact := v)
    case Password => f.(password := v)
    case Usn => f.(usn := v)
    case College => f.(college := v)
  }

  /** `a` and `b` agree on every field other than `k`. */
  predicate SameExcept(a: FormData, b: FormData, k: Field) {
    && (k == Name || a.name == b.name)
    && (k == Email || a.email == b.email)
    && (k == Contact || a.contact == b.contact)
    && (k == Password || a.password == b.password)
    && (k == Usn || a.usn == b.usn)
    && (k == College || a.college == b.college)
    && (k == EventsRegistered || a.eventsRegistered == b.eventsRegistered)
  }

  // ---------------------------------------------------------------------
  // The contact filter: the regular expression ^\d{0,10}$

  /** `\d`: the ASCII digits `0`-`9`. */
  predicate IsAsciiDigit(c: char) {
    '0' <= c <= '9'
  }

  /** The reading of the filter in plain words: at most ten characters, each a digit. */
  ghost predicate IsContactValue(s: string) {
    |s| <= ContactMaxDigits && forall i :: 0 <= i < |s| ==> IsAsciiDigit(s[i])
  }

  /** Whether the anchored pattern `^\d{0,n}$` matches all of `s`: each
      repetition of `\d` consumes one digit, and at most `n` repetitions are allowed. */
  function MatchesDigitsUpTo(s: string, n: nat): (r: bool)
    ensures r ==> |s| <= n
    decreases |s|
  {
    if s == [] then true
    else n > 0 && IsAsciiDigit(s[0]) && MatchesDigitsUpTo(s[1..], n - 1)
  }

  /** The pattern matches exactly the strings of at most `n` ASCII digits. */
  lemma {:induction false} MatchesDigitsUpToIff(s: string, n: nat)
    ensures MatchesDigitsUpTo(s, n) <==>
            |s| <= n && forall i :: 0 <= i < |s| ==> IsAsciiDigit(s[i])
    decreases |s|
  {
    if s != [] && n > 0 {
      MatchesDigitsUpToIff(s[1..], n - 1);
      assert forall i :: 1 <= i < |s| ==> s[i] == s[1..][i - 1];
    }
  }

  lemma ContactFilterIff(s: string)
    ensures MatchesDigitsUpTo(s, ContactMaxDigits) <==> IsContactValue(s)
  {
    MatchesDigitsUpToIff(s, ContactMaxDigits);
  }

  // ---------------------------------------------------------------------
  // The USN filter: `value.length <= 10`

  /** The length JavaScript reports for a string: its number of UTF-16 code
      units, two for each character outside the Basic Multilingual Plane. */
  function Utf16Length(s: string): (r: nat)
    ensures |s| <= r <= 2 * |s|
    decreases |s|
  {
    if s == [] then 0
    else (if s[0] as int > 0xFFFF then 2 else 1) + Utf16Length(s[1..])
  }

  /** A string is never shorter in code units than in characters, and the
      two agree exactly when no character needs a surrogate pair. */
  lemma {:induction false} Utf16LengthBounds(s: string)
    ensures |s| <= Utf16Length(s) <= 2 * |s|
    ensures Utf16Length(s) == |s| <==> forall i :: 0 <= i < |s| ==> s[i] as int <= 0xFFFF
    decreases |s|
  {
    if s != [] {
      Utf16LengthBounds(s[1..]);
      assert forall i :: 1 <= i < |s| ==> s[i] == s[1..][i - 1];
    }
  }

  /** The invariant that the two filters keep on the form. */
  ghost predicate WellFormed(f: FormData) {
    IsContactValue(f.contact) && Utf16Length(f.usn) <= UsnMaxLength
  }

  lemma InitialFormWellFormed()
    ensures WellFormed(InitialForm)
  {
  }

  /** A well-formed form's USN has at most ten characters. */
  lemma WellFormedUsnLength(f: FormData)
    requires WellFormed(f)
    ensures |f.usn| <= UsnMaxLength
  {
    Utf16LengthBounds(f.usn);
  }

  // ---------------------------------------------------------------------
  // The multi-select: the values of the selected options, in option order

  /** An `<option>` of the event selector as the form renders it. */
  datatype OptionElement = OptionElement(value: string, text: string, disabled: bool)

  /** An option of the selector as a change event reports it. */
  datatype SelectOption = SelectOption(value: string, selected: bool)

  /** The option shown when there are no events; it has no `value`
      attribute, so its value is its text. */
  const Placeholder := OptionElement("No events available", "No events available", true)

  /** `Array.from(e.target.selectedOptions, opt => opt.value)`. */
  function SelectedValues(options: seq<SelectOption>): (r: seq<string>)
    ensures |r| <= |options|
    ensures (forall i :: 0 <= i < |options| ==> !options[i].selected) ==> r == []
  {
    if options == [] then []
    else (if options[0].selected then [options[0].value] else []) + SelectedValues(options[1..])
  }

  /** The selection of a concatenation is the concatenation of the selections,
      so the values come out in option order. */
  lemma {:induction false} SelectedValuesConcat(a: seq<SelectOption>, b: seq<SelectOption>)
    ensures SelectedValues(a + b) == SelectedValues(a) + SelectedValues(b)
    decreases |a|
  {
    if a != [] {
      assert (a + b)[1..] == a[1..] + b;
      SelectedValuesConcat(a[1..], b);
    } else {
      assert a + b == b;
    }
  }

  /** A value is in the selection exactly when some selected option carries it. */
  lemma {:induction false} SelectedValuesMembers(options: seq<SelectOption>, x: string)
    ensures x in SelectedValues(options) <==>
            exists i :: 0 <= i < |options| && options[i].selected && options[i].value == x
    decreases |options|
  {
    if options != [] {
      SelectedValuesMembers(options[1..], x);
      if x in SelectedValues(options[1..]) {
        var i :| 0 <= i < |options[1..]| && options[1..][i].selected && options[1..][i].value == x;
        assert options[i + 1] == options[1..][i];
      }
      if exists i :: 0 <= i < |options| && options[i].selected && options[i].value == x {
        var i :| 0 <= i < |options| && options[i].selected && options[i].value == x;
        if i > 0 {
          assert options[1..][i - 1] == options[i];
        }
      }
    }
  }

  /** The selector's options (lines 163-171): one per event, or the disabled
      placeholder when there are none. */
  function RenderOptions(events: seq<Event>): (r: seq<OptionElement>)
    ensures events == [] <==> r == [Placeholder]
    ensures events != [] ==> |r| == |events|
    ensures events != [] ==>
              forall i :: 0 <= i < |r| ==>
                r[i] == OptionElement(events[i].id, events[i].title, false)
  {
    if events == [] then [Placeholder]
    else
      var r := seq(|events|, i requires 0 <= i < |events| => OptionElement(events[i].id, events[i].title, false));
      assert !r[0].disabled;
      r
  }

  /** The change event the browser reports when the user has picked the
      options flagged in `picks`; a disabled option cannot be selected. */
  function BrowserSelection(rendered: seq<OptionElement>, picks: seq<bool>): seq<SelectOption>
    requires |picks| == |rendered|
  {
    seq(|rendered|, i requires 0 <= i < |rendered| =>
      SelectOption(rendered[i].value, picks[i] && !rendered[i].disabled))
  }

  function EventIds(events: seq<Event>): seq<string> {
    seq(|events|, i requires 0 <= i < |events| => events[i].id)
  }

  /** Whatever the user picks in the rendered selector, every selected value
      is the id of a listed event; with no events nothing can be selected. */
  lemma SelectionListsOnlyEventIds(events: seq<Event>, picks: seq<bool>, x: string)
    requires |picks| == |RenderOptions(events)|
    requires x in SelectedValues(BrowserSelection(RenderOptions(events), picks))
    ensures events != []
    ensures x in EventIds(events)
  {
    var options := BrowserSelection(RenderOptions(events), picks);
    SelectedValuesMembers(options, x);
    var i :| 0 <= i < |options| && options[i].selected && options[i].value == x;
    assert EventIds(events)[i] == x;
  }

  // ---------------------------------------------------------------------
  // The change handlers

  /** What a change event reports: a text input of the generic handler with
      its new value, or the multi-select with its options. */
  datatype ChangeEvent =
    | TextChange(field: HandledTextField, value: string)
    | SelectChange(options: seq<SelectOption>)
  {
    /** The field the event names. */
    function Target(): Field {
      match this
      case TextChange(k, _) => k
      case SelectChange(_) => EventsRegistered
    }
  }

  /** The updater `handleChange` passes to `setFormData`. */
  function HandleChange(f: FormData, e: ChangeEvent): (r: FormData)
    ensures SameExcept(f, r, e.Target())
    ensures e.TextChange? && e.field == Contact && IsContactValue(e.value) ==> r.contact == e.value
    ensures e.TextChange? && e.field == Contact && !IsContactValue(e.value) ==> r == f
    ensures e.TextChange? && e.field != Contact ==> Text(r, e.field) == e.value
    ensures e.SelectChange? ==> r.eventsRegistered == SelectedValues(e.options)
    ensures WellFormed(f) ==> WellFormed(r)
  {
    match e
    case TextChange(k, v) =>
      if k == Contact then
        ContactFilterIff(v);
        if MatchesDigitsUpTo(v, ContactMaxDigits) then f.(contact := v) else f
      else
        SetText(f, k, v)
    case SelectChange(options) =>
      f.(eventsRegistered := SelectedValues(options))
  }

  /** The updater of the USN input's own handler. */
  function HandleUsnChange(f: FormData, v: string): (r: FormData)
    ensures SameExcept(f, r, Usn)
    ensures Utf16Length(v) <= UsnMaxLength ==> r.usn == v
    ensures Utf16Length(v) > UsnMaxLength ==> r == f
    ensures WellFormed(f) ==> WellFormed(r)
  {
    if Utf16Length(v) <= UsnMaxLength then f.(usn := v) else f
  }

  /** A keystroke or selection anywhere on the form. */
  datatype Edit = Generic(event: ChangeEvent) | UsnTyped(value: string)

  function ApplyEdit(f: FormData, x: Edit): FormData {
    match x
    case Generic(e) => HandleChange(f, e)
    case UsnTyped(v) => HandleUsnChange(f, v)
  }

  /** The form after a sequence of edits: every edit keeps the contact and
      USN filters' invariant, so every sequence does. */
  function ApplyEdits(f: FormData, edits: seq<Edit>): (r: FormData)
    ensures WellFormed(f) ==> WellFormed(r)
    decreases |edits|
  {
    if edits == [] then f else ApplyEdits(ApplyEdit(f, edits[0]), edits[1..])
  }

  /** Typing one more character onto a ten-digit contact, or typing a
      non-digit anywhere, leaves the form as it was. */
  lemma ContactKeystrokeRejected(f: FormData, v: string)
    requires (|v| > ContactMaxDigits) || (exists i :: 0 <= i < |v| && !IsAsciiDigit(v[i]))
    ensures HandleChange(f, TextChange(Contact, v)) == f
  {
  }

  /** A selection replaces the previous one: the new `eventsRegistered` does
      not depend on the old. */
  lemma SelectionReplaces(f: FormData, g: FormData, options: seq<SelectOption>)
    ensures HandleChange(f, SelectChange(options)).eventsRegistered
         == HandleChange(g, SelectChange(options)).eventsRegistered
  {
  }

  // ---------------------------------------------------------------------
  // Submit failure message

  /** `err.response?.data?.message || fallback`, with a missing and an
      empty message both counting as absent. */
  function FailureMessage(serverMessage: Option<string>): (r: string)
    ensures r != ""
    ensures serverMessage.Some? && serverMessage.value != "" ==> r == serverMessage.value
    ensures serverMessage.None? || serverMessage.value == "" ==> r == RegistrationFailedMessage
  {
    if serverMessage.Some? && serverMessage.value != "" then serverMessage.value
    else RegistrationFailedMessage
  }

  // ---------------------------------------------------------------------
  // Worked scenarios

  /** One fetched event gives one enabled option showing its title. */
  lemma OneEventRendersOneOption()
    ensures RenderOptions([Event("1", "Hackathon")]) == [OptionElement("1", "Hackathon", false)]
  {
  }

  /** A ten-digit phone number is taken as typed, and a USN of ten
      characters is too. */
  lemma TenCharacterValuesAccepted(f: FormData)
    ensures HandleChange(f, TextChange(Contact, "9876543210")).contact == "9876543210"
    ensures HandleUsnChange(f, "1CR20CS001").usn == "1CR20CS001"
  {
    ContactFilterIff("9876543210");
    assert IsContactValue("9876543210");
    Utf16LengthBounds("1CR20CS001");
  }

  /** The USN filter counts UTF-16 code units, as JavaScript's `length` does:
      six characters outside the Basic Multilingual Plane are twelve units,
      so they are refused although they are only six characters. */
  lemma UsnLimitCountsCodeUnits(f: FormData)
    ensures HandleUsnChange(f, "\U{1F600}\U{1F600}\U{1F600}\U{1F600}\U{1F600}\U{1F600}") == f
  {
  }

  /** The server's own message is shown as it is. */
  lemma DuplicateEmailMessage()
    ensures FailureMessage(Some("Email already registered")) == "Email already registered"
  {
  }
}
