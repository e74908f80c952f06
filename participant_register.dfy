/**
  The participant registration component as an object: the four pieces of
  state it keeps, and one method per handler that changes them.
 */
module ParticipantRegister {
  import opened Wrappers
  import opened FormState

  /** How the mount-time request for the event list ends. */
  datatype FetchOutcome = Loaded(data: seq<Event>) | FetchFailed

  /** How the registration request ends: accepted, or rejected with the
      `message` of the response body if there is one. */
  datatype SubmitOutcome = Registered | Rejected(serverMessage: Option<string>)

  class RegistrationForm {
    var formData: FormData
    var events: seq<Event>
    var loading: bool
    var errorMessage: string

    /** The filters' invariant, kept by every handler. */
    ghost predicate Valid()
      reads this
    {
      WellFormed(formData)
    }

    /** The submit button is enabled only while no registration is in flight. */
    predicate SubmitEnabled()
      reads this
    {
      !loading
    }

    /** Whether the error banner is shown. */
    predicate BannerShown()
      reads this
    {
      errorMessage != ""
    }

    /** The state of a freshly mounted component. */
    constructor ()
      ensures Valid()
      ensures formData == InitialForm && events == [] && !loading && errorMessage == ""
    {
      formData := InitialForm;
      events := [];
      loading := false;
      errorMessage := "";
    }

    /** `handleChange`: only the named field of `formData` changes. */
    method HandleChange(e: ChangeEvent)
      requires Valid()
      modifies this
      ensures Valid()
      ensures formData == FormState.HandleChange(old(formData), e)
      ensures SameExcept(old(formData), formData, e.Target())
      ensures events == old(events) && loading == old(loading) && errorMessage == old(errorMessage)
    {
      formData := FormState.HandleChange(formData, e);
    }

    /** The USN input's handler: only `usn` may change. */
    method HandleUsnChange(v: string)
      requires Valid()
      modifies this
      ensures Valid()
      ensures formData == FormState.HandleUsnChange(old(formData), v)
      ensures |formData.usn| <= UsnMaxLength
      ensures events == old(events) && loading == old(loading) && errorMessage == old(errorMessage)
    {
      formData := FormState.HandleUsnChange(formData, v);
      WellFormedUsnLength(formData);
    }

    /** `fetchEvents` once its request has ended: a list replaces `events`;
      a failure leaves `events` as it was and sets the banner. */
    method FetchEvents(outcome: FetchOutcome)
      requires Valid()
      modifies this
      ensures Valid()
      ensures outcome.Loaded? ==> events == outcome.data && errorMessage == old(errorMessage)
      ensures outcome.FetchFailed? ==>
                events == old(events) && errorMessage == LoadEventsFailedMessage && BannerShown()
      ensures formData == old(formData) && loading == old(loading)
    {
      match outcome
      case Loaded(data) =>
        events := data;
      case FetchFailed =>
        errorMessage := LoadEventsFailedMessage;
    }

    /** The synchronous start of `handleSubmit`, up to the request; returns
      the payload that is posted. */
    method SubmitStart() returns (payload: FormData)
      requires Valid()
      requires SubmitEnabled()
      modifies this
      ensures Valid()
      ensures payload == formData == old(formData)
      ensures loading && !SubmitEnabled() && errorMessage == "" && !BannerShown()
      ensures events == old(events)
    {
      loading := true;
      errorMessage := "";
      payload := formData;
    }

    /** The rest of `handleSubmit` once the request has ended: a success
      resets the form, a failure keeps it and shows a message; both end
      the submission. */
    method SubmitSettle(outcome: SubmitOutcome)
      requires Valid()
      requires loading
      modifies this
      ensures Valid()
      ensures outcome.Registered? ==> formData == InitialForm && errorMessage == old(errorMessage)
      ensures outcome.Rejected? ==>
                formData == old(formData)
                && errorMessage == FailureMessage(outcome.serverMessage)
                && BannerShown()
      ensures !loading && SubmitEnabled()
      ensures events == old(events)
    {
      match outcome {
        case Registered =>
          formData := InitialForm;
        case Rejected(m) =>
          errorMessage := FailureMessage(m);
      }
      loading := false;
    }

    /** A submission with no other handler running while it is in flight. */
    method HandleSubmit(outcome: SubmitOutcome) returns (payload: FormData)
      requires Valid()
      requires SubmitEnabled()
      modifies this
      ensures Valid()
      ensures payload == old(formData)
      ensures outcome.Registered? ==> formData == InitialForm && errorMessage == ""
      ensures outcome.Rejected? ==>
                formData == old(formData) && errorMessage == FailureMessage(outcome.serverMessage)
      ensures !loading && events == old(events)
    {
      payload := SubmitStart();
      SubmitSettle(outcome);
    }
  }

  /** Mounting while the event list cannot be fetched: no events, so the
      selector shows only the placeholder, and the load-failure banner. */
  method MountWithFailedFetch() returns (c: RegistrationForm)
    ensures c.events == [] && RenderOptions(c.events) == [Placeholder]
    ensures c.errorMessage == LoadEventsFailedMessage && c.BannerShown()
    ensures c.formData == InitialForm && c.SubmitEnabled()
  {
    c := new RegistrationForm();
    c.FetchEvents(FetchFailed);
  }

  /** Mounting with one event on the server: one enabled option showing its
      title, and no banner. */
  method MountWithOneEvent() returns (c: RegistrationForm)
    ensures c.events == [Event("1", "Hackathon")]
    ensures RenderOptions(c.events) == [OptionElement("1", "Hackathon", false)]
    ensures !c.BannerShown() && c.formData == InitialForm && c.SubmitEnabled()
  {
    c := new RegistrationForm();
    c.FetchEvents(Loaded([Event("1", "Hackathon")]));
  }
}
