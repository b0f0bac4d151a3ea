/** `src/components/EmailChangeForm.tsx`: the two-step e-mail change. In
    step `input` the user types a new address and asks for a confirmation
    code; once the server accepts, the form moves to step `confirm`, where the
    code is entered; a confirmed change stores the user the server returns
    and brings the form back to an empty `input` step. Each handler awaits a
    request: it is modelled as the call that sends the request and the call
    that handles its outcome, so that `loading` is visible in between. */
module EmailChangeForm {
  import opened Common
  import NotificationServer

  datatype Step = InputStep | ConfirmStep

  /** How a request ended: an accepted response with its JSON, a rejected
      one, or a failed fetch. */
  datatype Outcome = Accepted(data: Record) | Rejected | FetchFailed

  /** A `POST` the form sends. */
  datatype Request = Request(url: string, body: Record)

  class Form {
    /** The signed-in user of the authentication context. */
    var user: Option<Record>
    var newEmail: string
    var confirmationCode: string
    var step: Step
    var loading: bool

    /** The form as it first renders for `user`. */
    constructor (user: Option<Record>)
      ensures this.user == user
      ensures newEmail == "" && confirmationCode == "" && step == InputStep && !loading
    {
      this.user := user;
      newEmail := "";
      confirmationCode := "";
      step := InputStep;
      loading := false;
    }

    method SetNewEmail(s: string)
      modifies this
      ensures newEmail == s
      ensures user == old(user) && confirmationCode == old(confirmationCode) &&
              step == old(step) && loading == old(loading)
    {
      newEmail := s;
    }

    method SetConfirmationCode(s: string)
      modifies this
      ensures confirmationCode == s
      ensures user == old(user) && newEmail == old(newEmail) &&
              step == old(step) && loading == old(loading)
    {
      confirmationCode := s;
    }

    /** The Send Confirmation button is disabled without an address or while
        a request is running. */
    predicate SendDisabled()
      reads this
    {
      newEmail == "" || loading
    }

    /** The Confirm Change button is disabled without a code or while a
        request is running. */
    predicate ConfirmDisabled()
      reads this
    {
      confirmationCode == "" || loading
    }

    /** `sendConfirmation`, up to the request: without a user or an address
        nothing happens; otherwise `loading` is set and the new address is
        posted to the user's `request-email-change` endpoint. */
    method StartSendConfirmation() returns (request: Option<Request>)
      modifies this
      ensures old(user).None? || old(newEmail) == "" ==>
                request.None? && loading == old(loading)
      ensures old(user).Some? && old(newEmail) != "" ==>
                loading &&
                request == Some(Request("http://localhost:3001/api/users/" + UserPath(old(user).value) +
                                        "/request-email-change", map["newEmail" := Str(old(newEmail))]))
      ensures user == old(user) && newEmail == old(newEmail) &&
              confirmationCode == old(confirmationCode) && step == old(step)
    {
      if user.None? || newEmail == "" {
        return None;
      }
      loading := true;
      request := Some(Request("http://localhost:3001/api/users/" + UserPath(user.value) + "/request-email-change",
                              map["newEmail" := Str(newEmail)]));
    }

    /** The rest of `sendConfirmation`: an accepted request moves to step
        `confirm`, any other outcome keeps the step; `loading` ends either
        way. */
    method FinishSendConfirmation(outcome: Outcome)
      modifies this
      ensures outcome.Accepted? ==> step == ConfirmStep
      ensures !outcome.Accepted? ==> step == old(step)
      ensures !loading
      ensures user == old(user) && newEmail == old(newEmail) && confirmationCode == old(confirmationCode)
    {
      if outcome.Accepted? {
        step := ConfirmStep;
      }
      loading := false;
    }

    /** `confirmEmailChange`, up to the request: without a user or a code
        nothing happens; otherwise `loading` is set and the code is posted to
        the user's `confirm-email-change` endpoint. */
    method StartConfirmEmailChange() returns (request: Option<Request>)
      modifies this
      ensures old(user).None? || old(confirmationCode) == "" ==>
                request.None? && loading == old(loading)
      ensures old(user).Some? && old(confirmationCode) != "" ==>
                loading &&
                request == Some(Request("http://localhost:3001/api/users/" + UserPath(old(user).value) +
                                        "/confirm-email-change",
                                        map["confirmationCode" := Str(old(confirmationCode))]))
      ensures user == old(user) && newEmail == old(newEmail) &&
              confirmationCode == old(confirmationCode) && step == old(step)
    {
      if user.None? || confirmationCode == "" {
        return None;
      }
      loading := true;
      request := Some(Request("http://localhost:3001/api/users/" + UserPath(user.value) + "/confirm-email-change",
                              map["confirmationCode" := Str(confirmationCode)]));
    }

    /** The rest of `confirmEmailChange`: an accepted code stores the user
        the server returned (none when the response has no user) and empties the form back to step `input`; any
        other outcome leaves the step, the fields and the user; `loading`
        ends either way. */
    method FinishConfirmEmailChange(outcome: Outcome)
      modifies this
      ensures outcome.Accepted? ==>
                user == ReturnedUser(outcome.data) &&
                step == InputStep && newEmail == "" && confirmationCode == ""
      ensures !outcome.Accepted? ==>
                user == old(user) && step == old(step) &&
                newEmail == old(newEmail) && confirmationCode == old(confirmationCode)
      ensures !loading
    {
      if outcome.Accepted? {
        user := ReturnedUser(outcome.data);
        step := InputStep;
        newEmail := "";
        confirmationCode := "";
      }
      loading := false;
    }

    /** `resetForm`, the Cancel button. */
    method ResetForm()
      modifies this
      ensures step == InputStep && newEmail == "" && confirmationCode == ""
      ensures user == old(user) && loading == old(loading)
    {
      step := InputStep;
      newEmail := "";
      confirmationCode := "";
    }

    /** A whole `sendConfirmation`: when the guard lets the request through,
        `loading` is on while it runs and off after it, and only an accepted
        request changes the step. */
    method SendConfirmation(outcome: Outcome) returns (request: Option<Request>)
      modifies this
      ensures request.None? <==> old(user).None? || old(newEmail) == ""
      ensures request.None? ==> step == old(step) && loading == old(loading)
      ensures request.Some? ==> !loading && step == (if outcome.Accepted? then ConfirmStep else old(step))
      ensures user == old(user) && newEmail == old(newEmail) && confirmationCode == old(confirmationCode)
    {
      request := StartSendConfirmation();
      if request.Some? {
        assert loading;
        FinishSendConfirmation(outcome);
      }
    }

    /** A whole `confirmEmailChange`. */
    method ConfirmEmailChange(outcome: Outcome) returns (request: Option<Request>)
      modifies this
      ensures request.None? <==> old(user).None? || old(confirmationCode) == ""
      ensures request.None? ==>
                user == old(user) && step == old(step) && loading == old(loading) &&
                newEmail == old(newEmail) && confirmationCode == old(confirmationCode)
      ensures request.Some? && outcome.Accepted? ==>
                !loading && step == InputStep && newEmail == "" && confirmationCode == "" &&
                user == ReturnedUser(outcome.data)
      ensures request.Some? && !outcome.Accepted? ==>
                !loading && step == old(step) && user == old(user) &&
                newEmail == old(newEmail) && confirmationCode == old(confirmationCode)
    {
      request := StartConfirmEmailChange();
      if request.Some? {
        FinishConfirmEmailChange(outcome);
      }
    }
  }

  /** `${user.id}` in a request path. */
  function UserPath(user: Record): string
  {
    NotificationServer.ValueToString(Get(user, "id"))
  }

  /** `data.user` as the signed-in user: a returned object is kept, and a
      response without one (`undefined` or `null`) leaves no one signed in. */
  function ReturnedUser(data: Record): (user: Option<Record>)
    ensures user.Some? <==> Get(data, "user").Obj?
    ensures user.Some? ==> Value.Obj(user.value) == Get(data, "user")
  {
    var u := Get(data, "user");
    if u.Obj? then Some(u.fields) else None
  }

  /** A full change from an empty form: type the address, send, type the
      code, confirm. With both requests accepted the form ends empty in step
      `input`, not loading, holding the returned user. */
  method ChangeEmailScenario(user: Record, address: string, code: string, sent: Record, confirmed: Record)
    returns (form: Form)
    requires address != "" && code != ""
    ensures form.step == InputStep && form.newEmail == "" && form.confirmationCode == "" && !form.loading
    ensures form.user == ReturnedUser(confirmed)
  {
    form := new Form(Some(user));
    form.SetNewEmail(address);
    var r1 := form.SendConfirmation(Accepted(sent));
    assert r1.Some? && form.step == ConfirmStep;
    form.SetConfirmationCode(code);
    var r2 := form.ConfirmEmailChange(Accepted(confirmed));
  }

  /** A rejected code keeps the user in step `confirm` with what they typed,
      so they can correct the code and try again. */
  method RejectedCodeScenario(user: Record, address: string, code: string, sent: Record)
    returns (form: Form)
    requires address != "" && code != ""
    ensures form.step == ConfirmStep && form.newEmail == address && form.confirmationCode == code
    ensures !form.loading && !form.ConfirmDisabled()
  {
    form := new Form(Some(user));
    form.SetNewEmail(address);
    var r1 := form.SendConfirmation(Accepted(sent));
    form.SetConfirmationCode(code);
    var r2 := form.ConfirmEmailChange(Rejected);
  }

  /** An accepted code whose response carries no user signs the user out
      of the form: the next Send Confirmation sends nothing and leaves the
      form as it was. */
  method ResponseWithoutUserScenario(user: Record, address: string, code: string, sent: Record, confirmed: Record)
    returns (form: Form, request: Option<Request>)
    requires address != "" && code != ""
    requires !Get(confirmed, "user").Obj?
    ensures form.user.None? && request.None?
    ensures form.step == InputStep && form.newEmail == address && !form.loading
  {
    form := new Form(Some(user));
    form.SetNewEmail(address);
    var r1 := form.SendConfirmation(Accepted(sent));
    form.SetConfirmationCode(code);
    var r2 := form.ConfirmEmailChange(Accepted(confirmed));
    form.SetNewEmail(address);
    request := form.SendConfirmation(Accepted(sent));
  }
}
