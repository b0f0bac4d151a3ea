/** `src/pages/UserSettings.tsx`: the account settings page. It loads the
    user's profile into an editable form, runs its own two-step e-mail
    change (`emailConfirmation`: not pending while the new address is typed,
    pending while the code is awaited), and removes the address on request,
    which also switches e-mail notifications off. Each handler's request is
    sent and its outcome handled in one call; the outcome is a parameter
    (`None` for a rejected request or a failed fetch). */
module UserSettings {
  import opened Common
  import NotificationServer
  import UseNotifications
  import EmailChangeForm

  /** `formData`: the six editable fields, copied from the profile JSON. */
  datatype FormData = FormData(
    username: Value,
    displayName: Value,
    email: Value,
    emailNotifications: Value,
    messageNotifications: Value,
    showMessageContent: Value)

  /** `emailConfirmation` */
  datatype EmailConfirmation = EmailConfirmation(pending: bool, newEmail: string, confirmationCode: string)

  /** A request the page sends. */
  datatype Request = Request(httpMethod: string, url: string, body: Record)

  const InitialFormData := FormData(Str(""), Str(""), Str(""), Bool(true), Bool(true), Bool(true))

  /** Not pending, nothing typed. */
  const NoEmailChange := EmailConfirmation(false, "", "")

  /** `{ email: '', emailNotifications: false, emailConfirmed: false }` */
  const UnsubscribeBody: Record :=
    map["email" := Str(""), "emailNotifications" := Bool(false), "emailConfirmed" := Bool(false)]

  /** The fields `fetchUserProfile` copies into the form. */
  function FormFromProfile(profile: Record): (f: FormData)
    ensures f.username == Get(profile, "username") && f.displayName == Get(profile, "displayName")
    ensures f.email == Get(profile, "email") && f.emailNotifications == Get(profile, "emailNotifications")
    ensures f.messageNotifications == Get(profile, "messageNotifications")
    ensures f.showMessageContent == Get(profile, "showMessageContent")
  {
    FormData(Get(profile, "username"), Get(profile, "displayName"), Get(profile, "email"),
             Get(profile, "emailNotifications"), Get(profile, "messageNotifications"),
             Get(profile, "showMessageContent"))
  }

  /** The form field stored under `key`; `undefined` for any other key. */
  function FormField(f: FormData, key: string): Value
  {
    if key == "username" then f.username
    else if key == "displayName" then f.displayName
    else if key == "email" then f.email
    else if key == "emailNotifications" then f.emailNotifications
    else if key == "messageNotifications" then f.messageNotifications
    else if key == "showMessageContent" then f.showMessageContent
    else Undefined
  }

  /** `JSON.stringify(formData)` as the record the server receives: the six
      fields, except those holding `undefined`, which JSON leaves out. */
  function FormBody(f: FormData): (body: Record)
    ensures forall k :: k in body <==> !FormField(f, k).Undefined?
    ensures forall k :: Get(body, k) == FormField(f, k)
  {
    map k | k in FormKeys && !FormField(f, k).Undefined? :: FormField(f, k)
  }

  const FormKeys: set<string> :=
    {"username", "displayName", "email", "emailNotifications", "messageNotifications", "showMessageContent"}

  /** What a saved field reloads as: the saved value, or the stored one
      when the field was `undefined` and so was not sent. */
  function Reloaded(saved: Value, stored: Value): Value
  {
    if saved.Undefined? then stored else saved
  }

  /** Saving the form, merging the body into the stored user as the server
      does, and loading that profile again gives back every field that was
      sent; a field left out of the body comes back as the stored value. */
  lemma SaveThenReload(stored: Record, f: FormData)
    ensures FormFromProfile(Merge(stored, FormBody(f))) ==
              FormData(Reloaded(f.username, Get(stored, "username")),
                       Reloaded(f.displayName, Get(stored, "displayName")),
                       Reloaded(f.email, Get(stored, "email")),
                       Reloaded(f.emailNotifications, Get(stored, "emailNotifications")),
                       Reloaded(f.messageNotifications, Get(stored, "messageNotifications")),
                       Reloaded(f.showMessageContent, Get(stored, "showMessageContent")))
  {
    var body := FormBody(f);
    assert FormField(f, "username") == f.username && FormField(f, "displayName") == f.displayName;
    assert FormField(f, "email") == f.email && FormField(f, "emailNotifications") == f.emailNotifications;
    assert FormField(f, "messageNotifications") == f.messageNotifications;
    assert FormField(f, "showMessageContent") == f.showMessageContent;
  }

  /** A form without `undefined` fields survives the save and the reload
      unchanged, whatever the stored user held. */
  lemma SaveThenReloadDefined(stored: Record, f: FormData)
    requires !f.username.Undefined? && !f.displayName.Undefined? && !f.email.Undefined?
    requires !f.emailNotifications.Undefined? && !f.messageNotifications.Undefined?
    requires !f.showMessageContent.Undefined?
    ensures FormFromProfile(Merge(stored, FormBody(f))) == f
  {
    SaveThenReload(stored, f);
  }

  /** Saving never touches a key of the stored user outside the six form
      fields. */
  lemma SaveKeepsOtherKeys(stored: Record, f: FormData, k: string)
    requires k !in FormKeys
    ensures Get(Merge(stored, FormBody(f)), k) == Get(stored, k)
  {
    assert FormField(f, k) == Undefined;
  }

  /** `/api/users/${user?.id}`; an absent user prints `undefined`. */
  function UserUrl(user: Option<Record>): string
  {
    "http://localhost:3001/api/users/" +
    (if user.Some? then NotificationServer.ValueToString(Get(user.value, "id")) else "undefined")
  }

  /** A user record that has no address or no notifications, and no
      confirmed address, is not mailed by either side. */
  lemma UnsubscribeBodyStopsEmail(stored: Record)
    ensures var after := Merge(stored, UnsubscribeBody);
            !NotificationServer.EmailEligible(Some(after)) && !UseNotifications.EmailAllowed(Some(after))
  {
    var after := Merge(stored, UnsubscribeBody);
    assert Get(after, "emailNotifications") == Bool(false);
  }

  class SettingsPage {
    /** The signed-in user of the authentication context. */
    var user: Option<Record>
    var profile: Option<Record>
    var formData: FormData
    var emailConfirmation: EmailConfirmation
    var loading: bool
    var saving: bool

    constructor (user: Option<Record>)
      ensures this.user == user && profile.None? && formData == InitialFormData
      ensures emailConfirmation == NoEmailChange && loading && !saving
    {
      this.user := user;
      profile := None;
      formData := InitialFormData;
      emailConfirmation := NoEmailChange;
      loading := true;
      saving := false;
    }

    /** The e-mail notification switch is disabled unless the profile has a
        confirmed address. */
    predicate EmailSwitchDisabled()
      reads this
    {
      profile.None? || !Truthy(Get(profile.value, "email")) || !Truthy(Get(profile.value, "emailConfirmed"))
    }

    /** The Add/Change button is disabled while no new address is typed. */
    predicate ChangeButtonDisabled()
      reads this
    {
      emailConfirmation.newEmail == ""
    }

    /** The Confirm button is disabled while no code is typed. */
    predicate ConfirmButtonDisabled()
      reads this
    {
      emailConfirmation.confirmationCode == ""
    }

    /** `fetchUserProfile`: an accepted response becomes the profile and
        fills the form's six fields; the page stops loading either way. */
    method LoadProfile(response: Option<Record>) returns (request: Request)
      modifies this
      ensures request == Request("GET", UserUrl(old(user)), map[])
      ensures response.Some? ==> profile == response && formData == FormFromProfile(response.value)
      ensures response.None? ==> profile == old(profile) && formData == old(formData)
      ensures !loading
      ensures user == old(user) && emailConfirmation == old(emailConfirmation) && saving == old(saving)
    {
      request := Request("GET", UserUrl(user), map[]);
      if response.Some? {
        profile := response;
        formData := FormFromProfile(response.value);
      }
      loading := false;
    }

    method SetNewEmail(s: string)
      modifies this
      ensures emailConfirmation == old(emailConfirmation).(newEmail := s)
      ensures user == old(user) && profile == old(profile) && formData == old(formData) &&
              loading == old(loading) && saving == old(saving)
    {
      emailConfirmation := emailConfirmation.(newEmail := s);
    }

    method SetConfirmationCode(s: string)
      modifies this
      ensures emailConfirmation == old(emailConfirmation).(confirmationCode := s)
      ensures user == old(user) && profile == old(profile) && formData == old(formData) &&
              loading == old(loading) && saving == old(saving)
    {
      emailConfirmation := emailConfirmation.(confirmationCode := s);
    }

    /** `requestEmailChange(newEmail)`: an accepted request makes the change
        pending for that address with no code typed; a failure changes
        nothing. */
    method RequestEmailChange(newEmail: string, accepted: bool) returns (request: Request)
      modifies this
      ensures request == Request("POST", UserUrl(old(user)) + "/request-email-change",
                                 map["newEmail" := Str(newEmail)])
      ensures accepted ==> emailConfirmation == EmailConfirmation(true, newEmail, "")
      ensures !accepted ==> emailConfirmation == old(emailConfirmation)
      ensures user == old(user) && profile == old(profile) && formData == old(formData) &&
              loading == old(loading) && saving == old(saving)
    {
      request := Request("POST", UserUrl(user) + "/request-email-change", map["newEmail" := Str(newEmail)]);
      if accepted {
        emailConfirmation := EmailConfirmation(true, newEmail, "");
      }
    }

    /** `confirmEmailChange`: the typed code is posted; an accepted response
        stores the returned user and ends the change; a failure changes
        nothing. The profile is then fetched again, which is a separate
        `LoadProfile`. */
    method ConfirmEmailChange(response: Option<Record>) returns (request: Request)
      modifies this
      ensures request == Request("POST", UserUrl(old(user)) + "/confirm-email-change",
                                 map["confirmationCode" := Str(old(emailConfirmation).confirmationCode)])
      ensures response.Some? ==>
                emailConfirmation == NoEmailChange && user == EmailChangeForm.ReturnedUser(response.value)
      ensures response.None? ==> emailConfirmation == old(emailConfirmation) && user == old(user)
      ensures profile == old(profile) && formData == old(formData) &&
              loading == old(loading) && saving == old(saving)
    {
      request := Request("POST", UserUrl(user) + "/confirm-email-change",
                         map["confirmationCode" := Str(emailConfirmation.confirmationCode)]);
      if response.Some? {
        user := EmailChangeForm.ReturnedUser(response.value);
        emailConfirmation := NoEmailChange;
      }
    }

    /** The Cancel button of a pending change. */
    method CancelEmailChange()
      modifies this
      ensures emailConfirmation == NoEmailChange
      ensures user == old(user) && profile == old(profile) && formData == old(formData) &&
              loading == old(loading) && saving == old(saving)
    {
      emailConfirmation := NoEmailChange;
    }

    /** `unsubscribeEmail`: the address is cleared and notifications and
        confirmation switched off on the server; on success the returned
        user is stored and the form's address and e-mail switch are cleared,
        its other fields kept. */
    method UnsubscribeEmail(response: Option<Record>) returns (request: Request)
      modifies this
      ensures request == Request("PUT", UserUrl(old(user)), UnsubscribeBody)
      ensures response.Some? ==>
                user == response &&
                formData == old(formData).(email := Str(""), emailNotifications := Bool(false))
      ensures response.None? ==> user == old(user) && formData == old(formData)
      ensures profile == old(profile) && emailConfirmation == old(emailConfirmation) &&
              loading == old(loading) && saving == old(saving)
    {
      request := Request("PUT", UserUrl(user), UnsubscribeBody);
      if response.Some? {
        user := response;
        formData := formData.(email := Str(""), emailNotifications := Bool(false));
      }
    }

    /** `handleSave`: the whole form is put; an accepted response becomes
        both the profile and the signed-in user; saving ends either way. */
    method Save(response: Option<Record>) returns (request: Request)
      modifies this
      ensures request == Request("PUT", UserUrl(old(user)), FormBody(old(formData)))
      ensures response.Some? ==> profile == response && user == response
      ensures response.None? ==> profile == old(profile) && user == old(user)
      ensures !saving
      ensures formData == old(formData) && emailConfirmation == old(emailConfirmation) && loading == old(loading)
    {
      request := Request("PUT", UserUrl(user), FormBody(formData));
      if response.Some? {
        profile := response;
        user := response;
      }
      saving := false;
    }
  }

  /** A change of address on the settings page: typing, an accepted request
      and an accepted code end with no change pending and the returned user
      signed in, whatever the page held before. Confirm is disabled while
      the change is pending with no code and enabled once one is typed. */
  method ChangeEmailScenario(user: Record, address: string, code: string, confirmed: Record)
    returns (page: SettingsPage, disabledBeforeCode: bool, disabledAfterCode: bool)
    requires address != "" && code != ""
    ensures page.emailConfirmation == NoEmailChange && page.user == EmailChangeForm.ReturnedUser(confirmed)
    ensures disabledBeforeCode && !disabledAfterCode
  {
    page := new SettingsPage(Some(user));
    page.SetNewEmail(address);
    var r1 := page.RequestEmailChange(page.emailConfirmation.newEmail, true);
    assert page.emailConfirmation.pending;
    disabledBeforeCode := page.ConfirmButtonDisabled();
    page.SetConfirmationCode(code);
    disabledAfterCode := page.ConfirmButtonDisabled();
    var r2 := page.ConfirmEmailChange(Some(confirmed));
  }

  /** After removing the address, the e-mail switch is disabled as soon as
      the profile is loaded again from a server that applied the removal. */
  method UnsubscribeScenario(user: Record, stored: Record) returns (page: SettingsPage)
    ensures page.EmailSwitchDisabled()
    ensures page.formData.emailNotifications == Bool(false) && page.formData.email == Str("")
  {
    page := new SettingsPage(Some(user));
    var after := Merge(stored, UnsubscribeBody);
    var r1 := page.UnsubscribeEmail(Some(after));
    var r2 := page.LoadProfile(Some(after));
    assert Get(after, "email") == Str("");
  }
}
