/**
 * The `Me` profile component: the display helpers it derives from the
 * current user, and the edit-mode state its buttons switch.
 */
module MeComponent {
  import opened Wrappers
  import opened DotNetText

  /** The client's `UserDto`; optional members are `None` when `undefined` or `null`. */
  datatype UserView = UserView(
    id: Option<string>, userName: Option<string>, email: Option<string>,
    firstName: Option<string>, lastName: Option<string>, phoneNumber: Option<string>,
    role: Option<int>, isEmailConfirmed: Option<bool>, isActive: Option<bool>, isLocked: Option<bool>)

  /** A string member that is truthy: present and not empty. */
  predicate Filled(s: Option<string>) {
    s.Some? && s.value != ""
  }

  /** A boolean member that is truthy. */
  predicate Yes(b: Option<bool>) {
    b == Some(true)
  }

  /** `getInitials`: the first letters of the first and last names, or the
      first two characters of the user name, upper-cased; `''` with no user name. */
  function GetInitials(user: Option<UserView>): (r: string)
    ensures r == "" <==> user.None? || !Filled(user.value.userName)
    ensures |r| <= 2
    ensures forall i :: 0 <= i < |r| ==> !('a' <= r[i] <= 'z')
    ensures user.Some? && Filled(user.value.userName) && Filled(user.value.firstName) && Filled(user.value.lastName) ==>
              r == [UpperAscii(user.value.firstName.value[0]), UpperAscii(user.value.lastName.value[0])]
    ensures user.Some? && Filled(user.value.userName) && !(Filled(user.value.firstName) && Filled(user.value.lastName)) ==>
              |r| == (if |user.value.userName.value| < 2 then 1 else 2) &&
              forall i :: 0 <= i < |r| ==> r[i] == UpperAscii(user.value.userName.value[i])
  {
    if user.None? || !Filled(user.value.userName) then ""
    else if Filled(user.value.firstName) && Filled(user.value.lastName) then
      UpperAsciiString([user.value.firstName.value[0], user.value.lastName.value[0]])
    else
      var name := user.value.userName.value;
      UpperAsciiString(name[..if |name| < 2 then |name| else 2])
  }

  /** `getRoleDisplay`: role `0` is shown as `Admin`, anything else (missing included) as `User`. */
  function GetRoleDisplay(user: Option<UserView>): (r: string)
    ensures r == "Admin" <==> user.Some? && user.value.role == Some(0)
    ensures r == "Admin" || r == "User"
  {
    if user.None? || user.value.role.None? then "User"
    else if user.value.role.value == 0 then "Admin" else "User"
  }

  /** The four states of an account, in the order the checks are made. */
  function GetAccountStatus(user: Option<UserView>): (r: string)
    ensures r == "Unknown" <==> user.None?
    ensures r == "Locked" <==> user.Some? && Yes(user.value.isLocked)
    ensures r == "Inactive" <==> user.Some? && !Yes(user.value.isLocked) && !Yes(user.value.isActive)
    ensures r == "Email not confirmed" <==>
              user.Some? && !Yes(user.value.isLocked) && Yes(user.value.isActive) && !Yes(user.value.isEmailConfirmed)
    ensures r == "Active" <==>
              user.Some? && !Yes(user.value.isLocked) && Yes(user.value.isActive) && Yes(user.value.isEmailConfirmed)
  {
    if user.None? then "Unknown"
    else if Yes(user.value.isLocked) then "Locked"
    else if !Yes(user.value.isActive) then "Inactive"
    else if !Yes(user.value.isEmailConfirmed) then "Email not confirmed"
    else "Active"
  }

  /** `getStatusClass`: the same checks in the same order. */
  function GetStatusClass(user: Option<UserView>): (r: string)
    ensures r == "" <==> user.None?
    ensures r == "status-locked" <==> user.Some? && Yes(user.value.isLocked)
    ensures r == "status-inactive" <==> user.Some? && !Yes(user.value.isLocked) && !Yes(user.value.isActive)
    ensures r == "status-pending" <==>
              user.Some? && !Yes(user.value.isLocked) && Yes(user.value.isActive) && !Yes(user.value.isEmailConfirmed)
    ensures r == "status-active" <==>
              user.Some? && !Yes(user.value.isLocked) && Yes(user.value.isActive) && Yes(user.value.isEmailConfirmed)
  {
    if user.None? then ""
    else if Yes(user.value.isLocked) then "status-locked"
    else if !Yes(user.value.isActive) then "status-inactive"
    else if !Yes(user.value.isEmailConfirmed) then "status-pending"
    else "status-active"
  }

  /** The class shown for each status. */
  function ClassOfStatus(status: string): string {
    match status
    case "Locked" => "status-locked"
    case "Inactive" => "status-inactive"
    case "Email not confirmed" => "status-pending"
    case "Active" => "status-active"
    case _ => ""
  }

  /** The class is a function of the status, and different statuses get
      different classes. */
  lemma StatusClassFollowsStatus(u: Option<UserView>, v: Option<UserView>)
    ensures GetStatusClass(u) == ClassOfStatus(GetAccountStatus(u))
    ensures GetAccountStatus(u) != GetAccountStatus(v) ==> GetStatusClass(u) != GetStatusClass(v)
  {
  }

  /** The values of the profile form; `reset()` leaves every control `null`. */
  datatype ProfileForm = ProfileForm(userName: Option<string>, firstName: Option<string>,
                                     lastName: Option<string>, phoneNumber: Option<string>)

  const EmptyForm := ProfileForm(None, None, None, None)

  /** `x || ''` for an optional string member. */
  function OrEmpty(s: Option<string>): (r: string)
    ensures Filled(s) ==> r == s.value
    ensures !Filled(s) ==> r == ""
  {
    if Filled(s) then s.value else ""
  }

  /** The form `onEditProfile` fills from the user: every control holds a string. */
  function EditValues(u: UserView): (f: ProfileForm)
    ensures f.userName.Some? && f.firstName.Some? && f.lastName.Some? && f.phoneNumber.Some?
    ensures f.userName.value == OrEmpty(u.userName) && f.firstName.value == OrEmpty(u.firstName)
    ensures f.lastName.value == OrEmpty(u.lastName) && f.phoneNumber.value == OrEmpty(u.phoneNumber)
  {
    ProfileForm(Some(OrEmpty(u.userName)), Some(OrEmpty(u.firstName)), Some(OrEmpty(u.lastName)), Some(OrEmpty(u.phoneNumber)))
  }

  /** The component's view state. */
  class Me {
    var user: Option<UserView>
    var isEditMode: bool
    var successMessage: string
    var errorMessage: string
    var profileForm: ProfileForm

    /** The field initialisers; the form starts with empty strings. */
    constructor()
      ensures user.None? && !isEditMode && successMessage == "" && errorMessage == ""
      ensures profileForm == ProfileForm(Some(""), Some(""), Some(""), Some(""))
    {
      user := None;
      isEditMode := false;
      successMessage := "";
      errorMessage := "";
      profileForm := ProfileForm(Some(""), Some(""), Some(""), Some(""));
    }

    /** `onEditProfile`: with no user nothing changes; otherwise enter edit mode
        with both messages cleared and the form filled from the user. */
    method OnEditProfile()
      modifies this
      ensures user == old(user)
      ensures old(user).None? ==> unchanged(this)
      ensures old(user).Some? ==> (isEditMode && successMessage == "" && errorMessage == "" &&
                                   profileForm == EditValues(user.value))
    {
      if user.None? {
        return;
      }
      isEditMode := true;
      successMessage := "";
      errorMessage := "";
      var u := user.value;
      profileForm := ProfileForm(Some(OrEmpty(u.userName)), Some(OrEmpty(u.firstName)),
                                 Some(OrEmpty(u.lastName)), Some(OrEmpty(u.phoneNumber)));
    }

    /** `onCancelEdit`: leave edit mode, reset the form and clear both messages. */
    method OnCancelEdit()
      modifies this
      ensures user == old(user)
      ensures !isEditMode && successMessage == "" && errorMessage == "" && profileForm == EmptyForm
    {
      isEditMode := false;
      profileForm := EmptyForm;
      successMessage := "";
      errorMessage := "";
    }
  }
}
