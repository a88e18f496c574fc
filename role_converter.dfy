/**
 * The value converter `userRoleConverter` that stores `User.Role` as text:
 * a role is written as its lower-case name, an unset role as "user", and the
 * column is read back case-insensitively with `Enum.Parse<UserRole>(v, true)`.
 */
module RoleConverter {
  import opened Wrappers
  import opened DotNetText
  import opened Domain
  import opened Exceptions

  /** `UserRole.ToString()`. */
  function Name(r: UserRole): string {
    match r
    case Admin => "Admin"
    case User => "User"
  }

  /** `v == null ? "user" : v.ToString().ToLower()`. */
  function Encode(v: Option<UserRole>): (s: string)
    ensures v.None? ==> s == "user"
    ensures v == Some(Admin) ==> s == "admin"
    ensures v == Some(UserRole.User) ==> s == "user"
  {
    match v
    case None => "user"
    case Some(Admin) => "admin"
    case Some(User) => "user"
  }

  /** `Enum.Parse<UserRole>(v, ignoreCase: true)` on a role name: surrounding
      white space is ignored and the name is matched without regard to case. */
  function ParseRole(v: string): (r: Outcome<UserRole>)
    ensures r.Ok? ==> EqualsIgnoreCase(Trim(v), Name(r.value))
    ensures r.Err? <==> forall role: UserRole :: !EqualsIgnoreCase(Trim(v), Name(role))
  {
    var t := Trim(v);
    if EqualsIgnoreCase(t, "Admin") then Ok(Admin)
    else if EqualsIgnoreCase(t, "User") then Ok(UserRole.User)
    else Err(Argument("Requested value '" + v + "' was not found."))
  }

  /** `string.IsNullOrEmpty(v) ? UserRole.User : Enum.Parse<UserRole>(v, true)`. */
  function Decode(v: Option<string>): (r: Outcome<UserRole>)
    ensures v.None? || v == Some("") ==> r == Ok(UserRole.User)
    ensures v.Some? && v.value != "" ==> r == ParseRole(v.value)
  {
    if v.None? || v.value == "" then Ok(UserRole.User) else ParseRole(v.value)
  }

  /** Reading back what was written gives the role, and `User` for an unset role. */
  lemma RoundTrip(v: Option<UserRole>)
    ensures Decode(Some(Encode(v))) == Ok(v.GetOr(UserRole.User))
  {
    match v
    case None => NameRoundTrip(UserRole.User);
    case Some(role) => NameRoundTrip(role);
  }

  lemma NameRoundTrip(role: UserRole)
    ensures Decode(Some(Encode(Some(role)))) == Ok(role)
  {
    var s := Encode(Some(role));
    assert forall i | 0 <= i < |s| :: 'a' <= s[i] <= 'z';
    assert Trim(s) == s;
    if role == Admin {
      assert UpperAsciiString(s) == "ADMIN" == UpperAsciiString(Name(role));
    } else {
      assert UpperAsciiString(s) == "USER" == UpperAsciiString(Name(role));
    }
    DecodeIgnoresCase(s, role);
  }

  /** Any capitalisation of a name, with surrounding white space, decodes to that role. */
  lemma {:induction false} DecodeIgnoresCase(v: string, role: UserRole)
    requires v != "" && EqualsIgnoreCase(Trim(v), Name(role))
    ensures Decode(Some(v)) == Ok(role)
  {
    if role == UserRole.User {
      assert UpperAsciiString(Name(UserRole.User)) == "USER";
      assert UpperAsciiString("Admin") == "ADMIN";
    }
  }

  /** A non-empty value naming no role makes the read fail. */
  lemma UnknownNameFails()
    ensures Decode(Some("guest")).Err?
  {
    var v := "guest";
    assert forall i | 0 <= i < |v| :: 'a' <= v[i] <= 'z';
    assert Trim(v) == v;
    assert UpperAsciiString(v) == "GUEST";
    assert UpperAsciiString("Admin") == "ADMIN";
    assert UpperAsciiString("User") == "USER";
  }

  /** White space alone is not empty, so it is parsed, and names no role. */
  lemma BlankValueFails()
    ensures Decode(Some("  ")).Err?
  {
    var blank := "  ";
    assert LeadingWhiteSpace(blank[2..]) == 0;
    assert LeadingWhiteSpace(blank[1..]) == 1;
    assert LeadingWhiteSpace(blank) == 2;
    assert Trim(blank) == "";
    assert UpperAsciiString("Admin") == "ADMIN";
    assert UpperAsciiString("User") == "USER";
  }
}
