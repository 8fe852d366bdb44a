/** Request and response shapes of the API and the validators that guard
    the registration input: the user name and the password. A failed
    validation is the error message the validator raises. */
module Schemas {
  import opened Common
  import opened Text
  import Database

  const UsernameLengthMessage := "用户名长度必须在3-50个字符之间"
  const UsernameCharsetMessage := "用户名只能包含字母、数字和下划线"
  const PasswordLengthMessage := "密码长度至少8个字符"
  const PasswordCompositionMessage := "密码必须包含字母和数字"

  const UsernameMinLength := 3
  const UsernameMaxLength := 50
  const PasswordMinLength := 8

  /** Every character of the name is alphanumeric or `_`, and at least one
      is not `_`: the user-name alphabet, stated directly. */
  predicate UsernameCharsOk(v: string) {
    (forall i :: 0 <= i < |v| ==> IsAlnum(v[i]) || v[i] == '_')
    && (exists i :: 0 <= i < |v| && v[i] != '_')
  }

  /** Removing the underscores leaves a non-empty alphanumeric string
      exactly when the name is over the user-name alphabet. */
  lemma {:induction false} UnderscoreFreeIsAlnum(v: string)
    ensures IsAlnumString(RemoveChar(v, '_')) <==> UsernameCharsOk(v)
  {
    var r := RemoveChar(v, '_');
    if IsAlnumString(r) {
      forall i | 0 <= i < |v| ensures IsAlnum(v[i]) || v[i] == '_' {
        if v[i] != '_' {
          assert v[i] in v;
          var k :| 0 <= k < |r| && r[k] == v[i];
        }
      }
      assert r[0] in v;
      var k :| 0 <= k < |v| && v[k] == r[0];
    }
    if UsernameCharsOk(v) {
      var j :| 0 <= j < |v| && v[j] != '_';
      assert v[j] in v;
      assert |r| > 0;
      forall k | 0 <= k < |r| ensures IsAlnum(r[k]) {
        assert r[k] in r;
        var i :| 0 <= i < |v| && v[i] == r[k];
      }
    }
  }

  /** `UserBase.validate_username`: the length check first, then the
      alphabet check on the name with its underscores removed. */
  function ValidateUsername(v: string): (r: Result<string, string>)
    ensures r.Success? <==> UsernameMinLength <= |v| <= UsernameMaxLength && UsernameCharsOk(v)
    ensures r.Success? ==> r.value == v
    ensures !(UsernameMinLength <= |v| <= UsernameMaxLength) ==> r == Failure(UsernameLengthMessage)
    ensures UsernameMinLength <= |v| <= UsernameMaxLength && !UsernameCharsOk(v) ==> r == Failure(UsernameCharsetMessage)
  {
    UnderscoreFreeIsAlnum(v);
    if |v| < UsernameMinLength || |v| > UsernameMaxLength then Failure(UsernameLengthMessage)
    else if !IsAlnumString(RemoveChar(v, '_')) then Failure(UsernameCharsetMessage)
    else Success(v)
  }

  /** A name made only of underscores is refused for its alphabet, and a
      two-character name is refused for its length even when its
      characters are also wrong. */
  lemma UsernameEdgeCases()
    ensures ValidateUsername("___") == Failure(UsernameCharsetMessage)
    ensures ValidateUsername("a!") == Failure(UsernameLengthMessage)
    ensures ValidateUsername("demo_user") == Success("demo_user")
  {
    assert !UsernameCharsOk("___");
    assert !UsernameCharsOk("a!") by { assert !IsAlnum("a!"[1]); }
    assert UsernameCharsOk("demo_user") by { assert "demo_user"[0] != '_'; }
  }

  predicate HasLetter(v: string) { exists i :: 0 <= i < |v| && IsLetter(v[i]) }
  predicate HasDigit(v: string) { exists i :: 0 <= i < |v| && IsDigit(v[i]) }

  /** `UserCreate.validate_password`: at least eight characters, then at
      least one letter and at least one digit. */
  function ValidatePassword(v: string): (r: Result<string, string>)
    ensures r.Success? <==> |v| >= PasswordMinLength && HasLetter(v) && HasDigit(v)
    ensures r.Success? ==> r.value == v
    ensures |v| < PasswordMinLength ==> r == Failure(PasswordLengthMessage)
    ensures |v| >= PasswordMinLength && !(HasLetter(v) && HasDigit(v)) ==> r == Failure(PasswordCompositionMessage)
  {
    if |v| < PasswordMinLength then Failure(PasswordLengthMessage)
    else if !(HasLetter(v) && HasDigit(v)) then Failure(PasswordCompositionMessage)
    else Success(v)
  }

  /** The fixed passwords of the demonstration clients pass; one without a
      digit does not. */
  lemma PasswordExamples()
    ensures ValidatePassword("testpass123").Success?
    ensures ValidatePassword("demo123456").Success?
    ensures ValidatePassword("abcdefgh") == Failure(PasswordCompositionMessage)
  {
    assert IsLetter("testpass123"[0]) && IsDigit("testpass123"[8]);
    assert IsLetter("demo123456"[0]) && IsDigit("demo123456"[4]);
  }

  /** `UserResponse`: what the API shows of an account. There is no field
      for the password hash. */
  datatype UserResponse = UserResponse(
    username: string,
    email: string,
    id: int,
    isActive: bool,
    createdAt: int,
    lastLogin: Option<int> := None)

  /** `UserInDB`: the response fields plus the password hash, for internal
      use only. */
  datatype UserInDB = UserInDB(
    username: string,
    email: string,
    id: int,
    isActive: bool,
    createdAt: int,
    hashedPassword: string,
    lastLogin: Option<int> := None)

  /** `UserResponse.from_orm(user)`: reads the row's attributes. Building the
      response re-runs the user-name validator inherited from `UserBase`, so
      a stored name that the validator refuses makes the projection fail. */
  function ResponseOf(u: Database.User): (r: Result<UserResponse, string>)
    ensures r.Success? <==> ValidateUsername(u.username).Success?
    ensures r.Failure? ==> r.error == ValidateUsername(u.username).error
    ensures r.Success? ==> r.value.username == u.username && r.value.email == u.email && r.value.id == u.id
    ensures r.Success? ==> r.value.isActive == u.isActive && r.value.createdAt == u.createdAt && r.value.lastLogin == u.lastLogin
  {
    match ValidateUsername(u.username)
    case Failure(e) => Failure(e)
    case Success(_) => Success(UserResponse(u.username, u.email, u.id, u.isActive, u.createdAt, u.lastLogin))
  }

  /** The projection does not depend on the stored hash: changing the hash
      changes nothing the API shows. */
  lemma ResponseHidesHash(u: Database.User, hashed: string)
    ensures ResponseOf(u.(hashedPassword := hashed)) == ResponseOf(u)
  {
  }

  /** `Token`: the access token and its type, `bearer` unless stated. */
  datatype Token = Token(accessToken: string, tokenType: string := "bearer")

  /** `TokenData`: the user name a token carries, absent unless stated. */
  datatype TokenData = TokenData(username: Option<string> := None)

  lemma TokenDefaults(accessToken: string)
    ensures Token(accessToken).tokenType == "bearer"
    ensures TokenData().username == None
  {
  }

  /** `APIResponse`: the envelope of every API answer. */
  datatype APIResponse<D> = APIResponse(success: bool := true, message: string := "操作成功", data: Option<D> := None)

  /** `APIResponse.success_response`. */
  function SuccessResponse<D>(message: string := "操作成功", data: Option<D> := None): (r: APIResponse<D>)
    ensures r.success && r.message == message && r.data == data
  {
    APIResponse(true, message, data)
  }

  /** `APIResponse.error_response`: never carries data. */
  function ErrorResponse<D>(message: string := "操作失败"): (r: APIResponse<D>)
    ensures !r.success && r.message == message && r.data == None
  {
    APIResponse(false, message, None)
  }

  /** The `success` flag tells the two kinds of envelope apart. */
  lemma EnvelopesAreDistinct<D>(m1: string, d: Option<D>, m2: string)
    ensures SuccessResponse(m1, d) != ErrorResponse(m2)
  {
  }
}
