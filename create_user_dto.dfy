/**
 * The signup body (`CreateUserDto`) and its field constraints. The
 * validation pipe checks every decorator of every field and rejects the
 * body if any of them fails.
 */
module CreateUserDto {
  import opened Wrappers
  import opened JsString
  import opened UsersConst

  /** A body field: a string, or a value of any other JSON type (or none). */
  datatype FieldValue = Str(value: string) | NotAString

  datatype CreateUserDto = CreateUserDto(username: FieldValue, email: FieldValue, password: FieldValue)

  /** A body that passed validation. */
  datatype CreateUserInput = CreateUserInput(username: string, email: string, password: string)

  datatype Field = Username | Email | Password

  /** `@IsString() @IsNotEmpty() @Length(4, 20) @Matches(USERNAME_REGEX)`. */
  predicate UsernameValid(v: FieldValue) {
    v.Str? && v.value != "" && 4 <= |v.value| <= 20 && UsernameRegex(v.value)
  }

  /**
   * `@IsString() @IsNotEmpty() @MaxLength(255) @IsEmail()`; the verdict of
   * the external e-mail syntax check on this value is `isEmail`.
   */
  predicate EmailValid(v: FieldValue, isEmail: bool) {
    v.Str? && v.value != "" && |v.value| <= 255 && isEmail
  }

  /** `@IsString() @IsNotEmpty() @Length(8, 20) @Matches(PASSWORD_REGEX)`. */
  predicate PasswordValid(v: FieldValue) {
    v.Str? && v.value != "" && 8 <= |v.value| <= 20 && PasswordRegex(v.value)
  }

  /** The fields that fail at least one of their constraints. */
  function Violations(dto: CreateUserDto, isEmail: bool): (r: set<Field>)
    ensures Username in r <==> !UsernameValid(dto.username)
    ensures Email in r <==> !EmailValid(dto.email, isEmail)
    ensures Password in r <==> !PasswordValid(dto.password)
  {
    (if UsernameValid(dto.username) then {} else {Username})
    + (if EmailValid(dto.email, isEmail) then {} else {Email})
    + (if PasswordValid(dto.password) then {} else {Password})
  }

  /** The validation pipe: the typed input, or every field that failed. */
  function Validate(dto: CreateUserDto, isEmail: bool): (r: Result<CreateUserInput, set<Field>>)
    ensures r.Success? <==> UsernameValid(dto.username) && EmailValid(dto.email, isEmail) && PasswordValid(dto.password)
    ensures r.Failure? ==> r.error != {} && r.error == Violations(dto, isEmail)
    ensures r.Success? ==> r.value == CreateUserInput(dto.username.value, dto.email.value, dto.password.value)
  {
    var bad := Violations(dto, isEmail);
    if bad == {} then Success(CreateUserInput(dto.username.value, dto.email.value, dto.password.value))
    else
      assert Username in bad || Email in bad || Password in bad;
      Failure(bad)
  }

  /**
   * What an accepted body guarantees: the bounds on every field, the first
   * character of the username, the character classes of the password, and
   * that the lower-cased username the store keeps still meets its own rule.
   */
  lemma AcceptedInput(dto: CreateUserDto, isEmail: bool)
    requires Validate(dto, isEmail).Success?
    ensures var i := Validate(dto, isEmail).value;
      && 4 <= |i.username| <= 20
      && (IsLower(i.username[0]) || IsDigit(i.username[0]) || IsSeparator(i.username[0]))
      && 1 <= |i.email| <= 255
      && 8 <= |i.password| <= 20
      && Contains(i.password, IsUpper) && Contains(i.password, IsLower)
      && (Contains(i.password, IsDigit) || Contains(i.password, IsNonWord))
      && UsernameValid(Str(ToLowerCase(i.username)))
  {
    var i := Validate(dto, isEmail).value;
    PasswordRegexNeedsClasses(i.password);
    UsernameRegexSurvivesLowerCase(i.username);
  }
}
