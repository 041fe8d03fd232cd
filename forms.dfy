/**
 * The checks of the authentication serializers: the company domain and
 * image-upload validators, registration (its cross-field validation and the
 * user it creates), the company/role reassignment of a user update, and
 * login validation.
 */
module Forms {
  import opened Wrappers
  import opened PyValue
  import opened Companies
  import opened Accounts

  /** The validation errors the serializers raise. */
  datatype FormError =
    | DomainHasSpace       // "El dominio no puede contener espacios."
    | DomainBadChars       // only letters, digits, dots and hyphens
    | NotAnImage           // content type outside the four image types
    | FileTooLarge         // more than 5 MB
    | PasswordMismatch     // password and password_confirm differ
    | UnknownCompany       // company_id names no company
    | UnknownRole          // role_id names no role
    | MissingCredentials   // e-mail or password missing
    | InvalidCredentials   // authenticate() found nobody
    | InactiveUser         // the user is not active

  // ---------------------------------------------------------------------------
  // Domain

  /** The characters `validate_domain` allows: ASCII letters and digits, '.' and '-'. */
  predicate DomainChar(c: char) {
    ('a' <= c <= 'z') || ('A' <= c <= 'Z') || ('0' <= c <= '9') || c == '.' || c == '-'
  }

  /** `CompanySerializer.validate_domain`: an empty domain passes; a space, then any other character outside the set, is rejected. */
  function ValidateDomain(value: string): (r: Result<string, FormError>)
    ensures r.Success? <==> forall i :: 0 <= i < |value| ==> DomainChar(value[i])
    ensures r.Success? ==> r.value == value
    ensures r.Failure? ==> (r.error == DomainHasSpace <==> ' ' in value)
    ensures r.Failure? ==> r.error in {DomainHasSpace, DomainBadChars}
  {
    if value == "" then Success(value)
    else if ' ' in value then Failure(DomainHasSpace)
    else if !(forall i :: 0 <= i < |value| ==> DomainChar(value[i])) then Failure(DomainBadChars)
    else Success(value)
  }

  /**
   * Wherever `str.isalnum` agrees that ASCII letters and digits are
   * alphanumeric, a domain the serializer accepts and that has a character
   * other than '.' and '-' also passes `Company.clean`.
   */
  lemma SerializerDomainPassesClean(domain: string, alnum: char -> bool)
    requires !alnum(' ')
    requires forall c: char :: ('a' <= c <= 'z') || ('A' <= c <= 'Z') || ('0' <= c <= '9') ==> alnum(c)
    requires ValidateDomain(domain).Success?
    requires exists i :: 0 <= i < |domain| && domain[i] != '.' && domain[i] != '-'
    ensures CleanAccepts(domain, alnum)
  {
    CleanAcceptsIff(domain, alnum);
  }

  /** The two domain rules differ: the serializer lets "." through, which `Company.clean` rejects. */
  lemma DomainRulesDiffer(alnum: char -> bool)
    ensures ValidateDomain(".").Success? && !CleanAccepts(".", alnum)
  {
    DotsOnlyRejected(alnum);
  }

  /** A letter outside ASCII, which `str.isalnum` may accept, is rejected by the serializer. */
  lemma NonAsciiRejected()
    ensures ValidateDomain("peñas.pe") == Failure(DomainBadChars)
  {
    assert !DomainChar("peñas.pe"[2]);
  }

  // ---------------------------------------------------------------------------
  // Image uploads

  /** An uploaded file: its name (a file object is truthy when its name is non-empty), content type and size in bytes. */
  datatype Upload = Upload(name: string, contentType: string, size: nat)

  const ImageTypes: seq<string> := ["image/jpeg", "image/jpg", "image/png", "image/gif"]

  /** 5 MB. */
  const MaxImageSize: nat := 5 * 1024 * 1024

  /**
   * `validate_logo_file` and `validate_profile_image_file`, which are the same
   * check: no file passes; a file must have an image content type, then a size
   * of at most 5 MB.
   */
  function ValidateImage(value: Option<Upload>): (r: Result<Option<Upload>, FormError>)
    ensures (value.None? || value.value.name == "") ==> r == Success(value)
    ensures value.Some? && value.value.name != "" ==>
      && (r.Success? <==> value.value.contentType in ImageTypes && value.value.size <= MaxImageSize)
      && (value.value.contentType !in ImageTypes ==> r == Failure(NotAnImage))
      && (value.value.contentType in ImageTypes && value.value.size > MaxImageSize ==> r == Failure(FileTooLarge))
    ensures r.Success? ==> r.value == value
  {
    if value.None? || value.value.name == "" then Success(value)
    else if value.value.contentType !in ImageTypes then Failure(NotAnImage)
    else if value.value.size > MaxImageSize then Failure(FileTooLarge)
    else Success(value)
  }

  /** The 5 MB limit is inclusive. */
  lemma ImageSizeBoundary(name: string)
    requires name != ""
    ensures ValidateImage(Some(Upload(name, "image/png", 5242880))).Success?
    ensures ValidateImage(Some(Upload(name, "image/png", 5242881))) == Failure(FileTooLarge)
  {
  }

  // ---------------------------------------------------------------------------
  // Registration

  /** The company a truthy `company_id` names, if any: an integer equal to some company's id. */
  function NamedCompany(companyId: Value, companies: seq<Company>): (r: Option<nat>)
    ensures r.Some? <==> companyId.Int? && exists i :: 0 <= i < |companies| && companies[i].id == companyId.i
    ensures r.Some? ==> r.value == companyId.i
  {
    if companyId.Int? && companyId.i >= 0 && exists i :: 0 <= i < |companies| && companies[i].id == companyId.i
    then Some(companyId.i as nat)
    else None
  }

  /**
   * `RegisterSerializer.validate`: the passwords must agree, and a truthy
   * `company_id` must name a company; the attributes pass unchanged.
   */
  function ValidateRegistration(attrs: Record, companies: seq<Company>): (r: Result<Record, FormError>)
    requires "password" in attrs && "password_confirm" in attrs
    ensures r.Success? <==>
      attrs["password"] == attrs["password_confirm"] &&
      (!Truthy(Get(attrs, "company_id")) || NamedCompany(Get(attrs, "company_id"), companies).Some?)
    ensures r.Success? ==> r.value == attrs
    ensures attrs["password"] != attrs["password_confirm"] ==> r == Failure(PasswordMismatch)
    ensures r.Failure? && attrs["password"] == attrs["password_confirm"] ==> r.error == UnknownCompany
  {
    if attrs["password"] != attrs["password_confirm"] then Failure(PasswordMismatch)
    else if Truthy(Get(attrs, "company_id")) && NamedCompany(Get(attrs, "company_id"), companies).None?
    then Failure(UnknownCompany)
    else Success(attrs)
  }

  /** The fields `RegisterSerializer.create` removes before calling `create_user`, and the e-mail, passed on its own. */
  const StrippedFields: set<string> := {"password", "password_confirm", "company_id", "username", "email"}

  /** The keyword arguments `create_user` receives besides the e-mail and the company. */
  function RegisterExtra(data: Record): Record
  {
    map k | k in data && k !in StrippedFields :: data[k]
  }

  /** The company a registration assigns: the one its truthy `company_id` names, if it exists. */
  function RegisterCompany(data: Record, companies: seq<Company>): (r: Option<nat>)
    ensures r.Some? ==> Truthy(Get(data, "company_id")) && Get(data, "company_id") == Int(r.value)
    ensures Truthy(Get(data, "company_id")) ==> r == NamedCompany(Get(data, "company_id"), companies)
  {
    if Truthy(Get(data, "company_id")) then NamedCompany(Get(data, "company_id"), companies) else None
  }

  /**
   * `RegisterSerializer.create`: the user is created from the validated data
   * without its password fields, company id and username, so the username is
   * always generated from the e-mail. The password itself is not modelled.
   */
  method Register(table: UserTable, data: Record, companies: seq<Company>, lib: Lib, normalize: string -> string)
    returns (r: Result<User, AccountError>)
    requires table.Valid()
    requires "password" in data && "email" in data && data["email"].Str?
    modifies table
    ensures table.Valid()
    ensures r.Success? ==> table.users == old(table.users) + [r.value]
    ensures r.Failure? ==> table.users == old(table.users)
    ensures r.Success? ==>
      && r.value.email == normalize(data["email"].s)
      && r.value.company == RegisterCompany(data, companies)
      && r.value.username.Some?
      && FirstFree(BeforeFirst(normalize(data["email"].s), '@'), UsernamesExcept(old(table.users), None),
                   r.value.username.value)
    ensures data["email"].s == "" ==> r == Failure(EmailRequired)
    ensures data["email"].s != "" && !FlagsValid(RegisterExtra(data)) ==> r == Failure(InvalidFlag)
    ensures data["email"].s != "" && FlagsValid(RegisterExtra(data)) ==>
      (r.Success? <==> !EmailTaken(old(table.users), normalize(data["email"].s), None))
  {
    var extra := RegisterExtra(data);
    r := table.CreateUser(data["email"].s, extra, RegisterCompany(data, companies), lib, normalize);
  }

  // ---------------------------------------------------------------------------
  // User update

  /**
   * The reassignment in `UserSerializer.update`: the company and the role
   * change only when an id is given and names an existing row; everything
   * else about the user is left as it was.
   */
  function Reassigned(u: User, companyId: Option<int>, roleId: Option<int>, companies: seq<Company>,
                      roles: seq<Role>): (r: User)
    ensures r.(company := u.company, role := u.role) == u
    ensures (companyId.Some? && exists i :: 0 <= i < |companies| && companies[i].id == companyId.value) ==>
      r.company == Some(companyId.value)
    ensures !(companyId.Some? && exists i :: 0 <= i < |companies| && companies[i].id == companyId.value) ==>
      r.company == u.company
    ensures (roleId.Some? && exists i :: 0 <= i < |roles| && roles[i].id == roleId.value) ==>
      r.role.Some? && r.role.value in roles && r.role.value.id == roleId.value
    ensures !(roleId.Some? && exists i :: 0 <= i < |roles| && roles[i].id == roleId.value) ==> r.role == u.role
  {
    var withCompany :=
      if companyId.Some? && exists i :: 0 <= i < |companies| && companies[i].id == companyId.value
      then u.(company := Some(companyId.value as nat))
      else u;
    var j := RoleIndex(roles, roleId);
    if j.Some? then withCompany.(role := Some(roles[j.value])) else withCompany
  }

  /** The first role with this id (role ids are unique in the table). */
  function RoleIndex(roles: seq<Role>, roleId: Option<int>): (r: Option<nat>)
    ensures r.Some? ==> r.value < |roles| && roleId.Some? && roles[r.value].id == roleId.value
    ensures r.None? ==> roleId.None? || forall i :: 0 <= i < |roles| ==> roles[i].id != roleId.value
    decreases |roles|
  {
    if roleId.None? || roles == [] then None
    else if roles[0].id == roleId.value then Some(0)
    else
      var rest := RoleIndex(roles[1..], roleId);
      if rest.Some? then Some(rest.value + 1) else None
  }

  /** Giving no ids leaves the user exactly as it was. */
  lemma NoIdsNoChange(u: User, companies: seq<Company>, roles: seq<Role>)
    ensures Reassigned(u, None, None, companies, roles) == u
  {
  }

  /** An id that names no row leaves that field as it was. */
  lemma UnknownIdsIgnored(u: User, companyId: int, roleId: int, companies: seq<Company>, roles: seq<Role>)
    requires forall i :: 0 <= i < |companies| ==> companies[i].id != companyId
    requires forall i :: 0 <= i < |roles| ==> roles[i].id != roleId
    ensures Reassigned(u, Some(companyId), Some(roleId), companies, roles) == u
  {
  }

  /**
   * `validate_company_id` and `validate_role_id` of `UserSerializer`: an id
   * that is given must name an existing row. Django REST framework gathers
   * the errors of all fields; the model reports the company's first.
   */
  function ValidateIds(companyId: Option<int>, roleId: Option<int>, companies: seq<Company>,
                       roles: seq<Role>): (r: Result<(), FormError>)
    ensures r == Failure(UnknownCompany) <==>
      companyId.Some? && forall i :: 0 <= i < |companies| ==> companies[i].id != companyId.value
    ensures r == Failure(UnknownRole) <==>
      && !(companyId.Some? && forall i :: 0 <= i < |companies| ==> companies[i].id != companyId.value)
      && roleId.Some? && forall i :: 0 <= i < |roles| ==> roles[i].id != roleId.value
    ensures r.Success? <==>
      && (companyId.None? || exists i :: 0 <= i < |companies| && companies[i].id == companyId.value)
      && (roleId.None? || exists i :: 0 <= i < |roles| && roles[i].id == roleId.value)
  {
    if companyId.Some? && forall i :: 0 <= i < |companies| ==> companies[i].id != companyId.value
    then Failure(UnknownCompany)
    else if RoleIndex(roles, roleId).None? && roleId.Some? then Failure(UnknownRole)
    else Success(())
  }

  /**
   * On every view that updates a user, `is_valid()` runs the validators
   * before `update`: once they pass, every id given is written.
   */
  lemma ValidatedIdsReassigned(u: User, companyId: Option<int>, roleId: Option<int>,
                               companies: seq<Company>, roles: seq<Role>)
    requires ValidateIds(companyId, roleId, companies, roles).Success?
    ensures companyId.Some? ==> Reassigned(u, companyId, roleId, companies, roles).company == Some(companyId.value)
    ensures roleId.Some? ==>
      && Reassigned(u, companyId, roleId, companies, roles).role.Some?
      && Reassigned(u, companyId, roleId, companies, roles).role.value.id == roleId.value
    ensures Reassigned(u, companyId, roleId, companies, roles).(company := u.company, role := u.role) == u
  {
  }

  /**
   * `UserSerializer.update`, restricted to the reassignment: the new company
   * and role are written and the row saved, which keeps a non-empty username.
   */
  method UpdateUser(table: UserTable, u: User, companyId: Option<int>, roleId: Option<int>,
                    companies: seq<Company>, roles: seq<Role>)
    returns (r: Result<User, AccountError>)
    requires table.Valid()
    modifies table
    ensures table.Valid()
    ensures r.Success? ==>
      r.value.(username := u.username, id := u.id) == Reassigned(u, companyId, roleId, companies, roles)
    ensures r.Success? && u.username.Some? && u.username.value != "" ==> r.value.username == u.username
    ensures r.Failure? ==> table.users == old(table.users)
    ensures r.Success? && RowIn(old(table.users), u.id).Some? ==>
      table.users == old(table.users)[RowIn(old(table.users), u.id).value := r.value]
    ensures r.Success? && RowIn(old(table.users), u.id).None? ==> table.users == old(table.users) + [r.value]
    ensures u.username.Some? && u.username.value != "" ==>
      (r.Failure? <==> Clashes(old(table.users), u, RowIn(old(table.users), u.id)))
    ensures !(u.username.Some? && u.username.value != "") ==>
      (r.Failure? <==> EmailTaken(old(table.users), u.email, RowIn(old(table.users), u.id)))
  {
    r := table.Save(Reassigned(u, companyId, roleId, companies, roles));
  }

  // ---------------------------------------------------------------------------
  // Login

  /**
   * `LoginSerializer.validate`: both e-mail and password must be truthy; the
   * credentials must authenticate a user (`authenticate` stands for Django's
   * backend), and that user must be active.
   */
  function ValidateLogin(attrs: Record, authenticate: (Value, Value) -> Option<User>): (r: Result<User, FormError>)
    ensures !(Truthy(Get(attrs, "email")) && Truthy(Get(attrs, "password"))) ==> r == Failure(MissingCredentials)
    ensures r.Success? <==>
      && Truthy(Get(attrs, "email")) && Truthy(Get(attrs, "password"))
      && authenticate(Get(attrs, "email"), Get(attrs, "password")).Some?
      && authenticate(Get(attrs, "email"), Get(attrs, "password")).value.isActive
    ensures r.Success? ==> Some(r.value) == authenticate(Get(attrs, "email"), Get(attrs, "password"))
    ensures r == Failure(InactiveUser) ==> authenticate(Get(attrs, "email"), Get(attrs, "password")).Some?
  {
    var email := Get(attrs, "email");
    var password := Get(attrs, "password");
    if !(Truthy(email) && Truthy(password)) then Failure(MissingCredentials)
    else
      var user := authenticate(email, password);
      if user.None? then Failure(InvalidCredentials)
      else if !user.value.isActive then Failure(InactiveUser)
      else Success(user.value)
  }
}
