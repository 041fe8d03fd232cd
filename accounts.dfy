/**
 * Users of the production system: role predicates, the user manager
 * (`create_user`, `create_superuser`) and `User.save`, which both generate a
 * unique username from the e-mail address when none is given.
 */
module Accounts {
  import opened Wrappers
  import opened PyValue

  /** A role; `name` is one of admin, manager, supervisor, operator, viewer. */
  datatype Role = Role(id: nat, name: string)

  /** A user row. `id` is None until the row is first saved. */
  datatype User = User(
    id: Option<nat>,
    email: string,
    username: Option<string>,
    isStaff: bool,
    isSuperuser: bool,
    isActive: bool,
    role: Option<Role>,
    company: Option<nat>
  )

  datatype AccountError =
    | EmailRequired      // create_user called with an empty e-mail
    | NotStaff           // create_superuser with is_staff other than True
    | NotSuperuser       // create_superuser with is_superuser other than True
    | InvalidFlag        // a boolean column given a value BooleanField cannot convert
    | Duplicate          // the unique e-mail or username constraint rejects the row

  // ---------------------------------------------------------------------------
  // Role predicates

  predicate HasRole(u: User, roleName: string) {
    u.role.Some? && u.role.value.name == roleName
  }

  predicate IsAdmin(u: User) {
    HasRole(u, "admin") || u.isSuperuser
  }

  predicate CanEditCompany(u: User) {
    IsAdmin(u)
  }

  predicate CanManageUsers(u: User) {
    IsAdmin(u) || HasRole(u, "manager")
  }

  /** Without a role only a superuser is an admin; a superuser may do everything. */
  lemma RolePermissions(u: User)
    ensures u.role.None? ==> (forall r :: !HasRole(u, r)) && (IsAdmin(u) <==> u.isSuperuser)
    ensures u.isSuperuser ==> IsAdmin(u) && CanEditCompany(u) && CanManageUsers(u)
    ensures CanEditCompany(u) ==> CanManageUsers(u)
  {
  }

  /** A manager who is not a superuser may manage users but not edit companies. */
  lemma ManagerPermissions(u: User)
    requires HasRole(u, "manager") && !u.isSuperuser
    ensures CanManageUsers(u) && !CanEditCompany(u) && !IsAdmin(u)
  {
    assert u.role.value.name == "manager";
    assert "manager"[0] != "admin"[0];
  }

  // ---------------------------------------------------------------------------
  // Username candidates: base, base1, base2, ...

  function Digit(d: nat): char
    requires d < 10
  {
    "0123456789"[d]
  }

  function DigitValue(c: char): nat {
    if '0' <= c <= '9' then c as nat - '0' as nat else 0
  }

  /** `str(n)`: the decimal numeral of `n`, without leading zeros. */
  function Decimal(n: nat): (r: string)
    ensures |r| >= 1
    decreases n
  {
    if n < 10 then [Digit(n)] else Decimal(n / 10) + [Digit(n % 10)]
  }

  function ParseDecimal(s: string): nat
    decreases |s|
  {
    if s == [] then 0 else ParseDecimal(s[..|s| - 1]) * 10 + DigitValue(s[|s| - 1])
  }

  lemma {:induction false} DecimalRoundTrip(n: nat)
    ensures ParseDecimal(Decimal(n)) == n
    decreases n
  {
    if n < 10 {
      assert Decimal(n)[..0] == [];
    } else {
      DecimalRoundTrip(n / 10);
      var s := Decimal(n);
      assert s[..|s| - 1] == Decimal(n / 10);
    }
  }

  lemma DecimalInjective(a: nat, b: nat)
    requires Decimal(a) == Decimal(b)
    ensures a == b
  {
    DecimalRoundTrip(a);
    DecimalRoundTrip(b);
  }

  /** The `k`-th username tried: the base itself, then the base followed by `k`. */
  function Candidate(base: string, k: nat): string {
    if k == 0 then base else base + Decimal(k)
  }

  lemma CandidateInjective(base: string, j: nat, k: nat)
    requires Candidate(base, j) == Candidate(base, k)
    ensures j == k
  {
    if j != 0 && k != 0 {
      assert Decimal(j) == Candidate(base, j)[|base|..];
      assert Decimal(k) == Candidate(base, k)[|base|..];
      DecimalInjective(j, k);
    }
  }

  /** `name` is the first candidate for `base` that is not taken. */
  ghost predicate FirstFree(base: string, taken: set<string>, name: string) {
    name !in taken &&
    exists k: nat :: name == Candidate(base, k) && forall j: nat :: j < k ==> Candidate(base, j) in taken
  }

  /** At most one name is the first free candidate. */
  lemma FirstFreeUnique(base: string, taken: set<string>, a: string, b: string)
    requires FirstFree(base, taken, a) && FirstFree(base, taken, b)
    ensures a == b
  {
    var ka: nat :| a == Candidate(base, ka) && forall j: nat :: j < ka ==> Candidate(base, j) in taken;
    var kb: nat :| b == Candidate(base, kb) && forall j: nat :: j < kb ==> Candidate(base, j) in taken;
  }

  /** A set holding the first `n` candidates has at least `n` elements. */
  lemma {:induction false} CandidatesCount(base: string, n: nat, taken: set<string>)
    requires forall j: nat :: j < n ==> Candidate(base, j) in taken
    ensures |taken| >= n
    decreases n
  {
    if n > 0 {
      var last := Candidate(base, n - 1);
      var rest := taken - {last};
      forall j: nat | j < n - 1 ensures Candidate(base, j) in rest {
        if Candidate(base, j) == last {
          CandidateInjective(base, j, n - 1);
        }
      }
      CandidatesCount(base, n - 1, rest);
    }
  }

  /** The loop at lines 127-132 and 277-282: try base, base1, base2, ... until one is free. */
  method GenerateUsername(base: string, taken: set<string>) returns (username: string)
    ensures FirstFree(base, taken, username)
  {
    username := base;
    var counter: nat := 1;
    while username in taken
      invariant counter >= 1
      invariant username == Candidate(base, counter - 1)
      invariant forall j: nat :: j < counter - 1 ==> Candidate(base, j) in taken
      decreases |taken| - (counter - 1)
    {
      CandidatesCount(base, counter, taken);
      username := base + Decimal(counter);
      counter := counter + 1;
    }
  }

  // ---------------------------------------------------------------------------
  // The user table

  /** A boolean column's conversion on save: True/False and the values equal to them, and the strings Django accepts. */
  function BoolColumn(v: Value): Option<bool> {
    match v
    case Bool(b) => Some(b)
    case Int(i) => if i == 1 then Some(true) else if i == 0 then Some(false) else None
    case Float(r) => if r == 1.0 then Some(true) else if r == 0.0 then Some(false) else None
    case Str(s) =>
      if s == "t" || s == "True" || s == "1" then Some(true)
      else if s == "f" || s == "False" || s == "0" then Some(false)
      else None
    case _ => None
  }

  /** The username passed in the keyword arguments, when it is truthy; a non-string is stored as its `str`. */
  function RequestedUsername(extra: Record, lib: Lib): (r: Option<string>)
    ensures r.Some? <==> "username" in extra && Truthy(extra["username"])
  {
    if "username" !in extra || !Truthy(extra["username"]) then None
    else if extra["username"].Str? then Some(extra["username"].s)
    else Some(lib.str(extra["username"]))
  }

  /** `create_superuser`'s keyword arguments after the three `setdefault` calls and the two checks. */
  function SuperuserExtra(extra: Record): (r: Result<Record, AccountError>)
    ensures r.Success? <==>
      GetOr(extra, "is_staff", Bool(true)) == Bool(true) && GetOr(extra, "is_superuser", Bool(true)) == Bool(true)
    ensures r.Success? ==> "is_staff" in r.value && "is_superuser" in r.value && "is_active" in r.value
    ensures r.Success? ==> r.value["is_staff"] == Bool(true) && r.value["is_superuser"] == Bool(true)
    ensures r.Success? ==> r.value["is_active"] == GetOr(extra, "is_active", Bool(true))
    ensures r.Success? ==> forall k :: k in extra ==> k in r.value && r.value[k] == extra[k]
    ensures r.Failure? && GetOr(extra, "is_staff", Bool(true)) != Bool(true) ==> r.error == NotStaff
  {
    var e := extra["is_staff" := GetOr(extra, "is_staff", Bool(true))]
                  ["is_superuser" := GetOr(extra, "is_superuser", Bool(true))]
                  ["is_active" := GetOr(extra, "is_active", Bool(true))];
    if Get(e, "is_staff") != Bool(true) then Failure(NotStaff)
    else if Get(e, "is_superuser") != Bool(true) then Failure(NotSuperuser)
    else Success(e)
  }

  /** Every stored row has an id below `nextId`, and ids, e-mails and usernames are unique. */
  ghost predicate TableValid(users: seq<User>, nextId: nat) {
    (forall i :: 0 <= i < |users| ==> users[i].id.Some? && users[i].id.value < nextId) &&
    (forall i, j :: 0 <= i < j < |users| ==> users[i].id != users[j].id) &&
    (forall i, j :: 0 <= i < j < |users| ==> users[i].email != users[j].email) &&
    (forall i, j :: 0 <= i < j < |users| && users[i].username.Some? ==> users[i].username != users[j].username)
  }

  /** The usernames `User.objects.filter(username=...)` can see, with the row of `self` excluded when it has an id. */
  function UsernamesExcept(users: seq<User>, id: Option<nat>): set<string> {
    set i | 0 <= i < |users| && users[i].username.Some? && (id.None? || users[i].id != id) :: users[i].username.value
  }

  /** Some row other than `row` already holds this e-mail. */
  predicate EmailTaken(users: seq<User>, email: string, row: Option<nat>) {
    exists i :: 0 <= i < |users| && (row.None? || i != row.value) && users[i].email == email
  }

  /** Some row other than `row` already holds this username. */
  predicate UsernameTaken(users: seq<User>, name: string, row: Option<nat>) {
    exists i :: 0 <= i < |users| && (row.None? || i != row.value) && users[i].username == Some(name)
  }

  /** Some row other than `row` already holds the e-mail or the username of `u`. */
  predicate Clashes(users: seq<User>, u: User, row: Option<nat>) {
    EmailTaken(users, u.email, row) || (u.username.Some? && UsernameTaken(users, u.username.value, row))
  }

  /**
   * A name outside `UsernamesExcept(users, id)` is held by no row but the one
   * with this id, so a generated username never clashes.
   */
  lemma GeneratedNameFree(users: seq<User>, nextId: nat, id: Option<nat>, name: string)
    requires TableValid(users, nextId)
    requires name !in UsernamesExcept(users, id)
    ensures !UsernameTaken(users, name, RowIn(users, id))
  {
    var row := RowIn(users, id);
    forall i | 0 <= i < |users| && (row.None? || i != row.value) && users[i].username.Some?
      ensures users[i].username != Some(name)
    {
      if id.Some? && row.Some? {
        assert users[i].id != users[row.value].id by {
          if i < row.value {} else {}
        }
      }
      assert users[i].username.value in UsernamesExcept(users, id);
    }
  }

  /** The boolean columns `create_user` passes all convert. */
  predicate FlagsValid(extra: Record) {
    && BoolColumn(GetOr(extra, "is_staff", Bool(false))).Some?
    && BoolColumn(GetOr(extra, "is_superuser", Bool(false))).Some?
    && BoolColumn(GetOr(extra, "is_active", Bool(true))).Some?
  }

  /**
   * A new user with this (normalised) e-mail and requested username can be
   * inserted: nobody holds the e-mail, and nobody holds the username when a
   * non-empty one is requested (a generated one is always free).
   */
  predicate Creatable(users: seq<User>, email: string, requested: Option<string>) {
    !EmailTaken(users, email, None) &&
    (requested.Some? && requested.value != "" ==> !UsernameTaken(users, requested.value, None))
  }

  /** `create_superuser`'s defaults keep the requested username and leave only `is_active` to convert. */
  lemma SuperuserFlags(extra: Record, lib: Lib)
    requires SuperuserExtra(extra).Success?
    ensures FlagsValid(SuperuserExtra(extra).value) <==> BoolColumn(GetOr(extra, "is_active", Bool(true))).Some?
    ensures RequestedUsername(SuperuserExtra(extra).value, lib) == RequestedUsername(extra, lib)
  {
    var e := SuperuserExtra(extra).value;
    assert "username" in e <==> "username" in extra;
  }

  /** Writing `u` over its own row keeps the table valid when nothing else clashes with it. */
  lemma ReplaceKeepsValid(users: seq<User>, nextId: nat, row: nat, u: User)
    requires TableValid(users, nextId) && row < |users| && u.id == users[row].id
    requires !Clashes(users, u, Some(row))
    ensures TableValid(users[row := u], nextId)
  {
    var after := users[row := u];
    forall i, j | 0 <= i < j < |after| && after[i].username.Some?
      ensures after[i].username != after[j].username
    {
      if i == row {
        assert users[j].username != u.username;
      } else if j == row {
        assert users[i].username != u.username;
      }
    }
  }

  /** Appending a row with a fresh id keeps the table valid when nothing clashes with it. */
  lemma AppendKeepsValid(users: seq<User>, nextId: nat, u: User)
    requires TableValid(users, nextId) && u.id.Some?
    requires forall i :: 0 <= i < |users| ==> users[i].id != u.id
    requires !Clashes(users, u, None)
    ensures TableValid(users + [u], if u.id.value + 1 > nextId then u.id.value + 1 else nextId)
  {
    var after := users + [u];
    forall i, j | 0 <= i < j < |after| && after[i].username.Some?
      ensures after[i].username != after[j].username
    {
      if j == |users| {
        assert users[i].username != u.username;
      }
    }
  }

  class UserTable {
    var users: seq<User>
    var nextId: nat

    ghost predicate Valid()
      reads this
    {
      TableValid(users, nextId)
    }

    constructor ()
      ensures users == [] && nextId == 0 && Valid()
    {
      users := [];
      nextId := 0;
    }

    /**
     * `User.save`: a missing or empty username is replaced by the first free
     * candidate for the e-mail prefix, the user's own row excluded; then the
     * row is updated or inserted, unless a unique constraint rejects it.
     */
    method Save(u: User) returns (r: Result<User, AccountError>)
      requires Valid()
      modifies this
      ensures Valid()
      ensures u.username.Some? && u.username.value != "" ==> r.Success? ==> r.value.username == u.username
      ensures !(u.username.Some? && u.username.value != "") ==> r.Success? ==>
        r.value.username.Some? &&
        FirstFree(BeforeFirst(u.email, '@'), UsernamesExcept(old(users), u.id), r.value.username.value)
      ensures r.Success? ==> r.value.(id := u.id, username := u.username) == u && r.value.id.Some?
      ensures r.Success? && u.id.Some? ==> r.value.id == u.id
      ensures r.Success? && RowIn(old(users), u.id).Some? ==>
        users == old(users)[RowIn(old(users), u.id).value := r.value]
      ensures r.Success? && RowIn(old(users), u.id).None? ==> users == old(users) + [r.value]
      ensures r.Failure? ==> users == old(users) && r.error == Duplicate
      ensures u.username.Some? && u.username.value != "" ==>
        (r.Failure? <==> Clashes(old(users), u, RowIn(old(users), u.id)))
      ensures !(u.username.Some? && u.username.value != "") ==>
        (r.Failure? <==> EmailTaken(old(users), u.email, RowIn(old(users), u.id)))
    {
      var named := u;
      if !(u.username.Some? && u.username.value != "") {
        var name := GenerateUsername(BeforeFirst(u.email, '@'), UsernamesExcept(users, u.id));
        GeneratedNameFree(users, nextId, u.id, name);
        named := u.(username := Some(name));
      }
      r := WriteRow(named);
    }

    /** `Model.save` proper: update the row with this id, or insert a new one, unless a unique constraint fails. */
    method WriteRow(u: User) returns (r: Result<User, AccountError>)
      requires Valid()
      modifies this
      ensures Valid()
      ensures r.Success? ==> r.value.(id := u.id) == u && r.value.id.Some?
      ensures r.Success? && u.id.Some? ==> r.value.id == u.id
      ensures r.Success? && RowIn(old(users), u.id).Some? ==>
        users == old(users)[RowIn(old(users), u.id).value := r.value]
      ensures r.Success? && RowIn(old(users), u.id).None? ==> users == old(users) + [r.value]
      ensures r.Failure? ==> users == old(users) && r.error == Duplicate
      ensures r.Failure? <==> Clashes(old(users), u, RowIn(old(users), u.id))
    {
      var row := RowIn(users, u.id);
      if Clashes(users, u, row) {
        return Failure(Duplicate);
      }
      if row.Some? {
        ReplaceKeepsValid(users, nextId, row.value, u);
        users := users[row.value := u];
        r := Success(u);
      } else {
        var id: nat := if u.id.Some? then u.id.value else nextId;
        var stored := u.(id := Some(id));
        AppendKeepsValid(users, nextId, stored);
        users := users + [stored];
        nextId := if id + 1 > nextId then id + 1 else nextId;
        r := Success(stored);
      }
    }

    /**
     * `UserManager.create_user`: an empty e-mail raises; otherwise the e-mail is
     * normalised, a username is generated when none is given, and the new user
     * is saved.
     */
    method CreateUser(email: string, extra: Record, company: Option<nat>, lib: Lib, normalize: string -> string)
      returns (r: Result<User, AccountError>)
      requires Valid()
      modifies this
      ensures Valid()
      ensures email == "" ==> r == Failure(EmailRequired)
      ensures r.Success? ==> r.value.email == normalize(email) && r.value.company == company && r.value.role.None?
      ensures r.Success? ==>
        && BoolColumn(GetOr(extra, "is_staff", Bool(false))) == Some(r.value.isStaff)
        && BoolColumn(GetOr(extra, "is_superuser", Bool(false))) == Some(r.value.isSuperuser)
        && BoolColumn(GetOr(extra, "is_active", Bool(true))) == Some(r.value.isActive)
      ensures r.Success? && RequestedUsername(extra, lib).Some? && RequestedUsername(extra, lib).value != "" ==>
        r.value.username == RequestedUsername(extra, lib)
      ensures r.Success? && RequestedUsername(extra, lib).None? ==>
        r.value.username.Some? &&
        FirstFree(BeforeFirst(normalize(email), '@'), UsernamesExcept(old(users), None), r.value.username.value)
      ensures r.Success? ==> users == old(users) + [r.value]
      ensures r.Failure? ==> users == old(users)
      ensures email != "" && !FlagsValid(extra) ==> r == Failure(InvalidFlag)
      ensures email != "" && FlagsValid(extra) ==>
        (r.Success? <==> Creatable(old(users), normalize(email), RequestedUsername(extra, lib)))
    {
      if email == "" {
        return Failure(EmailRequired);
      }
      var e := normalize(email);
      var username := RequestedUsername(extra, lib);
      if username.None? {
        var name := GenerateUsername(BeforeFirst(e, '@'), UsernamesExcept(users, None));
        GeneratedNameFree(users, nextId, None, name);
        username := Some(name);
      }
      var staff := BoolColumn(GetOr(extra, "is_staff", Bool(false)));
      var superuser := BoolColumn(GetOr(extra, "is_superuser", Bool(false)));
      var active := BoolColumn(GetOr(extra, "is_active", Bool(true)));
      if staff.None? || superuser.None? || active.None? {
        return Failure(InvalidFlag);
      }
      var u := User(None, e, username, staff.value, superuser.value, active.value, None, company);
      r := Save(u);
    }

    /** `UserManager.create_superuser`. */
    method CreateSuperuser(email: string, extra: Record, lib: Lib, normalize: string -> string)
      returns (r: Result<User, AccountError>)
      requires Valid()
      modifies this
      ensures Valid()
      ensures SuperuserExtra(extra).Failure? ==> r == Failure(SuperuserExtra(extra).error)
      ensures r.Success? ==> r.value.isStaff && r.value.isSuperuser && r.value.email == normalize(email)
      ensures r.Success? ==> users == old(users) + [r.value]
      ensures r.Failure? ==> users == old(users)
      ensures SuperuserExtra(extra).Success? && email == "" ==> r == Failure(EmailRequired)
      ensures SuperuserExtra(extra).Success? && email != "" && BoolColumn(GetOr(extra, "is_active", Bool(true))).None? ==>
        r == Failure(InvalidFlag)
      ensures SuperuserExtra(extra).Success? && email != "" && BoolColumn(GetOr(extra, "is_active", Bool(true))).Some? ==>
        (r.Success? <==> Creatable(old(users), normalize(email), RequestedUsername(extra, lib)))
    {
      var e := SuperuserExtra(extra);
      if e.Failure? {
        return Failure(e.error);
      }
      SuperuserFlags(extra, lib);
      r := CreateUser(email, e.value, None, lib, normalize);
    }
  }

  /** The index of the stored row with this id; an unsaved user (no id) has none. */
  function RowIn(users: seq<User>, id: Option<nat>): (r: Option<nat>)
    ensures r.Some? ==> r.value < |users| && id.Some? && users[r.value].id == id
    ensures r.None? ==> id.None? || forall i :: 0 <= i < |users| ==> users[i].id != id
    decreases |users|
  {
    if users == [] || id.None? then None
    else if users[|users| - 1].id == id then Some(|users| - 1)
    else RowIn(users[..|users| - 1], id)
  }
}
