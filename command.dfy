/**
 * The `sync_quality_data` management command: it picks the administrator the
 * records are attributed to, logs in once, decides which companies to sync,
 * syncs each of them and adds up the counts of the successful syncs.
 */
module SyncCommand {
  import opened Wrappers
  import opened PyValue
  import opened Companies
  import opened FieldMapper
  import opened Accounts
  import opened Pagination
  import opened QualityRecord
  import opened Reconciliation
  import opened ExternalApi
  import opened Sync

  /** The `CommandError`s `handle` raises, and an exception escaping it. */
  datatype CommandError = NoAdmin | LoginFailed | NoCompanies | Uncaught

  // ---------------------------------------------------------------------------
  // The administrator

  /** Users ordered by primary key, as an unordered queryset's `.first()` sees them. */
  predicate PkLe(a: User, b: User) {
    a.id.None? || (b.id.Some? && a.id.value <= b.id.value)
  }

  /** The index of the user with the least primary key among those satisfying `p`. */
  function FirstByPk(users: seq<User>, p: User -> bool): (r: Option<nat>)
    ensures r.Some? ==> r.value < |users| && p(users[r.value])
    ensures r.Some? ==> forall j :: 0 <= j < |users| && p(users[j]) ==> PkLe(users[r.value], users[j])
    ensures r.None? ==> forall j :: 0 <= j < |users| ==> !p(users[j])
    decreases |users|
  {
    if users == [] then None
    else
      var rest := FirstByPk(users[1..], p);
      if rest.None? then (if p(users[0]) then Some(0) else None)
      else if p(users[0]) && PkLe(users[0], users[rest.value + 1]) then Some(0)
      else Some(rest.value + 1)
  }

  /** How many users satisfy `p`. */
  function CountUsers(users: seq<User>, p: User -> bool): (n: nat)
    ensures n <= |users|
    ensures n == 0 <==> forall j :: 0 <= j < |users| ==> !p(users[j])
    decreases |users|
  {
    if users == [] then 0 else (if p(users[0]) then 1 else 0) + CountUsers(users[1..], p)
  }

  /** A superuser with this e-mail. */
  function SuperuserWith(email: string): User -> bool {
    (u: User) => u.email == email && u.isSuperuser
  }

  function IsSuperuser(): User -> bool {
    (u: User) => u.isSuperuser
  }

  function HasAdminRole(): User -> bool {
    (u: User) => HasRole(u, "admin")
  }

  /**
   * `_get_admin_user`: the superuser with the given e-mail when there is
   * exactly one; none moves on (the `get` raises DoesNotExist, which is
   * caught), more than one raises. Then the first superuser, then the first
   * user whose role is admin, then nobody.
   */
  function AdminUser(users: seq<User>, adminEmail: Option<string>): (r: Result<Option<User>, CommandError>)
    ensures r.Failure? ==> r.error == Uncaught
    ensures r.Success? && r.value.Some? ==> r.value.value in users && (r.value.value.isSuperuser || HasRole(r.value.value, "admin"))
    ensures r == Success(None) <==>
      && (forall j :: 0 <= j < |users| ==> !users[j].isSuperuser)
      && (forall j :: 0 <= j < |users| ==> !HasRole(users[j], "admin"))
  {
    if adminEmail.Some? && adminEmail.value != "" && CountUsers(users, SuperuserWith(adminEmail.value)) > 1 then
      Failure(Uncaught)
    else if adminEmail.Some? && adminEmail.value != "" && CountUsers(users, SuperuserWith(adminEmail.value)) == 1 then
      Success(Some(users[FirstByPk(users, SuperuserWith(adminEmail.value)).value]))
    else
      var su := FirstByPk(users, IsSuperuser());
      if su.Some? then Success(Some(users[su.value]))
      else
        var admin := FirstByPk(users, HasAdminRole());
        if admin.Some? then Success(Some(users[admin.value])) else Success(None)
  }

  /** A superuser with the requested e-mail is chosen when the table holds one. */
  lemma NamedAdminChosen(users: seq<User>, nextId: nat, email: string, i: nat)
    requires TableValid(users, nextId)
    requires email != "" && i < |users| && users[i].email == email && users[i].isSuperuser
    ensures AdminUser(users, Some(email)) == Success(Some(users[i]))
  {
    OneWithEmail(users, nextId, email, i);
    var k := FirstByPk(users, SuperuserWith(email)).value;
    assert SuperuserWith(email)(users[i]);
    if k != i {
      assert false;
    }
  }

  /** Stored e-mails are unique, so at most one superuser has a given e-mail. */
  lemma OneWithEmail(users: seq<User>, nextId: nat, email: string, i: nat)
    requires TableValid(users, nextId)
    requires i < |users| && users[i].email == email && users[i].isSuperuser
    ensures CountUsers(users, SuperuserWith(email)) == 1
  {
    CountOnly(users, SuperuserWith(email), i);
  }

  /** When only row i satisfies `p`, exactly one user does. */
  lemma {:induction false} CountOnly(users: seq<User>, p: User -> bool, i: nat)
    requires i < |users| && p(users[i])
    requires forall j :: 0 <= j < |users| && j != i ==> !p(users[j]) || users[j].email == users[i].email
    requires forall j :: 0 <= j < |users| && j != i ==> users[j].email != users[i].email
    ensures CountUsers(users, p) == 1
    decreases |users|
  {
    if i == 0 {
      assert forall j :: 0 <= j < |users[1..]| ==> !p(users[1..][j]) by {
        forall j | 0 <= j < |users[1..]| ensures !p(users[1..][j]) {
          assert users[1..][j] == users[j + 1];
        }
      }
    } else {
      assert !p(users[0]);
      forall j | 0 <= j < |users[1..]| && j != i - 1
        ensures !p(users[1..][j]) || users[1..][j].email == users[1..][i - 1].email
        ensures users[1..][j].email != users[1..][i - 1].email
      {
        assert users[1..][j] == users[j + 1];
      }
      CountOnly(users[1..], p, i - 1);
    }
  }

  /**
   * Without a requested e-mail, or when no superuser holds it, the superuser
   * with the least primary key is chosen whenever there is a superuser, in
   * preference to any user with the admin role.
   */
  lemma SuperuserPreferred(users: seq<User>, adminEmail: Option<string>, i: nat)
    requires i < |users| && users[i].isSuperuser
    requires adminEmail.None? || adminEmail.value == "" || CountUsers(users, SuperuserWith(adminEmail.value)) == 0
    ensures AdminUser(users, adminEmail).Success? && AdminUser(users, adminEmail).value.Some?
    ensures AdminUser(users, adminEmail).value.value.isSuperuser
    ensures forall j :: 0 <= j < |users| && users[j].isSuperuser ==>
      PkLe(AdminUser(users, adminEmail).value.value, users[j])
  {
    assert IsSuperuser()(users[i]);
    var k := FirstByPk(users, IsSuperuser()).value;
    forall j | 0 <= j < |users| && users[j].isSuperuser
      ensures PkLe(users[k], users[j])
    {
      assert IsSuperuser()(users[j]);
    }
  }

  /** Without any superuser, the admin-role user with the least primary key is chosen, whatever e-mail was requested. */
  lemma AdminRoleFallback(users: seq<User>, adminEmail: Option<string>, i: nat)
    requires i < |users| && HasRole(users[i], "admin")
    requires forall j :: 0 <= j < |users| ==> !users[j].isSuperuser
    ensures AdminUser(users, adminEmail).Success? && AdminUser(users, adminEmail).value.Some?
    ensures HasRole(AdminUser(users, adminEmail).value.value, "admin")
    ensures forall j :: 0 <= j < |users| && HasRole(users[j], "admin") ==>
      PkLe(AdminUser(users, adminEmail).value.value, users[j])
  {
    if adminEmail.Some? && adminEmail.value != "" {
      forall j | 0 <= j < |users| ensures !SuperuserWith(adminEmail.value)(users[j]) {}
    }
    assert HasAdminRole()(users[i]);
    var k := FirstByPk(users, HasAdminRole()).value;
    forall j | 0 <= j < |users| && HasRole(users[j], "admin")
      ensures PkLe(users[k], users[j])
    {
      assert HasAdminRole()(users[j]);
    }
  }

  // ---------------------------------------------------------------------------
  // The companies to sync

  /** Every later name is at least every earlier one. */
  predicate SortedNames(s: seq<string>) {
    forall i, j :: 0 <= i < j < |s| ==> NameLe(s[i], s[j])
  }

  /** `x` placed before the first name it precedes. */
  function InsertName(x: string, s: seq<string>): (r: seq<string>)
    ensures multiset(r) == multiset(s) + multiset{x}
    ensures |r| == |s| + 1
    ensures forall z :: z in r ==> z == x || z in s
    decreases |s|
  {
    if s == [] then [x]
    else if NameLe(x, s[0]) then [x] + s
    else
      assert s == [s[0]] + s[1..];
      [s[0]] + InsertName(x, s[1..])
  }

  /** Inserting into a sorted list keeps it sorted. */
  lemma {:induction false} InsertSorted(x: string, s: seq<string>)
    requires SortedNames(s)
    ensures SortedNames(InsertName(x, s))
    decreases |s|
  {
    if s == [] {
    } else if NameLe(x, s[0]) {
      forall z | z in s ensures NameLe(x, z) {
        var j :| 0 <= j < |s| && s[j] == z;
        if j > 0 { NameLeTrans(x, s[0], s[j]); }
      }
      ConsSorted(x, s);
    } else {
      NameLeTotal(x, s[0]);
      InsertSorted(x, s[1..]);
      var t := InsertName(x, s[1..]);
      forall z | z in t ensures NameLe(s[0], z) {
        if z != x {
          var m :| 0 <= m < |s[1..]| && s[1..][m] == z;
          assert s[m + 1] == z;
        }
      }
      ConsSorted(s[0], t);
    }
  }

  /** A name no greater than any of a sorted list's names can go in front of it. */
  lemma ConsSorted(y: string, t: seq<string>)
    requires SortedNames(t)
    requires forall z :: z in t ==> NameLe(y, z)
    ensures SortedNames([y] + t)
  {
    var r := [y] + t;
    forall i, j | 0 <= i < j < |r| ensures NameLe(r[i], r[j]) {
      if i == 0 {
        assert r[j] == t[j - 1] && t[j - 1] in t;
      } else {
        assert r[i] == t[i - 1] && r[j] == t[j - 1];
      }
    }
  }

  /** The names in `ORDER BY name`. */
  function SortNames(names: seq<string>): (r: seq<string>)
    ensures multiset(r) == multiset(names)
    decreases |names|
  {
    if names == [] then []
    else
      assert names == [names[0]] + names[1..];
      InsertName(names[0], SortNames(names[1..]))
  }

  lemma {:induction false} SortNamesSorted(names: seq<string>)
    ensures SortedNames(SortNames(names))
    decreases |names|
  {
    if names != [] {
      SortNamesSorted(names[1..]);
      InsertSorted(names[0], SortNames(names[1..]));
    }
  }

  /** The names of the active companies, in stored order. */
  function ActiveNames(companies: seq<Company>): (r: seq<string>)
    ensures forall x :: x in r <==> exists i :: 0 <= i < |companies| && companies[i].activo && companies[i].name == x
    decreases |companies|
  {
    if companies == [] then []
    else
      var rest := ActiveNames(companies[1..]);
      assert forall i :: 0 <= i < |companies[1..]| ==> companies[1..][i] == companies[i + 1];
      (if companies[0].activo then [companies[0].name] else []) + rest
  }

  const DefaultCompanies: seq<string> := ["SAN LUCAR S.A.", "SAN LUCAR S.A.C.", "BLUEBERRY FARM", "ARANDANOS DEL PERU"]

  /**
   * `_get_empresas_to_sync`: a non-empty `--empresa` alone; else with
   * `--all-companies` the names of the active companies ordered by name;
   * else the four default names.
   */
  function EmpresasToSync(empresa: Option<string>, allCompanies: bool, companies: seq<Company>): seq<string> {
    if empresa.Some? && empresa.value != "" then [empresa.value]
    else if allCompanies then SortNames(ActiveNames(companies))
    else DefaultCompanies
  }

  /** `--empresa` takes precedence over `--all-companies`. */
  lemma EmpresaFirst(empresa: string, allCompanies: bool, companies: seq<Company>)
    requires empresa != ""
    ensures EmpresasToSync(Some(empresa), allCompanies, companies) == [empresa]
  {
  }

  /** Without `--empresa` or `--all-companies` the four default names are synced, in their listed order. */
  lemma DefaultsOtherwise(empresa: Option<string>, companies: seq<Company>)
    requires empresa.None? || empresa.value == ""
    ensures EmpresasToSync(empresa, false, companies) == DefaultCompanies
    ensures |EmpresasToSync(empresa, false, companies)| == 4
    ensures EmpresasToSync(empresa, false, companies)[0] == "SAN LUCAR S.A."
  {
  }

  /** `--all-companies` syncs each active company's name, once per company, in name order. */
  lemma AllCompaniesSpec(empresa: Option<string>, companies: seq<Company>)
    requires empresa.None? || empresa.value == ""
    ensures var r := EmpresasToSync(empresa, true, companies);
      && SortedNames(r)
      && multiset(r) == multiset(ActiveNames(companies))
      && (forall x :: x in r <==> exists i :: 0 <= i < |companies| && companies[i].activo && companies[i].name == x)
  {
    var r := SortNames(ActiveNames(companies));
    SortNamesSorted(ActiveNames(companies));
    forall x ensures x in r <==> x in ActiveNames(companies) {
      assert x in r <==> x in multiset(r);
    }
  }

  /** No active names exactly when no company is active. */
  lemma NoActiveNames(companies: seq<Company>)
    ensures ActiveNames(companies) == [] <==> forall i :: 0 <= i < |companies| ==> !companies[i].activo
  {
    var a := ActiveNames(companies);
    if a != [] {
      assert a[0] in a;
    }
  }

  /** The company list is empty only when every company is inactive and `--all-companies` was given. */
  lemma EmptyOnlyWithoutActive(empresa: Option<string>, allCompanies: bool, companies: seq<Company>)
    ensures EmpresasToSync(empresa, allCompanies, companies) == [] <==>
      !(empresa.Some? && empresa.value != "") && allCompanies &&
      forall i :: 0 <= i < |companies| ==> !companies[i].activo
  {
    if !(empresa.Some? && empresa.value != "") && allCompanies {
      var a := ActiveNames(companies);
      assert |SortNames(a)| == |a| by {
        assert |multiset(SortNames(a))| == |multiset(a)|;
      }
      NoActiveNames(companies);
    }
  }

  // ---------------------------------------------------------------------------
  // The totals

  datatype Totals = Totals(processed: nat, created: nat, updated: nat)

  /** A sync outcome added to the totals: only a successful report adds; a failed or raising sync adds nothing. */
  function AddReport(t: Totals, report: Option<SyncReport>): Totals {
    if report.Some? && report.value.success
    then Totals(t.processed + report.value.processed, t.created + report.value.created, t.updated + report.value.updated)
    else t
  }

  /** The totals after these sync outcomes, added in order. */
  function SumTotals(reports: seq<Option<SyncReport>>): (t: Totals)
    decreases |reports|
  {
    if reports == [] then Totals(0, 0, 0)
    else AddReport(SumTotals(reports[..|reports| - 1]), reports[|reports| - 1])
  }

  lemma SumTotalsSnoc(reports: seq<Option<SyncReport>>, report: Option<SyncReport>)
    ensures SumTotals(reports + [report]) == AddReport(SumTotals(reports), report)
  {
    assert (reports + [report])[..|reports|] == reports;
  }

  /** A successful report counts no more records created or updated than it processed. */
  predicate Coherent(report: Option<SyncReport>) {
    report.Some? && report.value.success ==> report.value.created + report.value.updated <= report.value.processed
  }

  /** Over coherent reports the totals are coherent, and they are the sum over the successful ones alone. */
  lemma {:induction false} SumTotalsSpec(reports: seq<Option<SyncReport>>)
    requires forall k :: 0 <= k < |reports| ==> Coherent(reports[k])
    ensures SumTotals(reports).created + SumTotals(reports).updated <= SumTotals(reports).processed
    ensures (forall k :: 0 <= k < |reports| ==> !(reports[k].Some? && reports[k].value.success)) ==>
      SumTotals(reports) == Totals(0, 0, 0)
    decreases |reports|
  {
    if reports != [] {
      var front := reports[..|reports| - 1];
      assert forall k :: 0 <= k < |front| ==> front[k] == reports[k];
      SumTotalsSpec(front);
    }
  }

  /**
   * The syncs `runs` of the first `|runs|` companies, with their `reports`:
   * the last one is as the company sync prescribes, ends with the store at
   * `rows1` and the service's log at `m1`, and starts where the syncs before
   * it left both; together they take the rows from `rows0` and the log from
   * `m0`.
   */
  ghost predicate Chained(empresas: seq<string>, user: Option<nat>, lib: Lib, mapper: (Record, real) -> Result<Mapped, MapFailure>,
                          companies: seq<Company>, at: nat -> real,
                          posts: seq<Post>, serve: (nat, Post) -> DataReply, authorize: nat -> LoginReply,
                          runs: seq<SyncRun>, reports: seq<Option<SyncReport>>,
                          rows0: seq<Row>, rows1: seq<Row>, m0: Mark, m1: Mark)
    decreases |runs|
  {
    && |runs| == |reports| <= |empresas|
    && if runs == [] then rows1 == rows0 && m1 == m0
       else
         var n := |runs| - 1;
         && SyncedAs(empresas[n], user, lib, mapper, companies, at, posts, serve, authorize, runs[n], reports[n])
         && runs[n].after == rows1 && EndMark(runs[n]) == m1
         && Chained(empresas, user, lib, mapper, companies, at, posts, serve, authorize, runs[..n], reports[..n],
                    rows0, runs[n].before, m0, StartMark(runs[n]))
  }

  /** The chain read company by company: the k-th sync is as the company sync prescribes. */
  lemma {:induction false} ChainedEach(empresas: seq<string>, user: Option<nat>, lib: Lib,
                                       mapper: (Record, real) -> Result<Mapped, MapFailure>, companies: seq<Company>,
                                       at: nat -> real, posts: seq<Post>, serve: (nat, Post) -> DataReply,
                                       authorize: nat -> LoginReply, runs: seq<SyncRun>,
                                       reports: seq<Option<SyncReport>>,
                                       rows0: seq<Row>, rows1: seq<Row>, m0: Mark, m1: Mark)
    requires Chained(empresas, user, lib, mapper, companies, at, posts, serve, authorize, runs, reports, rows0, rows1, m0, m1)
    ensures |runs| == |reports| <= |empresas|
    ensures forall k :: 0 <= k < |runs| ==>
      SyncedAs(empresas[k], user, lib, mapper, companies, at, posts, serve, authorize, runs[k], reports[k])
    decreases |runs|
  {
    if runs != [] {
      var n := |runs| - 1;
      ChainedEach(empresas, user, lib, mapper, companies, at, posts, serve, authorize, runs[..n], reports[..n],
                  rows0, runs[n].before, m0, StartMark(runs[n]));
      forall k | 0 <= k < n
        ensures SyncedAs(empresas[k], user, lib, mapper, companies, at, posts, serve, authorize, runs[k], reports[k])
      {
        assert runs[..n][k] == runs[k] && reports[..n][k] == reports[k];
      }
    }
  }

  /**
   * The chain's links: the first sync starts at `rows0` and `m0`, each starts
   * where the previous one ended, and the last ends at `rows1` and `m1`.
   */
  lemma {:induction false} ChainedLinks(empresas: seq<string>, user: Option<nat>, lib: Lib,
                                        mapper: (Record, real) -> Result<Mapped, MapFailure>, companies: seq<Company>,
                                        at: nat -> real, posts: seq<Post>, serve: (nat, Post) -> DataReply,
                                        authorize: nat -> LoginReply, runs: seq<SyncRun>,
                                        reports: seq<Option<SyncReport>>,
                                        rows0: seq<Row>, rows1: seq<Row>, m0: Mark, m1: Mark)
    requires Chained(empresas, user, lib, mapper, companies, at, posts, serve, authorize, runs, reports, rows0, rows1, m0, m1)
    ensures forall k :: 0 <= k < |runs| - 1 ==>
      runs[k].after == runs[k + 1].before && EndMark(runs[k]) == StartMark(runs[k + 1])
    ensures runs == [] ==> rows1 == rows0 && m1 == m0
    ensures runs != [] ==> runs[0].before == rows0 && StartMark(runs[0]) == m0
    ensures runs != [] ==> runs[|runs| - 1].after == rows1 && EndMark(runs[|runs| - 1]) == m1
    decreases |runs|
  {
    if runs != [] {
      var n := |runs| - 1;
      ChainedLinks(empresas, user, lib, mapper, companies, at, posts, serve, authorize, runs[..n], reports[..n],
                   rows0, runs[n].before, m0, StartMark(runs[n]));
      forall k | 0 <= k < n - 1
        ensures runs[k].after == runs[k + 1].before && EndMark(runs[k]) == StartMark(runs[k + 1])
      {
        assert runs[..n][k] == runs[k] && runs[..n][k + 1] == runs[k + 1];
      }
    }
  }

  /** Later requests do not change what the earlier syncs observed. */
  lemma {:induction false} ChainedExtends(empresas: seq<string>, user: Option<nat>, lib: Lib, mapper: (Record, real) -> Result<Mapped, MapFailure>,
                                          companies: seq<Company>,
                                          at: nat -> real, posts: seq<Post>, later: seq<Post>,
                                          serve: (nat, Post) -> DataReply, authorize: nat -> LoginReply,
                                          runs: seq<SyncRun>, reports: seq<Option<SyncReport>>,
                                          rows0: seq<Row>, rows1: seq<Row>, m0: Mark, m1: Mark)
    requires Chained(empresas, user, lib, mapper, companies, at, posts, serve, authorize, runs, reports, rows0, rows1, m0, m1)
    requires |posts| <= |later| && later[..|posts|] == posts
    ensures Chained(empresas, user, lib, mapper, companies, at, later, serve, authorize, runs, reports, rows0, rows1, m0, m1)
    decreases |runs|
  {
    if runs != [] {
      var n := |runs| - 1;
      SyncedAsExtends(empresas[n], user, lib, mapper, companies, at, posts, later, serve, authorize, runs[n], reports[n]);
      ChainedExtends(empresas, user, lib, mapper, companies, at, posts, later, serve, authorize, runs[..n], reports[..n],
                     rows0, runs[n].before, m0, StartMark(runs[n]));
    }
  }

  /** One more company synced from where the others stopped extends the chain. */
  lemma ChainedSnoc(empresas: seq<string>, user: Option<nat>, lib: Lib, mapper: (Record, real) -> Result<Mapped, MapFailure>,
                    companies: seq<Company>, at: nat -> real,
                    posts: seq<Post>, later: seq<Post>, serve: (nat, Post) -> DataReply, authorize: nat -> LoginReply,
                    runs: seq<SyncRun>, reports: seq<Option<SyncReport>>,
                    rows0: seq<Row>, rows1: seq<Row>, m0: Mark, m1: Mark, run: SyncRun, report: Option<SyncReport>)
    requires Chained(empresas, user, lib, mapper, companies, at, posts, serve, authorize, runs, reports, rows0, rows1, m0, m1)
    requires |runs| < |empresas|
    requires |posts| <= |later| && later[..|posts|] == posts
    requires SyncedAs(empresas[|runs|], user, lib, mapper, companies, at, later, serve, authorize, run, report)
    requires run.before == rows1 && StartMark(run) == m1
    ensures Chained(empresas, user, lib, mapper, companies, at, later, serve, authorize, runs + [run], reports + [report],
                    rows0, run.after, m0, EndMark(run))
  {
    ChainedExtends(empresas, user, lib, mapper, companies, at, posts, later, serve, authorize, runs, reports,
                   rows0, rows1, m0, m1);
    var runs2, reports2 := runs + [run], reports + [report];
    assert runs2[..|runs|] == runs && reports2[..|runs|] == reports;
    assert runs2[|runs|] == run && reports2[|runs|] == report;
    assert SyncedAs(empresas[|runs|], user, lib, mapper, companies, at, later, serve, authorize, runs2[|runs|],
                    reports2[|runs|]);
    assert Chained(empresas, user, lib, mapper, companies, at, later, serve, authorize, runs2[..|runs|],
                   reports2[..|runs|], rows0, runs2[|runs|].before, m0, StartMark(runs2[|runs|]));
  }

  /**
   * One iteration of the loop of `handle`: sync the next company, from where
   * the previous syncs left the store and the service's log, and add its
   * report to the totals when it is a success.
   */
  method SyncNext(client: ApiClient, remote: Remote, clock: Clock, store: QualityStore, empresas: seq<string>, k: nat,
                  user: Option<nat>, lib: Lib, companies: seq<Company>, totals: Totals, ghost runs: seq<SyncRun>,
                  ghost reports: seq<Option<SyncReport>>, ghost rows0: seq<Row>, ghost start: Mark)
    returns (totals': Totals, ghost run: SyncRun, ghost report: Option<SyncReport>)
    requires k == |runs| < |empresas| && totals == SumTotals(reports)
    requires totals.created + totals.updated <= totals.processed && |store.rows| == |rows0| + totals.created
    requires Chained(empresas, user, lib, Mapper(lib), companies, clock.at, remote.posts, remote.serve, remote.authorize,
                     runs, reports, rows0, store.rows, start, Mark(|remote.posts|, remote.logins, client.token))
    modifies client, remote, clock, store
    ensures Chained(empresas, user, lib, Mapper(lib), companies, clock.at, remote.posts, remote.serve, remote.authorize,
                    runs + [run], reports + [report], rows0, store.rows, start, Mark(|remote.posts|, remote.logins, client.token))
    ensures totals' == SumTotals(reports + [report])
    ensures totals'.created + totals'.updated <= totals'.processed && |store.rows| == |rows0| + totals'.created
  {
    ghost var before := remote.posts;
    var r;
    r, run := SyncCompany(client, remote, clock, store, empresas[k], user, lib, companies);
    report := r;
    ChainedSnoc(empresas, user, lib, Mapper(lib), companies, clock.at, before, remote.posts, remote.serve,
                remote.authorize, runs, reports, rows0, run.before, start, StartMark(run), run, report);
    SyncedAsCounts(empresas[k], user, lib, Mapper(lib), companies, clock.at, remote.posts, remote.serve,
                   remote.authorize, run, report);
    SumTotalsSnoc(reports, report);
    totals' := AddReport(totals, r);
  }

  /**
   * The loop of `handle`: the companies are synced in turn, and the totals
   * add up the successful reports.
   */
  method SyncAll(client: ApiClient, remote: Remote, clock: Clock, store: QualityStore, empresas: seq<string>,
                 user: Option<nat>, lib: Lib, companies: seq<Company>)
    returns (totals: Totals, ghost reports: seq<Option<SyncReport>>, ghost runs: seq<SyncRun>)
    modifies client, remote, clock, store
    ensures |runs| == |empresas|
    ensures Chained(empresas, user, lib, Mapper(lib), companies, clock.at, remote.posts, remote.serve, remote.authorize,
                    runs, reports, old(store.rows), store.rows, Mark(|old(remote.posts)|, old(remote.logins), old(client.token)),
                    Mark(|remote.posts|, remote.logins, client.token))
    ensures totals == SumTotals(reports)
    ensures totals.created + totals.updated <= totals.processed
    ensures |store.rows| == |old(store.rows)| + totals.created
  {
    ghost var start := Mark(|remote.posts|, remote.logins, client.token);
    totals, reports, runs := Totals(0, 0, 0), [], [];
    var k := 0;
    while k < |empresas|
      invariant k <= |empresas| && |runs| == k && totals == SumTotals(reports)
      invariant totals.created + totals.updated <= totals.processed
      invariant Chained(empresas, user, lib, Mapper(lib), companies, clock.at, remote.posts, remote.serve,
                        remote.authorize, runs, reports, old(store.rows), store.rows, start,
                        Mark(|remote.posts|, remote.logins, client.token))
      invariant |store.rows| == |old(store.rows)| + totals.created
    {
      ghost var run, report;
      totals, run, report := SyncNext(client, remote, clock, store, empresas, k, user, lib, companies, totals,
                                      runs, reports, old(store.rows), start);
      reports, runs := reports + [report], runs + [run];
      k := k + 1;
    }
  }

  /**
   * `handle`: no administrator, a failed login and an empty company list stop
   * the command; otherwise the companies are synced in turn, each as the
   * company sync prescribes (`runs[k]` and `reports[k]` for the k-th one,
   * attributed to the administrator), each starting where the service's log
   * and the store stood after the previous one; a raising sync is reported
   * and skipped, and the totals add up the successful reports.
   */
  method Handle(users: seq<User>, adminEmail: Option<string>, empresa: Option<string>, allCompanies: bool,
                client: ApiClient, remote: Remote, clock: Clock, store: QualityStore, lib: Lib,
                companies: seq<Company>)
    returns (r: Result<Totals, CommandError>, ghost reports: seq<Option<SyncReport>>, ghost runs: seq<SyncRun>)
    modifies client, remote, clock, store
    ensures AdminUser(users, adminEmail).Failure? ==> r == Failure(Uncaught)
    ensures AdminUser(users, adminEmail) == Success(None) ==> r == Failure(NoAdmin)
    ensures AdminUser(users, adminEmail).Success? && AdminUser(users, adminEmail).value.Some? ==>
      (r == Failure(LoginFailed) <==> !Accepted(remote.authorize(old(remote.logins))))
    ensures r == Failure(NoCompanies) ==> EmpresasToSync(empresa, allCompanies, companies) == []
    ensures r == Failure(Uncaught) <==> AdminUser(users, adminEmail).Failure?
    ensures r == Failure(NoAdmin) <==> AdminUser(users, adminEmail) == Success(None)
    ensures r == Failure(NoCompanies) <==>
      && AdminUser(users, adminEmail).Success? && AdminUser(users, adminEmail).value.Some?
      && Accepted(remote.authorize(old(remote.logins)))
      && EmpresasToSync(empresa, allCompanies, companies) == []
    ensures AdminUser(users, adminEmail).Success? && AdminUser(users, adminEmail).value.Some? &&
            Accepted(remote.authorize(old(remote.logins))) && EmpresasToSync(empresa, allCompanies, companies) != [] ==>
      r.Success?
    ensures r.Failure? ==> store.rows == old(store.rows)
    ensures r.Success? ==>
      && AdminUser(users, adminEmail).Success? && AdminUser(users, adminEmail).value.Some?
      && |runs| == |EmpresasToSync(empresa, allCompanies, companies)| > 0
      && Chained(EmpresasToSync(empresa, allCompanies, companies), AdminUser(users, adminEmail).value.value.id,
                 lib, Mapper(lib), companies, clock.at, remote.posts, remote.serve, remote.authorize, runs, reports,
                 old(store.rows), store.rows, Mark(|old(remote.posts)|, old(remote.logins) + 1,
                      remote.authorize(old(remote.logins)).accessToken.value),
                 Mark(|remote.posts|, remote.logins, client.token))
      && r.value == SumTotals(reports)
      && r.value.created + r.value.updated <= r.value.processed
      && |store.rows| == |old(store.rows)| + r.value.created
  {
    reports, runs := [], [];
    var admin := AdminUser(users, adminEmail);
    if admin.Failure? {
      return Failure(Uncaught), reports, runs;
    }
    if admin.value.None? {
      return Failure(NoAdmin), reports, runs;
    }
    var user := admin.value.value;
    var ok := client.Login(remote, clock);
    if !ok {
      return Failure(LoginFailed), reports, runs;
    }
    var empresas := EmpresasToSync(empresa, allCompanies, companies);
    if empresas == [] {
      return Failure(NoCompanies), reports, runs;
    }
    var totals;
    totals, reports, runs := SyncAll(client, remote, clock, store, empresas, user.id, lib, companies);
    r := Success(totals);
  }
}
