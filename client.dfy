/**
 * The synchronous client of the external quality API
 * (`ExternalQualityAPIService` in apps/quality_data/services.py): the session
 * token it keeps, the page fetch with its renew-on-401 retry, and the
 * paginated, deduplicating collector.
 *
 * The service and the wall clock are objects whose answers are arbitrary
 * functions fixed at construction; every property below holds for every
 * such behaviour.
 */
module ExternalApi {
  import opened Wrappers
  import opened PyValue
  import opened Session
  import opened PageRequests
  import opened Pagination

  /** `datetime.now().timestamp()`: the n-th reading of the clock is `at(n)`. */
  class Clock {
    const at: nat -> real
    var ticks: nat

    constructor (at: nat -> real)
      ensures this.at == at && ticks == 0
    {
      this.at := at;
      ticks := 0;
    }

    method Now() returns (t: real)
      modifies this
      ensures t == at(old(ticks)) && ticks == old(ticks) + 1
    {
      t := at(ticks);
      ticks := ticks + 1;
    }
  }

  /**
   * The answer to `POST /api/v1/auth/login`: a status with the body's
   * `access_token` (None when the body is not a JSON object holding that key),
   * or a transport error.
   */
  datatype LoginReply = LoginAnswer(status: int, accessToken: Option<Value>) | LoginUnreachable

  /**
   * `login` succeeds on HTTP 200 with an `access_token` key, whatever value it
   * holds (null included); a missing key raises an exception, which it catches.
   */
  predicate Accepted(r: LoginReply) {
    r.LoginAnswer? && r.status == 200 && r.accessToken.Some?
  }

  /** A data request: the token formatted into the Authorization header, and the JSON body. */
  datatype Post = Post(bearer: Value, body: RequestBody)

  /**
   * The answer to a data request:
   * - `Records`: HTTP 200 with a JSON list of objects;
   * - `Malformed`: HTTP 200 with a dict, a string or a list holding a
   *   non-object, which `len()` accepts and the method returns as it is;
   *   `empty` tells whether it has no items;
   * - `HttpStatus`: any other status, or a 200 whose body is no JSON or a
   *   number, null or boolean (`response.json()` or `len()` raises, which the
   *   method catches), reported as that status;
   * - `DataUnreachable`: a connection error or timeout.
   */
  datatype DataReply = Records(rows: seq<Record>) | Malformed(empty: bool) | HttpStatus(code: int) | DataUnreachable

  /**
   * What the collector gets from a final answer: the records of a list, an
   * empty page for an empty dict or string (it stops on either as on `[]`),
   * `Junk` for a non-empty malformed body, and None for anything else.
   */
  function BodyOf(reply: DataReply): Fetched {
    match reply
    case Records(rows) => Some(Rows(rows))
    case Malformed(empty) => Some(if empty then Rows([]) else Junk)
    case _ => None
  }

  /** The external service: the n-th login and the n-th data request get the answers fixed here. */
  class Remote {
    const authorize: nat -> LoginReply
    const serve: (nat, Post) -> DataReply
    var logins: nat
    var posts: seq<Post>

    constructor (authorize: nat -> LoginReply, serve: (nat, Post) -> DataReply)
      ensures this.authorize == authorize && this.serve == serve
      ensures logins == 0 && posts == []
    {
      this.authorize := authorize;
      this.serve := serve;
      logins := 0;
      posts := [];
    }

    method PostLogin() returns (r: LoginReply)
      modifies this
      ensures r == authorize(old(logins))
      ensures logins == old(logins) + 1 && posts == old(posts)
    {
      r := authorize(logins);
      logins := logins + 1;
    }

    method PostData(p: Post) returns (r: DataReply)
      modifies this
      ensures r == serve(|old(posts)|, p)
      ensures posts == old(posts) + [p] && logins == old(logins)
    {
      r := serve(|posts|, p);
      posts := posts + [p];
    }
  }

  /**
   * How deep the renew-on-401 retry may recurse: an arbitrary bound. The
   * source recurses without one, as long as every retry is answered with 401
   * and every new login succeeds; the model gives up with None after this
   * many retries.
   */
  const RetryFuel: nat := 100

  /** Page size and page cap that `sync_quality_data_for_company` uses. */
  const DefaultPageSize: int := 100
  const DefaultMaxPages: int := 100

  /**
   * Where the exchange with the service stands: its two request counters
   * (data requests answered, logins answered) and the token the client holds.
   */
  datatype Mark = Mark(post: nat, login: nat, token: Value)

  /**
   * One page fetch, read off the service's log between counters `lo` and
   * `hi`: every data request it sent carries `body`, every answer but the
   * last was 401, it yields what the last answer's body gives the collector
   * (`BodyOf`), and when it sent nothing it yields None because its one
   * login was refused.
   */
  ghost predicate FetchedAs(posts: seq<Post>, serve: (nat, Post) -> DataReply, authorize: nat -> LoginReply,
                            lo: Mark, hi: Mark, body: RequestBody, outcome: Fetched) {
    && lo.post <= hi.post <= |posts| && lo.login <= hi.login
    && (forall j :: lo.post <= j < hi.post ==> posts[j].body == body)
    && (forall j :: lo.post <= j < hi.post - 1 ==> serve(j, posts[j]) == HttpStatus(401))
    && outcome == (if lo.post < hi.post then BodyOf(serve(hi.post - 1, posts[hi.post - 1])) else None)
    && (lo.post == hi.post ==> hi.login == lo.login + 1 && !Accepted(authorize(lo.login)))
  }

  /**
   * The protocol of one page fetch with `fuel` retries left, from `lo` to
   * `hi` of the service's log; `valid` is what the token check found (never
   * true of a falsy token):
   * - a failed check logs in first, and a refused login ends the fetch with
   *   None before any request;
   * - the request carries the token the client then holds (the one just
   *   obtained, if any) and `body`;
   * - an answer other than 401 ends the fetch with what its body gives the
   *   collector (`BodyOf`);
   * - a 401 logs in again: an accepted re-login with fuel left starts the
   *   whole fetch over, token check included, with the new token; a refused
   *   one, or one without fuel left, ends it with None.
   */
  ghost predicate Exchange(posts: seq<Post>, serve: (nat, Post) -> DataReply, authorize: nat -> LoginReply,
                           lo: Mark, hi: Mark, body: RequestBody, valid: bool, outcome: Fetched, fuel: nat)
    decreases fuel, 1
  {
    && lo.post <= |posts|
    && (valid ==> Truthy(lo.token))
    && if !valid && !Accepted(authorize(lo.login)) then hi == lo.(login := lo.login + 1) && outcome == None
       else
         var s := Checked(authorize, lo, valid);
         && s.post < |posts| && posts[s.post] == Post(s.token, body)
         && var reply := serve(s.post, posts[s.post]);
            if reply != HttpStatus(401) then hi == s.(post := s.post + 1) && outcome == BodyOf(reply)
            else if Accepted(authorize(s.login)) && fuel > 0 then
              Fetch(posts, serve, authorize, Relogged(authorize, s), hi, body, outcome, fuel - 1)
            else hi == Relogged(authorize, s) && outcome == None
  }

  /** Where a fetch stands once its token check passed, or once the login after a failed check was accepted. */
  function Checked(authorize: nat -> LoginReply, lo: Mark, valid: bool): Mark {
    if valid then lo else Mark(lo.post, lo.login + 1, if Accepted(authorize(lo.login)) then authorize(lo.login).accessToken.value else lo.token)
  }

  /** Where a fetch stands after its request at `s` was answered 401 and it logged in again. */
  function Relogged(authorize: nat -> LoginReply, s: Mark): Mark {
    Mark(s.post + 1, s.login + 1, if Accepted(authorize(s.login)) then authorize(s.login).accessToken.value else s.token)
  }

  /** The fetch protocol for whichever outcome the token check had, which depends on the clock. */
  ghost predicate Fetch(posts: seq<Post>, serve: (nat, Post) -> DataReply, authorize: nat -> LoginReply,
                        lo: Mark, hi: Mark, body: RequestBody, outcome: Fetched, fuel: nat)
    decreases fuel, 2
  {
    Exchange(posts, serve, authorize, lo, hi, body, true, outcome, fuel) ||
    Exchange(posts, serve, authorize, lo, hi, body, false, outcome, fuel)
  }

  /** The protocol of a fetch yields what its requests and answers show (`FetchedAs`). */
  lemma {:induction false} ExchangeObserved(posts: seq<Post>, serve: (nat, Post) -> DataReply,
                                            authorize: nat -> LoginReply, lo: Mark, hi: Mark, body: RequestBody,
                                            valid: bool, outcome: Fetched, fuel: nat)
    requires Exchange(posts, serve, authorize, lo, hi, body, valid, outcome, fuel)
    ensures FetchedAs(posts, serve, authorize, lo, hi, body, outcome)
    decreases fuel
  {
    var login := authorize(lo.login);
    if valid || Accepted(login) {
      var s := Checked(authorize, lo, valid);
      if serve(s.post, posts[s.post]) == HttpStatus(401) {
        var relogin := authorize(s.login);
        var after := Relogged(authorize, s);
        if Accepted(relogin) && fuel > 0 {
          var v := Exchange(posts, serve, authorize, after, hi, body, true, outcome, fuel - 1);
          ExchangeObserved(posts, serve, authorize, after, hi, body, v, outcome, fuel - 1);
          forall j | lo.post <= j < hi.post - 1
            ensures serve(j, posts[j]) == HttpStatus(401)
          {
            if j != s.post {
              assert after.post <= j < hi.post - 1;
            }
          }
        }
      }
    }
  }

  /**
   * The first request of a fetch carries the token held before it when the
   * check found that token valid, and otherwise the token of the accepted
   * login the fetch began with.
   */
  lemma FirstBearer(posts: seq<Post>, serve: (nat, Post) -> DataReply, authorize: nat -> LoginReply,
                    lo: Mark, hi: Mark, body: RequestBody, valid: bool, outcome: Fetched, fuel: nat)
    requires Exchange(posts, serve, authorize, lo, hi, body, valid, outcome, fuel)
    ensures valid ==> lo.post < |posts| && posts[lo.post].bearer == lo.token
    ensures !valid && Accepted(authorize(lo.login)) ==>
      lo.post < |posts| && posts[lo.post].bearer == authorize(lo.login).accessToken.value
    ensures !valid && !Accepted(authorize(lo.login)) ==> hi.post == lo.post && outcome.None?
  {
  }

  /**
   * Every request of a fetch was sent with the token held before it (only
   * the first, after a passed check) or with the token of an accepted login
   * of the same fetch; and every login of the fetch that was accepted leaves
   * its token with the client unless a later one replaced it.
   */
  lemma {:induction false} BearersFromLogins(posts: seq<Post>, serve: (nat, Post) -> DataReply,
                                             authorize: nat -> LoginReply, lo: Mark, hi: Mark, body: RequestBody,
                                             valid: bool, outcome: Fetched, fuel: nat, j: nat)
    requires Exchange(posts, serve, authorize, lo, hi, body, valid, outcome, fuel)
    requires lo.post <= j < hi.post
    ensures j < |posts|
    ensures (j == lo.post && valid && posts[j].bearer == lo.token) ||
            exists i :: lo.login <= i < hi.login && Accepted(authorize(i)) && posts[j].bearer == authorize(i).accessToken.value
    decreases fuel
  {
    ExchangeObserved(posts, serve, authorize, lo, hi, body, valid, outcome, fuel);
    var login := authorize(lo.login);
    var s := Checked(authorize, lo, valid);
    var relogin := authorize(s.login);
    var after := Relogged(authorize, s);
    var recurs := serve(s.post, posts[s.post]) == HttpStatus(401) && Accepted(relogin) && fuel > 0;
    if recurs {
      var v := Exchange(posts, serve, authorize, after, hi, body, true, outcome, fuel - 1);
      ExchangeObserved(posts, serve, authorize, after, hi, body, v, outcome, fuel - 1);
      if j != s.post {
        BearersFromLogins(posts, serve, authorize, after, hi, body, v, outcome, fuel - 1, j);
        if j == after.post && v && posts[j].bearer == after.token {
          assert lo.login <= s.login < hi.login && Accepted(authorize(s.login));
        }
      }
    }
    if j == s.post && !valid {
      assert lo.login < hi.login && Accepted(authorize(lo.login));
      assert posts[j].bearer == authorize(lo.login).accessToken.value;
    }
  }

  /**
   * A fetch that ends on a 401 either had its last re-login refused or used
   * up its retries: it sent `fuel + 1` requests.
   */
  lemma {:induction false} EndsOn401(posts: seq<Post>, serve: (nat, Post) -> DataReply,
                                     authorize: nat -> LoginReply, lo: Mark, hi: Mark, body: RequestBody,
                                     valid: bool, outcome: Fetched, fuel: nat)
    requires Exchange(posts, serve, authorize, lo, hi, body, valid, outcome, fuel)
    requires lo.post < hi.post <= |posts| && serve(hi.post - 1, posts[hi.post - 1]) == HttpStatus(401)
    ensures hi.login > lo.login
    ensures !Accepted(authorize(hi.login - 1)) || hi.post - lo.post == fuel + 1
    decreases fuel
  {
    var login := authorize(lo.login);
    var s := Checked(authorize, lo, valid);
    var relogin := authorize(s.login);
    var after := Relogged(authorize, s);
    if serve(s.post, posts[s.post]) == HttpStatus(401) && Accepted(relogin) && fuel > 0 {
      var v := Exchange(posts, serve, authorize, after, hi, body, true, outcome, fuel - 1);
      ExchangeObserved(posts, serve, authorize, after, hi, body, v, outcome, fuel - 1);
      if after.post < hi.post {
        EndsOn401(posts, serve, authorize, after, hi, body, v, outcome, fuel - 1);
      }
    }
  }

  /** Later requests do not change what an earlier fetch's protocol was. */
  lemma {:induction false} ExchangeExtends(posts: seq<Post>, later: seq<Post>, serve: (nat, Post) -> DataReply,
                                           authorize: nat -> LoginReply, lo: Mark, hi: Mark, body: RequestBody,
                                           valid: bool, outcome: Fetched, fuel: nat)
    requires Exchange(posts, serve, authorize, lo, hi, body, valid, outcome, fuel)
    requires |posts| <= |later| && later[..|posts|] == posts
    ensures Exchange(later, serve, authorize, lo, hi, body, valid, outcome, fuel)
    decreases fuel
  {
    var login := authorize(lo.login);
    if valid || Accepted(login) {
      var s := Checked(authorize, lo, valid);
      assert later[s.post] == posts[s.post];
      if serve(s.post, posts[s.post]) == HttpStatus(401) {
        var relogin := authorize(s.login);
        var after := Relogged(authorize, s);
        if Accepted(relogin) && fuel > 0 {
          var v := Exchange(posts, serve, authorize, after, hi, body, true, outcome, fuel - 1);
          ExchangeExtends(posts, later, serve, authorize, after, hi, body, v, outcome, fuel - 1);
        }
      }
    }
  }

  /** The fetch that stops because the login after a failed token check was refused. */
  lemma ExchangeRefused(posts: seq<Post>, serve: (nat, Post) -> DataReply, authorize: nat -> LoginReply,
                        lo: Mark, hi: Mark, body: RequestBody, fuel: nat)
    requires lo.post <= |posts| && !Accepted(authorize(lo.login)) && hi == lo.(login := lo.login + 1)
    ensures Exchange(posts, serve, authorize, lo, hi, body, false, None, fuel)
  {
  }

  /** The facts every fetch that sent its request at `Checked(authorize, lo, valid)` shares. */
  ghost predicate Sent(posts: seq<Post>, authorize: nat -> LoginReply, lo: Mark, body: RequestBody, valid: bool) {
    && lo.post <= |posts|
    && (valid ==> Truthy(lo.token))
    && (valid || Accepted(authorize(lo.login)))
    && Checked(authorize, lo, valid).post < |posts|
    && posts[Checked(authorize, lo, valid).post] == Post(Checked(authorize, lo, valid).token, body)
  }

  /** The fetch whose request was answered with something other than 401. */
  lemma ExchangeAnswered(posts: seq<Post>, serve: (nat, Post) -> DataReply, authorize: nat -> LoginReply,
                         lo: Mark, hi: Mark, body: RequestBody, valid: bool, outcome: Fetched, fuel: nat)
    requires Sent(posts, authorize, lo, body, valid)
    requires var s := Checked(authorize, lo, valid);
      && serve(s.post, posts[s.post]) != HttpStatus(401)
      && hi == s.(post := s.post + 1) && outcome == BodyOf(serve(s.post, posts[s.post]))
    ensures Exchange(posts, serve, authorize, lo, hi, body, valid, outcome, fuel)
  {
  }

  /** The fetch whose request was answered 401 and which does not retry. */
  lemma ExchangeGaveUp(posts: seq<Post>, serve: (nat, Post) -> DataReply, authorize: nat -> LoginReply,
                       lo: Mark, hi: Mark, body: RequestBody, valid: bool, fuel: nat)
    requires Sent(posts, authorize, lo, body, valid)
    requires var s := Checked(authorize, lo, valid);
      && serve(s.post, posts[s.post]) == HttpStatus(401) && !(Accepted(authorize(s.login)) && fuel > 0)
      && hi == Relogged(authorize, s)
    ensures Exchange(posts, serve, authorize, lo, hi, body, valid, None, fuel)
  {
  }

  /** The fetch whose request was answered 401 and which starts over after an accepted re-login. */
  lemma ExchangeRetried(posts: seq<Post>, serve: (nat, Post) -> DataReply, authorize: nat -> LoginReply,
                        lo: Mark, hi: Mark, body: RequestBody, valid: bool, again: bool, outcome: Fetched, fuel: nat)
    requires Sent(posts, authorize, lo, body, valid)
    requires var s := Checked(authorize, lo, valid);
      serve(s.post, posts[s.post]) == HttpStatus(401) && Accepted(authorize(s.login)) && fuel > 0
    requires Exchange(posts, serve, authorize, Relogged(authorize, Checked(authorize, lo, valid)), hi, body, again, outcome,
                      fuel - 1)
    ensures Exchange(posts, serve, authorize, lo, hi, body, valid, outcome, fuel)
  {
  }

  /**
   * The collector's fetches: fetch `k` asked for page `k`, spans `marks[k]`
   * to `marks[k + 1]`, and followed the fetch protocol with the default
   * retries, starting with the token the previous fetch left.
   */
  ghost predicate FetchesOf(posts: seq<Post>, serve: (nat, Post) -> DataReply, authorize: nat -> LoginReply,
                            marks: seq<Mark>, trace: seq<Fetched>, empresa: string, pageSize: int) {
    && |marks| == |trace| + 1
    && forall k :: 0 <= k < |trace| ==> FetchedAt(posts, serve, authorize, marks, trace, empresa, pageSize, k)
  }

  /** The collector's fetch `k`, asking for page `k`, spans `marks[k]` to `marks[k + 1]`. */
  ghost predicate FetchedAt(posts: seq<Post>, serve: (nat, Post) -> DataReply, authorize: nat -> LoginReply,
                            marks: seq<Mark>, trace: seq<Fetched>, empresa: string, pageSize: int, k: nat) {
    && k < |trace| && k + 1 < |marks|
    && FetchedAs(posts, serve, authorize, marks[k], marks[k + 1], BuildRequest(empresa, Some(pageSize), k * pageSize),
                 trace[k])
    && Fetch(posts, serve, authorize, marks[k], marks[k + 1], BuildRequest(empresa, Some(pageSize), k * pageSize),
             trace[k], RetryFuel)
  }

  /** Later requests do not change what an earlier fetch was. */
  lemma FetchedAsExtends(posts: seq<Post>, later: seq<Post>, serve: (nat, Post) -> DataReply,
                         authorize: nat -> LoginReply, lo: Mark, hi: Mark, body: RequestBody,
                         outcome: Fetched)
    requires FetchedAs(posts, serve, authorize, lo, hi, body, outcome)
    requires |posts| <= |later| && later[..|posts|] == posts
    ensures FetchedAs(later, serve, authorize, lo, hi, body, outcome)
  {
    assert forall j :: 0 <= j < |posts| ==> later[j] == posts[j];
  }

  /** Later requests do not change what the collector's fetches were. */
  lemma FetchesExtend(posts: seq<Post>, later: seq<Post>, serve: (nat, Post) -> DataReply,
                      authorize: nat -> LoginReply, marks: seq<Mark>, trace: seq<Fetched>,
                      empresa: string, pageSize: int)
    requires FetchesOf(posts, serve, authorize, marks, trace, empresa, pageSize)
    requires |posts| <= |later| && later[..|posts|] == posts
    ensures FetchesOf(later, serve, authorize, marks, trace, empresa, pageSize)
  {
    forall k | 0 <= k < |trace|
      ensures FetchedAt(later, serve, authorize, marks, trace, empresa, pageSize, k)
    {
      assert FetchedAt(posts, serve, authorize, marks, trace, empresa, pageSize, k);
      var body := BuildRequest(empresa, Some(pageSize), k * pageSize);
      FetchedAsExtends(posts, later, serve, authorize, marks[k], marks[k + 1], body, trace[k]);
      var v := Exchange(posts, serve, authorize, marks[k], marks[k + 1], body, true, trace[k], RetryFuel);
      ExchangeExtends(posts, later, serve, authorize, marks[k], marks[k + 1], body, v, trace[k], RetryFuel);
    }
  }

  /** A new fetch starting where the last one ended extends the collector's fetches. */
  lemma FetchesSnoc(posts: seq<Post>, later: seq<Post>, serve: (nat, Post) -> DataReply,
                    authorize: nat -> LoginReply, marks: seq<Mark>, trace: seq<Fetched>,
                    empresa: string, pageSize: int, m: Mark, valid: bool, batch: Fetched)
    requires FetchesOf(posts, serve, authorize, marks, trace, empresa, pageSize)
    requires |posts| <= |later| && later[..|posts|] == posts
    requires FetchedAs(later, serve, authorize, marks[|trace|], m, BuildRequest(empresa, Some(pageSize), |trace| * pageSize),
                       batch)
    requires Exchange(later, serve, authorize, marks[|trace|], m, BuildRequest(empresa, Some(pageSize), |trace| * pageSize),
                      valid, batch, RetryFuel)
    ensures FetchesOf(later, serve, authorize, marks + [m], trace + [batch], empresa, pageSize)
  {
    FetchesExtend(posts, later, serve, authorize, marks, trace, empresa, pageSize);
    var marks2, trace2 := marks + [m], trace + [batch];
    forall k | 0 <= k < |trace2|
      ensures FetchedAt(later, serve, authorize, marks2, trace2, empresa, pageSize, k)
    {
      if k < |trace| {
        assert FetchedAt(later, serve, authorize, marks, trace, empresa, pageSize, k);
        assert marks2[k] == marks[k] && marks2[k + 1] == marks[k + 1] && trace2[k] == trace[k];
      } else {
        assert marks2[k] == marks[|trace|] && marks2[k + 1] == m && trace2[k] == batch;
      }
    }
  }

  /**
   * The inner loop of the collector: keeps each item of `batch` whose key is not
   * yet in `seen`, adding its key; `keyed` is false when some item's key
   * raises, which ends the whole collection.
   */
  method DedupeBatch(batch: seq<Record>, seen: set<Key>, dumps: Record -> string)
    returns (newItems: seq<Record>, seenAfter: set<Key>, keyed: bool)
    ensures keyed == Keyed(batch, dumps)
    ensures keyed ==> newItems == Dedupe(seen, batch, dumps)
    ensures keyed ==> seenAfter == seen + KeySet(newItems, dumps)
  {
    newItems, seenAfter := [], seen;
    var i := 0;
    while i < |batch|
      invariant 0 <= i <= |batch|
      invariant newItems == Dedupe(seen, batch[..i], dumps)
      invariant seenAfter == seen + KeySet(newItems, dumps)
      invariant Keyed(batch[..i], dumps)
    {
      var key := KeyOf(batch[i], dumps);
      assert batch[..i + 1] == batch[..i] + [batch[i]];
      DedupeSnoc(seen, batch[..i], batch[i], dumps);
      if key.None? {
        return newItems, seenAfter, false;
      }
      if key.value !in seenAfter {
        KeySetAppend(newItems, [batch[i]], dumps);
        assert [batch[i]][1..] == [];
        seenAfter := seenAfter + {key.value};
        newItems := newItems + [batch[i]];
      }
      i := i + 1;
    }
    assert batch[..|batch|] == batch;
    keyed := true;
  }

  /**
   * The body of the collector's loop after a fetch: stop on a failed fetch, an
   * empty page, a page with an unhashable key, a page with no new item or a
   * short page; otherwise go on with the new items appended.
   */
  method AbsorbPage(batch: Fetched, acc: seq<Record>, seen: set<Key>, pageSize: int,
                    dumps: Record -> string)
    returns (v: Verdict, seenAfter: set<Key>)
    requires seen == KeySet(acc, dumps)
    ensures v == Step(acc, batch, pageSize, dumps)
    ensures v.Next? ==> seenAfter == KeySet(v.acc, dumps)
  {
    seenAfter := seen;
    if batch.None? {
      return Done(if acc == [] then NoData else Items(acc)), seenAfter;
    }
    if batch.value.Junk? {
      return Done(Raised), seenAfter;
    }
    var b := batch.value.rows;
    if b == [] {
      return Done(Items(acc)), seenAfter;
    }
    var newItems, keyed;
    newItems, seenAfter, keyed := DedupeBatch(b, seen, dumps);
    if !keyed {
      return Done(Raised), seenAfter;
    }
    if newItems == [] {
      return Done(Items(acc)), seenAfter;
    }
    KeySetAppend(acc, newItems, dumps);
    if |b| < pageSize {
      return Done(Items(acc + newItems)), seenAfter;
    }
    v := Next(acc + newItems);
  }

  class ApiClient {
    var token: Value
    var tokenExpiry: Option<real>

    constructor ()
      ensures token == Null && tokenExpiry == None
    {
      token := Null;
      tokenExpiry := None;
    }

    /** `login`: on success the new token expires 30 minutes after the clock reading; on failure nothing changes. */
    method Login(remote: Remote, clock: Clock) returns (ok: bool)
      modifies this, remote, clock
      ensures ok == Accepted(remote.authorize(old(remote.logins)))
      ensures remote.logins == old(remote.logins) + 1 && remote.posts == old(remote.posts)
      ensures ok ==> && token == remote.authorize(old(remote.logins)).accessToken.value
                     && tokenExpiry == Some(clock.at(old(clock.ticks)) + TokenLifetime)
                     && clock.ticks == old(clock.ticks) + 1
      ensures !ok ==> token == old(token) && tokenExpiry == old(tokenExpiry) && clock.ticks == old(clock.ticks)
    {
      var reply := remote.PostLogin();
      if Accepted(reply) {
        token := reply.accessToken.value;
        var now := clock.Now();
        tokenExpiry := Some(now + TokenLifetime);
        ok := true;
      } else {
        ok := false;
      }
    }

    /** `_is_token_valid`: reads the clock only when a token and an expiry are set. */
    method IsTokenValid(clock: Clock) returns (valid: bool)
      modifies clock
      ensures valid == TokenValid(token, tokenExpiry, clock.at(old(clock.ticks)))
      ensures clock.ticks == old(clock.ticks) + (if ReadsClock(token, tokenExpiry) then 1 else 0)
    {
      if !Truthy(token) {
        return false;
      }
      if tokenExpiry.Some? && tokenExpiry.value != 0.0 {
        var now := clock.Now();
        if now > tokenExpiry.value - RenewalMargin {
          return false;
        }
      }
      return true;
    }

    /**
     * `_ensure_valid_token`: logs in exactly when the current token is not
     * valid; a renewal stores the new token and an expiry 30 minutes after the
     * clock reading that follows the validity check.
     */
    method EnsureValidToken(remote: Remote, clock: Clock) returns (ok: bool)
      modifies this, remote, clock
      ensures remote.posts == old(remote.posts)
      ensures old(TokenValid(token, tokenExpiry, clock.at(clock.ticks))) ==>
        ok && token == old(token) && tokenExpiry == old(tokenExpiry) && remote.logins == old(remote.logins)
      ensures !old(TokenValid(token, tokenExpiry, clock.at(clock.ticks))) ==>
        remote.logins == old(remote.logins) + 1 && ok == Accepted(remote.authorize(old(remote.logins)))
      ensures !old(TokenValid(token, tokenExpiry, clock.at(clock.ticks))) && ok ==>
        && token == remote.authorize(old(remote.logins)).accessToken.value
        && tokenExpiry ==
             Some(clock.at(old(clock.ticks) + (if old(ReadsClock(token, tokenExpiry)) then 1 else 0)) + TokenLifetime)
      ensures !ok ==> token == old(token) && tokenExpiry == old(tokenExpiry)
    {
      var valid := IsTokenValid(clock);
      if !valid {
        ok := Login(remote, clock);
      } else {
        ok := true;
      }
    }

    /**
     * `get_quality_data_by_company`: it follows the fetch protocol
     * (`Exchange`) from the token check it starts with: every request it
     * sends carries the body built for `empresa`, `limit` and `offset` and the
     * token the client then holds; it yields what the last answer's body
     * gives the collector; it sends another request only after a 401 was
     * answered and a new login succeeded, and sends none only when the login
     * before the first one was refused.
     */
    method FetchPage(empresa: string, limit: Option<int>, offset: int, remote: Remote, clock: Clock, fuel: nat)
      returns (r: Fetched)
      modifies this, remote, clock
      decreases fuel, 1
      ensures |old(remote.posts)| <= |remote.posts| <= |old(remote.posts)| + fuel + 1
      ensures remote.posts[..|old(remote.posts)|] == old(remote.posts)
      ensures Exchange(remote.posts, remote.serve, remote.authorize, Mark(|old(remote.posts)|, old(remote.logins), old(token)),
                       Mark(|remote.posts|, remote.logins, token), BuildRequest(empresa, limit, offset),
                       old(TokenValid(token, tokenExpiry, clock.at(clock.ticks))), r, fuel)
      ensures FetchedAs(remote.posts, remote.serve, remote.authorize, Mark(|old(remote.posts)|, old(remote.logins), old(token)),
                        Mark(|remote.posts|, remote.logins, token), BuildRequest(empresa, limit, offset), r)
    {
      ghost var lo := Mark(|remote.posts|, remote.logins, token);
      ghost var valid := TokenValid(token, tokenExpiry, clock.at(clock.ticks));
      var ok := EnsureValidToken(remote, clock);
      ghost var body := BuildRequest(empresa, limit, offset);
      if !ok {
        r := None;
        ExchangeRefused(remote.posts, remote.serve, remote.authorize, lo, Mark(|remote.posts|, remote.logins, token),
                        body, fuel);
      } else {
        r := Request(empresa, limit, offset, remote, clock, fuel, lo, valid);
      }
      ExchangeObserved(remote.posts, remote.serve, remote.authorize, lo, Mark(|remote.posts|, remote.logins, token),
                       body, valid, r, fuel);
    }

    /**
     * The request of `get_quality_data_by_company` once a token is at hand,
     * and its answer: a 401 logs in again and, after a successful re-login,
     * starts the fetch over; `lo` and `valid` are where the fetch began and
     * what its token check found.
     */
    method Request(empresa: string, limit: Option<int>, offset: int, remote: Remote, clock: Clock, fuel: nat,
                   ghost lo: Mark, ghost valid: bool)
      returns (r: Fetched)
      requires lo.post <= |remote.posts| && (valid ==> Truthy(lo.token)) && (valid || Accepted(remote.authorize(lo.login)))
      requires Checked(remote.authorize, lo, valid) == Mark(|remote.posts|, remote.logins, token)
      modifies this, remote, clock
      decreases fuel, 0
      ensures |old(remote.posts)| < |remote.posts| <= |old(remote.posts)| + fuel + 1
      ensures remote.posts[..|old(remote.posts)|] == old(remote.posts)
      ensures Exchange(remote.posts, remote.serve, remote.authorize, lo, Mark(|remote.posts|, remote.logins, token),
                       BuildRequest(empresa, limit, offset), valid, r, fuel)
    {
      var body := BuildRequest(empresa, limit, offset);
      var reply := remote.PostData(Post(token, body));
      ghost var sent := remote.posts;
      assert Sent(sent, remote.authorize, lo, body, valid);
      if reply != HttpStatus(401) {
        // A 200 answer's body, or None for any other status or a transport error.
        r := BodyOf(reply);
        ExchangeAnswered(remote.posts, remote.serve, remote.authorize, lo, Mark(|remote.posts|, remote.logins, token),
                         body, valid, r, fuel);
      } else {
        var renewed := Login(remote, clock);
        if renewed && fuel > 0 {
          ghost var again := TokenValid(token, tokenExpiry, clock.at(clock.ticks));
          r := FetchPage(empresa, limit, offset, remote, clock, fuel - 1);
          assert remote.posts[..|sent|] == sent;
          assert remote.posts[|sent| - 1] == sent[|sent| - 1];
          assert Sent(remote.posts, remote.authorize, lo, body, valid);
          ExchangeRetried(remote.posts, remote.serve, remote.authorize, lo, Mark(|remote.posts|, remote.logins, token),
                          body, valid, again, r, fuel);
        } else {
          r := None;
          ExchangeGaveUp(remote.posts, remote.serve, remote.authorize, lo, Mark(|remote.posts|, remote.logins, token),
                         body, valid, fuel);
        }
      }
    }

    /**
     * `get_all_quality_data_by_company`: fetch `k` asks for the page at
     * offset `k * pageSize`; `trace` holds what each fetch yielded, read off
     * the service's answers between `marks[k]` and `marks[k + 1]`, and the
     * result is what `RunEndsWith` prescribes for those outcomes.
     */
    method CollectAll(empresa: string, pageSize: int, maxPages: int, dumps: Record -> string,
                      remote: Remote, clock: Clock)
      returns (r: Collected, trace: seq<Fetched>, ghost marks: seq<Mark>)
      modifies this, remote, clock
      ensures RunEndsWith([], trace, pageSize, maxPages, dumps, r)
      ensures |old(remote.posts)| <= |remote.posts| && remote.posts[..|old(remote.posts)|] == old(remote.posts)
      ensures FetchesOf(remote.posts, remote.serve, remote.authorize, marks, trace, empresa, pageSize)
      ensures marks[0] == Mark(|old(remote.posts)|, old(remote.logins), old(token))
      ensures marks[|trace|] == Mark(|remote.posts|, remote.logins, token)
    {
      var allResults: seq<Record> := [];
      var seenIds: set<Key> := {};
      var pageIndex := 1;
      var pagesFetched := 0;
      trace := [];
      ghost var start := remote.posts;
      marks := [Mark(|remote.posts|, remote.logins, token)];
      while true
        invariant pagesFetched == |trace| && pageIndex == pagesFetched + 1
        invariant pagesFetched <= if maxPages < 0 then 0 else maxPages
        invariant Advance([], trace, pageSize, dumps) == Some(allResults)
        invariant seenIds == KeySet(allResults, dumps)
        invariant |start| <= |remote.posts| && remote.posts[..|start|] == start
        invariant FetchesOf(remote.posts, remote.serve, remote.authorize, marks, trace, empresa, pageSize)
        invariant marks[0] == Mark(|start|, old(remote.logins), old(token))
        invariant marks[|trace|] == Mark(|remote.posts|, remote.logins, token)
        decreases maxPages - pagesFetched
      {
        pagesFetched := pagesFetched + 1;
        if pagesFetched > maxPages {
          RunAtCap([], trace, pageSize, maxPages, dumps, allResults);
          return Items(allResults), trace, marks;
        }
        var offset := (pageIndex - 1) * pageSize;
        ghost var before := remote.posts;
        ghost var valid := TokenValid(token, tokenExpiry, clock.at(clock.ticks));
        var batch := FetchPage(empresa, Some(pageSize), offset, remote, clock, RetryFuel);
        FetchesSnoc(before, remote.posts, remote.serve, remote.authorize, marks, trace, empresa, pageSize,
                    Mark(|remote.posts|, remote.logins, token), valid, batch);
        assert remote.posts[..|start|] == before[..|start|];
        ghost var done := trace;
        trace, marks := trace + [batch], marks + [Mark(|remote.posts|, remote.logins, token)];
        var v;
        v, seenIds := AbsorbPage(batch, allResults, seenIds, pageSize, dumps);
        if v.Done? {
          RunStopsAt([], done, batch, pageSize, maxPages, dumps, allResults, v.result);
          return v.result, trace, marks;
        }
        AdvanceSnoc([], done, batch, pageSize, dumps, allResults, v.acc);
        allResults := v.acc;
        pageIndex := pageIndex + 1;
      }
    }
  }
}
