/**
 * `sync_quality_data_for_company`: collect every record of a company from the
 * external API, then reconcile them with the stored rows and report the counts.
 */
module Sync {
  import opened Wrappers
  import opened PyValue
  import opened Companies
  import opened FieldMapper
  import opened Pagination
  import opened QualityRecord
  import opened Reconciliation
  import opened ExternalApi

  /** The dictionary the sync returns, without its human-readable message. */
  datatype SyncReport = SyncReport(success: bool, processed: nat, created: nat, updated: nat)

  /** The report when the collector brought nothing: a failure with every count zero. */
  const NothingFetched := SyncReport(false, 0, 0, 0)

  /**
   * What one company's sync observed and did: the collector's fetches
   * (`trace`, spanning `marks` of the service's log) and its result `got`,
   * the clock reading `tick` at which mapping began, and the rows before and
   * after.
   */
  datatype SyncRun = SyncRun(trace: seq<Fetched>, marks: seq<Mark>, got: Collected, tick: nat,
                             before: seq<Row>, after: seq<Row>)

  /**
   * The report `r` is what the sync of `empresa` makes of `run`: the
   * collector asked for pages 0, 1, ... of `empresa` with the default page
   * size and cap, and stopped as `RunEndsWith` prescribes for those answers.
   * An exception escaping the collector (an unhashable record key) is no
   * report and writes nothing. Nothing collected is a failed report with
   * every count zero and writes nothing. Otherwise the report is a success
   * over the collected records, with the counts and the rows of the
   * reconciliation.
   */
  ghost predicate SyncedAs(empresa: string, user: Option<nat>, lib: Lib, mapper: (Record, real) -> Result<Mapped, MapFailure>,
                           companies: seq<Company>, at: nat -> real,
                           posts: seq<Post>, serve: (nat, Post) -> DataReply, authorize: nat -> LoginReply,
                           run: SyncRun, r: Option<SyncReport>) {
    && FetchesOf(posts, serve, authorize, run.marks, run.trace, empresa, DefaultPageSize)
    && RunEndsWith([], run.trace, DefaultPageSize, DefaultMaxPages, lib.dumps, run.got)
    && (run.got.Raised? <==> r.None?)
    && (run.got.Raised? ==> run.after == run.before)
    && ((run.got.NoData? || run.got == Items([])) ==> r == Some(NothingFetched) && run.after == run.before)
    && (run.got.Items? && run.got.items != [] ==>
          && r.Some? && r.value.success && r.value.processed == |run.got.items|
          && Tally(r.value.created, r.value.updated, run.after) ==
               ReconcileFrom(Tally(0, 0, run.before), empresa, MapAll(run.got.items, mapper, at, run.tick),
                             user, lib, companies))
  }

  /**
   * A successful report counts no more records created or updated than it
   * processed, and the store grew by exactly the rows it created; a report
   * that is not a success wrote nothing.
   */
  lemma SyncedAsCounts(empresa: string, user: Option<nat>, lib: Lib, mapper: (Record, real) -> Result<Mapped, MapFailure>,
                       companies: seq<Company>, at: nat -> real,
                       posts: seq<Post>, serve: (nat, Post) -> DataReply, authorize: nat -> LoginReply,
                       run: SyncRun, r: Option<SyncReport>)
    requires SyncedAs(empresa, user, lib, mapper, companies, at, posts, serve, authorize, run, r)
    ensures r.Some? && r.value.success ==>
      r.value.created + r.value.updated <= r.value.processed && |run.after| == |run.before| + r.value.created
    ensures !(r.Some? && r.value.success) ==> run.after == run.before
  {
    if run.got.Items? && run.got.items != [] {
      ReconcileFromSpec(Tally(0, 0, run.before), empresa, MapAll(run.got.items, mapper, at, run.tick),
                        user, lib, companies);
    }
  }

  /** Where in the service's log a sync began and ended. */
  function StartMark(run: SyncRun): Mark {
    if run.marks == [] then Mark(0, 0, Null) else run.marks[0]
  }

  function EndMark(run: SyncRun): Mark {
    if run.marks == [] then Mark(0, 0, Null) else run.marks[|run.marks| - 1]
  }

  /** Later requests do not change what an earlier sync observed. */
  lemma SyncedAsExtends(empresa: string, user: Option<nat>, lib: Lib, mapper: (Record, real) -> Result<Mapped, MapFailure>,
                        companies: seq<Company>, at: nat -> real,
                        posts: seq<Post>, later: seq<Post>, serve: (nat, Post) -> DataReply,
                        authorize: nat -> LoginReply, run: SyncRun, r: Option<SyncReport>)
    requires SyncedAs(empresa, user, lib, mapper, companies, at, posts, serve, authorize, run, r)
    requires |posts| <= |later| && later[..|posts|] == posts
    ensures SyncedAs(empresa, user, lib, mapper, companies, at, later, serve, authorize, run, r)
  {
    FetchesExtend(posts, later, serve, authorize, run.marks, run.trace, empresa, DefaultPageSize);
  }

  /**
   * One company's sync: `run` records what it observed, starting where the
   * service's log and the store stood before and ending where they stand now.
   */
  method SyncCompany(client: ApiClient, remote: Remote, clock: Clock, store: QualityStore,
                     empresa: string, user: Option<nat>, lib: Lib, companies: seq<Company>)
    returns (r: Option<SyncReport>, ghost run: SyncRun)
    modifies client, remote, clock, store
    ensures SyncedAs(empresa, user, lib, Mapper(lib), companies, clock.at, remote.posts, remote.serve, remote.authorize, run, r)
    ensures run.before == old(store.rows) && run.after == store.rows
    ensures StartMark(run) == Mark(|old(remote.posts)|, old(remote.logins), old(client.token))
    ensures EndMark(run) == Mark(|remote.posts|, remote.logins, client.token)
    ensures |old(remote.posts)| <= |remote.posts| && remote.posts[..|old(remote.posts)|] == old(remote.posts)
    ensures run.got.Items? && run.got.items != [] ==> clock.ticks == run.tick + |run.got.items|
  {
    var got, trace;
    ghost var marks;
    got, trace, marks := client.CollectAll(empresa, DefaultPageSize, DefaultMaxPages, lib.dumps, remote, clock);
    ghost var tick := clock.ticks;
    match got {
      case Raised =>
        r := None;
      case NoData =>
        r := Some(NothingFetched);
      case Items(items) =>
        if items == [] {
          r := Some(NothingFetched);
        } else {
          var created, updated := store.Reconcile(empresa, items, user, lib, Mapper(lib), clock, companies);
          r := Some(SyncReport(true, |items|, created, updated));
        }
    }
    run := SyncRun(trace, marks, got, tick, old(store.rows), store.rows);
  }
}
