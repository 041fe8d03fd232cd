# Quality-data synchronisation and accounts, modelled in Dafny

This project models the core of the `apg_bend` Django back end: the service
that pulls fruit-quality records of a company from an external quality API
and reconciles them with the stored `QualityData` rows; the statistics it
reports over those rows; the `sync_quality_data` management command that
drives it; and the account side they rely on: the custom `User` model with
its manager, the `Company` model's validation and display helpers, and the
registration, login and user-update serializers.

Every operation is modelled in the form the source gives it:

- **Objects that change state in place are classes.**
  - `ExternalApi.ApiClient` holds the token and its expiry.
  - `ExternalApi.Remote` is the external service. Its answers to the n-th login and the n-th data request are arbitrary functions, so every proof holds for every server behaviour.
  - `ExternalApi.Clock` is `datetime.now()`.
  - `Reconciliation.QualityStore` holds the stored quality rows.
  - `Accounts.UserTable` holds the user rows with their unique constraints.
- **Loops are methods with invariants.** Each method is proved against a pure function:
  - the page collector against `Pagination.RunEndsWith` and `Pagination.Dedupe`;
  - the defect description against `FieldMapper.DefectSegments`;
  - the reconciliation loop against `Reconciliation.ReconcileFrom`;
  - the username generator against `Accounts.FirstFree`;
  - the command's loop against `SyncCommand.SumTotals` and, company by company, `Sync.SyncedAs`.
- **Pure code is functions and lemmas.** This covers the field mapper, request building, statistics, choice labels and validators.

Python values are `PyValue.Value` (None, bool, int, float, str, list, dict), and a JSON object is a
`map<string, Value>`. Truthiness, `or`, `dict.get` and `in` are modelled explicitly.

Four library routines are parameters of the model, in a `Lib` record of functions:
- `float(str)`;
- `datetime.fromisoformat`;
- `str(v)`;
- `json.dumps(..., sort_keys=True)`.

Three other things are parameters for the same reason:
- Django's `BaseUserManager.normalize_email`;
- `str.isalnum` per character;
- Django's `authenticate` backend.

Django ORM semantics are modelled as follows:
- where a queryset's `.first()` decides, it takes the first match by the model's `Meta.ordering`:
  - `-fecha_registro` for quality rows, ties going to the earliest stored row;
  - `name` for companies;
  - the primary key for users;
- `get_or_create` raises when two or more rows match, so that record fails;
- assigning `None` to a NOT NULL text column makes the save raise, so that record fails.

The code behaves as follows where a reader might expect otherwise:
- The mapper can raise, and that record is then counted as failed. It raises on:
  - a payload that is not a dict;
  - a truthy non-number in a defect field;
  - a `processed_data` that is not a dict.
- A record without measurements gets grade `regular` (there is no "fair" grade).
- Only BRIX and ACIDEZ are mapped; temperature, humidity, pH and firmness are never filled in.
- Re-syncing is not always idempotent: a record whose payload `EMPRESA` differs from the sync argument is created again, unless some row already stored under the argument carries its id (`Reconciliation.ResyncDuplicates`). Both the id lookup and `get_or_create` filter on the argument, while the new row stores the payload's label.
- The 401 retry is not "once": `get_quality_data_by_company` re-calls itself after every successful re-login.
- A failed login keeps the previous token.
- A login answered 200 with `access_token: null` stores the null token and succeeds; that token then fails every validity check, so the next request logs in again.
- An unhashable record key makes the collector raise, which the sync does not catch; the command reports it.
- The deduplication key looks at `record_id`, then `id`, then `processed_data.record_id`, and only then at the JSON text.
- `validate_domain` lets `"."` through, which `Company.clean` rejects.
- `_get_admin_user` would raise if several superusers shared the requested e-mail. On a valid user table this cannot happen, because `email` is unique (`SyncCommand.OneWithEmail`). A requested e-mail that no superuser holds falls through to the first superuser (`SyncCommand.SuperuserPreferred`).
- The command's `--limit` option is parsed but never used.

## Model

| member | source | states |
|---|---|---|
| Session.NoTokenInvalid | apps/quality_data/services.py:144-145 | a null, empty-string or false token is invalid at every clock reading, so `TokenValid` fails there |
| Session.ValidAfterLogin | apps/quality_data/services.py:69-72 | `TokenValid` after a login at time t: a truthy token is valid exactly while now ≤ t + 29 minutes (30-minute lifetime less the 1-minute renewal margin) and is valid at t; a falsy stored token is never valid |
| Session.ClockIrrelevantWhenUnread | apps/quality_data/services.py:147-152 | when the check does not read the clock (no token, or no expiry set), its answer is the same at every clock reading |

| ExternalApi.ApiClient.Login | apps/quality_data/services.py:43-88 | on HTTP 200 with an `access_token` key the value it holds (null included) is stored, it expires 30 minutes after the clock reading, and `true` is returned; any other reply leaves token and expiry unchanged and returns `false`; one login request is sent, and the clock is read only on success |
| ExternalApi.ApiClient.IsTokenValid | apps/quality_data/services.py:137-152 | the result is `TokenValid` at the clock's current reading, and the clock advances exactly when a token and an expiry are set |
| ExternalApi.ApiClient.EnsureValidToken | apps/quality_data/services.py:154-164 | a valid token is kept and no login is sent; otherwise exactly one login is sent and its answer decides the result; a renewal stores the new token with an expiry 30 minutes after the reading that follows the validity check; a failure keeps token and expiry |
| ExternalApi.ApiClient.FetchPage | apps/quality_data/services.py:178-251 | `Exchange` from where the client and the service's log stood, with the outcome of the token check at the clock's reading: a failed check logs in, and a refused login ends with None before any request; each request carries the body built for (empresa, limit, offset) and the token then held (the old one after a passed check, else the new login's); an answer other than 401 ends with `BodyOf` it (its rows when records, an empty page for an empty malformed body, `Junk` for a non-empty one, None otherwise); a 401 logs in again and, when that login is accepted and fuel is left, starts over with the new token, else ends with None; consequently `FetchedAs`; at most fuel + 1 requests, earlier requests untouched |
| ExternalApi.ApiClient.Request | apps/quality_data/services.py:193-251 | from a token check that passed, or a login it accepted, the request sent carries the token then held and the body for (empresa, limit, offset), and the rest of the fetch follows `Exchange`: at least one and at most fuel + 1 requests, earlier requests untouched |
| ExternalApi.ExchangeObserved | apps/quality_data/services.py:178-251 | a fetch following the protocol satisfies `FetchedAs`: all its requests carry the body, each answer but the last was 401, its outcome is `BodyOf` the last answer, and it sent nothing only when its one login was refused |
| ExternalApi.FirstBearer | apps/quality_data/services.py:190-198 | the first request carries the token held before the fetch when the check passed, the accepted login's token when the check failed, and is not sent (outcome None) when that login was refused |
| ExternalApi.BearersFromLogins | apps/quality_data/services.py:190-235 | every request of a fetch carries either the token held before it (only the first, after a passed check) or the token of a login of that same fetch that was accepted |
| ExternalApi.EndsOn401 | apps/quality_data/services.py:231-238 | a fetch whose last answer was 401 logged in at least once, and either its last login was refused or it used up its retries with fuel + 1 requests |
| ExternalApi.ApiClient.CollectAll | apps/quality_data/services.py:253-310 | `FetchesOf`: the k-th entry of the trace is what the k-th fetch yielded, which asked for offset k·page_size, spans marks[k] to marks[k+1] of the service's log and client token, follows the fetch protocol (`Fetch`: `Exchange` for a passed or a failed token check) with 100 retries, and so `FetchedAs`; the marks start where the client and log stood and end where they stand; the result is what `RunEndsWith` prescribes for that trace from no items with max_pages fetches left, so a malformed non-empty page raises (`JunkRaises`) |
| ExternalApi.FetchesExtend | apps/quality_data/services.py:253-310 | requests sent later do not change what the collector's earlier fetches were |
| ExternalApi.FetchesSnoc | apps/quality_data/services.py:276-278 | a fetch of the next page starting where the last one ended extends the collector's fetches by one |
| ExternalApi.DedupeBatch | apps/quality_data/services.py:287-294 | the kept items are `Dedupe(seen, batch)`, the seen set grows by their keys, and a keyless item is reported exactly when the batch has one |
| ExternalApi.AbsorbPage | apps/quality_data/services.py:279-305 | the loop body after one fetch computes `Step` of the collector (stop with its result, or continue with the new items appended) |
| PageRequests.BuildRequest | apps/quality_data/services.py:200-215 | the filters name the company as EMPRESA and PRODUCTOR and nothing else; limit and page_size are the limit; page is present exactly when a limit is given; offset is present exactly when positive, and is then the offset |
| PageRequests.PageHoldsOffset | apps/quality_data/services.py:207-213 | for every offset ≥ 0 the page number is the 1-based page of width max(limit, 1) holding it: (page−1)·w ≤ offset < page·w |
| PageRequests.PageOfKthRequest | apps/quality_data/services.py:276-278 | the request for offset k·page_size asks for page k+1, and carries the offset only when k > 0 |
| Pagination.Hashed | apps/quality_data/services.py:291-292 | lists and dicts have no set key (Python raises TypeError); every other value has one |
| Pagination.CandidateId | apps/quality_data/services.py:290 | a truthy record_id wins; otherwise a truthy id; otherwise processed_data.record_id when processed_data is a dict, None (the key is null) when it is absent, and a raise exactly when it is present and not a dict |
| Pagination.DedupeIsFirstOccurrences | apps/quality_data/services.py:287-294 | the deduplication equals the reference list of first occurrences of each key not already seen, in input order |
| Pagination.DedupeUnique | apps/quality_data/services.py:287-294 | kept items all have keys, pairwise distinct and not among those already seen |
| Pagination.DedupeFromInput | apps/quality_data/services.py:287-294 | every kept item is an item of the input |
| Pagination.StepContinues | apps/quality_data/services.py:279-307 | the collector goes on after a fetch exactly when it got a well-formed full page with all keys defined and at least one new item |
| Pagination.JunkRaises | apps/quality_data/services.py:287-290 | a run whose last fetch returned a malformed non-empty body ends in an exception, whatever was gathered before |
| Pagination.RunAtCap | apps/quality_data/services.py:271-274 | a run that used up max_pages ends with the items gathered |
| Pagination.RunBounded | apps/quality_data/services.py:270-274 | a run makes at most max_pages fetches, and none when max_pages ≤ 0 |
| Pagination.RunPagesFull | apps/quality_data/services.py:283-305 | every fetch but the last returned a full page of page_size items |
| Pagination.RunResult | apps/quality_data/services.py:265-310 | a list result is the deduplication of all fetched pages concatenated; Raised only when the last fetch returned a malformed non-empty body or a page with an item that has no key; None only when nothing was gathered and the last fetch failed |
| Pagination.CollectedUnique | apps/quality_data/services.py:287-301 | the collector's list has pairwise distinct keys and each item came from a fetched page |
| Pagination.NoDataOnlyOnFirstFailure | apps/quality_data/services.py:279-281 | the collector returns None only when it made a single fetch and that fetch failed |
| Pagination.NoDataAfterItems | apps/quality_data/services.py:279-281 | a later failed fetch returns the items already gathered, not None |
| FieldMapper.SafeDecimal | apps/quality_data/services.py:683-699 | None, '' and containers give None; ints and floats are kept as their value |
| FieldMapper.GradeOf | apps/quality_data/services.py:625-636 | no percentage gives regular; ≤ 2 excelente, ≤ 5 buena, ≤ 10 regular, above mala |
| FieldMapper.PayloadShapes | apps/quality_data/services.py:557-562 | the payload is processed_data.data when processed_data holds 'data', else data when present, else the record itself; a non-dict payload fails |
| FieldMapper.RecordedAtRules | apps/quality_data/services.py:567-582 | the first truthy of FECHA DE MP and FECHA DE PROCESO, parsed with 'Z' replaced by '+00:00'; the clock reading when that fails or neither is truthy |
| FieldMapper.DescribeDefects | apps/quality_data/services.py:602-619 | the loop succeeds exactly when every listed field's value is comparable with 0, and then yields the '; '-join of the segments of the positive fields in list order |
| FieldMapper.DefectSegmentsSpec | apps/quality_data/services.py:614-619 | the description step fails exactly when a defect field holds a truthy non-number, and otherwise lists the positive fields in order |
| FieldMapper.DescriptionEmptyIff | apps/quality_data/services.py:619 | the description is empty exactly when no defect field is positive |
| FieldMapper.MapperFailsExactly | apps/quality_data/services.py:557-562 | for `Process`, the mapper: the mapper fails exactly for a non-dict payload, a non-comparable defect value, or a non-dict processed_data read by the additional information |
| FieldMapper.AdditionalInfoFails | apps/quality_data/services.py:671-672 | reading row_index and processed_at fails exactly when processed_data is present and not a dict |
| FieldMapper.MappedFields | apps/quality_data/services.py:565-643 | for `Process` and `Assemble`: an accepted record maps field by field: company label, date, BRIX, acidity, defect percentage, grade and approval as the rules above, colour and remarks with '' defaults, and the original record |
| FieldMapper.ProcessAssembles | apps/quality_data/services.py:554-681 | `Process`, the mapper, yields `Assemble` of the record, its payload, the defect segments and the additional information whenever none of its three raising steps raises |
| FieldMapper.MappedDescription | apps/quality_data/services.py:614-619 | the stored description is the '; '-join of the positive defect segments and the record id is the record's record_id or id |
| FieldMapper.RecordIdIsExternalId | apps/quality_data/services.py:670 | additional_info['record_id'] is `record_id or id` of the record |
| FieldMapper.DefectPercentFallback | apps/quality_data/services.py:590-599 | the defect percentage is TOTAL DE DEFECTOS DE CALIDAD when it parses, else TOTAL DE NO EXPORTABLE |
| FieldMapper.GradeMonotone | apps/quality_data/services.py:626-634 | p ≤ q implies the grade of q is no better than the grade of p |
| FieldMapper.ApprovedIsGood | apps/quality_data/services.py:639-643 | without an exportable share, an approved record is graded excelente or buena |
| FieldMapper.ExportableDecides | apps/quality_data/services.py:639-641 | a parsed exportable share decides approval alone (≥ 90), whatever the defects |
| FieldMapper.NoMeasurementsDefaults | apps/quality_data/services.py:585-643 | a payload with none of the numeric fields gets no measurements, grade regular and no approval |
| FieldMapper.EmptyRecordDefaults | apps/quality_data/services.py:554-681 | the empty record maps to empty company label, the clock reading as date, no description, grade regular, not approved |
| FieldMapper.NonExportableFallback | apps/quality_data/services.py:590-599 | a non-exportable total of 1.5 without a quality-defect total gives 1.5 % and grade excelente |
| FieldMapper.ExportableApproves | apps/quality_data/services.py:639-641 | an exportable share of 95 approves whatever the defects |
| FieldMapper.PlainRecordAccepted | apps/quality_data/services.py:559-562 | a record without processed_data, data or defect fields is its own payload and is always accepted |
| FieldMapper.ThreePercentIsBuena | apps/quality_data/services.py:626-643 | a 3 % defect figure without an exportable share is graded buena and approved |
| FieldMapper.AcmeExample | apps/quality_data/services.py:554-681 | the ACME record (BRIX "12.5", 3 % defects) maps to company ACME, BRIX 12.5, 3 %, buena, approved |
| QualityRecord.AssociateOnSaveSpec | apps/quality_data/models.py:149-158 | for `AssociateOnSave`, run by every write: the company is left alone unless unset with a truthy label, and then becomes the least-named company whose name contains the label case-insensitively, or stays unset |
| QualityRecord.GradesAreChoices | apps/quality_data/models.py:86-96 | every grade the mapper produces is a declared calidad_general choice and the choices are exactly those |
| QualityRecord.CalidadDisplaySpec | apps/quality_data/models.py:165-170 | for `CalidadDisplay`: a stored grade displays as its capitalised label; any other value displays as itself |
| QualityRecord.GradeDisplays | apps/quality_data/models.py:165-170 | `CalidadDisplay` of a row storing a grade's label is that grade's capitalised name |
| Reconciliation.LatestMatch | apps/quality_data/services.py:420-424 | the chosen row matches company and record id, no match is later, and earlier rows with the same timestamp do not match; None exactly when no row matches |
| Reconciliation.Reconcile1Shape | apps/quality_data/services.py:411-459 | for `Reconcile1`, one record of the loop: a failure leaves the rows, an update rewrites one row keeping its creator, a creation appends one row by the syncing user |
| Reconciliation.Reconcile1Fails | apps/quality_data/services.py:457-459 | a mapper failure or a None text column fails the record with the rows unchanged |
| Reconciliation.RecordIdMatchUpdates | apps/quality_data/services.py:416-445 | a record whose id matches a stored row of the company updates the latest such row, whatever its timestamp |
| Reconciliation.KeyFallback | apps/quality_data/services.py:426-455 | without an id match: no row with the (company, date) key creates, one updates it, two or more fail |
| Reconciliation.FreshRowHoldsMapped | apps/quality_data/services.py:428-436 | a created row holds the mapped values, the syncing user as creator and the record id in processed_data |
| Reconciliation.SavedShowsMapped | apps/quality_data/models.py:160-175 | a row written from a mapped record displays (`EmpresaDisplay`, `CalidadDisplay`, `AprobadoDisplay`) the mapped company label when non-empty, else its existing company's name; the capitalised mapped grade; and "Sí" exactly when the mapper approved the record |
| Reconciliation.Reconcile1Displays | apps/quality_data/services.py:411-457 | the row `Reconcile1` creates or updates for a record displays what the mapper made of it as above; a created row with an empty, falsy label displays "Sin empresa" |
| Reconciliation.ResyncUpdates | apps/quality_data/services.py:416-455 | re-syncing a just-created record whose label is the sync argument updates instead of creating |
| Reconciliation.ResyncDuplicates | apps/quality_data/services.py:421-436 | a record whose label differs from the sync argument, and which has no id or whose id no row under the argument carries, creates a second row when synced again |
| Reconciliation.ReconcileFromSpec | apps/quality_data/services.py:408-459 | for `ReconcileFrom`, the loop over a batch: over a batch, created + updated grows by at most the batch size, each creation appends one row, stored rows keep their creator, appended rows are the user's |
| Reconciliation.FirstSyncCreates | apps/quality_data/services.py:428-436 | one storable record synced into an empty store gives one creation, no update and exactly the fresh row |
| Reconciliation.AcmeSyncCreates | apps/quality_data/services.py:408-459 | the ACME record synced into an empty store creates one ACME row, graded buena, approved, with BRIX 12.5, by the syncing user |
| Reconciliation.QualityStore.Reconcile | apps/quality_data/services.py:408-459 | the new rows and the two counters are `ReconcileFrom` of the records mapped at successive clock readings, one reading per record |
| Sync.SyncCompany | apps/quality_data/services.py:382-470 | `SyncedAs` over the run it observed: the collector's fetches are read off the service's answers for pages 0, 1, … of the company at page size and cap 100; a raising collector gives no report and writes nothing; nothing collected gives a failure with zero counts and no write; otherwise success with processed = number collected and the counts and rows `ReconcileFrom` gives for the records mapped from the clock reading after collection; the run starts where the store, the service's log and the client's token stood and ends where they stand |
| Sync.SyncedAsCounts | apps/quality_data/services.py:408-470 | a successful report counts no more creations and updates than records processed, and the store grew by exactly the rows created; a report that is not a success wrote nothing |
| Sync.SyncedAsExtends | apps/quality_data/services.py:382-470 | requests sent later do not change what an earlier sync observed |
| QualityStats.Filter | apps/quality_data/services.py:739 | the filtered rows are exactly the rows with that label |
| QualityStats.Approved | apps/quality_data/services.py:744 | the approved count is at most the total, and equal to it exactly when all rows are approved |
| QualityStats.Labels | apps/quality_data/services.py:760 | there are no more distinct labels than rows |
| QualityStats.BreakdownCounts | apps/quality_data/services.py:753-757 | a grade is in the breakdown exactly when some row has it, with the number of rows having it |
| QualityStats.ChoicesPartition | apps/quality_data/services.py:753-757 | over rows holding declared grades, the four counts add up to the total |
| QualityStats.StatsConsistent | apps/quality_data/services.py:743-760 | for `QualityStatsOf`: approved + rejected = total, rejected ≥ 0, companies ≤ total, and at most one company when scoped |
| QualityStats.NamedCompanyWins | apps/quality_data/services.py:738-739 | a named company gives the same statistics whoever asks, counting exactly its rows |
| QualityStats.UnscopedCountsAll | apps/quality_data/services.py:735-744 | with no name and no user company every row is counted |
| QualityStats.ScopeDecidesRows | apps/quality_data/services.py:735-743 | the statistics count exactly the rows labelled with a non-empty argument, else those labelled with the user's company name, else every row (`ScopeName` and `Scope` as used by `QualityStatsOf`) |
| QualityStats.UserCompanyScope | apps/quality_data/services.py:737-741 | without an argument, a user of a named company gets the statistics of that company's label, counting exactly its rows |
| Accounts.RolePermissions | apps/authentication/models.py:255-269 | for `IsAdmin`, `CanEditCompany` and `CanManageUsers`: without a role a user has no role name and is admin exactly when superuser; a superuser is admin and may edit companies and manage users; editing companies implies managing users |
| Accounts.ManagerPermissions | apps/authentication/models.py:255-269 | for `CanEditCompany` and `CanManageUsers`: a non-superuser manager may manage users but not edit companies |
| Accounts.GenerateUsername | apps/authentication/models.py:124-134 | returns the first of base, base1, base2, … that is not taken |
| Accounts.FirstFreeUnique | apps/authentication/models.py:127-132 | at most one name is the first free candidate |
| Accounts.RequestedUsername | apps/authentication/models.py:124 | a truthy username argument is used (a string as is, anything else as its str); a falsy one is not |
| Accounts.SuperuserExtra | apps/authentication/models.py:141-150 | passes exactly when is_staff and is_superuser are absent or True; then both are True, is_active defaults to True and every given argument is kept; a non-True is_staff is reported first |
| Accounts.GeneratedNameFree | apps/authentication/models.py:127-132 | a candidate outside the usernames of the other rows is held by no row other than the user's own |
| Accounts.SuperuserFlags | apps/authentication/models.py:141-150 | after `create_superuser`'s defaults only is_active can fail to convert, and the requested username is unchanged |
| Accounts.UserTable.Save | apps/authentication/models.py:271-286 | a non-empty username is kept; an empty one becomes the first candidate not held by another row; a stored user replaces its row, a new one is appended with an id; it fails, changing nothing, exactly when another row holds the e-mail or the given non-empty username (a generated one never clashes); the table stays valid |
| Accounts.UserTable.WriteRow | apps/authentication/models.py:286 | a stored user replaces its row, a new one is appended with a fresh id; it fails with a duplicate error and the table unchanged exactly when another row holds the e-mail or the username; ids, e-mails and usernames stay unique |
| Accounts.UserTable.CreateUser | apps/authentication/models.py:116-139 | an empty e-mail fails; a flag that is no boolean fails; otherwise it succeeds exactly when the normalised e-mail and a requested non-empty username are free; a created user is appended with the normalised e-mail, the company, no role, the flags as given (default not staff, not superuser, active), a truthy requested username, else the first free candidate for the e-mail prefix |
| Accounts.UserTable.CreateSuperuser | apps/authentication/models.py:141-152 | arguments `SuperuserExtra` rejects give its error; then an empty e-mail fails, a non-boolean is_active fails, and otherwise it succeeds exactly when the e-mail and a requested username are free; a created user is an appended staff superuser with the normalised e-mail |
| Companies.FirstByName | apps/quality_data/models.py:151-155 | None exactly when no company name contains the pattern, else a matching index |
| Companies.FirstByNameLeast | apps/quality_data/models.py:151-155 | the chosen company has the least name among the matches and is the earliest of equal names |
| Companies.CleanAcceptsIff | apps/authentication/models.py:77-84 | for `CleanAccepts`, `Company.clean`'s domain rule: a non-empty domain passes clean exactly when it has no space, some character other than '.' and '-', and every such character is alphanumeric |
| Companies.DotsOnlyRejected | apps/authentication/models.py:77-84 | a domain made only of dots is rejected |
| Companies.PaisDisplayKnown | apps/authentication/models.py:98-101 | for `PaisDisplay`: a listed country code displays its label |
| Companies.PaisDisplayUnknown | apps/authentication/models.py:98-101 | for `PaisDisplay`: an unlisted code displays as itself |
| Companies.RubroDisplayKnown | apps/authentication/models.py:103-106 | for `RubroDisplay`: a listed sector code displays its label |
| Companies.RubroDisplayUnknown | apps/authentication/models.py:103-106 | for `RubroDisplay`: an unlisted code displays as itself |
| Forms.ValidateDomain | apps/authentication/serializers.py:66-78 | passes exactly when every character is an ASCII letter, a digit, '.' or '-' (so the empty domain passes), returning it unchanged; a failure names the space exactly when the domain has one |
| Forms.SerializerDomainPassesClean | apps/authentication/serializers.py:66-78 | a domain the serializer accepts, with a character other than '.' and '-', also passes Company.clean |
| Forms.DomainRulesDiffer | apps/authentication/serializers.py:66-78 | "." passes the serializer and fails Company.clean |
| Forms.NonAsciiRejected | apps/authentication/serializers.py:74-76 | a non-ASCII letter is rejected by the serializer |
| Forms.ValidateImage | apps/authentication/serializers.py:24-36 | no file passes; a file passes exactly when its content type is one of image/jpeg, image/jpg, image/png and image/gif and its size is at most 5 MB, with the type checked first |
| Forms.ImageSizeBoundary | apps/authentication/serializers.py:33-34 | an image of exactly 5 MB passes and one byte more fails |
| Forms.ValidateRegistration | apps/authentication/serializers.py:274-287 | passes exactly when the passwords agree and a truthy company_id names a company, returning the attributes unchanged; a mismatch is reported first |
| Forms.RegisterCompany | apps/authentication/serializers.py:293-301 | the company is the one a truthy company_id names, or none |
| Forms.Register | apps/authentication/serializers.py:289-309 | an empty e-mail fails with the table unchanged; extra fields that are no boolean flags fail; otherwise it succeeds exactly when no row holds the normalised e-mail, and then one user is appended with that e-mail, the company `RegisterCompany` names and the first free username for the e-mail prefix |
| Forms.Reassigned | apps/authentication/serializers.py:181-199 | the company and role change only for a given id that names a row; all else is kept |
| Forms.NoIdsNoChange | apps/authentication/serializers.py:187-199 | no ids leave the user unchanged |
| Forms.ValidateIds | apps/authentication/serializers.py:149-165 | fails with `UnknownCompany` exactly when a company id is given that names no company, with `UnknownRole` exactly when the company id passes and a role id is given that names no role, and passes exactly when every given id names a row |
| Forms.ValidatedIdsReassigned | apps/authentication/serializers.py:149-199 | ids that passed the validators are written by `update`: a given company id becomes the user's company and a given role id its role; nothing else changes |
| Forms.UnknownIdsIgnored | apps/authentication/serializers.py:187-199 | an id naming no row leaves that field as it was, in `update` called on its own (the validators reject such ids first on every view) |
| Forms.UpdateUser | apps/authentication/serializers.py:181-209 | the saved user is `Reassigned` of the given one, apart from username and id; a non-empty username is kept; the stored row is replaced, or the user appended when unsaved; it fails, changing no row, exactly when another row holds the e-mail or the non-empty username |
| Forms.ValidateLogin | apps/authentication/serializers.py:244-258 | fails without a truthy e-mail and password; succeeds exactly when authentication yields an active user, and then returns that user |
| SyncCommand.AdminUser | apps/quality_data/management/commands/sync_quality_data.py:102-126 | an exception is reported as uncaught; a chosen user is stored and is a superuser or has the admin role; nobody is chosen exactly when there is neither a superuser nor an admin-role user |
| SyncCommand.NamedAdminChosen | apps/quality_data/management/commands/sync_quality_data.py:106-108 | a stored superuser with the requested e-mail is the one chosen |
| SyncCommand.OneWithEmail | apps/authentication/models.py:195 | on a valid user table, where e-mails are unique, a superuser holding an e-mail is the only superuser counted with it, so the lookup by e-mail never finds several |
| SyncCommand.SuperuserPreferred | apps/quality_data/management/commands/sync_quality_data.py:114-118 | without a requested e-mail, or when no superuser holds it, the superuser with the least primary key is chosen whenever a superuser exists |
| SyncCommand.AdminRoleFallback | apps/quality_data/management/commands/sync_quality_data.py:104-126 | with no superuser at all, the admin-role user with the least primary key is chosen, whatever e-mail was requested |
| SyncCommand.ActiveNames | apps/quality_data/management/commands/sync_quality_data.py:141-142 | a name is listed exactly when some active company has it |
| SyncCommand.NoActiveNames | apps/quality_data/management/commands/sync_quality_data.py:141-149 | no names exactly when no company is active |
| SyncCommand.EmpresaFirst | apps/quality_data/management/commands/sync_quality_data.py:134-137 | for `EmpresasToSync`: a non-empty --empresa alone is synced, with or without --all-companies |
| SyncCommand.AllCompaniesSpec | apps/quality_data/management/commands/sync_quality_data.py:140-149 | for `EmpresasToSync`: --all-companies syncs the active names sorted by name, a permutation of the active companies' names |
| SyncCommand.DefaultsOtherwise | apps/quality_data/management/commands/sync_quality_data.py:151-165 | for `EmpresasToSync`: otherwise the four default names are synced in their listed order |
| SyncCommand.EmptyOnlyWithoutActive | apps/quality_data/management/commands/sync_quality_data.py:128-165 | the list is empty only with --all-companies and no active company |
| SyncCommand.SumTotalsSpec | apps/quality_data/management/commands/sync_quality_data.py:59-88 | over coherent reports created + updated ≤ processed in the totals; without a successful report the totals are zero |
| SyncCommand.SumTotalsSnoc | apps/quality_data/management/commands/sync_quality_data.py:66-88 | one more sync outcome adds its counts to the totals when it is a success, and nothing otherwise |
| SyncCommand.ChainedEach | apps/quality_data/management/commands/sync_quality_data.py:66-88 | in a chain of syncs the k-th run and report are `SyncedAs` of the k-th company |
| SyncCommand.ChainedLinks | apps/quality_data/management/commands/sync_quality_data.py:66-88 | each sync of the chain starts with the store and the service's log where the previous one left them, the first where the chain starts and the last where it ends |
| SyncCommand.ChainedExtends | apps/quality_data/management/commands/sync_quality_data.py:66-88 | requests sent later do not change what the earlier syncs observed |
| SyncCommand.ChainedSnoc | apps/quality_data/management/commands/sync_quality_data.py:66-88 | one more company synced from where the chain ended extends the chain by that run and report |
| SyncCommand.SyncNext | apps/quality_data/management/commands/sync_quality_data.py:66-88 | one loop iteration: the next company is synced from where the previous ones left off, the chain grows by its run, and the totals become `SumTotals` of the reports so far, still coherent, with the store grown by the rows created |
| SyncCommand.SyncAll | apps/quality_data/management/commands/sync_quality_data.py:59-88 | one run per company, chained from the store and log as they stood to where they stand now; totals = `SumTotals` of the reports, coherent, and the store grown by the rows created |
| SyncCommand.Handle | apps/quality_data/management/commands/sync_quality_data.py:35-100 | the result is `Uncaught` exactly when choosing the administrator raised, `NoAdmin` exactly when nobody was chosen, and `NoCompanies` exactly when an administrator was chosen, the login accepted and `EmpresasToSync` is empty; with an administrator, an accepted login and a non-empty list the command succeeds; then there is one run per company of `EmpresasToSync`, and `Chained` says the k-th run is `SyncedAs` of the k-th company attributed to the chosen administrator, the first starting with the new login's token and each starting where the store, the service's log and the token stood after the previous one; the totals are `SumTotals` of the reports, coherent, and the store grew by the rows created; a failure writes nothing |

## Left out

- The `async` twins of login, fetch, token check and sync are not modelled. They repeat the synchronous logic over aiohttp.
- Console output (`print` in the service, `self.stdout` in the command) and the human-readable `message` fields of results are not modelled.
- HTTP transport, JSON decoding of replies and request timeouts are not modelled. Each reply is already classified as one of: 200 with a list of objects; 200 with any other dict, string or list (`Malformed`, noting whether it is empty); 401; another status; or an exception. A 200 whose body is not JSON, or is a number, null or a boolean, makes `response.json()` or `len()` raise inside the fetch's own handler, so it is classified with the other failed statuses.
- `float()`, `datetime.fromisoformat`, `str()` and `json.dumps` are parameters (`Lib`), so every property holds for any behaviour of theirs.
- Floating point, NaN, `Decimal` rounding to the columns' decimal places, and integer widths are not modelled. Measurements are reals.
- QualityStats: the averages of temperatura, humedad and ph are not modelled. These are floating-point aggregates over columns the sync never fills.
- `QualityDataService.get_quality_data_for_user_company` is not modelled. It is a single filter ordered by date, and the sync and the statistics do not use it.
- Passwords are not modelled: hashing, `set_password`, `check_password` and password validation are out.
- The base64 conversion of logos and profile images in the serializers' create and update is not modelled.
- Forms.UpdateUser: only the company and role reassignment is modelled, not the generic `ModelSerializer.update` of the other fields.
- Every view that updates a user runs `is_valid()` before `update()` (apps/authentication/views.py:146-148 and 206-210), so `validate_company_id` and `validate_role_id` (`Forms.ValidateIds`) reject an unknown id there. `Forms.UpdateUser` models `update()` alone, and its `DoesNotExist: pass` branch (`Forms.UnknownIdsIgnored`) is reached only when `update()` is called directly. The view itself and the other field validators run by `is_valid()` are not modelled. Django REST framework reports the errors of all failing fields together; `Forms.ValidateIds` reports the company's first.
- The JSON-path lookup `processed_data__additional_info__record_id` is modelled as equality of the stored value. SQLite's JSON comparison of mixed types is not modelled.
- The atomicity of `get_or_create` under concurrency is not modelled, nor database transactions. The model is one process against one store.
- The company association of `QualityData.save` swallows every exception (`except: pass`). Here it is the total function `AssociateOnSave`, executed inside every write of the reconciliation rather than as a method of its own.
- `Company.save` calls `self.clean()` before writing, and the model does not run `CleanAccepts` on a company save: companies are inputs here and never written. The remaining model fields' validators (lengths, choices) are not modelled either.
- ExternalApi.ApiClient.FetchPage: the unbounded 401 re-login recursion is cut after `RetryFuel` (100) retries, an arbitrary bound; past it the model returns None. The source goes on recursing until Python's recursion limit raises RecursionError, which its own handler turns into None, so 401 streaks between 100 retries and that limit are not modelled.
- CollectAll: the trace says, for each fetch, that it followed the fetch protocol for one of the two outcomes of its token check, but not which one the clock gave. `FetchPage` fixes that outcome as `TokenValid` at the clock's reading, and the collector's contract does not carry the clock readings from fetch to fetch.
- SyncCompany: inherits the CollectAll gap. Each fetch's token-check outcome is left open, although every request's token comes from the client's token or an accepted login (`BearersFromLogins`).
- Reconciliation.QualityStore.Reconcile reads the clock once for every record, while the mapper calls `datetime.now()` only on its date fallbacks (apps/quality_data/services.py:571-582). Every property holds for an arbitrary clock, so the extra readings change nothing but the clock's tick count.
- The command's `--limit` option is not modelled: the command parses it and never reads it.

