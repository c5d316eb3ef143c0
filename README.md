# Exercism submission routes, modelled in Dafny

This project models two route files of the exercism.io application.

- **The command-line client's API** (`api/v1/routes/iterations.rb`):
  - submitting an iteration through its chain of early exits: empty body, unknown API key, defaulting the solution, the legacy-client path shim, unknown problem, duplicate, then save, the calls to collaborators and job dispatch;
  - the response's domain: the request URL without the request path;
  - marking an exercise skipped;
  - restoring the latest submission of each exercise.
- **The web application's submission routes** (`lib/app/routes/submissions.rb`):
  - like, and the table-generated unlike, mute and unmute;
  - the legacy GET suffix redirect;
  - the owner-only transitions done, reopen, hibernate, wakeup and delete, including the rule that restores the prior submission on delete.

Modules:

| module | file | contents |
|---|---|---|
| `Wrappers` | `wrappers.dfy` | `Option` |
| `Store` | `store.dfy` | the records (`User`, `UserExercise`, `Submission`); the `Database` class; the log of calls into collaborators; first-row and last-row lookups |
| `LegacyPath` | `legacy_path.dfy` | the legacy path shim as pure string functions, with Ruby's semantics spelled out |
| `ExerciseOrder` | `exercise_order.dfy` | the `(language, slug)` order and a sort that realises it |
| `Iterations` | `iterations.dfy` | the API handlers |
| `Submissions` | `submissions.dfy` | the web handlers |

Modelling choices:

- **Tables.** Each table is a sequence held in a field of `Database`, in primary-key order. This gives `.first`, `.last` and `find_by_key` a meaning: the first or last matching row.
- **Handler outcomes.** A handler returns the response it would `halt`, `redirect` or render with. A failed guard returns at once, and nothing after it happens.
- **State changes.** Handlers that change records are methods that update `db.submissions` or `db.exercises` in place. Their `modifies` clauses name only the fields of `Database` they may assign.
- **Submit.** The submit handler changes no table itself. It returns its response together with the ordered list of calls to collaborators: save, ACL, Notify, subscription and jobs. `Attempt#track`, `#slug`, `#valid?`, `#duplicate?` and `#save` are function-valued parameters.
- **Crashes.** A method called on `nil` (for example `nil.gsub` or `nil.send`) escapes as an exception. It is modelled as a `ServerError` outcome with no effect.
- **Line-anchored slash removal.** `gsub(/^\//, "")` removes a `/` at the start of *every line*. `StripLineStartSlashes` models exactly that. `LegacyPath.StripOneLeadingSlash` proves that on a path without line breaks only one leading slash goes.
- **Ruby's `split`.** `String#split` drops trailing empty fields and turns `""` into `[]`, so `"ruby/two-fer/"` has two segments.
- **nil in interpolation.** `nil` interpolates as the empty string (`Iterations.Text`).

## Model

| member | source | states |
|---|---|---|
| `Store.FirstIndex` | lib/app/routes/submissions.rb:79 | `where(...).first`: the first row satisfying the condition; no earlier row does; None exactly when no row does |
| `Store.LastIndex` | lib/app/routes/submissions.rb:95 | `.last`: the last row satisfying the condition; no later row does; None exactly when no row does |
| `Store.FindByKey` | lib/app/routes/submissions.rb:28 | `find_by_key`: the index of the first row with the key; no earlier row has it; None exactly when no row has it |
| `Store.Lookup` | lib/app/routes/submissions.rb:28 | the record is present exactly when some row has the key, and it is a row of the table with that key |
| `LegacyPath.StripLineStartSlashes` | api/v1/routes/iterations.rb:67 | the line-anchored removal never lengthens the text |
| `LegacyPath.StripLeadingSlash` | api/v1/routes/iterations.rb:67 | a leading `/` is removed, and a path starting with anything else keeps its first character |
| `LegacyPath.Fields` | api/v1/routes/iterations.rb:68 | splitting on `/` or `\` yields at least one field before trailing empty fields are dropped |
| `LegacyPath.DropTrailingEmpty` | api/v1/routes/iterations.rb:68 | what remains is a prefix of the fields that does not end in an empty field, and every field dropped is empty |
| `LegacyPath.Split` | api/v1/routes/iterations.rb:68 | Ruby's `split`: a prefix of the fields with no trailing empty segment; every field past it is empty |
| `LegacyPath.Join` | api/v1/routes/iterations.rb:75 | the joined path starts with the first segment and is at least as long as the number of `/` separators between the segments |
| `LegacyPath.Parse` | api/v1/routes/iterations.rb:67-75 | the shim rejects a path exactly when splitting it after the slash removal yields fewer than three segments |
| `LegacyPath.StripInsideLine` | api/v1/routes/iterations.rb:67 | on text without line breaks the line-anchored removal deletes nothing after the first character |
| `LegacyPath.StripOneLeadingSlash` | api/v1/routes/iterations.rb:67 | on a path without line breaks exactly one leading `/` is removed, and nothing else |
| `LegacyPath.FieldsOfWord` | api/v1/routes/iterations.rb:68 | a piece with no separator is one field |
| `LegacyPath.FieldsCons` | api/v1/routes/iterations.rb:68 | a separator ends the current field |
| `LegacyPath.JoinFields` | api/v1/routes/iterations.rb:68-75 | joining the fields with `/` gives the original path with every `\` turned into `/` |
| `LegacyPath.LastFieldNonEmpty` | api/v1/routes/iterations.rb:68 | when the path does not end in a separator, `split` drops nothing |
| `LegacyPath.SplitThree` | api/v1/routes/iterations.rb:68 | `language<sep>problem<sep>rest`, with a non-empty rest that does not end in a separator, splits into language, problem and the fields of the rest |
| `LegacyPath.ParseLegacy` | api/v1/routes/iterations.rb:65-76 | a legacy path without line breaks, with an optional leading `/`, a non-empty language, a problem and a non-empty rest that does not end in a separator yields that language, that problem and the rest with `\` turned into `/` |
| `LegacyPath.ParseBackslashExample` | api/v1/routes/iterations.rb:65-76 | `ruby\two-fer\lib\x.rb` yields `ruby`, `two-fer`, `lib/x.rb` |
| `LegacyPath.ParseTwoSegments` | api/v1/routes/iterations.rb:69-72 | a path of two segments is rejected |
| `LegacyPath.ParseTrailingSeparator` | api/v1/routes/iterations.rb:68-72 | `ruby/two-fer/` has only two segments because `split` drops the trailing empty field, so it is rejected |
| `ExerciseOrder.StrLeTotal` | api/v1/routes/iterations.rb:132 | the string order compares any two strings |
| `ExerciseOrder.StrLeAntisymmetric` | api/v1/routes/iterations.rb:132 | strings ordered both ways are equal |
| `ExerciseOrder.StrLeTransitive` | api/v1/routes/iterations.rb:132 | the string order is transitive |
| `ExerciseOrder.KeyLeTotal` | api/v1/routes/iterations.rb:132 | `order(:language, :slug)` compares any two exercises |
| `ExerciseOrder.KeyLeTransitive` | api/v1/routes/iterations.rb:132 | the `(language, slug)` order is transitive |
| `ExerciseOrder.Insert` | api/v1/routes/iterations.rb:132 | inserting keeps every row and adds exactly the new one (multisets) |
| `ExerciseOrder.Sort` | api/v1/routes/iterations.rb:132 | sorting is a permutation of the rows |
| `ExerciseOrder.InsertSorted` | api/v1/routes/iterations.rb:132 | inserting into a sorted list leaves it sorted |
| `ExerciseOrder.SortSorted` | api/v1/routes/iterations.rb:132 | the sorted rows are in `(language, slug)` order |
| `Iterations.UnknownKeyMessage` | api/v1/routes/iterations.rb:54-55 | the 401 message is the fixed prefix, the key as interpolated, then the fixed suffix |
| `Iterations.UnknownProblemMessage` | api/v1/routes/iterations.rb:87-91 | the 400 message starts with "unknown problem (track: " and the track; its length is fixed by the three echoed values |
| `Iterations.UnknownProblemEchoes` | api/v1/routes/iterations.rb:87-91 | the message holds the track, then the slug, then the path, each at its place (one lemma per field: `EchoesTrack`, `EchoesSlug`, `EchoesPath`) |
| `Iterations.UnknownExerciseMessage` | api/v1/routes/iterations.rb:19-20 | the 404 message names the slug, then the language |
| `Iterations.UnknownKeyMessageEchoesKey` | api/v1/routes/iterations.rb:54-56 | the 401 message contains the key: equal messages come from equal keys |
| `Iterations.FindUser` | api/v1/routes/iterations.rb:51 | the user found has the payload's key; none is found exactly when no user has it |
| `Iterations.DefaultedSolution` | api/v1/routes/iterations.rb:59-62 | a given solution is used unchanged; otherwise it is the single entry `{path => code}` |
| `Iterations.LegacySource` | api/v1/routes/iterations.rb:66 | `path` when given; otherwise the first solution entry's path, None (a crash) when there is none |
| `Iterations.ResolveFields` | api/v1/routes/iterations.rb:59-76 | the solution is the given one, else `{path => code}`. With a language present the payload is unchanged. Without one, a nil path crashes, fewer than three segments asks for an upgrade, and otherwise language, problem and path come from `LegacyPath.Parse` of `path`, else of the first solution entry's path |
| `Iterations.ResolveLegacyExample` | api/v1/routes/iterations.rb:59-76 | a backslash-separated single-file legacy payload resolves to `ruby`, `two-fer`, `lib/x.rb`, with the one-entry solution |
| `Iterations.JobsFor` | api/v1/routes/iterations.rb:107-112 | an analyze job exactly for ruby/hamming or any go exercise; a hello job with the version exactly for hello-world; independent, each at most once, nothing else, and analyze before hello when both fire |
| `Iterations.StripSuffix` | api/v1/routes/iterations.rb:117 | the domain followed by the request path is the URL when the URL ends with the path; otherwise the URL is unchanged |
| `Iterations.SuccessEffects` | api/v1/routes/iterations.rb:99-112 | save, authorize, notify everyone, subscribe, in that order, followed by exactly the jobs of `JobsFor` |
| `Iterations.Submit` | api/v1/routes/iterations.rb:42-120 | The checks apply in order: an empty body gives 400; an unknown key gives 401 with the key before any parsing; then the shim; an invalid attempt gives 400 echoing track, slug and path; a duplicate gives 400. Every failure makes no call. Success gives 201 with the submission and domain, then save, authorize, notify, subscribe and the jobs, in that order (`SuccessEffects`). A response is Created exactly when a call is made, and the first call is the save |
| `Iterations.FindExercise` | api/v1/routes/iterations.rb:30 | the first of the user's rows for the language and slug; None exactly when there is none |
| `Iterations.Skipped` | api/v1/routes/iterations.rb:24-36 | An existing row of the user's exercise is reused and the table keeps its length; only when there is none is one appended, with iteration count 0. Afterwards it is found with `skipped_at` set and its old iteration count (0 when new). A reused row is the old row with only `skipped_at` changed. No other row changes |
| `Iterations.Skip` | api/v1/routes/iterations.rb:10-38 | a guest gets 401, then an unknown exercise gets 404, both with no change; otherwise 204 and the exercises become `Skipped` of the old ones |
| `Iterations.LastSubmissionAt` | api/v1/routes/iterations.rb:134 | the index of `e.submissions.last`: a row of the exercise with no later row of it; None exactly when there is none |
| `Iterations.LastSubmission` | api/v1/routes/iterations.rb:134 | `e.submissions.last` is the row at `LastSubmissionAt`: a submission of that exercise with no later one; None exactly when it has none |
| `Iterations.UserExercises` | api/v1/routes/iterations.rb:132 | exactly the rows of the user, each as often as in the table |
| `Iterations.CompactFrom` | api/v1/routes/iterations.rb:134 | every listed submission is the last submission of one of the exercises |
| `Iterations.Compact` | api/v1/routes/iterations.rb:134 | the compacted list has no more entries than there are exercises |
| `Iterations.CompactIndexed` | api/v1/routes/iterations.rb:134 | exactly one entry per exercise that has a submission: strictly increasing exercise indexes, each entry that exercise's last submission, every such exercise named |
| `Iterations.CompactCovers` | api/v1/routes/iterations.rb:134 | the last submission of every exercise that has one is listed |
| `Iterations.CompactOrdered` | api/v1/routes/iterations.rb:132-134 | for exercises in order, the listed submissions are in `(language, slug)` order |
| `Iterations.LatestSubmissions` | api/v1/routes/iterations.rb:132-134 | no more entries than exercises |
| `Iterations.LatestOnePerExercise` | api/v1/routes/iterations.rb:132-134 | the listing has exactly one entry per exercise of the user that has a submission, in the sorted exercises' order |
| `Iterations.LatestIsLastPerExercise` | api/v1/routes/iterations.rb:132-134 | the listing holds the user's submissions only. Each is the last of one of the user's exercises, every exercise with a submission is covered, and the list is in `(language, slug)` order |
| `Iterations.Latest` | api/v1/routes/iterations.rb:124-137 | a guest gets 401; otherwise the listing of `LatestSubmissions` |
| `Submissions.Owns` | lib/app/routes/submissions.rb:61 | an owner is never a guest and never owns nil: the submission is present and written by the caller |
| `Submissions.Like` | lib/app/routes/submissions.rb:26-37 | a guest is asked to log in; an unknown key gives the notice "No such exercise found", a redirect to `/` and no like or notification; otherwise a like and a notification, then a redirect to the submission |
| `Submissions.Confirmation` | lib/app/routes/submissions.rb:40-44 | exactly unlike, mute and unmute have a route, each with its fixed confirmation |
| `Submissions.Toggle` | lib/app/routes/submissions.rb:45-51 | no route for other actions; a guest is asked to log in; an unknown key crashes; otherwise the action is applied, its confirmation is the notice and the redirect goes to `/submissions/<key>` |
| `Submissions.LegacyRedirect` | lib/app/routes/submissions.rb:54-56 | the route matches exactly a word key with one of `nitpick`, `like`, `unlike`, `+unlike`, `mute`, `unmute`, `+unmute`, and then only redirects to the submission |
| `Submissions.MarkDone` | lib/app/routes/submissions.rb:58-69 | a guest is asked to log in; a non-owner gets the notice and a redirect to the submission with nothing done; the owner's submission is completed and tracked, with the success message naming it |
| `Submissions.Wakeup` | lib/app/routes/submissions.rb:107-116 | no login check; a non-owner gets the notice with nothing done; otherwise the user exercise is reopened, with the success message |
| `Submissions.FirstDone` | lib/app/routes/submissions.rb:79 | the first done submission of that user, language and slug; None exactly when there is none |
| `Submissions.ReopenTarget` | lib/app/routes/submissions.rb:79 | for an unknown key nothing; otherwise the first done submission of the caller with the keyed one's language and slug, None exactly when there is no such row |
| `Submissions.Reopen` | lib/app/routes/submissions.rb:71-91 | A guest is asked to log in. A non-owner gets the notice and nothing changes. The first done submission of the caller for the keyed one's language and slug, which may be another row, becomes pending with no completion time, and the redirect goes to its key. "No such submission" when there is none, and nothing changes. Keys stay distinct |
| `Submissions.HibernateTarget` | lib/app/routes/submissions.rb:95 | for a known key, the last submission of the same user and exercise; None for an unknown key |
| `Submissions.Hibernate` | lib/app/routes/submissions.rb:93-105 | A guest is asked to log in, and an unknown key crashes. Ownership is checked on the target: a non-owner gets the notice and nothing changes. Otherwise only the target's state becomes hibernating, with the success message. Keys stay distinct |
| `Submissions.PriorIndex` | lib/app/routes/submissions.rb:131 | the row the prior key names; None exactly when there is no prior key or no such row |
| `Submissions.RestorePrior` | lib/app/routes/submissions.rb:132-135 | the prior row becomes pending when the deleted one was pending; every other row is unchanged |
| `Submissions.Remove` | lib/app/routes/submissions.rb:136 | the table loses row `i`; every other row keeps its order |
| `Submissions.AfterDelete` | lib/app/routes/submissions.rb:131-136 | the table is one row shorter |
| `Submissions.AfterDeleteRows` | lib/app/routes/submissions.rb:131-136 | after a delete every other row survives in order. Only the prior changes, and only to pending, exactly when the deleted submission was pending |
| `Submissions.AfterDeleteKeys` | lib/app/routes/submissions.rb:136 | with distinct keys, the keys stay distinct and the deleted key is gone |
| `Submissions.Destroy` | lib/app/routes/submissions.rb:130-137 | the table becomes `AfterDelete` of the old one; the version is decremented, then the user exercise is updated |
| `Submissions.Delete` | lib/app/routes/submissions.rb:118-139 | a guest is asked to log in; an unknown key redirects to `/` with no change; a non-owner gets the notice and no change; otherwise the delete of `Destroy` and a redirect to `/` |

## Left out

- The `get '/submissions/:key'` show handler. Its `Workload`, `NullWorkload`, `Look`, `Notification.viewed!` and rendering are not part of this model.
- Sinatra routing, `erb`/`pg` rendering, flash storage and sessions. They become the outcome values.
- `require_key` and `please_login`. Their code is not part of this model. `please_login` is modelled as stopping a guest with `LoginRequired`, carrying the given message. On the API side the current user is a parameter.
- `JSON.parse`. The parsed fields are given beside the raw body. A malformed body raises and is not modelled. Of duplicated JSON keys only one value is modelled.
- `Xapi.exists?`, `Attempt#track`, `#slug`, `#valid?`, `#duplicate?` and `#save`. These are uninterpreted function parameters, so nothing is assumed about how `Iteration.new` derives the track and the slug. Their code, and `Iteration`'s and `Attempt`'s internals, are not part of this model.
- `ACL.authorize(user, attempt.submission.problem)`: the problem of the saved submission is not part of this model; the call is recorded with the user and the saved submission's key.
- `Completion`, `Hack::UpdatesUserExercise`, `decrement_version`, `UserExercise#reopen!`, `like!`/`unlike!`/`mute!`/`unmute!`, `Notify`, `LifecycleEvent`, `ACL`, `ConversationSubscription` and the job queues. These are recorded as calls in order. What they do to the records is not modelled, so done does not set `done_at` here, and wakeup changes no row.
- `Iterations.StripSuffix`: the `gsub` at line 117 interpolates `request.path` into a regular expression. Metacharacters in the path are not modelled; the path is removed as a literal suffix.
- `participant_submissions`. Its code is not part of this model. It is taken as the submissions of the same user, language and slug, in table order.
- `UserExercise#submissions` (line 134 of api/v1/routes/iterations.rb). This association is not part of this model. It is taken as the submissions with the exercise's user, language and slug, in table order.
- `owns?`. Its code is not part of this model. It is taken as false for nil and for a guest, and otherwise as the submission's user being the caller.
- `track_id`. A submission's `track_id` is taken to be its `language` column.
- Database collation. `order(:language, :slug)` is modelled as character-code order, and sorting keeps equal keys in an order the model does not fix.
- Times. `Time.now` inside `touch(:skipped_at)` is a parameter.
- Concurrency and transactional atomicity. The model is sequential.
- `test/exercism/language_test.rb`. It tests `Language.of`, which is not part of this model.
